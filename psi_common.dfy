/**
 * The parts of the Diffie-Hellman PSI engine that ClientA/psi_dh.py and
 * Client/psi_dh.py write identically: blinding, second blinding of a list,
 * the intersection of two lists, and extraction of matched rows through the
 * inverted h -> k map. Also the order facts every round relies on: a dict
 * filled in a loop keeps first-insertion order and the last value written.
 */
module PsiCommon {
  import opened Wrappers
  import opened ModArith
  import opened Strings
  import opened Dicts
  import opened Frames
  import opened Sha

  /** Errors the rounds raise. */
  datatype PsiError =
    | LengthMismatch(partnerCount: nat, ownCount: nat)  // ValueError in round 3
    | MissingRecord(h: int)                             // KeyError on h_to_record_map[h]
    | MissingColumn(column: Column)                     // KeyError on record[col]

  // ---------------------------------------------------------------- hexdigest as an int

  lemma HexDigitsAreBits(n: nat)
    ensures Pow(16, n) == Pow(2, 4 * n)
  {
    PowMul(2, 4, n);
    assert Pow(2, 4) == 16;
  }

  /** int(hexdigest, 16): the digest as a 256-bit number. */
  function DigestToInt(d: Digest): nat {
    ParseHex(Hex(d))
  }

  lemma DigestToIntBound(d: Digest)
    ensures DigestToInt(d) < Pow(2, 256)
  {
    HexDigitsAreBits(64);
  }

  /** int(hexdigest[-16:], 16): the last 16 hex digits, a 64-bit number. */
  function DigestLow64(d: Digest): nat {
    var hex := Hex(d);
    ParseHex(hex[|hex| - 16..])
  }

  lemma DigestLow64Bound(d: Digest)
    ensures DigestLow64(d) < Pow(2, 64)
  {
    HexDigitsAreBits(16);
  }

  // ---------------------------------------------------------------- blinding

  /** compute_blinded_hash(h, key, prime) = pow(h, key, prime) */
  function BlindedHash(h: int, privateKey: nat, prime: int): (c: int)
    requires prime > 0
    ensures 0 <= c < prime
    ensures c == Pow(h, privateKey) % prime
  {
    ModPow(h, privateKey, prime)
  }

  /** compute_second_blinded_values: [pow(c, key, prime) for c in values] */
  function SecondBlind(values: seq<int>, privateKey: nat, prime: int): (ks: seq<int>)
    requires prime > 0
    ensures |ks| == |values|
    ensures forall i :: 0 <= i < |values| ==> ks[i] == BlindedHash(values[i], privateKey, prime)
  {
    seq(|values|, i requires 0 <= i < |values| => BlindedHash(values[i], privateKey, prime))
  }

  /**
   * Blinding a party's published list with the other party's key gives, element
   * by element and in the same order, each hash blinded with the product of the keys.
   */
  lemma SecondBlindOfPublished(hashes: seq<int>, a: nat, b: nat, prime: int)
    requires prime > 0
    ensures forall i :: 0 <= i < |hashes| ==>
      SecondBlind(SecondBlind(hashes, a, prime), b, prime)[i] == ModPow(hashes[i], a * b, prime)
  {
    forall i | 0 <= i < |hashes|
      ensures SecondBlind(SecondBlind(hashes, a, prime), b, prime)[i] == ModPow(hashes[i], a * b, prime)
    {
      DoubleBlind(hashes[i], a, b, prime);
    }
  }

  /** find_intersection: set(a) & set(b) */
  function FindIntersection(a: seq<int>, b: seq<int>): (r: set<int>)
    ensures forall x :: x in r <==> x in a && x in b
    ensures r <= (set x | x in a) && r <= (set x | x in b)
  {
    (set x | x in a) * (set x | x in b)
  }

  // ---------------------------------------------------------------- dict order facts

  /** The distinct elements of s in order of first occurrence: the keys of a dict filled from s. */
  function Dedup(s: seq<int>): (r: seq<int>)
    ensures Distinct(r)
    ensures forall x :: x in r <==> x in s
    ensures |r| <= |s|
  {
    if s == [] then []
    else
      var d := Dedup(s[..|s| - 1]);
      var x := s[|s| - 1];
      assert forall y :: y in s <==> y in s[..|s| - 1] || y == x;
      if x in d then d else d + [x]
  }

  /** Where x last occurs in s: the write that a dict filled from s keeps. */
  function LastIndex(s: seq<int>, x: int): (i: nat)
    requires x in s
    ensures i < |s| && s[i] == x
    ensures forall j :: i < j < |s| ==> s[j] != x
  {
    if s[|s| - 1] == x then |s| - 1
    else
      assert x in s[..|s| - 1];
      LastIndex(s[..|s| - 1], x)
  }

  lemma LastIndexAppend(s: seq<int>, x: int, y: int)
    requires y in s + [x]
    ensures LastIndex(s + [x], y) == if y == x then |s| else LastIndex(s, y)
  {
    assert (s + [x])[..|s|] == s;
  }

  /**
   * The two dicts after processing `rows` with hashes `hashes`: one entry per
   * distinct hash, in order of first occurrence; the blinded value of the hash;
   * the last row that produced the hash.
   */
  ghost predicate Processed(hToC: Dict<int, int>, hToRecord: Dict<int, Row>, hashes: seq<int>, rows: seq<Row>, privateKey: nat, prime: int)
    requires prime > 0 && |hashes| == |rows|
  {
    hToC.order == Dedup(hashes) && hToRecord.order == hToC.order
    && (forall h :: h in hToC.entries ==> hToC.entries[h] == BlindedHash(h, privateKey, prime))
    && (forall h :: h in hToRecord.entries ==> h in hashes && hToRecord.entries[h] == rows[LastIndex(hashes, h)])
  }

  /** One more row: h_to_c_map[h] = c and h_to_record_map[h] = record keep the description true. */
  lemma ProcessedStep(hToC: Dict<int, int>, hToRecord: Dict<int, Row>, hashes: seq<int>, rows: seq<Row>,
                      privateKey: nat, prime: int, h: int, record: Row)
    requires prime > 0 && |hashes| == |rows|
    requires Processed(hToC, hToRecord, hashes, rows, privateKey, prime)
    ensures Processed(Put(hToC, h, BlindedHash(h, privateKey, prime)), Put(hToRecord, h, record),
                      hashes + [h], rows + [record], privateKey, prime)
  {
    var c := BlindedHash(h, privateKey, prime);
    var hToC', hToRecord' := Put(hToC, h, c), Put(hToRecord, h, record);
    OrderAppend(hToC, hashes, h, c);
    PutKeepsSameOrder(hToC, hToRecord, h, c, record);
    BlindedStep(hToC, h, privateKey, prime);
    LastRecordsAppend(hToRecord.entries, hashes, rows, h, record);
    ProcessedIntro(hToC', hToRecord', hashes + [h], rows + [record], privateKey, prime);
  }

  lemma BlindedStep(hToC: Dict<int, int>, h: int, privateKey: nat, prime: int)
    requires prime > 0
    requires forall h' :: h' in hToC.entries ==> hToC.entries[h'] == BlindedHash(h', privateKey, prime)
    ensures var d := Put(hToC, h, BlindedHash(h, privateKey, prime));
      forall h' :: h' in d.entries ==> d.entries[h'] == BlindedHash(h', privateKey, prime)
  {
  }

  lemma ProcessedIntro(hToC: Dict<int, int>, hToRecord: Dict<int, Row>, hashes: seq<int>, rows: seq<Row>, privateKey: nat, prime: int)
    requires prime > 0 && |hashes| == |rows|
    requires hToC.order == Dedup(hashes) && hToRecord.order == hToC.order
    requires forall h :: h in hToC.entries ==> hToC.entries[h] == BlindedHash(h, privateKey, prime)
    requires forall h :: h in hToRecord.entries ==> h in hashes && hToRecord.entries[h] == rows[LastIndex(hashes, h)]
    ensures Processed(hToC, hToRecord, hashes, rows, privateKey, prime)
  {
  }

  /** A dict whose keys were filled from s, written once more with key x. */
  lemma OrderAppend<V>(d: Dict<int, V>, s: seq<int>, x: int, v: V)
    requires d.order == Dedup(s)
    ensures Put(d, x, v).order == Dedup(s + [x])
  {
    DedupAppend(s, x);
  }

  lemma DedupAppend(s: seq<int>, x: int)
    ensures Dedup(s + [x]) == if x in Dedup(s) then Dedup(s) else Dedup(s) + [x]
  {
    assert (s + [x])[..|s|] == s;
  }

  /** Writing the next row's record keeps every entry the last record written for its hash. */
  lemma LastRecordsAppend(entries: map<int, Row>, hashes: seq<int>, rows: seq<Row>, h: int, record: Row)
    requires |hashes| == |rows|
    requires forall h' :: h' in entries ==> h' in hashes && entries[h'] == rows[LastIndex(hashes, h')]
    ensures forall h' :: h' in entries[h := record] ==>
      h' in hashes + [h] && entries[h := record][h'] == (rows + [record])[LastIndex(hashes + [h], h')]
  {
    forall h' | h' in entries[h := record]
      ensures h' in hashes + [h] && entries[h := record][h'] == (rows + [record])[LastIndex(hashes + [h], h')]
    {
      LastIndexAppend(hashes, h, h');
      if h' != h {
        assert (rows + [record])[LastIndex(hashes, h')] == rows[LastIndex(hashes, h')];
      }
    }
  }

  /** Both dicts are keyed by exactly the row hashes, and hold at most one entry per row. */
  lemma ProcessedKeys(hToC: Dict<int, int>, hToRecord: Dict<int, Row>, hashes: seq<int>, rows: seq<Row>, privateKey: nat, prime: int)
    requires prime > 0 && |hashes| == |rows|
    requires Processed(hToC, hToRecord, hashes, rows, privateKey, prime)
    ensures forall h :: h in hToC.entries <==> h in hashes
    ensures hToRecord.entries.Keys == hToC.entries.Keys
    ensures |hToC.order| <= |rows|
  {
  }

  // ---------------------------------------------------------------- inversion

  /**
   * {k: h for h, k in d.items()} over the keys `order`, taken in order: a later
   * h with the same k overwrites an earlier one.
   */
  function InvertOver(order: seq<int>, entries: map<int, int>): (inv: map<int, int>)
    requires forall i :: 0 <= i < |order| ==> order[i] in entries
    ensures forall k :: k in inv ==> inv[k] in entries && entries[inv[k]] == k
  {
    if order == [] then map[]
    else
      var n := |order| - 1;
      InvertOver(order[..n], entries)[entries[order[n]] := order[n]]
  }

  /** Every k in the inverted map is the value of some listed h, and every listed h's value is a key. */
  lemma {:induction false} InvertOverKeys(order: seq<int>, entries: map<int, int>)
    requires forall i :: 0 <= i < |order| ==> order[i] in entries
    ensures forall k :: k in InvertOver(order, entries) <==> exists i :: 0 <= i < |order| && entries[order[i]] == k
  {
    if order != [] {
      var n := |order| - 1;
      InvertOverKeys(order[..n], entries);
      assert forall i :: 0 <= i < n ==> order[..n][i] == order[i];
    }
  }

  /** The h kept for k is the last listed h whose value is k. */
  lemma {:induction false} InvertOverLastWins(order: seq<int>, entries: map<int, int>, k: int)
    requires forall i :: 0 <= i < |order| ==> order[i] in entries
    requires k in InvertOver(order, entries)
    ensures exists i ::
      0 <= i < |order| && order[i] == InvertOver(order, entries)[k] && (forall j :: i < j < |order| ==> entries[order[j]] != k)
  {
    var n := |order| - 1;
    var inv := InvertOver(order, entries);
    if entries[order[n]] == k {
      assert order[n] == inv[k];
    } else {
      var prev := InvertOver(order[..n], entries);
      assert inv == prev[entries[order[n]] := order[n]];
      assert k in prev && inv[k] == prev[k];
      InvertOverLastWins(order[..n], entries, k);
      var i :| 0 <= i < n && order[..n][i] == prev[k]
        && (forall j :: i < j < n ==> entries[order[..n][j]] != k);
      forall j | i < j < |order|
        ensures entries[order[j]] != k
      {
        if j < n {
          assert order[..n][j] == order[j];
        }
      }
      assert order[i] == inv[k];
    }
  }

  function Invert(d: Dict<int, int>): (inv: map<int, int>)
  {
    InvertOver(d.order, d.entries)
  }

  /** The k -> h map, inverted back, agrees with h -> k; so each k leads to exactly one hash. */
  lemma InvertIsInverse(d: Dict<int, int>)
    ensures forall k :: k in Invert(d) <==> k in d.entries.Values
    ensures forall k :: k in Invert(d) ==> Invert(d)[k] in d.entries && d.entries[Invert(d)[k]] == k
  {
    var inv := Invert(d);
    InvertOverKeys(d.order, d.entries);
    forall h | h in d.entries ensures d.entries[h] in inv {
      var i :| 0 <= i < |d.order| && d.order[i] == h;
      assert d.entries[d.order[i]] == d.entries[h];
    }
  }

  // ---------------------------------------------------------------- extraction

  /** The rows the extraction loop appends, for the intersection keys in the order visited. */
  function ExtractedRows(keys: seq<int>, kToH: map<int, int>, hToRecord: map<int, Row>, dataColumns: seq<Column>): seq<Row>
  {
    if keys == [] then []
    else
      var n := |keys| - 1;
      var k := keys[n];
      ExtractedRows(keys[..n], kToH, hToRecord, dataColumns)
      + (if k in kToH && kToH[k] in hToRecord then [Extract(kToH[k], hToRecord[kToH[k]], dataColumns)] else [])
  }

  /**
   * What the extraction appends: at most one row per key; every row is the
   * extract of the hash that some key leads to; every key that leads to a
   * known hash contributes its row.
   */
  lemma {:induction false} ExtractedRowsSpec(keys: seq<int>, kToH: map<int, int>, hToRecord: map<int, Row>, dataColumns: seq<Column>)
    ensures |ExtractedRows(keys, kToH, hToRecord, dataColumns)| <= |keys|
    ensures forall row :: row in ExtractedRows(keys, kToH, hToRecord, dataColumns) <==>
      exists k :: k in keys && k in kToH && kToH[k] in hToRecord && row == Extract(kToH[k], hToRecord[kToH[k]], dataColumns)
  {
    if keys != [] {
      var n := |keys| - 1;
      ExtractedRowsSpec(keys[..n], kToH, hToRecord, dataColumns);
      assert forall k :: k in keys <==> k in keys[..n] || k == keys[n];
    }
  }

  /**
   * extract_matching_records: invert h -> k, then for each intersection key (in
   * the set's iteration order, which Python leaves unspecified and the model
   * leaves open) emit the extract of the hash it leads to, if that hash has a
   * record. `visited` is the order the loop happened to take.
   */
  method ExtractMatchingRecords(intersectionKeys: set<int>, hToK: Dict<int, int>, hToRecord: Dict<int, Row>, dataColumns: seq<Column>)
    returns (f: Frame, ghost visited: seq<int>)
    ensures Distinct(visited) && (forall k :: k in visited <==> k in intersectionKeys)
    ensures f == FromRecords(ExtractedRows(visited, Invert(hToK), hToRecord.entries, dataColumns), [HashId] + dataColumns)
    ensures |f.rows| <= |intersectionKeys|
  {
    var kToH := Invert(hToK);
    var records: seq<Row> := [];
    var remaining := intersectionKeys;
    visited := [];
    while remaining != {}
      invariant forall k :: k in intersectionKeys <==> k in remaining || k in visited
      invariant forall k :: k in remaining ==> k !in visited
      invariant Distinct(visited)
      invariant records == ExtractedRows(visited, kToH, hToRecord.entries, dataColumns)
      decreases remaining
    {
      var k := Pick(remaining);
      ghost var before := visited;
      visited := visited + [k];
      assert visited[..|visited| - 1] == before;
      if k in kToH {
        var h := kToH[k];
        if h in hToRecord.entries {
          var data := BuildRecordData(h, hToRecord.entries[h], dataColumns);
          records := records + [data];
        }
      }
      remaining := remaining - {k};
    }
    ExtractedRowsSpec(visited, kToH, hToRecord.entries, dataColumns);
    DistinctCard(visited, intersectionKeys);
    f := FromRecords(records, [HashId] + dataColumns);
  }

  /** The next element a for-loop over a set yields; Python fixes no order. */
  method Pick<T>(s: set<T>) returns (x: T)
    requires s != {}
    ensures x in s
  {
    x :| x in s;
  }

  /** A sequence without repetitions is as long as the set of its elements. */
  lemma {:induction false} DistinctCard(s: seq<int>, t: set<int>)
    requires Distinct(s) && forall k :: k in s <==> k in t
    ensures |t| == |s|
  {
    if s != [] {
      var n := |s| - 1;
      assert forall k :: k in s <==> k in s[..n] || k == s[n];
      assert s[n] !in s[..n];
      DistinctCard(s[..n], t - {s[n]});
    } else {
      assert forall k :: k !in t;
      assert t == {};
    }
  }
}
