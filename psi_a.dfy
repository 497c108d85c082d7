/**
 * The PSI engine of ClientA/psi_dh.py: identifiers are normalized (strip,
 * lower), missing identifier columns are skipped, the SHA-256 digest is read
 * as a 256-bit integer, and round 3 maps matches back to rows by position
 * in the list of published values.
 */
module PsiA {
  import opened Wrappers
  import opened ModArith
  import opened Strings
  import opened Dicts
  import opened Frames
  import opened PsiCommon
  import opened Sha
  import opened Seqs

  const Separator: string := "||"

  // ---------------------------------------------------------------- record hash

  /** The id_values list: for each identifier column the record has, str(cell).strip().lower(). */
  function IdValues(record: Row, idColumns: seq<Column>): (vs: seq<string>)
    ensures |vs| <= |idColumns|
  {
    if idColumns == [] then []
    else
      var n := |idColumns| - 1;
      var c := idColumns[n];
      IdValues(record, idColumns[..n]) + (if c in record then [Normalize(Str(record[c]))] else [])
  }

  /** compute_record_hash as a value: int(sha256("||".join(id_values)).hexdigest(), 16). */
  function RecordHash(sha: Hasher, record: Row, idColumns: seq<Column>): nat {
    DigestToInt(sha(Join(IdValues(record, idColumns), Separator)))
  }

  /** Every record hash is a 256-bit number. */
  lemma RecordHashBound(sha: Hasher, record: Row, idColumns: seq<Column>)
    ensures RecordHash(sha, record, idColumns) < Pow(2, 256)
  {
    DigestToIntBound(sha(Join(IdValues(record, idColumns), Separator)));
  }

  /** compute_record_hash: the loop over the identifier columns, skipping the ones the record lacks. */
  method ComputeRecordHash(sha: Hasher, record: Row, idColumns: seq<Column>) returns (h: int)
    ensures h == RecordHash(sha, record, idColumns)
  {
    var idValues: seq<string> := [];
    for j := 0 to |idColumns|
      invariant idValues == IdValues(record, idColumns[..j])
    {
      var col := idColumns[j];
      assert idColumns[..j + 1][..j] == idColumns[..j];
      if col !in record {
        continue;
      }
      idValues := idValues + [Normalize(Str(record[col]))];
    }
    assert idColumns[..|idColumns|] == idColumns;
    h := DigestToInt(sha(Join(idValues, Separator)));
  }

  /** Two records agree on the identifiers when they have the same identifier columns with the same normal forms. */
  ghost predicate SameIdentity(r1: Row, r2: Row, idColumns: seq<Column>) {
    forall c :: c in idColumns ==>
      (c in r1 <==> c in r2) && (c in r1 ==> Normalize(Str(r1[c])) == Normalize(Str(r2[c])))
  }

  lemma {:induction false} IdValuesRespectIdentity(r1: Row, r2: Row, idColumns: seq<Column>)
    requires SameIdentity(r1, r2, idColumns)
    ensures IdValues(r1, idColumns) == IdValues(r2, idColumns)
  {
    if idColumns != [] {
      var n := |idColumns| - 1;
      assert SameIdentity(r1, r2, idColumns[..n]);
      IdValuesRespectIdentity(r1, r2, idColumns[..n]);
    }
  }

  /**
   * Records whose identifier cells differ only in letter case and in surrounding
   * whitespace (see Strings.NormalizeIgnoresCaseAndPadding) hash alike.
   */
  lemma RecordHashRespectsIdentity(sha: Hasher, r1: Row, r2: Row, idColumns: seq<Column>)
    requires SameIdentity(r1, r2, idColumns)
    ensures RecordHash(sha, r1, idColumns) == RecordHash(sha, r2, idColumns)
  {
    IdValuesRespectIdentity(r1, r2, idColumns);
  }

  /** An identifier column the record lacks contributes nothing to the hash. */
  lemma {:induction false} MissingColumnSkipped(record: Row, xs: seq<Column>, c: Column, ys: seq<Column>)
    requires c !in record
    ensures IdValues(record, xs + [c] + ys) == IdValues(record, xs + ys)
  {
    if ys == [] {
      assert (xs + [c] + ys)[..|xs|] == xs;
      assert xs + [c] + ys == xs + [c] && xs + ys == xs;
    } else {
      var n := |ys| - 1;
      MissingColumnSkipped(record, xs, c, ys[..n]);
      assert (xs + [c] + ys)[..|xs| + 1 + n] == xs + [c] + ys[..n];
      assert (xs + ys)[..|xs| + n] == xs + ys[..n];
    }
  }

  /**
   * The "||" separator is not escaped: a record whose one identifier cell is
   * x + "||" + y and a record with the two cells x and y hash alike, whatever
   * the hash function.
   */
  lemma SeparatorCollision(sha: Hasher, a: Column, b: Column, x: string, y: string)
    requires a != b && Plain(x) && Plain(y)
    ensures RecordHash(sha, map[a := Text(x + Separator + y)], [a, b])
         == RecordHash(sha, map[a := Text(x), b := Text(y)], [a, b])
  {
    IdStringCollision(a, b, x, y);
  }

  lemma IdStringCollision(a: Column, b: Column, x: string, y: string)
    requires a != b && Plain(x) && Plain(y)
    ensures Join(IdValues(map[a := Text(x + Separator + y)], [a, b]), Separator)
         == Join(IdValues(map[a := Text(x), b := Text(y)], [a, b]), Separator)
  {
    PlainAroundSeparator(x, y);
    IdValuesOneCell(a, b, x + Separator + y);
    IdValuesTwoCells(a, b, x, y);
    JoinTwo(x, y, Separator);
  }

  lemma IdValuesOneCell(a: Column, b: Column, s: string)
    requires a != b && Plain(s)
    ensures IdValues(map[a := Text(s)], [a, b]) == [s]
  {
    var one: Row := map[a := Text(s)];
    NormalizeKeepsPlain(s);
    assert a in one && b !in one && Str(one[a]) == s;
    IdValuesTwo(one, a, b);
    assert IdValues(one, [a, b]) == [s] + [];
  }

  lemma IdValuesTwoCells(a: Column, b: Column, x: string, y: string)
    requires a != b && Plain(x) && Plain(y)
    ensures IdValues(map[a := Text(x), b := Text(y)], [a, b]) == [x, y]
  {
    var two: Row := map[a := Text(x), b := Text(y)];
    NormalizeKeepsPlain(x);
    NormalizeKeepsPlain(y);
    assert a in two && b in two && Str(two[a]) == x && Str(two[b]) == y;
    IdValuesTwo(two, a, b);
    assert Normalize(Str(two[a])) == x && Normalize(Str(two[b])) == y;
    assert IdValues(two, [a, b]) == [x] + [y];
    PairIsConcat(x, y);
  }

  lemma PlainAroundSeparator(x: string, y: string)
    requires Plain(x) && Plain(y)
    ensures Plain(x + Separator + y)
  {
  }

  lemma JoinTwo(x: string, y: string, sep: string)
    ensures Join([x, y], sep) == x + sep + y
  {
    assert [x, y][..1] == [x];
  }

  lemma IdValuesTwo(r: Row, a: Column, b: Column)
    ensures IdValues(r, [a, b]) == (if a in r then [Normalize(Str(r[a]))] else []) + (if b in r then [Normalize(Str(r[b]))] else [])
  {
    var first := if a in r then [Normalize(Str(r[a]))] else [];
    var second := if b in r then [Normalize(Str(r[b]))] else [];
    assert IdValues(r, [a]) == first by {
      assert [a][..0] == [];
      assert IdValues(r, [a]) == IdValues(r, []) + first;
    }
    assert [a, b][..1] == [a];
    assert IdValues(r, [a, b]) == IdValues(r, [a]) + second;
  }

  // ---------------------------------------------------------------- round 1

  /** The hash of every row, in row order. */
  function RowHashes(sha: Hasher, rows: seq<Row>, idColumns: seq<Column>): (hs: seq<int>)
    ensures |hs| == |rows|
    ensures forall i :: 0 <= i < |rows| ==> hs[i] == RecordHash(sha, rows[i], idColumns)
  {
    seq(|rows|, i requires 0 <= i < |rows| => RecordHash(sha, rows[i], idColumns))
  }

  /** process_dataset: hash and blind each row in turn, filling the two dicts. */
  method ProcessDataset(sha: Hasher, df: Frame, idColumns: seq<Column>, privateKey: nat, prime: int)
    returns (hToC: Dict<int, int>, hToRecord: Dict<int, Row>)
    requires prime > 0
    ensures Processed(hToC, hToRecord, RowHashes(sha, df.rows, idColumns), df.rows, privateKey, prime)
  {
    ghost var hashes := RowHashes(sha, df.rows, idColumns);
    hToC := Empty();
    hToRecord := Empty();
    for i := 0 to |df.rows|
      invariant Processed(hToC, hToRecord, hashes[..i], df.rows[..i], privateKey, prime)
    {
      var record := df.rows[i];
      var h := ComputeRecordHash(sha, record, idColumns);
      var c := BlindedHash(h, privateKey, prime);
      PrefixStep(hashes, i);
      PrefixStep(df.rows, i);
      ProcessedStep(hToC, hToRecord, hashes[..i], df.rows[..i], privateKey, prime, h, record);
      hToC := Put(hToC, h, c);
      hToRecord := Put(hToRecord, h, record);
    }
    assert hashes[..|df.rows|] == hashes;
    assert df.rows[..|df.rows|] == df.rows;
  }

  /** run_psi_step1: process the dataset and publish list(h_to_c_map.values()). */
  method RunStep1(sha: Hasher, df: Frame, idColumns: seq<Column>, privateKey: nat, prime: int)
    returns (hToC: Dict<int, int>, hToRecord: Dict<int, Row>, cValues: seq<int>)
    requires prime > 0
    ensures Processed(hToC, hToRecord, RowHashes(sha, df.rows, idColumns), df.rows, privateKey, prime)
    ensures |cValues| == |hToC.order| <= |df.rows|
    ensures forall i :: 0 <= i < |cValues| ==> cValues[i] == BlindedHash(hToC.order[i], privateKey, prime)
  {
    hToC, hToRecord := ProcessDataset(sha, df, idColumns, privateKey, prime);
    cValues := Values(hToC);
  }

  // ---------------------------------------------------------------- round 2

  /**
   * run_psi_step2: blind the partner's values with our key (the list we
   * publish), a placeholder None for each of our hashes, and the partner_c ->
   * k dict that round 3 reads back.
   */
  method RunStep2(hToC: Dict<int, int>, partnerC: seq<int>, privateKey: nat, prime: int)
    returns (hToK: Dict<int, Option<int>>, kValues: seq<int>, partnerCToK: Dict<int, int>)
    requires prime > 0
    ensures kValues == SecondBlind(partnerC, privateKey, prime)
    ensures hToK.order == hToC.order && forall h :: h in hToK.entries ==> hToK.entries[h] == None
    ensures partnerCToK.order == Dedup(partnerC)
    ensures forall c :: c in partnerCToK.entries ==> partnerCToK.entries[c] == BlindedHash(c, privateKey, prime)
  {
    kValues := SecondBlind(partnerC, privateKey, prime);
    hToK := Empty();
    for j := 0 to |hToC.order|
      invariant hToK.order == hToC.order[..j]
      invariant forall h :: h in hToK.entries ==> hToK.entries[h] == None
    {
      var h := hToC.order[j];
      assert h !in hToC.order[..j];
      PrefixStep(hToC.order, j);
      hToK := Put(hToK, h, None);
    }
    assert hToC.order[..|hToC.order|] == hToC.order;
    partnerCToK := Empty();
    for i := 0 to |partnerC|
      invariant partnerCToK.order == Dedup(partnerC[..i])
      invariant forall c :: c in partnerCToK.entries ==> partnerCToK.entries[c] == BlindedHash(c, privateKey, prime)
    {
      var c := partnerC[i];
      var k := BlindedHash(c, privateKey, prime);
      assert partnerC[..i + 1][..i] == partnerC[..i];
      partnerCToK := Put(partnerCToK, c, k);
    }
    assert partnerC[..|partnerC|] == partnerC;
  }

  // ---------------------------------------------------------------- round 3

  /** Every position in ps indexes a list of length n. */
  predicate Within(ps: seq<nat>, n: nat) {
    forall j :: 0 <= j < |ps| ==> ps[j] < n
  }

  /** The positions i, in increasing order, whose value ks[i] is one of `keys`. */
  function MatchedPositions(ks: seq<int>, keys: set<int>): (ps: seq<nat>)
    ensures Within(ps, |ks|)
  {
    if ks == [] then []
    else
      var n := |ks| - 1;
      MatchedPositions(ks[..n], keys) + (if ks[n] in keys then [n] else [])
  }

  /** Exactly the positions whose value is a key are listed, each once, in increasing order. */
  lemma {:induction false} MatchedPositionsSpec(ks: seq<int>, keys: set<int>)
    ensures forall j :: 0 <= j < |MatchedPositions(ks, keys)| ==> ks[MatchedPositions(ks, keys)[j]] in keys
    ensures forall i :: 0 <= i < |ks| && ks[i] in keys ==> i in MatchedPositions(ks, keys)
    ensures forall j, j' :: 0 <= j < j' < |MatchedPositions(ks, keys)| ==> MatchedPositions(ks, keys)[j] < MatchedPositions(ks, keys)[j']
  {
    if ks != [] {
      var n := |ks| - 1;
      MatchedPositionsSpec(ks[..n], keys);
      assert forall i :: 0 <= i < n ==> ks[..n][i] == ks[i];
    }
  }

  /**
   * The records round 3 collects for the matched positions, in order: the
   * extract of the hash at each position, or the first position whose hash has
   * no record.
   */
  function PositionalRecords(hList: seq<int>, hToRecord: map<int, Row>, ps: seq<nat>, dataColumns: seq<Column>)
    : Result<seq<Row>, PsiError>
    requires Within(ps, |hList|)
  {
    if ps == [] then Success([])
    else
      var n := |ps| - 1;
      var h := hList[ps[n]];
      match PositionalRecords(hList, hToRecord, ps[..n], dataColumns)
      case Failure(e) => Failure(e)
      case Success(rows) =>
        if h in hToRecord then Success(rows + [Extract(h, hToRecord[h], dataColumns)])
        else Failure(MissingRecord(h))
  }

  /**
   * Success exactly when every listed hash has a record, and then one extract
   * per position in order; otherwise a missing record is named.
   */
  lemma {:induction false} PositionalRecordsSpec(hList: seq<int>, hToRecord: map<int, Row>, ps: seq<nat>, dataColumns: seq<Column>)
    requires Within(ps, |hList|)
    ensures PositionalRecords(hList, hToRecord, ps, dataColumns).Success?
      <==> forall j :: 0 <= j < |ps| ==> hList[ps[j]] in hToRecord
    ensures PositionalRecords(hList, hToRecord, ps, dataColumns).Success? ==>
      var rows := PositionalRecords(hList, hToRecord, ps, dataColumns).value;
      |rows| == |ps| && forall j :: 0 <= j < |ps| ==>
        hList[ps[j]] in hToRecord && rows[j] == Extract(hList[ps[j]], hToRecord[hList[ps[j]]], dataColumns)
    ensures PositionalRecords(hList, hToRecord, ps, dataColumns).Failure? ==>
      var e := PositionalRecords(hList, hToRecord, ps, dataColumns).error;
      e.MissingRecord? && e.h !in hToRecord && exists j :: 0 <= j < |ps| && hList[ps[j]] == e.h
  {
    if ps != [] {
      var n := |ps| - 1;
      PositionalRecordsSpec(hList, hToRecord, ps[..n], dataColumns);
      assert forall j :: 0 <= j < n ==> ps[..n][j] == ps[j];
    }
  }

  lemma {:induction false} PositionalRecordsFailureSticks(hList: seq<int>, hToRecord: map<int, Row>, ps: seq<nat>, more: seq<nat>, dataColumns: seq<Column>)
    requires Within(ps, |hList|) && Within(more, |hList|)
    requires PositionalRecords(hList, hToRecord, ps, dataColumns).Failure?
    ensures Within(ps + more, |hList|)
    ensures PositionalRecords(hList, hToRecord, ps + more, dataColumns) == PositionalRecords(hList, hToRecord, ps, dataColumns)
  {
    if more == [] {
      assert ps + more == ps;
    } else {
      var n := |more| - 1;
      assert (ps + more)[..|ps| + n] == ps + more[..n];
      PositionalRecordsFailureSticks(hList, hToRecord, ps, more[..n], dataColumns);
    }
  }

  /** The k values round 3 compares: ours (read back from partner_c_to_k, or none if it was not saved) with the partner's. */
  function Step3Keys(storedCToK: Option<Dict<int, int>>, partnerK: seq<int>): set<int> {
    var partnerCToK := if storedCToK.Some? then storedCToK.value else Empty();
    FindIntersection(Values(partnerCToK), partnerK)
  }

  /** What round 3 produces for the rows in our order, once the lengths agree. */
  function Step3Result(hToC: Dict<int, int>, hToRecord: Dict<int, Row>, storedCToK: Option<Dict<int, int>>, partnerK: seq<int>, dataColumns: seq<Column>)
    : Result<Frame, PsiError>
    requires |partnerK| == |hToC.order|
  {
    match PositionalRecords(hToC.order, hToRecord.entries, MatchedPositions(partnerK, Step3Keys(storedCToK, partnerK)), dataColumns)
    case Success(rows) => Success(FromRecords(rows, [HashId] + dataColumns))
    case Failure(e) => Failure(e)
  }

  /**
   * run_psi_step3: the partner's k values come in our c order, so position i
   * of partner_k is our i-th hash; a position is kept when its k is among our k
   * values. A length mismatch is a ValueError; a kept hash without a record is
   * a KeyError.
   */
  method RunStep3(hToC: Dict<int, int>, hToRecord: Dict<int, Row>, storedCToK: Option<Dict<int, int>>, partnerK: seq<int>, dataColumns: seq<Column>)
    returns (r: Result<Frame, PsiError>)
    ensures |partnerK| != |hToC.order| ==> r == Failure(LengthMismatch(|partnerK|, |hToC.order|))
    ensures |partnerK| == |hToC.order| ==> r == Step3Result(hToC, hToRecord, storedCToK, partnerK, dataColumns)
  {
    var partnerCToK := if storedCToK.Some? then storedCToK.value else Empty();
    var ourK := Values(partnerCToK);
    var intersection := FindIntersection(ourK, partnerK);
    var hList := hToC.order;
    if |partnerK| != |hList| {
      return Failure(LengthMismatch(|partnerK|, |hList|));
    }
    var records: seq<Row> := [];
    for i := 0 to |partnerK|
      invariant PositionalRecords(hList, hToRecord.entries, MatchedPositions(partnerK[..i], intersection), dataColumns) == Success(records)
    {
      var k := partnerK[i];
      MatchedStep(partnerK, i, intersection);
      if k in intersection {
        var h := hList[i];
        if h !in hToRecord.entries {
          MissingRecordAt(hList, hToRecord.entries, partnerK, i, intersection, dataColumns);
          return Failure(MissingRecord(h));
        }
        var data := BuildRecordData(h, hToRecord.entries[h], dataColumns);
        PositionalStep(hList, hToRecord.entries, MatchedPositions(partnerK[..i], intersection), i, records, dataColumns);
        assert MatchedPositions(partnerK[..i + 1], intersection) == MatchedPositions(partnerK[..i], intersection) + [i];
        records := records + [data];
      } else {
        assert MatchedPositions(partnerK[..i + 1], intersection) == MatchedPositions(partnerK[..i], intersection);
      }
    }
    assert partnerK[..|partnerK|] == partnerK;
    r := Success(FromRecords(records, [HashId] + dataColumns));
  }

  lemma PositionalStep(hList: seq<int>, hToRecord: map<int, Row>, ps: seq<nat>, i: nat, rows: seq<Row>, dataColumns: seq<Column>)
    requires Within(ps, |hList|) && i < |hList| && hList[i] in hToRecord
    requires PositionalRecords(hList, hToRecord, ps, dataColumns) == Success(rows)
    ensures Within(ps + [i], |hList|)
    ensures PositionalRecords(hList, hToRecord, ps + [i], dataColumns)
         == Success(rows + [Extract(hList[i], hToRecord[hList[i]], dataColumns)])
  {
    assert (ps + [i])[..|ps|] == ps;
  }

  lemma MatchedStep(ks: seq<int>, i: nat, keys: set<int>)
    requires i < |ks|
    ensures MatchedPositions(ks[..i + 1], keys) == MatchedPositions(ks[..i], keys) + (if ks[i] in keys then [i] else [])
  {
    assert ks[..i + 1][..i] == ks[..i];
  }

  /** The first kept position whose hash has no record decides round 3's error. */
  lemma MissingRecordAt(hList: seq<int>, hToRecord: map<int, Row>, ks: seq<int>, i: nat, keys: set<int>, dataColumns: seq<Column>)
    requires |ks| == |hList| && i < |ks| && ks[i] in keys && hList[i] !in hToRecord
    requires PositionalRecords(hList, hToRecord, MatchedPositions(ks[..i], keys), dataColumns).Success?
    ensures PositionalRecords(hList, hToRecord, MatchedPositions(ks, keys), dataColumns) == Failure(MissingRecord(hList[i]))
  {
    var ps := MatchedPositions(ks, keys);
    var pre := MatchedPositions(ks[..i], keys);
    var front := MatchedPositions(ks[..i + 1], keys);
    MatchedStep(ks, i, keys);
    assert front == pre + [i];
    AppendOne(pre, i);
    assert PositionalRecords(hList, hToRecord, front, dataColumns) == Failure(MissingRecord(hList[i]));
    MatchedPrefix(ks, i + 1, keys);
    PrefixAndRest(ps, |front|);
    PositionalRecordsFailureSticks(hList, hToRecord, front, ps[|front|..], dataColumns);
  }

  /** The positions matched in a prefix are the front of the positions matched in the whole. */
  lemma {:induction false} MatchedPrefix(ks: seq<int>, m: nat, keys: set<int>)
    requires m <= |ks|
    ensures |MatchedPositions(ks[..m], keys)| <= |MatchedPositions(ks, keys)|
    ensures MatchedPositions(ks, keys)[..|MatchedPositions(ks[..m], keys)|] == MatchedPositions(ks[..m], keys)
  {
    if m < |ks| {
      var n := |ks| - 1;
      MatchedPrefix(ks[..n], m, keys);
      assert ks[..n][..m] == ks[..m];
    } else {
      assert ks[..m] == ks;
    }
  }

  /** When the records come from the same round 1 as the hashes, round 3 never misses a record. */
  lemma Step3NeverMissesOwnRecord(hToC: Dict<int, int>, hToRecord: Dict<int, Row>, storedCToK: Option<Dict<int, int>>, partnerK: seq<int>, dataColumns: seq<Column>)
    requires |partnerK| == |hToC.order| && hToRecord.order == hToC.order
    ensures Step3Result(hToC, hToRecord, storedCToK, partnerK, dataColumns).Success?
  {
    var ps := MatchedPositions(partnerK, Step3Keys(storedCToK, partnerK));
    PositionalRecordsSpec(hToC.order, hToRecord.entries, ps, dataColumns);
    assert forall j :: 0 <= j < |ps| ==> hToC.order[ps[j]] in hToRecord.order;
  }

  /** Round 3 keeps position i exactly when the partner's k at i is one of our k values. */
  lemma Step3KeepsExactly(storedCToK: Option<Dict<int, int>>, partnerK: seq<int>, i: nat)
    requires i < |partnerK|
    ensures i in MatchedPositions(partnerK, Step3Keys(storedCToK, partnerK))
      <==> storedCToK.Some? && partnerK[i] in Values(storedCToK.value)
  {
    var ps := MatchedPositions(partnerK, Step3Keys(storedCToK, partnerK));
    MatchedPositionsSpec(partnerK, Step3Keys(storedCToK, partnerK));
    if i in ps {
      var j :| 0 <= j < |ps| && ps[j] == i;
    }
  }

  /**
   * Completeness under an honest partner: when both parties run rounds 1 and 2
   * as written, every one of our hashes that the partner also holds is kept at
   * round 3.
   */
  lemma HonestRunKeepsCommonHashes(
    hToCOurs: Dict<int, int>, hToCPartner: Dict<int, int>, partnerCToK: Dict<int, int>,
    a: nat, b: nat, prime: int, i: nat)
    requires prime > 0
    requires forall h :: h in hToCOurs.entries ==> hToCOurs.entries[h] == BlindedHash(h, a, prime)
    requires forall h :: h in hToCPartner.entries ==> hToCPartner.entries[h] == BlindedHash(h, b, prime)
    requires partnerCToK.order == Dedup(Values(hToCPartner))
    requires forall c :: c in partnerCToK.entries ==> partnerCToK.entries[c] == BlindedHash(c, a, prime)
    requires i < |hToCOurs.order| && hToCOurs.order[i] in hToCPartner.entries
    ensures i in MatchedPositions(SecondBlind(Values(hToCOurs), b, prime),
                                  Step3Keys(Some(partnerCToK), SecondBlind(Values(hToCOurs), b, prime)))
  {
    var h := hToCOurs.order[i];
    var partnerK := SecondBlind(Values(hToCOurs), b, prime);
    var c' := hToCPartner.entries[h];
    ValuesAreMapValues(hToCPartner);
    assert c' in Values(hToCPartner);
    assert c' in partnerCToK.entries;
    BlindingCommutes(h, a, b, prime);
    assert partnerK[i] == partnerCToK.entries[c'];
    ValuesAreMapValues(partnerCToK);
    assert partnerK[i] in Values(partnerCToK);
    Step3KeepsExactly(Some(partnerCToK), partnerK, i);
  }

  // ---------------------------------------------------------------- round 4

  /** One row of df['hash_id'].astype(str): the key cell replaced by its text. */
  function KeyRowAsText(r: Row): (t: Row)
    ensures t.Keys == r.Keys + {HashId}
    ensures t[HashId] == Text(Str(Cell(r, HashId)))
    ensures forall c :: c in r && c != HashId ==> t[c] == r[c]
  {
    r[HashId := Text(Str(Cell(r, HashId)))]
  }

  /** df['hash_id'] = df['hash_id'].astype(str) */
  function KeyAsText(f: Frame): (g: Frame)
    requires HashId in f.columns
    ensures g.columns == f.columns && |g.rows| == |f.rows|
    ensures WellFormed(f) ==> WellFormed(g)
    ensures forall i :: 0 <= i < |f.rows| ==> g.rows[i] == KeyRowAsText(f.rows[i])
  {
    Frame(f.columns, seq(|f.rows|, i requires 0 <= i < |f.rows| => KeyRowAsText(f.rows[i])))
  }

  predicate CanMerge(our: Frame, partner: Frame) {
    HashId in our.columns && HashId in partner.columns && |our.rows| > 0 && |partner.rows| > 0
  }

  /**
   * run_psi_step4: when both frames have hash_id and rows, read the keys as
   * text, rename the partner's columns and inner-join; otherwise an empty frame.
   */
  function RunStep4(our: Frame, partner: Frame): (f: Frame)
    ensures !CanMerge(our, partner) ==> f == Frame({}, [])
  {
    if CanMerge(our, partner) then JoinWithPartner(KeyAsText(our), KeyAsText(partner))
    else Frame({}, [])
  }

  /**
   * row pairs our row o with partner row p: their keys read as the same text,
   * row carries that text as hash_id, p's other cells under partner_ names
   * (suffixed "_y" where we hold that name too) and our other cells.
   */
  ghost predicate PairedText(row: Row, o: Row, p: Row) {
    Str(Cell(o, HashId)) == Str(Cell(p, HashId))
    && HashId in row && row[HashId] == Text(Str(Cell(o, HashId)))
    && CarriesCells(row, KeyRowAsText(o), KeyRowAsText(p))
  }

  lemma MergedRowFacts(row: Row, o: Row, p: Row)
    requires MergedFrom(row, KeyRowAsText(o), KeyRowAsText(p))
    ensures PairedText(row, o, p)
  {
    CombineRenamed(KeyRowAsText(o), KeyRowAsText(p));
  }

  /**
   * Every merged row pairs one of our rows with one partner row whose hash_id
   * reads as the same text; it carries that text as its hash_id, and the
   * partner's other cells under partner_ names, as CarriesCells says.
   */
  lemma MergeSound(our: Frame, partner: Frame, row: Row)
    requires WellFormed(our) && WellFormed(partner)
    requires row in RunStep4(our, partner).rows
    ensures exists i, j :: 0 <= i < |our.rows| && 0 <= j < |partner.rows| && PairedText(row, our.rows[i], partner.rows[j])
  {
    assert CanMerge(our, partner);
    var o, p := KeyAsText(our), KeyAsText(partner);
    JoinWithPartnerSound(o, p, row);
    var i, j :| 0 <= i < |o.rows| && 0 <= j < |p.rows| && MergedFrom(row, o.rows[i], p.rows[j]);
    MergedRowFacts(row, our.rows[i], partner.rows[j]);
  }

  /**
   * Every pair of rows whose hash_id reads as the same text is merged into its
   * own row, which carries that text as its hash_id.
   */
  lemma MergeComplete(our: Frame, partner: Frame, i: nat, j: nat)
    requires CanMerge(our, partner)
    requires i < |our.rows| && j < |partner.rows|
    requires Str(Cell(our.rows[i], HashId)) == Str(Cell(partner.rows[j], HashId))
    ensures Combine(KeyRowAsText(our.rows[i]), RenameRow(KeyRowAsText(partner.rows[j]))) in RunStep4(our, partner).rows
    ensures exists row :: row in RunStep4(our, partner).rows && HashId in row && row[HashId] == Text(Str(Cell(our.rows[i], HashId)))
  {
    var o, p := KeyAsText(our), KeyAsText(partner);
    assert Cell(o.rows[i], HashId) == Cell(p.rows[j], HashId);
    JoinWithPartnerComplete(o, p, i, j);
    CombineRenamed(o.rows[i], p.rows[j]);
  }

  /** A row holding only its key renames to itself and merges with itself into itself. */
  lemma KeyOnlyRow(row: Row)
    requires row.Keys == {HashId}
    ensures RenameRow(row) == row && Combine(row, row) == row
  {
    var rr := RenameRow(row);
    assert PartnerName(HashId) == HashId;
    assert HashId in rr && rr[HashId] == row[HashId];
    forall c | c in rr ensures c == HashId {
      var d :| d in row && c == PartnerName(d);
    }
    assert rr.Keys == row.Keys;
    assert Overlap(row.Keys, row.Keys) == {};
    assert MergedKeys(row.Keys, row.Keys) == {HashId};
    CombineKeys(row, row);
    CombineKey(row, row);
  }

  lemma JoinOneRow(o: Row, p: Row)
    requires Cell(o, HashId) == Cell(p, HashId)
    ensures InnerJoin([o], [p]) == [Combine(o, p)]
  {
    assert [p][1..] == [] && [o][1..] == [];
    assert MatchRow(o, [p]) == [(o, p)];
    assert MatchRows([o], [p]) == [(o, p)];
  }

  /** Two one-row frames whose rows read as the same text-keyed row t merge into one row. */
  lemma SameTextRowsJoin(our: Frame, partner: Frame, t: Row)
    requires CanMerge(our, partner) && |our.rows| == 1 && |partner.rows| == 1
    requires KeyRowAsText(our.rows[0]) == t && KeyRowAsText(partner.rows[0]) == t
    ensures RunStep4(our, partner).rows == [Combine(t, RenameRow(t))]
  {
    var o, p := KeyAsText(our), KeyAsText(partner);
    assert o.rows == [t] && p.rows == [t];
    RenameOneRow(p, t);
    RenamedKeyCell(t);
    JoinOneRow(t, RenameRow(t));
  }

  lemma RenameOneRow(p: Frame, t: Row)
    requires p.rows == [t]
    ensures RenamePartner(p).rows == [RenameRow(t)]
  {
    assert RenamePartner(p).rows[0] == RenameRow(t);
  }

  /** Two one-row frames holding only keys that read as the same text merge into one row holding that text. */
  lemma KeyOnlyRowsJoin(our: Frame, partner: Frame)
    requires HashId in our.columns && HashId in partner.columns
    requires |our.rows| == 1 && |partner.rows| == 1
    requires our.rows[0].Keys == {HashId} && partner.rows[0].Keys == {HashId}
    requires Str(our.rows[0][HashId]) == Str(partner.rows[0][HashId])
    ensures RunStep4(our, partner).rows == [KeyRowAsText(partner.rows[0])]
  {
    var t := KeyRowAsText(partner.rows[0]);
    assert KeyRowAsText(our.rows[0]) == t;
    KeyOnlyRow(t);
    SameTextRowsJoin(our, partner, t);
  }

  /**
   * An integer key and its decimal text join once both are read as text: our
   * hash_id n meets the partner's str(n) in one merged row holding str(n).
   */
  lemma MixedKeysJoinAsText(n: int)
    ensures var our, partner := Frame({HashId}, [map[HashId := Int(n)]]), Frame({HashId}, [map[HashId := Text(Str(Int(n)))]]);
      RunStep4(our, partner).rows == [map[HashId := Text(Str(Int(n)))]]
  {
    var p := map[HashId := Text(Str(Int(n)))];
    KeyOnlyRowsJoin(Frame({HashId}, [map[HashId := Int(n)]]), Frame({HashId}, [p]));
    assert KeyRowAsText(p) == p;
  }
}
