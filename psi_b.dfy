/**
 * The PSI engine of Client/psi_dh.py: identifier cells are used raw and joined
 * with "_", a missing identifier column is a KeyError, only the last 16 hex
 * digits of the digest are kept, and round 3 matches through the inverted
 * h -> k dict. Round 2 here blinds our own published values with our own key,
 * which is not the value the partner computes; see OwnKeyMissesCommonHash and
 * the intended map IntendedHToK.
 */
module PsiB {
  import opened Wrappers
  import opened ModArith
  import opened Strings
  import opened Dicts
  import opened Frames
  import opened PsiCommon
  import opened Sha
  import opened Seqs
  import PsiA

  const Separator: string := "_"

  // ---------------------------------------------------------------- record hash

  /** [str(record[col]) for col in id_columns]; the first column the record lacks raises KeyError. */
  function IdValues(record: Row, idColumns: seq<Column>): (r: Result<seq<string>, PsiError>)
    ensures r.Success? <==> forall c :: c in idColumns ==> c in record
    ensures r.Success? ==> |r.value| == |idColumns|
    ensures r.Success? ==> forall i :: 0 <= i < |idColumns| ==> r.value[i] == Str(record[idColumns[i]])
    ensures r.Failure? ==> r.error.MissingColumn? && r.error.column in idColumns && r.error.column !in record
  {
    if idColumns == [] then Success([])
    else if idColumns[0] !in record then Failure(MissingColumn(idColumns[0]))
    else
      match IdValues(record, idColumns[1..])
      case Failure(e) => Failure(e)
      case Success(rest) => Success([Str(record[idColumns[0]])] + rest)
  }

  /** The error names the first identifier column, in order, that the record lacks. */
  lemma {:induction false} IdValuesFirstMissing(record: Row, idColumns: seq<Column>)
    requires IdValues(record, idColumns).Failure?
    ensures exists i :: (0 <= i < |idColumns| && idColumns[i] == IdValues(record, idColumns).error.column
                         && forall j :: 0 <= j < i ==> idColumns[j] in record)
  {
    if idColumns[0] in record {
      IdValuesFirstMissing(record, idColumns[1..]);
      var i :| 0 <= i < |idColumns[1..]| && idColumns[1..][i] == IdValues(record, idColumns[1..]).error.column
        && forall j :: 0 <= j < i ==> idColumns[1..][j] in record;
      assert idColumns[i + 1] == idColumns[1..][i];
    }
  }

  /** compute_record_hash: int("_".join(id_values) hashed, last 16 hex digits, 16). */
  function RecordHash(sha: Hasher, record: Row, idColumns: seq<Column>): Result<int, PsiError> {
    match IdValues(record, idColumns)
    case Failure(e) => Failure(e)
    case Success(vs) => Success(DigestLow64(sha(Join(vs, Separator))))
  }

  /** Every record hash is a 64-bit number. */
  lemma RecordHashBound(sha: Hasher, record: Row, idColumns: seq<Column>)
    requires RecordHash(sha, record, idColumns).Success?
    ensures 0 <= RecordHash(sha, record, idColumns).value < Pow(2, 64)
  {
    DigestLow64Bound(sha(Join(IdValues(record, idColumns).value, Separator)));
  }

  /**
   * The two variants disagree on padding and case: a cell holding a blank and
   * an upper-case letter and a cell holding that letter in lower case hash
   * alike in ClientA and give different identifier strings here.
   */
  lemma VariantsDisagreeOnPadding(sha: Hasher, a: Column, sp: char, u: char)
    requires IsSpace(sp) && 'A' <= u <= 'Z'
    ensures PsiA.RecordHash(sha, map[a := Text([sp, u])], [a]) == PsiA.RecordHash(sha, map[a := Text([LowerChar(u)])], [a])
    ensures IdValues(map[a := Text([sp, u])], [a]) != IdValues(map[a := Text([LowerChar(u)])], [a])
  {
    var ra: Row := map[a := Text([sp, u])];
    var rb: Row := map[a := Text([LowerChar(u)])];
    PaddedLetterNormalizes(sp, u);
    assert PsiA.SameIdentity(ra, rb, [a]);
    PsiA.RecordHashRespectsIdentity(sha, ra, rb, [a]);
    assert |IdValues(ra, [a]).value[0]| != |IdValues(rb, [a]).value[0]|;
  }

  lemma PaddedLetterNormalizes(sp: char, u: char)
    requires IsSpace(sp) && 'A' <= u <= 'Z'
    ensures Normalize([sp, u]) == Normalize([LowerChar(u)])
  {
    var l := LowerChar(u);
    assert Lower([u]) == Lower([l]) by {
      assert Lower([u])[0] == l && Lower([l])[0] == l;
    }
    assert AllSpace([sp]) && AllSpace([]);
    NormalizeIgnoresCaseAndPadding([sp], [u], [], [], [l], []);
    PairIsConcat(sp, u);
    ConcatEmpty([sp] + [u]);
    ConcatEmpty([l]);
  }

  // ---------------------------------------------------------------- round 1

  /** Every value in order, or the first error. */
  function Collect(rs: seq<Result<int, PsiError>>): (r: Result<seq<int>, PsiError>)
    ensures r.Success? ==> |r.value| == |rs|
  {
    if rs == [] then Success([])
    else
      var n := |rs| - 1;
      match Collect(rs[..n])
      case Failure(e) => Failure(e)
      case Success(vs) =>
        match rs[n]
        case Failure(e) => Failure(e)
        case Success(v) => Success(vs + [v])
  }

  /** Collecting succeeds exactly when every result does, and then lists their values in order. */
  lemma {:induction false} CollectSucceeds(rs: seq<Result<int, PsiError>>)
    ensures Collect(rs).Success? <==> forall i :: 0 <= i < |rs| ==> rs[i].Success?
    ensures Collect(rs).Success? ==> forall i :: 0 <= i < |rs| ==> rs[i] == Success(Collect(rs).value[i])
  {
    if rs != [] {
      var n := |rs| - 1;
      CollectSucceeds(rs[..n]);
      assert forall i :: 0 <= i < n ==> rs[..n][i] == rs[i];
    }
  }

  /** A failed collection reports the first failing result. */
  lemma {:induction false} CollectFirstFailure(rs: seq<Result<int, PsiError>>)
    requires Collect(rs).Failure?
    ensures exists i :: (0 <= i < |rs| && rs[i] == Failure(Collect(rs).error)
                         && forall j :: 0 <= j < i ==> rs[j].Success?)
  {
    var n := |rs| - 1;
    var pre := rs[..n];
    if Collect(pre).Failure? {
      CollectFirstFailure(pre);
      var i :| 0 <= i < n && pre[i] == Failure(Collect(pre).error) && forall j :: 0 <= j < i ==> pre[j].Success?;
      assert rs[i] == pre[i];
      assert forall j :: 0 <= j < i ==> rs[j] == pre[j];
    } else {
      CollectSucceeds(pre);
      assert forall j :: 0 <= j < n ==> rs[j] == pre[j];
    }
  }

  lemma CollectStep(rs: seq<Result<int, PsiError>>, i: nat, vs: seq<int>)
    requires i < |rs| && Collect(rs[..i]) == Success(vs)
    ensures rs[i].Failure? ==> Collect(rs[..i + 1]) == Failure(rs[i].error)
    ensures rs[i].Success? ==> Collect(rs[..i + 1]) == Success(vs + [rs[i].value])
  {
    assert rs[..i + 1][..i] == rs[..i];
  }

  lemma {:induction false} CollectFailureSticks(rs: seq<Result<int, PsiError>>, m: nat)
    requires m <= |rs| && Collect(rs[..m]).Failure?
    ensures Collect(rs) == Collect(rs[..m])
  {
    if m < |rs| {
      var n := |rs| - 1;
      assert rs[..n][..m] == rs[..m];
      CollectFailureSticks(rs[..n], m);
    } else {
      assert rs[..m] == rs;
    }
  }

  /** compute_record_hash applied to each row. */
  function HashResults(sha: Hasher, rows: seq<Row>, idColumns: seq<Column>): (rs: seq<Result<int, PsiError>>)
    ensures |rs| == |rows|
  {
    seq(|rows|, i requires 0 <= i < |rows| => RecordHash(sha, rows[i], idColumns))
  }

  /** The hash of every row in order, or the error of the first row that cannot be hashed. */
  function RowHashes(sha: Hasher, rows: seq<Row>, idColumns: seq<Column>): Result<seq<int>, PsiError> {
    Collect(HashResults(sha, rows, idColumns))
  }

  /**
   * Hashing the dataset succeeds exactly when every row has every identifier
   * column, and then gives each row's hash in order; otherwise it reports the
   * first row's error.
   */
  lemma RowHashesSpec(sha: Hasher, rows: seq<Row>, idColumns: seq<Column>)
    ensures RowHashes(sha, rows, idColumns).Success? <==> forall i :: 0 <= i < |rows| ==> forall c :: c in idColumns ==> c in rows[i]
    ensures RowHashes(sha, rows, idColumns).Success? ==>
      forall i :: 0 <= i < |rows| ==> RecordHash(sha, rows[i], idColumns) == Success(RowHashes(sha, rows, idColumns).value[i])
    ensures RowHashes(sha, rows, idColumns).Failure? ==>
      exists i :: (0 <= i < |rows| && RecordHash(sha, rows[i], idColumns) == Failure(RowHashes(sha, rows, idColumns).error)
                   && forall j :: 0 <= j < i ==> RecordHash(sha, rows[j], idColumns).Success?)
  {
    var rs := HashResults(sha, rows, idColumns);
    assert forall i :: 0 <= i < |rows| ==> rs[i] == RecordHash(sha, rows[i], idColumns);
    CollectSucceeds(rs);
    forall i | 0 <= i < |rows|
      ensures rs[i].Success? <==> forall c :: c in idColumns ==> c in rows[i]
    {
      RecordHashSucceeds(sha, rows[i], idColumns);
    }
    if Collect(rs).Failure? {
      CollectFirstFailure(rs);
    }
  }

  lemma RecordHashSucceeds(sha: Hasher, record: Row, idColumns: seq<Column>)
    ensures RecordHash(sha, record, idColumns).Success? <==> forall c :: c in idColumns ==> c in record
  {
    var ids := IdValues(record, idColumns);
    assert ids.Success? <==> forall c :: c in idColumns ==> c in record;
  }

  /**
   * process_dataset: hash and blind each row in turn, filling the two dicts; a
   * row that lacks an identifier column stops it with that KeyError.
   */
  method ProcessDataset(sha: Hasher, df: Frame, idColumns: seq<Column>, privateKey: nat, prime: int)
    returns (r: Result<(Dict<int, int>, Dict<int, Row>), PsiError>)
    requires prime > 0
    ensures RowHashes(sha, df.rows, idColumns).Failure? ==> r == Failure(RowHashes(sha, df.rows, idColumns).error)
    ensures RowHashes(sha, df.rows, idColumns).Success? ==>
      r.Success? && Processed(r.value.0, r.value.1, RowHashes(sha, df.rows, idColumns).value, df.rows, privateKey, prime)
  {
    ghost var results := HashResults(sha, df.rows, idColumns);
    var hToC: Dict<int, int> := Empty();
    var hToRecord: Dict<int, Row> := Empty();
    ghost var hashes: seq<int> := [];
    for i := 0 to |df.rows|
      invariant Collect(results[..i]) == Success(hashes)
      invariant |hashes| == i
      invariant Processed(hToC, hToRecord, hashes, df.rows[..i], privateKey, prime)
    {
      var record := df.rows[i];
      PrefixStep(df.rows, i);
      var hr := RecordHash(sha, record, idColumns);
      assert results[i] == hr;
      CollectStep(results, i, hashes);
      if hr.Failure? {
        CollectFailureSticks(results, i + 1);
        return Failure(hr.error);
      }
      var h := hr.value;
      var c := BlindedHash(h, privateKey, prime);
      ProcessedStep(hToC, hToRecord, hashes, df.rows[..i], privateKey, prime, h, record);
      hToC := Put(hToC, h, c);
      hToRecord := Put(hToRecord, h, record);
      hashes := hashes + [h];
    }
    assert results[..|df.rows|] == results;
    assert df.rows[..|df.rows|] == df.rows;
    r := Success((hToC, hToRecord));
  }

  /** run_psi_step1: process the dataset and publish list(h_to_c_map.values()). */
  method RunStep1(sha: Hasher, df: Frame, idColumns: seq<Column>, privateKey: nat, prime: int)
    returns (r: Result<(Dict<int, int>, Dict<int, Row>, seq<int>), PsiError>)
    requires prime > 0
    ensures RowHashes(sha, df.rows, idColumns).Failure? ==> r == Failure(RowHashes(sha, df.rows, idColumns).error)
    ensures RowHashes(sha, df.rows, idColumns).Success? ==>
      r.Success? && Processed(r.value.0, r.value.1, RowHashes(sha, df.rows, idColumns).value, df.rows, privateKey, prime)
      && r.value.2 == Values(r.value.0)
  {
    var p := ProcessDataset(sha, df, idColumns, privateKey, prime);
    match p
    case Failure(e) => r := Failure(e);
    case Success(maps) => r := Success((maps.0, maps.1, Values(maps.0)));
  }

  // ---------------------------------------------------------------- round 2, as written

  /**
   * run_psi_step2: publish the partner's values blinded with our key, and keep
   * h_to_k_map[h] = pow(h_to_c_map[h], key, prime), our own published value
   * blinded again with our own key.
   */
  method RunStep2(hToC: Dict<int, int>, partnerC: seq<int>, privateKey: nat, prime: int)
    returns (hToK: Dict<int, int>, kValues: seq<int>)
    requires prime > 0
    ensures kValues == SecondBlind(partnerC, privateKey, prime)
    ensures hToK.order == hToC.order && hToK.entries.Keys == hToC.entries.Keys
    ensures forall h :: h in hToC.entries ==> hToK.entries[h] == BlindedHash(hToC.entries[h], privateKey, prime)
  {
    kValues := SecondBlind(partnerC, privateKey, prime);
    hToK := Empty();
    for j := 0 to |hToC.order|
      invariant hToK.order == hToC.order[..j]
      invariant forall h :: h in hToK.entries ==> h in hToC.entries && hToK.entries[h] == BlindedHash(hToC.entries[h], privateKey, prime)
    {
      var h := hToC.order[j];
      var c := hToC.entries[h];
      assert h !in hToC.order[..j];
      PrefixStep(hToC.order, j);
      hToK := Put(hToK, h, BlindedHash(c, privateKey, prime));
    }
    assert hToC.order[..|hToC.order|] == hToC.order;
  }

  /** What round 2 keeps for our hashes when our key is a: each hash blinded by a twice. */
  lemma OwnKeyIsSquare(h: int, a: nat, prime: int)
    requires prime > 0
    ensures BlindedHash(BlindedHash(h, a, prime), a, prime) == ModPow(h, a * a, prime)
  {
    DoubleBlind(h, a, a, prime);
  }

  /**
   * Round 2 as written misses a common hash. With p = 5, both parties hold the
   * hash 2, our key is 2 and the partner's key is 3: we publish 4 and keep 1 for
   * hash 2, the partner returns 4 = 2^(2*3) mod 5 for it, and round 3 finds no
   * common value.
   */
  lemma OwnKeyMissesCommonHash(hToK: Dict<int, int>)
    requires hToK.order == [2] && hToK.entries[2] == BlindedHash(BlindedHash(2, 2, 5), 2, 5)
    ensures SecondBlind([BlindedHash(2, 2, 5)], 3, 5) == [ModPow(2, 2 * 3, 5)]
    ensures FindIntersection(Values(hToK), SecondBlind([BlindedHash(2, 2, 5)], 3, 5)) == {}
  {
    PowersOfTwoModFive();
    PowersOfFourModFive();
    SecondBlindOfFour();
    var vs := Values(hToK);
    assert |vs| == 1 && vs[0] == 1;
    NoCommonValue(vs, SecondBlind([BlindedHash(2, 2, 5)], 3, 5));
  }

  /** The powers modulo 5 that the counterexample above uses. */
  lemma PowersOfTwoModFive()
    ensures ModPow(2, 2, 5) == 4 && ModPow(2, 2 * 3, 5) == 4
  {
    assert ModPow(2, 1, 5) == 2;
    DoubleBlind(2, 2, 3, 5);
    PowersOfFourModFive();
  }

  lemma PowersOfFourModFive()
    ensures ModPow(4, 2, 5) == 1 && ModPow(4, 3, 5) == 4
  {
    assert ModPow(4, 1, 5) == 4;
  }

  lemma SecondBlindOfFour()
    ensures SecondBlind([4], 3, 5) == [4]
  {
    PowersOfFourModFive();
  }

  lemma NoCommonValue(vs: seq<int>, ks: seq<int>)
    requires vs == [1] && ks == [4]
    ensures FindIntersection(vs, ks) == {}
  {
    assert forall x :: x in vs ==> x == 1;
  }

  // ---------------------------------------------------------------- round 2, as intended

  /** A dict filled by d[keys[i]] = vals[i] for i in order, over distinct keys. */
  function Zip(keys: seq<int>, vals: seq<int>): (d: Dict<int, int>)
    requires |keys| == |vals| && Distinct(keys)
    ensures d.order == keys
    ensures forall i :: 0 <= i < |keys| ==> d.entries[keys[i]] == vals[i]
  {
    if keys == [] then Empty()
    else
      var n := |keys| - 1;
      assert Distinct(keys[..n]) && keys[n] !in keys[..n];
      var d := Zip(keys[..n], vals[..n]);
      ZipStep(keys, vals, n, d);
      Put(d, keys[n], vals[n])
  }

  /** The last write of Zip adds the last key with the last value and keeps the earlier ones. */
  lemma ZipStep(keys: seq<int>, vals: seq<int>, n: nat, d: Dict<int, int>)
    requires |keys| == |vals| == n + 1 && Distinct(keys)
    requires d.order == keys[..n]
    requires forall i :: 0 <= i < n ==> d.entries[keys[..n][i]] == vals[..n][i]
    ensures Put(d, keys[n], vals[n]).order == keys
    ensures forall i :: 0 <= i < |keys| ==> Put(d, keys[n], vals[n]).entries[keys[i]] == vals[i]
  {
    assert keys[n] !in keys[..n];
    assert keys[n] !in d.entries;
    assert keys[..n] + [keys[n]] == keys;
    forall i | 0 <= i < n ensures keys[i] != keys[n] && d.entries[keys[i]] == vals[i] {
      assert keys[..n][i] == keys[i] && vals[..n][i] == vals[i];
    }
  }

  /**
   * The h_to_k_map the comments describe ("equivalent to h^(ab) mod p"): our
   * i-th hash with the partner's second blinding of our i-th published value,
   * which round 3 receives in that order.
   */
  function IntendedHToK(hToC: Dict<int, int>, partnerK: seq<int>): (d: Dict<int, int>)
    requires |partnerK| == |hToC.order|
    ensures d.order == hToC.order
  {
    Zip(hToC.order, partnerK)
  }

  /** Under an honest partner with key b, the intended map holds h^(ab) mod p for every hash. */
  lemma IntendedHToKIsDoubleBlind(hToC: Dict<int, int>, partnerK: seq<int>, a: nat, b: nat, ab: nat, prime: int)
    requires prime > 0 && ab == a * b
    requires forall h :: h in hToC.entries ==> hToC.entries[h] == BlindedHash(h, a, prime)
    requires partnerK == SecondBlind(Values(hToC), b, prime)
    ensures |partnerK| == |hToC.order|
    ensures forall h :: h in IntendedHToK(hToC, partnerK).entries ==>
      IntendedHToK(hToC, partnerK).entries[h] == ModPow(h, ab, prime)
  {
    var d := IntendedHToK(hToC, partnerK);
    var vs := Values(hToC);
    forall h | h in d.entries ensures d.entries[h] == ModPow(h, ab, prime) {
      var i :| 0 <= i < |hToC.order| && hToC.order[i] == h;
      assert d.entries[h] == partnerK[i];
      assert partnerK[i] == BlindedHash(vs[i], b, prime);
      assert vs[i] == BlindedHash(h, a, prime);
      DoubleBlind(h, a, b, prime);
    }
  }

  /**
   * With the intended map, round 3's intersection against our own second
   * blinding of the partner's values contains the k of every hash both parties
   * hold, and that k leads back to a hash with the same k.
   */
  lemma IntendedRoundFindsCommonHash(hToCOurs: Dict<int, int>, hToCPartner: Dict<int, int>, a: nat, b: nat, prime: int, h: int)
    requires prime > 0
    requires forall h :: h in hToCOurs.entries ==> hToCOurs.entries[h] == BlindedHash(h, a, prime)
    requires forall h :: h in hToCPartner.entries ==> hToCPartner.entries[h] == BlindedHash(h, b, prime)
    requires h in hToCOurs.entries && h in hToCPartner.entries
    ensures var d := IntendedHToK(hToCOurs, SecondBlind(Values(hToCOurs), b, prime));
      var ownK := SecondBlind(Values(hToCPartner), a, prime);
      h in d.entries && d.entries[h] in FindIntersection(Values(d), ownK)
      && d.entries[h] in Invert(d) && d.entries[Invert(d)[d.entries[h]]] == d.entries[h]
  {
    var partnerK := SecondBlind(Values(hToCOurs), b, prime);
    var d := IntendedHToK(hToCOurs, partnerK);
    var ownK := SecondBlind(Values(hToCPartner), a, prime);
    var i :| 0 <= i < |hToCOurs.order| && hToCOurs.order[i] == h;
    var j :| 0 <= j < |hToCPartner.order| && hToCPartner.order[j] == h;
    assert d.entries[h] == BlindedHash(BlindedHash(h, a, prime), b, prime) by {
      assert d.entries[h] == partnerK[i];
      assert Values(hToCOurs)[i] == BlindedHash(h, a, prime);
    }
    assert ownK[j] == BlindedHash(BlindedHash(h, b, prime), a, prime) by {
      assert Values(hToCPartner)[j] == BlindedHash(h, b, prime);
    }
    BlindingCommutes(h, a, b, prime);
    ValuesAreMapValues(d);
    InvertIsInverse(d);
  }

  /**
   * Changing only the map is not enough: intersecting its values with
   * partner_k, as round 3 does, keeps the k of every one of our hashes, so
   * every record would be extracted.
   */
  lemma IntendedMapAloneMatchesAll(hToC: Dict<int, int>, partnerK: seq<int>, h: int)
    requires |partnerK| == |hToC.order|
    requires h in hToC.entries
    ensures h in IntendedHToK(hToC, partnerK).entries
    ensures IntendedHToK(hToC, partnerK).entries[h] in FindIntersection(Values(IntendedHToK(hToC, partnerK)), partnerK)
  {
    var d := IntendedHToK(hToC, partnerK);
    var i :| 0 <= i < |hToC.order| && hToC.order[i] == h;
    assert d.order[i] == h;
    assert Values(d)[i] == partnerK[i];
  }

  // ---------------------------------------------------------------- round 3

  /**
   * run_psi_step3: intersect our k values with the partner's and extract the
   * matched rows through the inverted h -> k dict.
   */
  method RunStep3(hToK: Dict<int, int>, hToRecord: Dict<int, Row>, partnerK: seq<int>, dataColumns: seq<Column>)
    returns (f: Frame, ghost visited: seq<int>)
    ensures Distinct(visited) && forall k :: k in visited <==> k in Values(hToK) && k in partnerK
    ensures f == FromRecords(ExtractedRows(visited, Invert(hToK), hToRecord.entries, dataColumns), [HashId] + dataColumns)
  {
    var ourK := Values(hToK);
    var intersection := FindIntersection(ourK, partnerK);
    f, visited := ExtractMatchingRecords(intersection, hToK, hToRecord, dataColumns);
  }

  // ---------------------------------------------------------------- round 4

  /**
   * run_psi_step4: when both frames have hash_id, rename the partner's columns
   * and inner-join on the cells as they are; otherwise an empty frame.
   */
  function RunStep4(our: Frame, partner: Frame): (f: Frame)
    ensures !(HashId in our.columns && HashId in partner.columns) ==> f == Frame({}, [])
  {
    if HashId in our.columns && HashId in partner.columns then JoinWithPartner(our, partner)
    else Frame({}, [])
  }

  /**
   * Every merged row pairs one of our rows with one partner row holding the
   * same hash_id cell, and carries their cells as CarriesCells says.
   */
  lemma MergeSound(our: Frame, partner: Frame, row: Row)
    requires WellFormed(our) && WellFormed(partner)
    requires row in RunStep4(our, partner).rows
    ensures exists i, j :: (0 <= i < |our.rows| && 0 <= j < |partner.rows|
      && MergedFrom(row, our.rows[i], partner.rows[j]) && CarriesCells(row, our.rows[i], partner.rows[j]))
  {
    JoinWithPartnerSound(our, partner, row);
    var i, j :| 0 <= i < |our.rows| && 0 <= j < |partner.rows| && MergedFrom(row, our.rows[i], partner.rows[j]);
    CombineRenamed(our.rows[i], partner.rows[j]);
  }

  /** Every pair of rows with the same hash_id cell is merged. */
  lemma MergeComplete(our: Frame, partner: Frame, i: nat, j: nat)
    requires HashId in our.columns && HashId in partner.columns
    requires i < |our.rows| && j < |partner.rows|
    requires Cell(our.rows[i], HashId) == Cell(partner.rows[j], HashId)
    ensures Combine(our.rows[i], RenameRow(partner.rows[j])) in RunStep4(our, partner).rows
  {
    JoinWithPartnerComplete(our, partner, i, j);
  }
}
