/**
 * The part of pandas that the PSI rounds use: a row (a Series) is a map from
 * column label to cell, a DataFrame is its set of column labels and its rows in
 * order. Building a frame from a list of dicts, the per-match record extract, the
 * "partner_" renaming and the inner join on "hash_id" are modelled here; Excel
 * files are left out, so a frame written by one round is read back unchanged.
 */
module Frames {
  import opened Strings
  import opened Seqs

  type Column = string

  const HashId: Column := "hash_id"
  const PartnerPrefix: string := "partner_"

  /** A cell as read from a spreadsheet: text, an integer, or NaN (an empty cell). */
  datatype Value = Text(s: string) | Int(i: int) | Nan

  /** str(cell) */
  function Str(v: Value): string {
    match v
    case Text(s) => s
    case Int(i) => IntToDecimal(i)
    case Nan => "nan"
  }

  /** One DataFrame row: column label to cell. `c in row` is pandas' `c in record`. */
  type Row = map<Column, Value>

  datatype Frame = Frame(columns: set<Column>, rows: seq<Row>)

  /** Every row of a DataFrame has a cell for every column and for nothing else. */
  ghost predicate WellFormed(f: Frame) {
    forall r :: r in f.rows ==> r.Keys == f.columns
  }

  /** row[c], where a cell the row lacks reads as NaN. */
  function Cell(r: Row, c: Column): Value {
    if c in r then r[c] else Nan
  }

  // ---------------------------------------------------------------- building frames

  function KeysOf(records: seq<Row>): set<Column> {
    set i, c | 0 <= i < |records| && c in records[i] :: c
  }

  function Fill(r: Row, columns: set<Column>): (f: Row)
    ensures f.Keys == columns
  {
    map c | c in columns :: Cell(r, c)
  }

  /**
   * pd.DataFrame(records) when there are records (the columns are every key
   * used, and a record that lacks one gets NaN there), and
   * pd.DataFrame(columns=fallback) when there are none.
   */
  function FromRecords(records: seq<Row>, fallback: seq<Column>): (f: Frame)
    ensures WellFormed(f)
    ensures |f.rows| == |records|
    ensures records == [] ==> f.columns == set c | c in fallback
    ensures forall i, c :: 0 <= i < |records| && c in records[i] ==> c in f.rows[i] && f.rows[i][c] == records[i][c]
    ensures forall i :: 0 <= i < |records| ==> f.rows[i].Keys >= records[i].Keys
    ensures forall i, c :: 0 <= i < |records| && c in f.rows[i] && c !in records[i] ==> f.rows[i][c] == Nan
  {
    if records == [] then Frame(set c | c in fallback, [])
    else
      var cols := KeysOf(records);
      assert forall i, c :: 0 <= i < |records| && c in records[i] ==> c in cols;
      Frame(cols, seq(|records|, i requires 0 <= i < |records| => Fill(records[i], cols)))
  }

  // ---------------------------------------------------------------- record extract

  /**
   * The extract kept for a matched row: {"hash_id": h} and then, for each data
   * column in turn that the record has, that column's cell.
   */
  function Extract(h: int, record: Row, dataColumns: seq<Column>): Row
  {
    map c | c in {HashId} + (set d | d in dataColumns && d in record) ::
      if c in dataColumns && c in record then record[c] else Int(h)
  }

  /**
   * The extract holds hash_id and the data columns the record has; each of
   * those data columns keeps the record's cell, and hash_id is h unless a data
   * column of that name overwrote it.
   */
  lemma ExtractSpec(h: int, record: Row, dataColumns: seq<Column>)
    ensures Extract(h, record, dataColumns).Keys == {HashId} + (set c | c in dataColumns && c in record)
    ensures HashId !in dataColumns || HashId !in record ==> Extract(h, record, dataColumns)[HashId] == Int(h)
    ensures forall c :: c in dataColumns && c in record ==> Extract(h, record, dataColumns)[c] == record[c]
  {
  }

  lemma ExtractStep(h: int, record: Row, cs: seq<Column>, c: Column)
    ensures Extract(h, record, cs + [c]) ==
      if c in record then Extract(h, record, cs)[c := record[c]] else Extract(h, record, cs)
  {
    var e := Extract(h, record, cs);
    var e' := Extract(h, record, cs + [c]);
    assert forall d :: d in cs + [c] <==> d in cs || d == c;
    if c in record {
      assert e'.Keys == e[c := record[c]].Keys;
    } else {
      assert e'.Keys == e.Keys;
    }
  }

  /** The record_data loop of extract_matching_records and run_psi_step3. */
  method BuildRecordData(h: int, record: Row, dataColumns: seq<Column>) returns (data: Row)
    ensures data == Extract(h, record, dataColumns)
  {
    data := map[HashId := Int(h)];
    assert data == Extract(h, record, []);
    for j := 0 to |dataColumns|
      invariant data == Extract(h, record, dataColumns[..j])
    {
      var c := dataColumns[j];
      PrefixStep(dataColumns, j);
      ExtractStep(h, record, dataColumns[..j], c);
      if c in record {
        data := data[c := record[c]];
      }
    }
    assert dataColumns[..|dataColumns|] == dataColumns;
  }

  // ---------------------------------------------------------------- round 4 merge

  function PartnerName(c: Column): Column {
    if c == HashId then c else PartnerPrefix + c
  }

  lemma PartnerNameInjective()
    ensures forall a, b :: PartnerName(a) == PartnerName(b) ==> a == b
  {
    forall a, b | PartnerName(a) == PartnerName(b) ensures a == b {
      if a != HashId && b != HashId {
        assert a == (PartnerPrefix + a)[|PartnerPrefix|..];
        assert b == (PartnerPrefix + b)[|PartnerPrefix|..];
      }
    }
  }

  function RenameRow(r: Row): (s: Row)
    ensures s.Keys == set c | c in r :: PartnerName(c)
    ensures forall c :: c in r ==> PartnerName(c) in s && s[PartnerName(c)] == r[c]
  {
    PartnerNameInjective();
    map c | c in r :: PartnerName(c) := r[c]
  }

  /** partner_df.rename(columns={c: "partner_" + c for every column c other than hash_id}) */
  function RenamePartner(f: Frame): (g: Frame)
    ensures g.columns == set c | c in f.columns :: PartnerName(c)
    ensures |g.rows| == |f.rows|
    ensures forall i :: 0 <= i < |f.rows| ==> g.rows[i] == RenameRow(f.rows[i])
  {
    Frame(set c | c in f.columns :: PartnerName(c),
          seq(|f.rows|, i requires 0 <= i < |f.rows| => RenameRow(f.rows[i])))
  }

  /** The suffixes pd.merge gives a non-key label both sides carry: "_x" on the left cell, "_y" on the right. */
  const LeftSuffix: string := "_x"
  const RightSuffix: string := "_y"

  /** The labels other than the key that both sides of a merge carry. */
  function Overlap(lk: set<Column>, rk: set<Column>): set<Column> {
    (lk * rk) - {HashId}
  }

  function Suffixed(cs: set<Column>, suffix: string): set<Column> {
    set c | c in cs :: c + suffix
  }

  /**
   * The labels of a merged row or frame: the key once, every label only one
   * side carries once, and every overlapping label twice, suffixed.
   */
  function MergedKeys(lk: set<Column>, rk: set<Column>): set<Column> {
    (lk - Overlap(lk, rk)) + (rk - Overlap(lk, rk) - {HashId})
      + Suffixed(Overlap(lk, rk), LeftSuffix) + Suffixed(Overlap(lk, rk), RightSuffix)
  }

  lemma SuffixInjective(suffix: string)
    ensures forall a: Column, b: Column :: a + suffix == b + suffix ==> a == b
  {
    forall a: Column, b: Column | a + suffix == b + suffix ensures a == b {
      assert |a| == |b|;
      assert a == (a + suffix)[..|a|];
      assert b == (b + suffix)[..|b|];
    }
  }

  /** A suffixed label ends with the suffix's last letter. */
  lemma SuffixedEnds(cs: set<Column>, suffix: string, c: Column)
    requires suffix != [] && c in Suffixed(cs, suffix)
    ensures c != [] && c[|c| - 1] == suffix[|suffix| - 1]
  {
    var d :| d in cs && c == d + suffix;
    assert c[|c| - 1] == (d + suffix)[|d| + |suffix| - 1];
  }

  /** The cells of r at the labels cs, each moved to its suffixed label. */
  function WithSuffix(r: Row, cs: set<Column>, suffix: string): (s: Row)
    requires cs <= r.Keys
    ensures s.Keys == Suffixed(cs, suffix)
    ensures forall c :: c in cs ==> c + suffix in s && s[c + suffix] == r[c]
  {
    SuffixInjective(suffix);
    map c | c in cs :: c + suffix := r[c]
  }

  /**
   * One merged row, as pd.merge(..., on="hash_id") builds it: the key and every
   * label only one side carries keep their cell; a label both sides carry
   * appears twice, as label_x with the left cell and as label_y with the right one.
   */
  function Combine(l: Row, r: Row): Row {
    var both := Overlap(l.Keys, r.Keys);
    (l - both) + (r - both - {HashId}) + WithSuffix(l, both, LeftSuffix) + WithSuffix(r, both, RightSuffix)
  }

  /**
   * No label that only one side carries is the suffixed name of an overlapping
   * label. When one is, pandas either refuses the merge (MergeError) or gives a
   * frame with two columns of that label, depending on which side holds it.
   */
  ghost predicate SuffixesFree(lk: set<Column>, rk: set<Column>) {
    forall c :: c in (lk + rk) - Overlap(lk, rk) ==>
      c !in Suffixed(Overlap(lk, rk), LeftSuffix) && c !in Suffixed(Overlap(lk, rk), RightSuffix)
  }

  /** A label suffixed "_y" holds the right row's cell. */
  lemma CombineAtRight(l: Row, r: Row, c: Column)
    requires c in Suffixed(Overlap(l.Keys, r.Keys), RightSuffix)
    ensures Combine(l, r)[c] == WithSuffix(r, Overlap(l.Keys, r.Keys), RightSuffix)[c]
  {
  }

  /** A label suffixed "_x" holds the left row's cell. */
  lemma CombineAtLeft(l: Row, r: Row, c: Column)
    requires c !in Suffixed(Overlap(l.Keys, r.Keys), RightSuffix)
    requires c in Suffixed(Overlap(l.Keys, r.Keys), LeftSuffix)
    ensures Combine(l, r)[c] == WithSuffix(l, Overlap(l.Keys, r.Keys), LeftSuffix)[c]
  {
  }

  /** An unsuffixed label that only one row carries holds that row's cell. */
  lemma CombineAtPlain(l: Row, r: Row, c: Column)
    requires c !in Suffixed(Overlap(l.Keys, r.Keys), RightSuffix)
    requires c !in Suffixed(Overlap(l.Keys, r.Keys), LeftSuffix)
    requires c !in Overlap(l.Keys, r.Keys)
    requires c in l || (c in r && c != HashId)
    ensures Combine(l, r)[c] == if c in l then l[c] else r[c]
  {
  }

  /** The merged row has exactly the merged labels. */
  lemma CombineKeys(l: Row, r: Row)
    ensures Combine(l, r).Keys == MergedKeys(l.Keys, r.Keys)
  {
    var both := Overlap(l.Keys, r.Keys);
    var xs, ys := WithSuffix(l, both, LeftSuffix), WithSuffix(r, both, RightSuffix);
    assert Combine(l, r).Keys == (l - both).Keys + (r - both - {HashId}).Keys + xs.Keys + ys.Keys;
  }

  /** No label ends in both "_x" and "_y", and hash_id ends in neither. */
  lemma SuffixesApart(cs: set<Column>, ds: set<Column>, c: Column)
    ensures c in Suffixed(cs, LeftSuffix) ==> c !in Suffixed(ds, RightSuffix)
    ensures HashId !in Suffixed(cs, LeftSuffix) && HashId !in Suffixed(cs, RightSuffix)
  {
    if c in Suffixed(cs, LeftSuffix) {
      SuffixedEnds(cs, LeftSuffix, c);
      if c in Suffixed(ds, RightSuffix) {
        SuffixedEnds(ds, RightSuffix, c);
      }
    }
    if HashId in Suffixed(cs, LeftSuffix) {
      SuffixedEnds(cs, LeftSuffix, HashId);
    }
    if HashId in Suffixed(cs, RightSuffix) {
      SuffixedEnds(cs, RightSuffix, HashId);
    }
  }

  /** The key keeps the left row's cell. */
  lemma CombineKey(l: Row, r: Row)
    requires HashId in l
    ensures HashId in Combine(l, r) && Combine(l, r)[HashId] == l[HashId]
  {
    var both := Overlap(l.Keys, r.Keys);
    SuffixesApart(both, both, HashId);
    CombineAtPlain(l, r, HashId);
  }

  /** A label both rows carry appears as label_x with the left cell and as label_y with the right one. */
  lemma CombineOverlap(l: Row, r: Row, c: Column)
    requires c in Overlap(l.Keys, r.Keys)
    ensures c + LeftSuffix in Combine(l, r) && Combine(l, r)[c + LeftSuffix] == l[c]
    ensures c + RightSuffix in Combine(l, r) && Combine(l, r)[c + RightSuffix] == r[c]
  {
    var both := Overlap(l.Keys, r.Keys);
    assert c + LeftSuffix in Suffixed(both, LeftSuffix);
    assert c + RightSuffix in Suffixed(both, RightSuffix);
    SuffixesApart(both, both, c + LeftSuffix);
    CombineKeys(l, r);
    CombineAtLeft(l, r, c + LeftSuffix);
    CombineAtRight(l, r, c + RightSuffix);
  }

  /** When no suffixed label clashes, a label only one row carries keeps that row's cell. */
  lemma CombineSingle(l: Row, r: Row, c: Column)
    requires SuffixesFree(l.Keys, r.Keys)
    requires (c in l && c !in r) || (c in r && c !in l && c != HashId)
    ensures c in Combine(l, r)
    ensures Combine(l, r)[c] == if c in l then l[c] else r[c]
  {
    assert c in (l.Keys + r.Keys) - Overlap(l.Keys, r.Keys);
    SuffixesApart(Overlap(l.Keys, r.Keys), Overlap(l.Keys, r.Keys), c);
    CombineKeys(l, r);
    CombineAtPlain(l, r, c);
  }

  /** Where each cell of the two rows ends up in the merged row. */
  lemma CombineCells(l: Row, r: Row)
    ensures Combine(l, r).Keys == MergedKeys(l.Keys, r.Keys)
    ensures HashId in l ==> HashId in Combine(l, r) && Combine(l, r)[HashId] == l[HashId]
    ensures forall c :: c in Overlap(l.Keys, r.Keys) ==>
      c + LeftSuffix in Combine(l, r) && Combine(l, r)[c + LeftSuffix] == l[c]
      && c + RightSuffix in Combine(l, r) && Combine(l, r)[c + RightSuffix] == r[c]
    ensures SuffixesFree(l.Keys, r.Keys) ==>
      (forall c :: c in l && c !in r ==> c in Combine(l, r) && Combine(l, r)[c] == l[c])
      && (forall c :: c in r && c !in l && c != HashId ==> c in Combine(l, r) && Combine(l, r)[c] == r[c])
  {
    CombineKeys(l, r);
    if HashId in l {
      CombineKey(l, r);
    }
    forall c | c in Overlap(l.Keys, r.Keys)
      ensures c + LeftSuffix in Combine(l, r) && Combine(l, r)[c + LeftSuffix] == l[c]
      ensures c + RightSuffix in Combine(l, r) && Combine(l, r)[c + RightSuffix] == r[c]
    {
      CombineOverlap(l, r, c);
    }
    if SuffixesFree(l.Keys, r.Keys) {
      forall c | (c in l && c !in r) || (c in r && c !in l && c != HashId)
        ensures c in Combine(l, r) && Combine(l, r)[c] == if c in l then l[c] else r[c]
      {
        CombineSingle(l, r, c);
      }
    }
  }

  /** The rows of right, in order, whose key equals that of l, each paired with l. */
  function MatchRow(l: Row, right: seq<Row>): seq<(Row, Row)>
  {
    if right == [] then []
    else
      (if Cell(l, HashId) == Cell(right[0], HashId) then [(l, right[0])] else [])
      + MatchRow(l, right[1..])
  }

  /** The pairs of rows with equal keys: for each left row in order, one per right row in order. */
  function MatchRows(left: seq<Row>, right: seq<Row>): seq<(Row, Row)>
  {
    if left == [] then [] else MatchRow(left[0], right) + MatchRows(left[1..], right)
  }

  function CombineAll(pairs: seq<(Row, Row)>): (rows: seq<Row>)
    ensures |rows| == |pairs|
    ensures forall k :: 0 <= k < |pairs| ==> rows[k] == Combine(pairs[k].0, pairs[k].1)
  {
    seq(|pairs|, k requires 0 <= k < |pairs| => Combine(pairs[k].0, pairs[k].1))
  }

  /** pd.merge(left, right, on="hash_id", how="inner") on the rows. */
  function InnerJoin(left: seq<Row>, right: seq<Row>): seq<Row>
  {
    CombineAll(MatchRows(left, right))
  }

  ghost predicate JoinedFrom(row: Row, left: seq<Row>, right: seq<Row>) {
    exists i, j :: 0 <= i < |left| && 0 <= j < |right|
      && Cell(left[i], HashId) == Cell(right[j], HashId)
      && row == Combine(left[i], right[j])
  }

  ghost predicate MatchedFrom(pair: (Row, Row), left: seq<Row>, right: seq<Row>) {
    exists i, j :: 0 <= i < |left| && 0 <= j < |right|
      && Cell(left[i], HashId) == Cell(right[j], HashId)
      && pair == (left[i], right[j])
  }

  lemma {:induction false} MatchRowMembership(l: Row, right: seq<Row>)
    ensures forall pair :: pair in MatchRow(l, right) <==>
      exists j :: 0 <= j < |right| && Cell(l, HashId) == Cell(right[j], HashId) && pair == (l, right[j])
  {
    if right != [] {
      MatchRowMembership(l, right[1..]);
      forall pair | (exists j :: 0 <= j < |right| && Cell(l, HashId) == Cell(right[j], HashId) && pair == (l, right[j]))
        ensures pair in MatchRow(l, right)
      {
        var j :| 0 <= j < |right| && Cell(l, HashId) == Cell(right[j], HashId) && pair == (l, right[j]);
        if j > 0 {
          assert right[j] == right[1..][j - 1];
        }
      }
      forall pair | pair in MatchRow(l, right[1..])
        ensures exists j :: 0 <= j < |right| && Cell(l, HashId) == Cell(right[j], HashId) && pair == (l, right[j])
      {
        var j :| 0 <= j < |right[1..]| && Cell(l, HashId) == Cell(right[1..][j], HashId) && pair == (l, right[1..][j]);
        assert right[1..][j] == right[j + 1];
      }
    }
  }

  /** A pair is matched exactly when it pairs a left row with a right row of equal key. */
  lemma {:induction false} MatchRowsMembership(left: seq<Row>, right: seq<Row>)
    ensures forall pair :: pair in MatchRows(left, right) <==> MatchedFrom(pair, left, right)
  {
    if left != [] {
      MatchRowsMembership(left[1..], right);
      MatchRowMembership(left[0], right);
      forall pair | MatchedFrom(pair, left, right) ensures pair in MatchRows(left, right) {
        var i, j :| 0 <= i < |left| && 0 <= j < |right|
          && Cell(left[i], HashId) == Cell(right[j], HashId) && pair == (left[i], right[j]);
        if i > 0 {
          assert left[i] == left[1..][i - 1];
          assert MatchedFrom(pair, left[1..], right);
        }
      }
      forall pair | pair in MatchRows(left[1..], right) ensures MatchedFrom(pair, left, right) {
        assert MatchedFrom(pair, left[1..], right);
        var i, j :| 0 <= i < |left[1..]| && 0 <= j < |right|
          && Cell(left[1..][i], HashId) == Cell(right[j], HashId) && pair == (left[1..][i], right[j]);
        assert left[1..][i] == left[i + 1];
      }
    }
  }

  /** A row is in the inner join exactly when it merges a left row with a right row of equal key. */
  lemma InnerJoinMembership(left: seq<Row>, right: seq<Row>)
    ensures forall row :: row in InnerJoin(left, right) <==> JoinedFrom(row, left, right)
  {
    var pairs := MatchRows(left, right);
    var rows := InnerJoin(left, right);
    MatchRowsMembership(left, right);
    forall row | row in rows ensures JoinedFrom(row, left, right) {
      var k :| 0 <= k < |rows| && rows[k] == row;
      assert pairs[k] in pairs;
      var i, j :| 0 <= i < |left| && 0 <= j < |right|
        && Cell(left[i], HashId) == Cell(right[j], HashId) && pairs[k] == (left[i], right[j]);
    }
    forall row | JoinedFrom(row, left, right) ensures row in rows {
      var i, j :| 0 <= i < |left| && 0 <= j < |right|
        && Cell(left[i], HashId) == Cell(right[j], HashId) && row == Combine(left[i], right[j]);
      assert MatchedFrom((left[i], right[j]), left, right);
      var k :| 0 <= k < |pairs| && pairs[k] == (left[i], right[j]);
      assert rows[k] == row;
    }
  }

  /** The columns of the merged frame, suffixed where both frames carry a label. */
  function JoinColumns(left: Frame, right: Frame): set<Column> {
    MergedKeys(left.columns, right.columns)
  }

  /** Rename the partner's columns, then inner-join on hash_id. */
  function JoinWithPartner(our: Frame, partner: Frame): (f: Frame)
    ensures f == Frame(JoinColumns(our, RenamePartner(partner)), InnerJoin(our.rows, RenamePartner(partner).rows))
  {
    var renamed := RenamePartner(partner);
    Frame(JoinColumns(our, renamed), InnerJoin(our.rows, renamed.rows))
  }

  /**
   * The cells a row merged from our row o and the partner row p carries: a
   * partner cell c sits under partner_c, or, when we hold a partner_c column
   * too, under partner_c_y beside our own cell under partner_c_x; each of our
   * other cells keeps its label. Unsuffixed labels are promised only when no
   * suffixed label clashes.
   */
  ghost predicate CarriesCells(row: Row, o: Row, p: Row) {
    (forall c :: c in p && c != HashId && PartnerPrefix + c in o ==>
      PartnerPrefix + c + LeftSuffix in row && row[PartnerPrefix + c + LeftSuffix] == o[PartnerPrefix + c]
      && PartnerPrefix + c + RightSuffix in row && row[PartnerPrefix + c + RightSuffix] == p[c])
    && (SuffixesFree(o.Keys, RenameRow(p).Keys) ==>
      (forall c :: c in p && c != HashId && PartnerPrefix + c !in o ==>
        PartnerPrefix + c in row && row[PartnerPrefix + c] == p[c])
      && (forall c :: c in o && c !in RenameRow(p) ==> c in row && row[c] == o[c]))
  }

  /** One merged row, for a partner row that has the key: its labels, its key, and where every other cell went. */
  lemma CombineRenamed(o: Row, p: Row)
    requires HashId in o && HashId in p
    ensures Combine(o, RenameRow(p)).Keys == MergedKeys(o.Keys, RenameRow(p).Keys)
    ensures Combine(o, RenameRow(p))[HashId] == o[HashId]
    ensures CarriesCells(Combine(o, RenameRow(p)), o, p)
  {
    CombineKeys(o, RenameRow(p));
    CombineKey(o, RenameRow(p));
    CarriesOverlapping(o, p);
    if SuffixesFree(o.Keys, RenameRow(p).Keys) {
      CarriesPartnerPlain(o, p);
      CarriesOurPlain(o, p);
    }
  }

  lemma CarriesOverlapping(o: Row, p: Row)
    ensures forall c :: c in p && c != HashId && PartnerPrefix + c in o ==>
      PartnerPrefix + c + LeftSuffix in Combine(o, RenameRow(p))
      && Combine(o, RenameRow(p))[PartnerPrefix + c + LeftSuffix] == o[PartnerPrefix + c]
      && PartnerPrefix + c + RightSuffix in Combine(o, RenameRow(p))
      && Combine(o, RenameRow(p))[PartnerPrefix + c + RightSuffix] == p[c]
  {
    var rr := RenameRow(p);
    forall c | c in p && c != HashId && PartnerPrefix + c in o
      ensures PartnerPrefix + c + LeftSuffix in Combine(o, rr) && Combine(o, rr)[PartnerPrefix + c + LeftSuffix] == o[PartnerPrefix + c]
      ensures PartnerPrefix + c + RightSuffix in Combine(o, rr) && Combine(o, rr)[PartnerPrefix + c + RightSuffix] == p[c]
    {
      RenamedLabel(p, c);
      assert PartnerPrefix + c in Overlap(o.Keys, rr.Keys);
      CombineOverlap(o, rr, PartnerPrefix + c);
    }
  }

  lemma CarriesPartnerPlain(o: Row, p: Row)
    requires SuffixesFree(o.Keys, RenameRow(p).Keys)
    ensures forall c :: c in p && c != HashId && PartnerPrefix + c !in o ==>
      PartnerPrefix + c in Combine(o, RenameRow(p)) && Combine(o, RenameRow(p))[PartnerPrefix + c] == p[c]
  {
    var rr := RenameRow(p);
    forall c | c in p && c != HashId && PartnerPrefix + c !in o
      ensures PartnerPrefix + c in Combine(o, rr) && Combine(o, rr)[PartnerPrefix + c] == p[c]
    {
      RenamedLabel(p, c);
      CombineSingle(o, rr, PartnerPrefix + c);
    }
  }

  lemma CarriesOurPlain(o: Row, p: Row)
    requires SuffixesFree(o.Keys, RenameRow(p).Keys)
    ensures forall c :: c in o && c !in RenameRow(p) ==> c in Combine(o, RenameRow(p)) && Combine(o, RenameRow(p))[c] == o[c]
  {
    var rr := RenameRow(p);
    forall c | c in o && c !in rr ensures c in Combine(o, rr) && Combine(o, rr)[c] == o[c] {
      CombineSingle(o, rr, c);
    }
  }

  /** The partner's cell c is renamed to partner_c, which is not the key. */
  lemma RenamedLabel(p: Row, c: Column)
    requires c in p && c != HashId
    ensures PartnerPrefix + c in RenameRow(p) && RenameRow(p)[PartnerPrefix + c] == p[c]
    ensures PartnerPrefix + c != HashId
  {
    assert PartnerName(c) == PartnerPrefix + c;
    assert (PartnerPrefix + c)[0] == 'p';
  }

  /** row merges our row o with the partner row p, both of which have the same hash_id. */
  ghost predicate MergedFrom(row: Row, o: Row, p: Row) {
    HashId in o && HashId in p && o[HashId] == p[HashId] && row == Combine(o, RenameRow(p))
  }

  /**
   * What the merged frame holds: every row merges one of our rows with one
   * partner row of the same hash_id; it keeps our cells, carries the partner's
   * other cells under "partner_" names, and has exactly the merged frame's columns.
   */
  lemma JoinWithPartnerSound(our: Frame, partner: Frame, row: Row)
    requires WellFormed(our) && WellFormed(partner)
    requires HashId in our.columns && HashId in partner.columns
    requires row in JoinWithPartner(our, partner).rows
    ensures exists i, j :: (0 <= i < |our.rows| && 0 <= j < |partner.rows|
      && MergedFrom(row, our.rows[i], partner.rows[j]))
    ensures row.Keys == JoinWithPartner(our, partner).columns
  {
    var renamed := RenamePartner(partner);
    InnerJoinMembership(our.rows, renamed.rows);
    var i, j :| 0 <= i < |our.rows| && 0 <= j < |renamed.rows|
      && Cell(our.rows[i], HashId) == Cell(renamed.rows[j], HashId) && row == Combine(our.rows[i], renamed.rows[j]);
    var o, p := our.rows[i], partner.rows[j];
    assert o in our.rows && p in partner.rows;
    assert renamed.rows[j] == RenameRow(p);
    CombineRenamed(o, p);
    assert PartnerName(HashId) == HashId;
    assert MergedFrom(row, o, p);
  }

  /** Every pair of rows with equal hash_id gives a merged row: no match is lost. */
  lemma JoinWithPartnerComplete(our: Frame, partner: Frame, i: nat, j: nat)
    requires i < |our.rows| && j < |partner.rows|
    requires Cell(our.rows[i], HashId) == Cell(partner.rows[j], HashId)
    ensures Combine(our.rows[i], RenameRow(partner.rows[j])) in JoinWithPartner(our, partner).rows
  {
    var renamed := RenamePartner(partner);
    InnerJoinMembership(our.rows, renamed.rows);
    var rr := RenameRow(partner.rows[j]);
    RenamedKeyCell(partner.rows[j]);
    assert JoinedFrom(Combine(our.rows[i], rr), our.rows, renamed.rows);
  }

  /** Renaming leaves the key cell as it is. */
  lemma RenamedKeyCell(r: Row)
    ensures Cell(RenameRow(r), HashId) == Cell(r, HashId)
  {
    assert PartnerName(HashId) == HashId;
    if HashId in RenameRow(r) {
      PartnerNameInjective();
    }
  }
}
