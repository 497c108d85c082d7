/**
 * The client's local MERGE_RECORDS table (Client/id_database.py): for each
 * merge request ID, the CID of this user's uploaded data and the CID the
 * partner sent, either of which may still be NULL. request_id is the primary
 * key; the table is a dict from request ID to the two CIDs, in insertion
 * order (nothing is ever deleted from it).
 */
module CidStore {
  import opened Wrappers
  import opened Dicts

  /** (my_cid, partner_cid); NULL is None. */
  datatype MergeRecord = MergeRecord(myCid: Option<string>, partnerCid: Option<string>)

  /** A row of get_all_merge_records: (request_id, my_cid, partner_cid). */
  datatype RecordRow = RecordRow(requestId: string, myCid: Option<string>, partnerCid: Option<string>)

  type Records = Dict<string, MergeRecord>

  /** record_my_cid: UPDATE my_cid of an existing row, or INSERT (id, cid, NULL). */
  function UpsertMyCid(d: Records, id: string, cid: string): (r: Records)
    ensures id in r.entries
  {
    if id in d.entries then Put(d, id, d.entries[id].(myCid := Some(cid)))
    else Put(d, id, MergeRecord(Some(cid), None))
  }

  /** record_partner_cid: UPDATE partner_cid of an existing row, or INSERT (id, NULL, cid). */
  function UpsertPartnerCid(d: Records, id: string, cid: string): (r: Records)
    ensures id in r.entries
  {
    if id in d.entries then Put(d, id, d.entries[id].(partnerCid := Some(cid)))
    else Put(d, id, MergeRecord(None, Some(cid)))
  }

  /** get_merge_record: the stored pair, or (None, None) for an unknown ID. */
  function Lookup(d: Records, id: string): MergeRecord {
    if id in d.entries then d.entries[id] else MergeRecord(None, None)
  }

  /** get_all_merge_records: every row, in table order. */
  function AllRows(d: Records): (rows: seq<RecordRow>)
    ensures |rows| == |d.order|
  {
    seq(|d.order|, i requires 0 <= i < |d.order| =>
      RecordRow(d.order[i], d.entries[d.order[i]].myCid, d.entries[d.order[i]].partnerCid))
  }

  /** After recording my CID, the record holds it, and the partner's CID is what it was (None on a new row). */
  lemma RecordMyCidThenGet(d: Records, id: string, cid: string)
    ensures Lookup(UpsertMyCid(d, id, cid), id) == MergeRecord(Some(cid), Lookup(d, id).partnerCid)
  {
  }

  /** After recording the partner's CID, the record holds it, and my CID is what it was. */
  lemma RecordPartnerCidThenGet(d: Records, id: string, cid: string)
    ensures Lookup(UpsertPartnerCid(d, id, cid), id) == MergeRecord(Lookup(d, id).myCid, Some(cid))
  {
  }

  /** Neither upsert touches the record of another request, nor adds any ID but its own. */
  lemma UpsertsKeepOthers(d: Records, id: string, cid: string, other: string)
    requires other != id
    ensures Lookup(UpsertMyCid(d, id, cid), other) == Lookup(d, other)
    ensures Lookup(UpsertPartnerCid(d, id, cid), other) == Lookup(d, other)
    ensures other in UpsertMyCid(d, id, cid).entries <==> other in d.entries
    ensures other in UpsertPartnerCid(d, id, cid).entries <==> other in d.entries
  {
  }

  /** Recording the same CID twice is the same as recording it once. */
  lemma UpsertsIdempotent(d: Records, id: string, cid: string)
    ensures UpsertMyCid(UpsertMyCid(d, id, cid), id, cid) == UpsertMyCid(d, id, cid)
    ensures UpsertPartnerCid(UpsertPartnerCid(d, id, cid), id, cid) == UpsertPartnerCid(d, id, cid)
  {
    var once := UpsertMyCid(d, id, cid);
    assert once.entries[id := once.entries[id].(myCid := Some(cid))] == once.entries;
    var twice := UpsertPartnerCid(d, id, cid);
    assert twice.entries[id := twice.entries[id].(partnerCid := Some(cid))] == twice.entries;
  }

  /** The two CIDs of a request are independent: recording them in either order gives the same table. */
  lemma UpsertsCommute(d: Records, id: string, mine: string, theirs: string)
    ensures UpsertPartnerCid(UpsertMyCid(d, id, mine), id, theirs) == UpsertMyCid(UpsertPartnerCid(d, id, theirs), id, mine)
  {
  }

  /** get_all_merge_records lists every stored request once, with the CIDs get_merge_record gives. */
  lemma AllRowsSpec(d: Records)
    ensures forall i :: 0 <= i < |AllRows(d)| ==>
      AllRows(d)[i].requestId in d.entries
      && Lookup(d, AllRows(d)[i].requestId) == MergeRecord(AllRows(d)[i].myCid, AllRows(d)[i].partnerCid)
    ensures forall id :: id in d.entries ==> exists i :: 0 <= i < |AllRows(d)| && AllRows(d)[i].requestId == id
    ensures forall i, j :: 0 <= i < j < |AllRows(d)| ==> AllRows(d)[i].requestId != AllRows(d)[j].requestId
  {
    var rows := AllRows(d);
    forall id | id in d.entries
      ensures exists i :: 0 <= i < |rows| && rows[i].requestId == id
    {
      var i :| 0 <= i < |d.order| && d.order[i] == id;
      assert rows[i].requestId == id;
    }
  }

  class LocalDBManager {
    var records: Records

    /** The table as stored in the database file; CREATE TABLE IF NOT EXISTS keeps it. */
    constructor(stored: Records)
      ensures records == stored
    {
      records := stored;
    }

    /** record_my_cid; the select-then-update-or-insert always succeeds here. */
    method RecordMyCid(requestId: string, myCid: string) returns (ok: bool)
      modifies this
      ensures ok && records == UpsertMyCid(old(records), requestId, myCid)
    {
      if requestId in records.entries {
        records := Put(records, requestId, records.entries[requestId].(myCid := Some(myCid)));
      } else {
        records := Put(records, requestId, MergeRecord(Some(myCid), None));
      }
      ok := true;
    }

    /** record_partner_cid */
    method RecordPartnerCid(requestId: string, partnerCid: string) returns (ok: bool)
      modifies this
      ensures ok && records == UpsertPartnerCid(old(records), requestId, partnerCid)
    {
      if requestId in records.entries {
        records := Put(records, requestId, records.entries[requestId].(partnerCid := Some(partnerCid)));
      } else {
        records := Put(records, requestId, MergeRecord(None, Some(partnerCid)));
      }
      ok := true;
    }

    /** get_merge_record: (my_cid, partner_cid), or (None, None) for an unknown ID. */
    method GetMergeRecord(requestId: string) returns (myCid: Option<string>, partnerCid: Option<string>)
      ensures requestId in records.entries ==>
        myCid == records.entries[requestId].myCid && partnerCid == records.entries[requestId].partnerCid
      ensures requestId !in records.entries ==> myCid == None && partnerCid == None
    {
      if requestId in records.entries {
        var record := records.entries[requestId];
        myCid, partnerCid := record.myCid, record.partnerCid;
      } else {
        myCid, partnerCid := None, None;
      }
    }

    /** get_all_merge_records: one row per stored request, in table order. */
    method GetAllMergeRecords() returns (rows: seq<RecordRow>)
      ensures |rows| == |records.order|
      ensures forall i :: 0 <= i < |rows| ==>
        rows[i].requestId == records.order[i]
        && MergeRecord(rows[i].myCid, rows[i].partnerCid) == records.entries[records.order[i]]
      ensures rows == AllRows(records)
    {
      rows := AllRows(records);
    }
  }
}
