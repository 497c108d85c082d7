/**
 * ClientB's REQUESTS_CID table (ClientB/Request.py): a row per merge request
 * the client has been told about, with two CID columns that default to "".
 * REQUEST_ID is the primary key; the table is a dict from request ID to the
 * two CIDs, in insertion order.
 */
module RequestStore {
  import opened Wrappers
  import opened Dicts

  /** (CID1, CID2) */
  datatype CidPair = CidPair(cid1: string, cid2: string)

  type RequestRows = Dict<string, CidPair>

  /** The printed message of a duplicate createRequest. */
  const DuplicateMessage := "Request already Exists"

  /** createRequest: INSERT (id) with both CIDs at their default; a taken ID inserts nothing. */
  function CreateRow(d: RequestRows, id: string): (r: RequestRows)
    ensures id in r.entries
  {
    if id in d.entries then d else Put(d, id, CidPair("", ""))
  }

  /** insertCID: UPDATE CID1 WHERE REQUEST_ID = id, which matches at most one row. */
  function SetCid1(d: RequestRows, cid: string, id: string): (r: RequestRows)
    ensures r.order == d.order && r.entries.Keys == d.entries.Keys
  {
    if id in d.entries then Put(d, id, d.entries[id].(cid1 := cid)) else d
  }

  /** A new request gets empty CIDs; a known one is left as it was; no other row changes. */
  lemma CreateRowSpec(d: RequestRows, id: string, other: string)
    ensures id !in d.entries ==> CreateRow(d, id).entries[id] == CidPair("", "") && CreateRow(d, id).order == d.order + [id]
    ensures id in d.entries ==> CreateRow(d, id) == d
    ensures other != id ==> (other in CreateRow(d, id).entries <==> other in d.entries)
    ensures other != id && other in d.entries ==> CreateRow(d, id).entries[other] == d.entries[other]
  {
  }

  /** Creating the same request twice is the same as creating it once. */
  lemma CreateRowIdempotent(d: RequestRows, id: string)
    ensures CreateRow(CreateRow(d, id), id) == CreateRow(d, id)
  {
  }

  /**
   * insertCID sets CID1 of the matching row and keeps its CID2; an unknown
   * ID changes nothing; other rows are kept.
   */
  lemma SetCid1Spec(d: RequestRows, cid: string, id: string, other: string)
    ensures id in d.entries ==> SetCid1(d, cid, id).entries[id] == CidPair(cid, d.entries[id].cid2)
    ensures id !in d.entries ==> SetCid1(d, cid, id) == d
    ensures other != id && other in d.entries ==> SetCid1(d, cid, id).entries[other] == d.entries[other]
  {
  }

  /** A CID stored for a newly created request is read back with an empty CID2. */
  lemma CreateThenSetCid1(d: RequestRows, cid: string, id: string)
    requires id !in d.entries
    ensures SetCid1(CreateRow(d, id), cid, id).entries[id] == CidPair(cid, "")
  {
    CreateRowSpec(d, id, id);
    SetCid1Spec(CreateRow(d, id), cid, id, id);
  }

  class RequestDataBase {
    var rows: RequestRows

    /** The table as stored in Request.db; __init__ runs init_dataBase, which keeps it. */
    constructor(stored: RequestRows)
      ensures rows == stored
    {
      rows := stored;
    }

    /** init_dataBase: CREATE TABLE IF NOT EXISTS, so running it again changes nothing. */
    method InitDatabase()
      modifies this
      ensures rows == old(rows)
    {
    }

    /** createRequest: the IntegrityError of a taken ID is caught and printed. */
    method CreateRequest(requestId: string) returns (logged: Option<string>)
      modifies this
      ensures rows == CreateRow(old(rows), requestId)
      ensures logged == if requestId in old(rows.entries) then Some(DuplicateMessage) else None
    {
      if requestId in rows.entries {
        logged := Some(DuplicateMessage);
      } else {
        rows := Put(rows, requestId, CidPair("", ""));
        logged := None;
      }
    }

    /** insertCID */
    method InsertCid(cid: string, requestId: string)
      modifies this
      ensures rows == SetCid1(old(rows), cid, requestId)
    {
      if requestId in rows.entries {
        rows := Put(rows, requestId, rows.entries[requestId].(cid1 := cid));
      }
    }
  }
}
