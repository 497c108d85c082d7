/**
 * The server's MERGE_REQUESTS table (Server/MergeRequest.py). REQUESTS_ID is
 * the primary key; each row names the two users of a merge and whether each
 * has confirmed it. The sqlite table is a dict from request ID to row, kept in
 * insertion order (the order in which sqlite returns rows of a table that is
 * never deleted from); the user table it consults is a UserDb.UserTable.
 */
module MergeRequests {
  import opened Wrappers
  import opened Dicts
  import opened UserDb

  /** USER1_ID, USER2_ID, USER1_CONFIRM, USER2_CONFIRM. */
  datatype MergeRow = MergeRow(user1: string, user2: string, confirm1: bool, confirm2: bool)

  /** The exceptions the three operations raise, each with its message below. */
  datatype MergeError =
    | UserDoesNotExist    // ValueError, createMergeRequest
    | SameUsername        // ValueError, createMergeRequest
    | RequestExists       // sqlite3.IntegrityError re-raised, createMergeRequest
    | RequestNotFound     // ValueError, caught in confirmMergeRequest
    | NotParticipant      // ValueError, caught in confirmMergeRequest
    | NoRequests          // ValueError, caught in checkAllMergeRequest

  /** str(e) for each error. */
  function ErrorText(e: MergeError): string {
    match e
    case UserDoesNotExist => "user does not exists"
    case SameUsername => "username cant be the same"
    case RequestExists => "Requests Exists"
    case RequestNotFound => "Request ID not found."
    case NotParticipant => "User is not part of this merge request."
    case NoRequests => "You dont have a single request"
  }

  type Requests = Dict<string, MergeRow>

  /** WHERE USER1_ID = u OR USER2_ID = u */
  predicate Involves(row: MergeRow, u: string) {
    row.user1 == u || row.user2 == u
  }

  /**
   * createMergeRequest against the table rs, with users the USER table:
   * an unknown user is reported first, then equal names, then a taken ID;
   * otherwise a row with both flags false is added at the end.
   */
  function Create(rs: Requests, users: map<string, string>, user1: string, user2: string, id: string)
    : (r: Result<Requests, MergeError>)
    ensures user1 !in users || user2 !in users ==> r == Failure(UserDoesNotExist)
    ensures user1 in users && user2 in users && user1 == user2 ==> r == Failure(SameUsername)
    ensures user1 in users && user2 in users && user1 != user2 && id in rs.entries ==> r == Failure(RequestExists)
    ensures r.Success? <==> user1 in users && user2 in users && user1 != user2 && id !in rs.entries
    ensures r.Success? ==> r.value.entries == rs.entries[id := MergeRow(user1, user2, false, false)]
    ensures r.Success? ==> r.value.order == rs.order + [id]
  {
    if !(user1 in users && user2 in users) then Failure(UserDoesNotExist)
    else if user1 == user2 then Failure(SameUsername)
    else if id in rs.entries then Failure(RequestExists)
    else Success(Put(rs, id, MergeRow(user1, user2, false, false)))
  }

  /**
   * confirmMergeRequest: the participant's own flag is set, USER1 being
   * checked before USER2; an unknown ID or an outsider is an error.
   */
  function Confirm(rs: Requests, id: string, u: string): (r: Result<Requests, MergeError>)
    ensures id !in rs.entries ==> r == Failure(RequestNotFound)
    ensures id in rs.entries && !Involves(rs.entries[id], u) ==> r == Failure(NotParticipant)
    ensures r.Success? <==> id in rs.entries && Involves(rs.entries[id], u)
    ensures r.Success? ==> r.value.order == rs.order
  {
    if id !in rs.entries then Failure(RequestNotFound)
    else
      var row := rs.entries[id];
      if u == row.user1 then Success(Put(rs, id, row.(confirm1 := true)))
      else if u == row.user2 then Success(Put(rs, id, row.(confirm2 := true)))
      else Failure(NotParticipant)
  }

  /** The IDs among ids whose row in rows involves u, in the order of ids. */
  function Involving(ids: seq<string>, rows: map<string, MergeRow>, u: string): (r: seq<string>)
    ensures forall id :: id in r <==> id in ids && id in rows && Involves(rows[id], u)
    ensures Distinct(ids) ==> Distinct(r)
  {
    if ids == [] then []
    else
      var last := ids[|ids| - 1];
      var rest := Involving(ids[..|ids| - 1], rows, u);
      assert Distinct(ids) ==> Distinct(ids[..|ids| - 1]) && last !in ids[..|ids| - 1];
      if last in rows && Involves(rows[last], u) then rest + [last] else rest
  }

  /** The REQUESTS_ID column of the rows checkAllMergeRequest selects. */
  function RequestsOf(rs: Requests, u: string): seq<string> {
    Involving(rs.order, rs.entries, u)
  }

  /** checkAllMergeRequest lists each request of u exactly once and no other. */
  lemma RequestsOfSpec(rs: Requests, u: string)
    ensures Distinct(RequestsOf(rs, u))
    ensures forall id :: id in RequestsOf(rs, u) <==> id in rs.entries && Involves(rs.entries[id], u)
  {
  }

  /**
   * Replacing the row of id by one with the same two users, or adding a row
   * for an id not listed, does not change which listed IDs involve u.
   */
  lemma {:induction false} InvolvingUpdate(ids: seq<string>, rows: map<string, MergeRow>, id: string, row: MergeRow, u: string)
    requires id !in ids || (id in rows && rows[id].user1 == row.user1 && rows[id].user2 == row.user2)
    ensures Involving(ids, rows[id := row], u) == Involving(ids, rows, u)
  {
    if ids != [] {
      InvolvingUpdate(ids[..|ids| - 1], rows, id, row, u);
    }
  }

  /** A created request is listed for both its users, after their earlier ones; nobody else's list changes. */
  lemma CreateThenListed(rs: Requests, users: map<string, string>, user1: string, user2: string, id: string, u: string)
    requires Create(rs, users, user1, user2, id).Success?
    ensures var after := Create(rs, users, user1, user2, id).value;
      RequestsOf(after, u) == if u == user1 || u == user2 then RequestsOf(rs, u) + [id] else RequestsOf(rs, u)
  {
    var after := Create(rs, users, user1, user2, id).value;
    var row := MergeRow(user1, user2, false, false);
    InvolvingUpdate(rs.order, rs.entries, id, row, u);
    assert after.order[..|after.order| - 1] == rs.order;
  }

  /**
   * A successful confirm sets exactly the confirming user's flag of that
   * row: USER1_CONFIRM when u is USER1_ID, else USER2_CONFIRM. Every other
   * field and every other row is kept.
   */
  lemma ConfirmSetsOwnFlag(rs: Requests, id: string, u: string, other: string)
    requires Confirm(rs, id, u).Success?
    ensures var after := Confirm(rs, id, u).value.entries; var row := rs.entries[id];
      id in after && after[id] == (if u == row.user1 then row.(confirm1 := true) else row.(confirm2 := true))
    ensures var after := Confirm(rs, id, u).value.entries;
      other != id ==> (other in after <==> other in rs.entries) && (other in rs.entries ==> after[other] == rs.entries[other])
  {
  }

  /** Confirming twice is the same as confirming once. */
  lemma ConfirmIdempotent(rs: Requests, id: string, u: string)
    requires Confirm(rs, id, u).Success?
    ensures Confirm(Confirm(rs, id, u).value, id, u) == Confirm(rs, id, u)
  {
    var once := Confirm(rs, id, u).value;
    var row := rs.entries[id];
    assert once.entries[id] == (if u == row.user1 then row.(confirm1 := true) else row.(confirm2 := true));
    assert once.entries[id := once.entries[id]] == once.entries;
  }

  /** A confirm never changes anybody's list of requests. */
  lemma ConfirmKeepsRequestsOf(rs: Requests, id: string, u: string, v: string)
    requires Confirm(rs, id, u).Success?
    ensures RequestsOf(Confirm(rs, id, u).value, v) == RequestsOf(rs, v)
  {
    var row := rs.entries[id];
    var row' := if u == row.user1 then row.(confirm1 := true) else row.(confirm2 := true);
    InvolvingUpdate(rs.order, rs.entries, id, row', v);
  }

  /** Every row names two different users who are both in the USER table. */
  ghost predicate Valid(rs: Requests, users: map<string, string>) {
    forall id :: id in rs.entries ==>
      rs.entries[id].user1 != rs.entries[id].user2 && rs.entries[id].user1 in users && rs.entries[id].user2 in users
  }

  /** Create and confirm keep every row between two different, registered users. */
  lemma OperationsKeepValid(rs: Requests, users: map<string, string>, user1: string, user2: string, id: string, u: string)
    requires Valid(rs, users)
    ensures Create(rs, users, user1, user2, id).Success? ==> Valid(Create(rs, users, user1, user2, id).value, users)
    ensures Confirm(rs, id, u).Success? ==> Valid(Confirm(rs, id, u).value, users)
  {
  }

  class MergeRequestTable {
    var requests: Requests
    const database: UserTable

    /** The table as stored in mergeRequest.db; CREATE TABLE IF NOT EXISTS keeps it. */
    constructor(database: UserTable, stored: Requests)
      ensures this.database == database && requests == stored
    {
      this.database := database;
      requests := stored;
    }

    /**
     * createMergeRequest: raises the first failing check and changes
     * nothing, or inserts the new unconfirmed row.
     */
    method CreateMergeRequest(username1: string, username2: string, requestID: string) returns (r: Result<(), MergeError>)
      modifies this
      ensures var c := Create(old(requests), database.users, username1, username2, requestID);
        r == (if c.Success? then Success(()) else Failure(c.error))
        && requests == (if c.Success? then c.value else old(requests))
    {
      var found1 := database.SearchUser(username1);
      var found2 := false;
      if found1 {
        found2 := database.SearchUser(username2);
      }
      if !(found1 && found2) {
        return Failure(UserDoesNotExist);
      }
      if username1 == username2 {
        return Failure(SameUsername);
      }
      if requestID in requests.entries {
        return Failure(RequestExists);
      }
      requests := Put(requests, requestID, MergeRow(username1, username2, false, false));
      r := Success(());
    }

    /**
     * confirmMergeRequest: the error is printed, not raised, so the caller
     * sees no failure; logged is the error printed, if any.
     */
    method ConfirmMergeRequest(requestID: string, username: string) returns (logged: Option<MergeError>)
      modifies this
      ensures var c := Confirm(old(requests), requestID, username);
        logged == (if c.Success? then None else Some(c.error))
        && requests == (if c.Success? then c.value else old(requests))
    {
      if requestID !in requests.entries {
        return Some(RequestNotFound);
      }
      var row := requests.entries[requestID];
      if username == row.user1 {
        requests := Put(requests, requestID, row.(confirm1 := true));
        logged := None;
      } else if username == row.user2 {
        requests := Put(requests, requestID, row.(confirm2 := true));
        logged := None;
      } else {
        logged := Some(NotParticipant);
      }
    }

    /**
     * checkAllMergeRequest: the IDs of u's requests in table order, or None
     * (with the error printed) when u has none.
     */
    method CheckAllMergeRequest(username: string) returns (ids: Option<seq<string>>, logged: Option<MergeError>)
      ensures ids.Some? <==> exists id :: id in requests.entries && Involves(requests.entries[id], username)
      ensures ids.Some? ==> ids.value == RequestsOf(requests, username) && ids.value != []
      ensures ids.None? ==> RequestsOf(requests, username) == []
      ensures ids.Some? ==> Distinct(ids.value)
      ensures ids.Some? ==> forall id :: id in ids.value <==> id in requests.entries && Involves(requests.entries[id], username)
      ensures logged == if ids.None? then Some(NoRequests) else None
    {
      var found := RequestsOf(requests, username);
      RequestsOfSpec(requests, username);
      if found == [] {
        ids, logged := None, Some(NoRequests);
      } else {
        assert found[0] in found;
        ids, logged := Some(found), None;
      }
    }
  }
}
