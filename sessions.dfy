/**
 * One logged-in user's session on the server (Server/UserSession.py): the
 * menu loop of run and the options it dispatches to. The client socket is a
 * Channel holding the data strings the client will still send and the
 * messages sent to it so far; SHA-256 is the Hasher parameter.
 *
 * The session is specified by SessionRun, a function of the state the
 * session sees (a World): the channel, the online registry and the merge
 * request table. UserSession.Run is proved to end in the state and with the
 * ending SessionRun gives.
 */
module Sessions {
  import opened Wrappers
  import opened Strings
  import opened Dicts
  import opened Sha
  import opened Messages
  import opened Online
  import opened MergeRequests
  import opened Seqs

  // ---------------------------------------------------------------- request IDs

  /** sorted([a, b]) for two Python strings. */
  function SortedPair(a: string, b: string): (p: (string, string))
    ensures LexLessEq(p.0, p.1)
    ensures (p.0 == a && p.1 == b) || (p.0 == b && p.1 == a)
  {
    LexTotal(a, b);
    if LexLessEq(a, b) then (a, b) else (b, a)
  }

  /** The request ID option2 derives: the SHA-256 hex digest of f"{lo}_{hi}". */
  function RequestId(sha: Hasher, a: string, b: string): (id: string)
    ensures |id| == 64 && IsHexString(id)
  {
    var p := SortedPair(a, b);
    HexDigest(sha(p.0 + "_" + p.1))
  }

  /** Either user of a pair derives the same sorted pair and so the same ID. */
  lemma RequestIdSymmetric(sha: Hasher, a: string, b: string)
    ensures SortedPair(a, b) == SortedPair(b, a)
    ensures RequestId(sha, a, b) == RequestId(sha, b, a)
  {
    LexTotal(a, b);
    if LexLessEq(a, b) && LexLessEq(b, a) {
      LexAntisymmetric(a, b);
    }
  }

  // ---------------------------------------------------------------- the session as a function

  /** How run ends: break after 'Q', an exception from recv/decode, or the KeyError of a logout. */
  datatype End = LoggedOut | Disconnected | Aborted(error: RegistryError)

  datatype Status = Running | Ended(end: End)

  /** What a session reads and changes. */
  datatype World = World(inbox: seq<string>, sent: seq<Message>, online: Dict<string, Connection>, requests: Requests)

  function Send(w: World, m: Message): World {
    w.(sent := w.sent + [m])
  }

  /** The menu sent at the top of every round, asking for a reply. */
  function Menu(): Message {
    Info(GetInitUI(), true)
  }

  /**
   * option2: ask for the partner, create the request for the sorted pair
   * under its derived ID, and report a failure to the client.
   */
  function Option2Spec(sha: Hasher, username: string, users: map<string, string>, w: World): (r: (World, Status))
    ensures |r.0.inbox| <= |w.inbox| && r.0.online == w.online && w.sent <= r.0.sent
  {
    var w1 := Send(w, Info("Merge Partner:", true));
    if w1.inbox == [] then (w1, Ended(Disconnected))
    else
      var partner := w1.inbox[0];
      var w2 := w1.(inbox := w1.inbox[1..]);
      var p := SortedPair(username, partner);
      var c := Create(w2.requests, users, p.0, p.1, RequestId(sha, username, partner));
      if c.Success? then (w2.(requests := c.value), Running)
      else (Send(w2, Info(ErrorText(c.error), false)), Running)
  }

  /**
   * option3: the user's request IDs joined by newlines; with none, the
   * join of None raises, which option3 catches, so nothing is sent.
   */
  function Option3Spec(username: string, w: World): (r: World)
    ensures r.inbox == w.inbox && r.online == w.online && r.requests == w.requests && w.sent <= r.sent
  {
    var ids := RequestsOf(w.requests, username);
    if ids == [] then w else Send(w, Info(Join(ids, "\n"), false))
  }

  /** option4: ask for an ID, confirm it, and report success in every case. */
  function Option4Spec(username: string, w: World): (r: (World, Status))
    ensures |r.0.inbox| <= |w.inbox| && r.0.online == w.online && w.sent <= r.0.sent
  {
    var w1 := Send(w, Info("RequestsID:", true));
    if w1.inbox == [] then (w1, Ended(Disconnected))
    else
      var w2 := w1.(inbox := w1.inbox[1..]);
      var c := Confirm(w2.requests, w1.inbox[0], username);
      var w3 := if c.Success? then w2.(requests := c.value) else w2;
      (Send(w3, Info("Confirm success", false)), Running)
  }

  /** option5: ask for an ID and read it; nothing more is done. */
  function Option5Spec(w: World): (r: (World, Status))
    ensures |r.0.inbox| <= |w.inbox| && r.0.online == w.online && w.sent <= r.0.sent
  {
    var w1 := Send(w, Info("ReqeustsID", true));
    if w1.inbox == [] then (w1, Ended(Disconnected))
    else (w1.(inbox := w1.inbox[1..]), Running)
  }

  /** The options of the menu; any other string is invalid. */
  datatype Choice = ListOnline | SendRequest | CheckRequests | ConfirmRequest | StartMerge | Quit | Invalid

  /** The if/elif chain of run on the option string. */
  function ParseOption(option: string): Choice {
    if option == "1" then ListOnline
    else if option == "2" then SendRequest
    else if option == "3" then CheckRequests
    else if option == "4" then ConfirmRequest
    else if option == "5" then StartMerge
    else if option == "Q" then Quit
    else Invalid
  }

  /** 'Q': pop the user from the registry (KeyError when absent), then say goodbye. */
  function QuitSpec(username: string, w: World): (World, Status) {
    if username in w.online.entries then
      (Send(w.(online := Remove(w.online, username)), Info("Logging out...", false)), Ended(LoggedOut))
    else (w, Ended(Aborted(KeyError(username))))
  }

  /** What one option does, once it has been read. */
  function Dispatch(sha: Hasher, username: string, users: map<string, string>, choice: Choice, w: World): (r: (World, Status))
    ensures |r.0.inbox| <= |w.inbox|
    ensures r.0.online == w.online || (r.1 == Ended(LoggedOut) && username in w.online.entries && r.0.online == Remove(w.online, username))
    ensures w.sent <= r.0.sent
  {
    match choice
    case ListOnline => (Send(w, Info(Join(w.online.order, "\n"), false)), Running)
    case SendRequest => Option2Spec(sha, username, users, w)
    case CheckRequests => (Option3Spec(username, w), Running)
    case ConfirmRequest => Option4Spec(username, w)
    case StartMerge => Option5Spec(w)
    case Quit => QuitSpec(username, w)
    case Invalid => (Send(w, Info("Invalid option", false)), Running)
  }

  /** One round of the loop in run: the menu, the option, and what it does. */
  function Step(sha: Hasher, username: string, users: map<string, string>, w: World): (r: (World, Status))
    ensures |r.0.inbox| <= |w.inbox|
    ensures r.1.Running? ==> |r.0.inbox| < |w.inbox|
    ensures r.0.online == w.online || (r.1 == Ended(LoggedOut) && username in w.online.entries && r.0.online == Remove(w.online, username))
    ensures w.sent < r.0.sent
  {
    var w1 := Send(w, Menu());
    if w1.inbox == [] then (w1, Ended(Disconnected))
    else Dispatch(sha, username, users, ParseOption(w1.inbox[0]), w1.(inbox := w1.inbox[1..]))
  }

  /** run: rounds until one ends the session. */
  function SessionRun(sha: Hasher, username: string, users: map<string, string>, w: World): (World, End)
    decreases |w.inbox|
  {
    var s := Step(sha, username, users, w);
    if s.1.Running? then SessionRun(sha, username, users, s.0) else (s.0, s.1.end)
  }

  // ---------------------------------------------------------------- properties of a session

  /** 'Q' logs the user out and ends the loop; a user not online makes the pop raise KeyError instead. */
  lemma QuitEndsSession(sha: Hasher, username: string, users: map<string, string>, w: World)
    requires w.inbox != [] && w.inbox[0] == "Q"
    ensures username in w.online.entries ==> (SessionRun(sha, username, users, w) ==
      (World(w.inbox[1..], w.sent + [Menu(), Info("Logging out...", false)], Remove(w.online, username), w.requests), LoggedOut))
    ensures username !in w.online.entries ==> (SessionRun(sha, username, users, w) ==
      (World(w.inbox[1..], w.sent + [Menu()], w.online, w.requests), Aborted(KeyError(username))))
  {
    var w1 := Send(w, Menu());
    var w2 := w1.(inbox := w1.inbox[1..]);
    assert ParseOption(w.inbox[0]) == Quit;
    assert Step(sha, username, users, w) == QuitSpec(username, w2);
    AppendTwo(w.sent, Menu(), Info("Logging out...", false));
  }

  /** '1' lists the online users, one per line, and the loop goes on. */
  lemma ListOnlineContinues(sha: Hasher, username: string, users: map<string, string>, w: World)
    requires w.inbox != [] && w.inbox[0] == "1"
    ensures SessionRun(sha, username, users, w) == SessionRun(sha, username, users,
      World(w.inbox[1..], w.sent + [Menu(), Info(Join(w.online.order, "\n"), false)], w.online, w.requests))
  {
    var w1 := Send(w, Menu());
    var w2 := w1.(inbox := w1.inbox[1..]);
    assert ParseOption(w.inbox[0]) == ListOnline;
    assert Step(sha, username, users, w) == (Send(w2, Info(Join(w.online.order, "\n"), false)), Running);
    AppendTwo(w.sent, Menu(), Info(Join(w.online.order, "\n"), false));
  }

  /** Any other option is answered with "Invalid option" and the loop goes on. */
  lemma InvalidOptionContinues(sha: Hasher, username: string, users: map<string, string>, w: World)
    requires w.inbox != [] && ParseOption(w.inbox[0]) == Invalid
    ensures SessionRun(sha, username, users, w) == SessionRun(sha, username, users,
      World(w.inbox[1..], w.sent + [Menu(), Info("Invalid option", false)], w.online, w.requests))
  {
    var w1 := Send(w, Menu());
    var w2 := w1.(inbox := w1.inbox[1..]);
    assert Step(sha, username, users, w) == (Send(w2, Info("Invalid option", false)), Running);
    AppendTwo(w.sent, Menu(), Info("Invalid option", false));
  }

  /**
   * A request that cannot be created is reported to the client with the
   * error's text, the table is left alone and the loop goes on.
   */
  lemma CreateFailureReported(sha: Hasher, username: string, users: map<string, string>, w: World)
    requires |w.inbox| >= 2 && w.inbox[0] == "2"
    requires var p := SortedPair(username, w.inbox[1]);
      Create(w.requests, users, p.0, p.1, RequestId(sha, username, w.inbox[1])).Failure?
    ensures var p := SortedPair(username, w.inbox[1]);
      var e := Create(w.requests, users, p.0, p.1, RequestId(sha, username, w.inbox[1])).error;
      SessionRun(sha, username, users, w) == SessionRun(sha, username, users,
        World(w.inbox[2..], w.sent + [Menu(), Info("Merge Partner:", true), Info(ErrorText(e), false)], w.online, w.requests))
  {
    var w1 := Send(w, Menu());
    var w2 := w1.(inbox := w1.inbox[1..]);
    assert ParseOption(w.inbox[0]) == SendRequest;
    assert Step(sha, username, users, w) == Option2Spec(sha, username, users, w2);
    var p := SortedPair(username, w.inbox[1]);
    var e := Create(w.requests, users, p.0, p.1, RequestId(sha, username, w.inbox[1])).error;
    DropTwo(w.inbox);
    AppendThree(w.sent, Menu(), Info("Merge Partner:", true), Info(ErrorText(e), false));
  }

  /** Option 4 reports "Confirm success" whether or not the confirm took effect. */
  lemma ConfirmAlwaysReportsSuccess(sha: Hasher, username: string, users: map<string, string>, w: World)
    requires |w.inbox| >= 2 && w.inbox[0] == "4"
    ensures var c := Confirm(w.requests, w.inbox[1], username);
      SessionRun(sha, username, users, w) == SessionRun(sha, username, users,
        World(w.inbox[2..], w.sent + [Menu(), Info("RequestsID:", true), Info("Confirm success", false)], w.online,
          if c.Success? then c.value else w.requests))
  {
    var w1 := Send(w, Menu());
    var w2 := w1.(inbox := w1.inbox[1..]);
    assert ParseOption(w.inbox[0]) == ConfirmRequest;
    assert Step(sha, username, users, w) == Option4Spec(username, w2);
    DropTwo(w.inbox);
    AppendThree(w.sent, Menu(), Info("RequestsID:", true), Info("Confirm success", false));
  }

  /**
   * A session takes at most its own user off the registry, and only when it
   * ends by logging out; every other user's entry is kept. Messages are only
   * ever added to what was sent.
   */
  lemma {:induction false} SessionOnlyLogsOutItself(sha: Hasher, username: string, users: map<string, string>, w: World)
    ensures var r := SessionRun(sha, username, users, w);
      r.0.online == w.online || (r.1 == LoggedOut && username in w.online.entries && r.0.online == Remove(w.online, username))
    ensures w.sent < SessionRun(sha, username, users, w).0.sent
    decreases |w.inbox|
  {
    var s := Step(sha, username, users, w);
    if s.1.Running? {
      SessionOnlyLogsOutItself(sha, username, users, s.0);
    }
  }

  /**
   * Every row is keyed by its users: USER1_ID <= USER2_ID and the ID is
   * the digest of the sorted pair (every row a session creates is so).
   */
  ghost predicate Keyed(sha: Hasher, rs: Requests) {
    forall id :: id in rs.entries ==>
      LexLessEq(rs.entries[id].user1, rs.entries[id].user2) && id == RequestId(sha, rs.entries[id].user1, rs.entries[id].user2)
  }

  lemma Option2KeepsTableInvariants(sha: Hasher, username: string, users: map<string, string>, w: World)
    requires Keyed(sha, w.requests) && Valid(w.requests, users)
    ensures Keyed(sha, Option2Spec(sha, username, users, w).0.requests)
    ensures Valid(Option2Spec(sha, username, users, w).0.requests, users)
  {
    if w.inbox != [] {
      var partner := w.inbox[0];
      var p := SortedPair(username, partner);
      var id := RequestId(sha, username, partner);
      OperationsKeepValid(w.requests, users, p.0, p.1, id, username);
      assert SortedPair(p.0, p.1) == p;
      assert id == RequestId(sha, p.0, p.1);
    }
  }

  lemma ConfirmKeepsKeyed(sha: Hasher, rs: Requests, id: string, u: string)
    requires Keyed(sha, rs) && Confirm(rs, id, u).Success?
    ensures Keyed(sha, Confirm(rs, id, u).value)
  {
    var after := Confirm(rs, id, u).value;
    forall other | other in after.entries
      ensures LexLessEq(after.entries[other].user1, after.entries[other].user2)
      ensures other == RequestId(sha, after.entries[other].user1, after.entries[other].user2)
    {
      ConfirmSetsOwnFlag(rs, id, u, other);
    }
  }

  lemma Option4KeepsTableInvariants(username: string, users: map<string, string>, sha: Hasher, w: World)
    requires Keyed(sha, w.requests) && Valid(w.requests, users)
    ensures Keyed(sha, Option4Spec(username, w).0.requests)
    ensures Valid(Option4Spec(username, w).0.requests, users)
  {
    if w.inbox != [] && Confirm(w.requests, w.inbox[0], username).Success? {
      OperationsKeepValid(w.requests, users, "", "", w.inbox[0], username);
      ConfirmKeepsKeyed(sha, w.requests, w.inbox[0], username);
    }
  }

  lemma StepKeepsTableInvariants(sha: Hasher, username: string, users: map<string, string>, w: World)
    requires Keyed(sha, w.requests) && Valid(w.requests, users)
    ensures Keyed(sha, Step(sha, username, users, w).0.requests)
    ensures Valid(Step(sha, username, users, w).0.requests, users)
  {
    var w1 := Send(w, Menu());
    if w1.inbox != [] {
      var w2 := w1.(inbox := w1.inbox[1..]);
      match ParseOption(w1.inbox[0])
      case SendRequest => Option2KeepsTableInvariants(sha, username, users, w2);
      case ConfirmRequest => Option4KeepsTableInvariants(username, users, sha, w2);
      case _ =>
    }
  }

  /**
   * Sessions keep the table keyed by the sorted user pair, and every row
   * between two different registered users.
   */
  lemma {:induction false} SessionKeepsTableInvariants(sha: Hasher, username: string, users: map<string, string>, w: World)
    requires Keyed(sha, w.requests) && Valid(w.requests, users)
    ensures Keyed(sha, SessionRun(sha, username, users, w).0.requests)
    ensures Valid(SessionRun(sha, username, users, w).0.requests, users)
    decreases |w.inbox|
  {
    var s := Step(sha, username, users, w);
    StepKeepsTableInvariants(sha, username, users, w);
    if s.1.Running? {
      SessionKeepsTableInvariants(sha, username, users, s.0);
    }
  }

  /** Once either user has created the request for a pair, the other's attempt is a duplicate. */
  lemma PartnerRequestIsDuplicate(sha: Hasher, rs: Requests, users: map<string, string>, a: string, b: string)
    requires var p := SortedPair(a, b); Create(rs, users, p.0, p.1, RequestId(sha, a, b)).Success?
    ensures var p := SortedPair(a, b); var q := SortedPair(b, a);
      Create(Create(rs, users, p.0, p.1, RequestId(sha, a, b)).value, users, q.0, q.1, RequestId(sha, b, a))
        == Failure(RequestExists)
  {
    RequestIdSymmetric(sha, a, b);
  }

  // ---------------------------------------------------------------- the session as a program

  /** The client's socket together with decodeMessage(...)["data"] on what it receives. */
  class Channel {
    const socket: Connection
    var inbox: seq<string>
    var sent: seq<Message>

    constructor(socket: Connection, inbox: seq<string>)
      ensures this.socket == socket && this.inbox == inbox && sent == []
    {
      this.socket := socket;
      this.inbox := inbox;
      sent := [];
    }

    /** client.sendall(createMessage(...)) */
    method SendAll(m: Message)
      modifies this
      ensures sent == old(sent) + [m] && inbox == old(inbox)
    {
      sent := sent + [m];
    }

    /** decodeMessage(client.recv(1024))["data"]; None when the client has gone and decoding raises. */
    method Recv() returns (data: Option<string>)
      modifies this
      ensures old(inbox) == [] ==> data == None && inbox == []
      ensures old(inbox) != [] ==> data == Some(old(inbox)[0]) && inbox == old(inbox)[1..]
      ensures sent == old(sent)
    {
      if inbox == [] {
        data := None;
      } else {
        data := Some(inbox[0]);
        inbox := inbox[1..];
      }
    }
  }

  class UserSession {
    const client: Channel
    const username: string
    const mergeDB: MergeRequestTable
    /** LoginUsers' class-level registry, shared by every session. */
    const registry: LoginUsers

    constructor(client: Channel, username: string, mergeDB: MergeRequestTable, registry: LoginUsers)
      ensures this.client == client && this.username == username
      ensures this.mergeDB == mergeDB && this.registry == registry
    {
      this.client := client;
      this.username := username;
      this.mergeDB := mergeDB;
      this.registry := registry;
    }

    function Now(): World
      reads client, registry, mergeDB
    {
      World(client.inbox, client.sent, registry.online, mergeDB.requests)
    }

    method Option2(sha: Hasher) returns (status: Status)
      modifies client, mergeDB
      ensures (Now(), status) == Option2Spec(sha, username, mergeDB.database.users, old(Now()))
    {
      client.SendAll(Info("Merge Partner:", true));
      var reply := client.Recv();
      if reply.None? {
        return Ended(Disconnected);
      }
      var partner := reply.value;
      var usernames := SortedPair(username, partner);
      var requestID := RequestId(sha, username, partner);
      var r := mergeDB.CreateMergeRequest(usernames.0, usernames.1, requestID);
      if r.Failure? {
        client.SendAll(Info(ErrorText(r.error), false));
      }
      status := Running;
    }

    method Option3()
      modifies client
      ensures Now() == Option3Spec(username, old(Now()))
    {
      var ids, _ := mergeDB.CheckAllMergeRequest(username);
      if ids.Some? {
        client.SendAll(Info(Join(ids.value, "\n"), false));
      }
    }

    method Option4() returns (status: Status)
      modifies client, mergeDB
      ensures (Now(), status) == Option4Spec(username, old(Now()))
    {
      client.SendAll(Info("RequestsID:", true));
      var reply := client.Recv();
      if reply.None? {
        return Ended(Disconnected);
      }
      var _ := mergeDB.ConfirmMergeRequest(reply.value, username);
      client.SendAll(Info("Confirm success", false));
      status := Running;
    }

    method Option5() returns (status: Status)
      modifies client
      ensures (Now(), status) == Option5Spec(old(Now()))
    {
      client.SendAll(Info("ReqeustsID", true));
      var reply := client.Recv();
      status := if reply.None? then Ended(Disconnected) else Running;
    }

    /** One pass of the loop body of run. */
    method Round(sha: Hasher) returns (status: Status)
      modifies client, registry, mergeDB
      ensures (Now(), status) == Step(sha, username, mergeDB.database.users, old(Now()))
    {
      client.SendAll(Menu());
      var msg := client.Recv();
      if msg.None? {
        return Ended(Disconnected);
      }
      match ParseOption(msg.value)
      case ListOnline =>
        client.SendAll(Info(Join(registry.online.order, "\n"), false));
        status := Running;
      case SendRequest =>
        status := Option2(sha);
      case CheckRequests =>
        Option3();
        status := Running;
      case ConfirmRequest =>
        status := Option4();
      case StartMerge =>
        status := Option5();
      case Quit =>
        var r := registry.Update(username, client.socket, false);
        if r.Failure? {
          return Ended(Aborted(r.error));
        }
        client.SendAll(Info("Logging out...", false));
        status := Ended(LoggedOut);
      case Invalid =>
        client.SendAll(Info("Invalid option", false));
        status := Running;
    }

    /** run: the menu loop, until logout, disconnection or a failed logout. */
    method Run(sha: Hasher) returns (end: End)
      modifies client, registry, mergeDB
      ensures (Now(), end) == SessionRun(sha, username, mergeDB.database.users, old(Now()))
    {
      ghost var users := mergeDB.database.users;
      ghost var target := SessionRun(sha, username, users, Now());
      var status := Running;
      while status.Running?
        invariant mergeDB.database.users == users
        invariant status.Running? ==> SessionRun(sha, username, users, Now()) == target
        invariant status.Ended? ==> (Now(), status.end) == target
        decreases |client.inbox|, if status.Running? then 1 else 0
      {
        ghost var before := Now();
        status := Round(sha);
      }
      end := status.end;
    }
  }
}
