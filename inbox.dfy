/**
 * The message buffers of NewClient/C_Client.py. Messages read from the
 * server are routed into two FIFO queues: signals, which name merge requests
 * to record in the local request table, and everything else, which the
 * client shows to the user one at a time. The deques are sequences whose
 * front is index 0.
 */
module Inbox {
  import opened Wrappers
  import opened Messages
  import opened RequestStore

  /** data["type"] == "signal" */
  predicate IsSignal(m: Message) {
    m.kind == "signal"
  }

  /** The signals among ms, in order. */
  function Signals(ms: seq<Message>): (r: seq<Message>)
    ensures forall m :: m in r ==> IsSignal(m) && m in ms
  {
    if ms == [] then []
    else if IsSignal(ms[|ms| - 1]) then Signals(ms[..|ms| - 1]) + [ms[|ms| - 1]]
    else Signals(ms[..|ms| - 1])
  }

  /** The other messages among ms, in order. */
  function Others(ms: seq<Message>): (r: seq<Message>)
    ensures forall m :: m in r ==> !IsSignal(m) && m in ms
  {
    if ms == [] then []
    else if IsSignal(ms[|ms| - 1]) then Others(ms[..|ms| - 1])
    else Others(ms[..|ms| - 1]) + [ms[|ms| - 1]]
  }

  /** Routing loses and invents nothing: the two queues together hold exactly the messages received. */
  lemma {:induction false} RoutingKeepsEveryMessage(ms: seq<Message>)
    ensures multiset(Signals(ms)) + multiset(Others(ms)) == multiset(ms)
    ensures |Signals(ms)| + |Others(ms)| == |ms|
  {
    if ms != [] {
      var init, last := ms[..|ms| - 1], ms[|ms| - 1];
      RoutingKeepsEveryMessage(init);
      assert ms == init + [last];
      assert multiset(ms) == multiset(init) + multiset{last};
      if IsSignal(last) {
        assert Signals(ms) == Signals(init) + [last] && Others(ms) == Others(init);
      } else {
        assert Others(ms) == Others(init) + [last] && Signals(ms) == Signals(init);
      }
    }
  }

  /** The request IDs carried by a sequence of signals, in order. */
  function DataOf(ms: seq<Message>): (r: seq<string>)
    ensures |r| == |ms| && forall i :: 0 <= i < |ms| ==> r[i] == ms[i].data
  {
    seq(|ms|, i requires 0 <= i < |ms| => ms[i].data)
  }

  /** createRequest on each ID in turn, first to last. */
  function CreateAll(d: RequestRows, ids: seq<string>): RequestRows
    decreases |ids|
  {
    if ids == [] then d else CreateAll(CreateRow(d, ids[0]), ids[1..])
  }

  /**
   * After the drain, the table holds every requested ID and every earlier
   * row unchanged; each ID that was new has empty CIDs; nothing else is added.
   */
  lemma {:induction false} CreateAllSpec(d: RequestRows, ids: seq<string>, k: string)
    ensures k in CreateAll(d, ids).entries <==> k in d.entries || k in ids
    ensures k in d.entries ==> CreateAll(d, ids).entries[k] == d.entries[k]
    ensures k !in d.entries && k in ids ==> CreateAll(d, ids).entries[k] == CidPair("", "")
    decreases |ids|
  {
    if ids != [] {
      var d' := CreateRow(d, ids[0]);
      CreateRowSpec(d, ids[0], k);
      CreateAllSpec(d', ids[1..], k);
      assert k in ids <==> k == ids[0] || k in ids[1..];
    }
  }

  class Client {
    var msgBuffer: seq<Message>
    var signalBuffer: seq<Message>
    const requestDB: RequestDataBase

    /** __init__: two empty deques, and the request table initialised once more. */
    constructor(requestDB: RequestDataBase)
      modifies requestDB
      ensures msgBuffer == [] && signalBuffer == [] && this.requestDB == requestDB
      ensures requestDB.rows == old(requestDB.rows)
    {
      msgBuffer := [];
      signalBuffer := [];
      this.requestDB := requestDB;
      new;
      requestDB.InitDatabase();
    }

    /** The body of receive for one decoded message. */
    method Route(data: Message)
      modifies this
      ensures IsSignal(data) ==> signalBuffer == old(signalBuffer) + [data] && msgBuffer == old(msgBuffer)
      ensures !IsSignal(data) ==> msgBuffer == old(msgBuffer) + [data] && signalBuffer == old(signalBuffer)
    {
      if data.kind == "signal" {
        signalBuffer := signalBuffer + [data];
      } else {
        msgBuffer := msgBuffer + [data];
      }
    }

    /** receive: route every message read, in order of arrival, until the connection fails. */
    method Receive(incoming: seq<Message>)
      modifies this
      ensures signalBuffer == old(signalBuffer) + Signals(incoming)
      ensures msgBuffer == old(msgBuffer) + Others(incoming)
    {
      var i := 0;
      while i < |incoming|
        invariant 0 <= i <= |incoming|
        invariant signalBuffer == old(signalBuffer) + Signals(incoming[..i])
        invariant msgBuffer == old(msgBuffer) + Others(incoming[..i])
      {
        assert incoming[..i + 1][..i] == incoming[..i];
        Route(incoming[i]);
        i := i + 1;
      }
      assert incoming[..i] == incoming;
    }

    /** signal_handling: pop signals from the front and create a request for each, until none is left. */
    method SignalHandling()
      modifies this, requestDB
      ensures signalBuffer == [] && msgBuffer == old(msgBuffer)
      ensures requestDB.rows == CreateAll(old(requestDB.rows), DataOf(old(signalBuffer)))
    {
      while signalBuffer != []
        invariant msgBuffer == old(msgBuffer)
        invariant CreateAll(requestDB.rows, DataOf(signalBuffer)) == CreateAll(old(requestDB.rows), DataOf(old(signalBuffer)))
        decreases |signalBuffer|
      {
        var signal := signalBuffer[0];
        ghost var ids := DataOf(signalBuffer);
        assert ids[1..] == DataOf(signalBuffer[1..]);
        assert CreateAll(requestDB.rows, ids) == CreateAll(CreateRow(requestDB.rows, signal.data), ids[1..]);
        signalBuffer := signalBuffer[1..];
        var _ := requestDB.CreateRequest(signal.data);
      }
    }

    /**
     * logic: pop the oldest message, show its data and, when it asks for a
     * reply, send the user's reply as a response; an empty buffer is caught
     * and nothing happens.
     */
    method Logic(reply: string) returns (shown: Option<string>, sent: Option<Message>)
      modifies this
      ensures old(msgBuffer) == [] ==> msgBuffer == [] && shown == None && sent == None
      ensures old(msgBuffer) != [] ==> msgBuffer == old(msgBuffer)[1..] && shown == Some(old(msgBuffer)[0].data)
      ensures old(msgBuffer) != [] ==>
        sent == (if old(msgBuffer)[0].replyRequired then Some(Message("response", reply, false)) else None)
      ensures signalBuffer == old(signalBuffer)
    {
      if msgBuffer == [] {
        return None, None;
      }
      var msg := msgBuffer[0];
      msgBuffer := msgBuffer[1..];
      shown := Some(msg.data);
      if msg.replyRequired {
        sent := Some(Message("response", reply, false));
      } else {
        sent := None;
      }
    }
  }
}
