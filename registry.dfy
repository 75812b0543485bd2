/** The subscriber registry of teams-hook.go: the global `connections` slice
    and the three functions that act on it (`addConnection`,
    `removeConnection`, `notifySockets`). Each call is one atomic step; the
    mutex that makes it so in the source is not modelled. */
module Registry {
  import opened Wire

  /** An upgraded WebSocket connection (`*websocket.Conn`). It is only ever
      compared by identity, which is what reference equality of a Dafny
      object gives, just like Go pointer `==`. */
  class Conn {
    constructor () { }
  }

  /** One `WriteMessage(TextMessage, payload)` attempt on `to`, and whether
      it returned without error. */
  datatype Write = Write(to: Conn, payload: seq<byte>, ok: bool)

  /** The first index of `c` in `s`, or -1. */
  function Find(s: seq<Conn>, c: Conn): (i: int)
    ensures -1 <= i < |s|
    ensures 0 <= i ==> s[i] == c && forall j :: 0 <= j < i ==> s[j] != c
    ensures i == -1 ==> forall j :: 0 <= j < |s| ==> s[j] != c
  {
    if s == [] then -1
    else if s[0] == c then 0
    else
      var k := Find(s[1..], c);
      if k < 0 then -1 else k + 1
  }

  /** The index `removeConnection` settles on. Its loop runs while
      `i < len(connections) - 1`, so only the indices 0 .. len-2 are looked
      at: the last slot never is. */
  function ScanIndex(conns: seq<Conn>, c: Conn): (i: int)
    ensures -1 <= i && i + 1 < |conns| + (if i < 0 then 1 else 0)
    ensures 0 <= i ==> conns[i] == c && forall j :: 0 <= j < i ==> conns[j] != c
    ensures i == -1 ==> forall j :: 0 <= j < |conns| - 1 ==> conns[j] != c
  {
    if |conns| == 0 then -1 else Find(conns[..|conns| - 1], c)
  }

  /** The list `removeConnection` leaves behind: the entry at the scanned
      index spliced out, or the list unchanged when the scan finds nothing. */
  function Removed(conns: seq<Conn>, c: Conn): seq<Conn>
  {
    var i := ScanIndex(conns, c);
    if i < 0 then conns else conns[..i] + conns[i + 1..]
  }

  /** The writes `notifySockets` makes: in index order, stopping right after
      the first write that fails. */
  function Broadcast(conns: seq<Conn>, msg: seq<byte>, ok: seq<bool>): seq<Write>
    requires |ok| == |conns|
  {
    if conns == [] then []
    else [Write(conns[0], msg, ok[0])] + (if ok[0] then Broadcast(conns[1..], msg, ok[1..]) else [])
  }

  /** A registry operation a session performs on its own connection. */
  datatype RegistryCall = Add | Remove

  /** One entry of the registry's call log: the operation and its argument. */
  datatype Call = Call(kind: RegistryCall, on: Conn)

  /** The connections, in order, to which a write succeeded: a connection is
      among them exactly when some successful write went to it. */
  function Delivered(writes: seq<Write>): (r: seq<Conn>)
    ensures forall i :: 0 <= i < |writes| && writes[i].ok ==> writes[i].to in r
    ensures forall j :: 0 <= j < |r| ==> exists i :: 0 <= i < |writes| && writes[i].ok && writes[i].to == r[j]
  {
    if writes == [] then []
    else (if writes[0].ok then [writes[0].to] else []) + Delivered(writes[1..])
  }

  /** A handle that is present only in the last slot, including the only
      entry of a one-element list, is never found; the list stays as it is. */
  lemma LastSlotNeverExamined(conns: seq<Conn>, c: Conn)
    requires |conns| > 0 && conns[|conns| - 1] == c
    requires forall j :: 0 <= j < |conns| - 1 ==> conns[j] != c
    ensures ScanIndex(conns, c) == -1
    ensures Removed(conns, c) == conns
  {
  }

  /** Removal from an empty or one-element list never changes it. */
  lemma ShortListNeverShrinks(conns: seq<Conn>, c: Conn)
    requires |conns| <= 1
    ensures Removed(conns, c) == conns
  {
  }

  /** When the scan finds `c` at index `i`, exactly that entry goes: the
      length drops by one, the entries before `i` stay where they were, the
      ones after move down by one, and nothing but that one `c` is lost. */
  lemma RemovedSplicesOut(conns: seq<Conn>, c: Conn)
    requires ScanIndex(conns, c) >= 0
    ensures var i, r := ScanIndex(conns, c), Removed(conns, c);
      && |r| == |conns| - 1
      && conns[i] == c
      && (forall j :: 0 <= j < i ==> r[j] == conns[j])
      && (forall j :: i <= j < |r| ==> r[j] == conns[j + 1])
      && multiset(r) + multiset{c} == multiset(conns)
  {
    var i := ScanIndex(conns, c);
    assert conns == conns[..i] + [conns[i]] + conns[i + 1..];
  }

  /** A handle found nowhere in the scanned range leaves the list unchanged;
      one found there takes the length down by exactly one. */
  lemma RemovedLength(conns: seq<Conn>, c: Conn)
    ensures |Removed(conns, c)| == |conns| - (if ScanIndex(conns, c) >= 0 then 1 else 0)
    ensures ScanIndex(conns, c) < 0 <==> Removed(conns, c) == conns
  {
  }

  /** A connection appended to a list that did not hold it sits in the last
      slot, so removing it right away leaves it registered. */
  lemma AppendThenRemoveKeepsEntry(conns: seq<Conn>, c: Conn)
    requires c !in conns
    ensures Removed(conns + [c], c) == conns + [c]
  {
  }

  /** A connection that is not in its last slot is removed: its first
      occurrence goes. */
  lemma RemovedFindsEarlierEntry(conns: seq<Conn>, c: Conn, k: nat)
    requires k + 1 < |conns| && conns[k] == c
    ensures 0 <= ScanIndex(conns, c) <= k
    ensures |Removed(conns, c)| == |conns| - 1
  {
  }

  /** The writes of a broadcast are the registered connections in index
      order, up to and including the first failed write and no further. */
  lemma {:induction false} BroadcastInOrder(conns: seq<Conn>, msg: seq<byte>, ok: seq<bool>)
    requires |ok| == |conns|
    ensures var w, k := Broadcast(conns, msg, ok), FirstFalse(ok);
      && |w| == (if k < |conns| then k + 1 else |conns|)
      && forall j :: 0 <= j < |w| ==> w[j] == Write(conns[j], msg, ok[j])
  {
    if conns != [] && ok[0] {
      BroadcastInOrder(conns[1..], msg, ok[1..]);
      var w, t := Broadcast(conns, msg, ok), Broadcast(conns[1..], msg, ok[1..]);
      assert w == [Write(conns[0], msg, ok[0])] + t;
      forall j | 1 <= j < |w|
        ensures w[j] == Write(conns[j], msg, ok[j])
      {
        assert w[j] == t[j - 1];
      }
    }
  }

  /** Exactly the connections before the first failed write receive the
      message, once per registration and in order. */
  lemma {:induction false} BroadcastDelivers(conns: seq<Conn>, msg: seq<byte>, ok: seq<bool>)
    requires |ok| == |conns|
    ensures Delivered(Broadcast(conns, msg, ok)) == conns[..FirstFalse(ok)]
  {
    if conns != [] {
      if ok[0] {
        BroadcastDelivers(conns[1..], msg, ok[1..]);
        var t := Broadcast(conns[1..], msg, ok[1..]);
        assert Broadcast(conns, msg, ok)[1..] == t;
        assert conns[..FirstFalse(ok)] == [conns[0]] + conns[1..][..FirstFalse(ok[1..])];
      } else {
        var w := Broadcast(conns, msg, ok);
        assert w[1..] == [];
      }
    }
  }

  /** When every write succeeds, every registered connection receives the
      message, and the message is the one given. */
  lemma AllWritesSucceed(conns: seq<Conn>, msg: seq<byte>, ok: seq<bool>)
    requires |ok| == |conns| && forall j :: 0 <= j < |ok| ==> ok[j]
    ensures Delivered(Broadcast(conns, msg, ok)) == conns
    ensures forall w :: w in Broadcast(conns, msg, ok) ==> w.payload == msg && w.ok
  {
    BroadcastDelivers(conns, msg, ok);
    BroadcastInOrder(conns, msg, ok);
    assert conns[..|conns|] == conns;
  }

  /** After the first failed write at index `k` nothing more is written:
      the connections after `k` receive nothing. */
  lemma FailureStopsBroadcast(conns: seq<Conn>, msg: seq<byte>, ok: seq<bool>, k: nat)
    requires |ok| == |conns| && k < |ok| && !ok[k]
    requires forall j :: 0 <= j < k ==> ok[j]
    ensures |Broadcast(conns, msg, ok)| == k + 1
    ensures Broadcast(conns, msg, ok)[k] == Write(conns[k], msg, false)
    ensures Delivered(Broadcast(conns, msg, ok)) == conns[..k]
  {
    FirstFalseUnique(ok, k);
    BroadcastInOrder(conns, msg, ok);
    BroadcastDelivers(conns, msg, ok);
  }

  /** The global `connections` slice, owned by one object. */
  class Registry {
    var connections: seq<Conn>
    /** Every `addConnection` and `removeConnection` call so far, in order. */
    ghost var log: seq<Call>

    /** The slice starts out nil, and nothing has been called yet. */
    constructor ()
      ensures connections == [] && log == []
    {
      connections := [];
      log := [];
    }

    /** `addConnection`: append at the end. */
    method AddConnection(c: Conn)
      modifies this
      ensures connections == old(connections) + [c]
      ensures |connections| == |old(connections)| + 1
      ensures connections[..|old(connections)|] == old(connections)
      ensures log == old(log) + [Call(Add, c)]
    {
      connections := connections + [c];
      log := log + [Call(Add, c)];
    }

    /** `removeConnection`: scan indices 0 .. len-2 for `c` and splice out
        the first match. `found` is false exactly when the source logs that
        the connection was not found. */
    method RemoveConnection(c: Conn) returns (found: bool)
      modifies this
      ensures found == (ScanIndex(old(connections), c) >= 0)
      ensures connections == Removed(old(connections), c)
      ensures log == old(log) + [Call(Remove, c)]
    {
      var index := -1;
      var i := 0;
      while i < |connections| - 1
        invariant 0 <= i
        invariant i <= |connections| && (|connections| > 0 ==> i <= |connections| - 1)
        invariant index == -1
        invariant forall j :: 0 <= j < i ==> connections[j] != c
      {
        if connections[i] == c {
          index := i;
          break;
        }
        i := i + 1;
      }
      assert index == ScanIndex(connections, c);
      if index < 0 {
        found := false;
      } else {
        found := true;
        connections := connections[..index] + connections[index + 1..];
      }
      log := log + [Call(Remove, c)];
    }

    /** `notifySockets`: write `msg` to each connection in index order and
        stop at the first failure. `writeOk[j]` is the outcome of the write to
        `connections[j]`, should it be attempted. `count` is the number the
        source logs as recipients: the length of the list, whatever failed.
        The method has no `modifies` clause: a broadcast never changes the
        registry. */
    method NotifySockets(msg: seq<byte>, writeOk: seq<bool>) returns (writes: seq<Write>, count: nat)
      requires |writeOk| == |connections|
      ensures writes == Broadcast(connections, msg, writeOk)
      ensures count == |connections|
    {
      writes := [];
      var i := 0;
      while i <= |connections| - 1
        invariant 0 <= i <= |connections|
        invariant |writes| == i
        invariant forall j :: 0 <= j < i ==> writeOk[j]
        invariant forall j :: 0 <= j < i ==> writes[j] == Write(connections[j], msg, writeOk[j])
      {
        writes := writes + [Write(connections[i], msg, writeOk[i])];
        if !writeOk[i] {
          break;
        }
        i := i + 1;
      }
      count := |connections|;
      BroadcastInOrder(connections, msg, writeOk);
      if i < |connections| {
        FirstFalseUnique(writeOk, i);
      } else {
        FirstFalseUnique(writeOk, |connections|);
      }
    }
  }
}
