/** The subscriber side of teams-hook.go: the handshake in `wsAuthenticate`
    and the session lifecycle in `wsHandler` (upgrade, authenticate,
    register, read until the first error, unregister). The upgrade, the
    frames and the writes are foreign calls; their outcomes are inputs. */
module WebSocket {
  import opened Wire
  import opened Registry

  /** The two acknowledgements the server can send. */
  datatype Reply = AuthTrue | AuthFalse {
    /** The exact text sent as a TextMessage (plain ASCII). */
    function Text(): (t: string)
      ensures |t| == (if AuthTrue? then 16 else 17)
    {
      match this
      case AuthTrue => "{ \"auth\": true }"
      case AuthFalse => "{ \"auth\": false }"
    }
  }

  /** What `wsAuthenticate` did: the reply it tried to send (none when the
      read failed) and the boolean it returned. */
  datatype AuthOutcome = AuthOutcome(reply: Option<Reply>, authenticated: bool)

  /** `wsAuthenticate`: read one message, compare its bytes with the access
      token, send the matching acknowledgement. `replyWriteOk` is the outcome
      of that write. */
  function WsAuthenticate(accessToken: seq<byte>, read: ReadResult, replyWriteOk: bool): (r: AuthOutcome)
    ensures r.authenticated <==> read.Frame? && read.payload == accessToken && replyWriteOk
    ensures r.reply == None <==> read.ReadError?
    ensures r.reply == Some(AuthTrue) <==> read.Frame? && read.payload == accessToken
    ensures r.reply == Some(AuthFalse) <==> read.Frame? && read.payload != accessToken
  {
    match read
    case ReadError => AuthOutcome(None, false)
    case Frame(p) =>
      var matches := p == accessToken;
      AuthOutcome(Some(if matches then AuthTrue else AuthFalse), matches && replyWriteOk)
  }

  /** Where a session ends up. `Listening` is a session still blocked in its
      read loop because every read so far succeeded. */
  datatype Phase = UpgradeFailed | Rejected | Listening | Closed

  /** What one run of `wsHandler` did: its final phase, the handshake result
      (none when the upgrade failed), its calls on the registry in order,
      and the number of frames read and ignored while registered. */
  datatype SessionOutcome = SessionOutcome(phase: Phase, auth: Option<AuthOutcome>, calls: seq<RegistryCall>, framesIgnored: nat)

  /** The lifecycle of `wsHandler` over abstract inputs: whether the upgrade
      succeeded, the handshake read and reply write, and the outcomes of the
      successive `NextReader` calls (`true` for a frame, `false` for an
      error). */
  function Lifecycle(accessToken: seq<byte>, upgradeOk: bool, authRead: ReadResult, authWriteOk: bool, frames: seq<bool>): SessionOutcome
  {
    if !upgradeOk then SessionOutcome(UpgradeFailed, None, [], 0)
    else
      var a := WsAuthenticate(accessToken, authRead, authWriteOk);
      if !a.authenticated then SessionOutcome(Rejected, Some(a), [], 0)
      else
        var k := FirstFalse(frames);
        if k == |frames| then SessionOutcome(Listening, Some(a), [Add], k)
        else SessionOutcome(Closed, Some(a), [Add, Remove], k)
  }

  /** The registry list after `calls` on connection `c`, one atomic step each. */
  function Replay(conns: seq<Conn>, c: Conn, calls: seq<RegistryCall>): seq<Conn>
    decreases |calls|
  {
    if calls == [] then conns
    else
      var next := match calls[0] case Add => conns + [c] case Remove => Removed(conns, c);
      Replay(next, c, calls[1..])
  }

  /** The log entries for `calls`, each made on connection `c`. */
  function CallsOn(calls: seq<RegistryCall>, c: Conn): (r: seq<Call>)
    ensures |r| == |calls|
    ensures forall i :: 0 <= i < |calls| ==> r[i] == Call(calls[i], c)
  {
    if calls == [] then [] else [Call(calls[0], c)] + CallsOn(calls[1..], c)
  }

  /** A session registers its connection exactly when the upgrade worked and
      the handshake returned true, and only then ever touches the registry. */
  lemma AddOnlyAfterAuthentication(accessToken: seq<byte>, upgradeOk: bool, authRead: ReadResult, authWriteOk: bool, frames: seq<bool>)
    ensures var s := Lifecycle(accessToken, upgradeOk, authRead, authWriteOk, frames);
      && (Add in s.calls <==> upgradeOk && authRead.Frame? && authRead.payload == accessToken && authWriteOk)
      && (s.calls != [] <==> Add in s.calls)
      && (s.calls != [] ==> s.calls[0] == Add)
  {
  }

  /** A registered session unregisters exactly once, after its first read
      error, and never when every read succeeded; a session that was never
      registered never unregisters. */
  lemma RemoveExactlyOnceAfterReadError(accessToken: seq<byte>, upgradeOk: bool, authRead: ReadResult, authWriteOk: bool, frames: seq<bool>)
    ensures var s := Lifecycle(accessToken, upgradeOk, authRead, authWriteOk, frames);
      && multiset(s.calls)[Remove] == (if Add in s.calls && false in frames then 1 else 0)
      && (Remove in s.calls ==> s.calls == [Add, Remove] && s.phase == Closed)
      && (s.phase == Closed ==> s.framesIgnored < |frames| && !frames[s.framesIgnored]
                                && forall j :: 0 <= j < s.framesIgnored ==> frames[j])
  {
  }

  /** When the upgrade or the handshake fails the registry is left alone. */
  lemma FailedSessionLeavesRegistry(accessToken: seq<byte>, upgradeOk: bool, authRead: ReadResult, authWriteOk: bool, frames: seq<bool>, conns: seq<Conn>, c: Conn)
    requires !upgradeOk || !WsAuthenticate(accessToken, authRead, authWriteOk).authenticated
    ensures Replay(conns, c, Lifecycle(accessToken, upgradeOk, authRead, authWriteOk, frames).calls) == conns
  {
  }

  /** A wrong token never gets a connection registered, whatever happens
      afterwards: the reply is `{ "auth": false }` when it can be read. */
  lemma WrongTokenNeverRegistered(accessToken: seq<byte>, p: seq<byte>, authWriteOk: bool, frames: seq<bool>, conns: seq<Conn>, c: Conn)
    requires p != accessToken
    ensures var s := Lifecycle(accessToken, true, Frame(p), authWriteOk, frames);
      && s.phase == Rejected
      && s.auth == Some(AuthOutcome(Some(AuthFalse), false))
      && Replay(conns, c, s.calls) == conns
  {
  }

  /** Run as one block, with no other session between its `addConnection`
      and its `removeConnection`, a session's own connection is still in the
      last slot when it is removed, so the scan never reaches it: the entry
      stays registered after the session closes. */
  lemma ClosedSessionStaysRegistered(accessToken: seq<byte>, authRead: ReadResult, authWriteOk: bool, frames: seq<bool>, conns: seq<Conn>, c: Conn)
    requires c !in conns
    requires Lifecycle(accessToken, true, authRead, authWriteOk, frames).phase == Closed
    ensures Replay(conns, c, Lifecycle(accessToken, true, authRead, authWriteOk, frames).calls) == conns + [c]
  {
  }

  /** `wsHandler` on `reg`. On a successful upgrade `conn` is the new,
      fresh connection. The registry's call log grows by exactly the calls
      recorded in `outcome.calls`, each on `conn`, so the lifecycle lemmas
      above are about the calls the handler really makes. */
  method WsHandler(reg: Registry, accessToken: seq<byte>, upgradeOk: bool, authRead: ReadResult,
                   authWriteOk: bool, frames: seq<bool>)
    returns (outcome: SessionOutcome, conn: Conn?)
    modifies reg
    ensures outcome == Lifecycle(accessToken, upgradeOk, authRead, authWriteOk, frames)
    ensures (conn != null) == upgradeOk
    ensures conn != null ==> fresh(conn) && reg.connections == Replay(old(reg.connections), conn, outcome.calls)
    ensures conn == null ==> reg.connections == old(reg.connections) && reg.log == old(reg.log)
    ensures conn != null ==> reg.log == old(reg.log) + CallsOn(outcome.calls, conn)
    ensures outcome.phase in {Listening, Closed} ==> reg.connections == old(reg.connections) + [conn]
  {
    if !upgradeOk {
      outcome, conn := SessionOutcome(UpgradeFailed, None, [], 0), null;
      return;
    }
    conn := new Conn();

    var auth := WsAuthenticate(accessToken, authRead, authWriteOk);
    if !auth.authenticated {
      outcome := SessionOutcome(Rejected, Some(auth), [], 0);
      return;
    }

    reg.AddConnection(conn);
    ghost var registered, logged := reg.connections, reg.log;

    var i := 0;
    var readError := false;
    while i < |frames|
      invariant 0 <= i <= |frames|
      invariant forall j :: 0 <= j < i ==> frames[j]
      invariant reg.connections == registered && reg.log == logged
    {
      if !frames[i] {
        readError := true;
        break;
      }
      i := i + 1;
    }
    FirstFalseUnique(frames, i);

    if !readError {
      outcome := SessionOutcome(Listening, Some(auth), [Add], i);
      return;
    }
    assert conn !in old(reg.connections);
    AppendThenRemoveKeepsEntry(old(reg.connections), conn);
    var _ := reg.RemoveConnection(conn);
    outcome := SessionOutcome(Closed, Some(auth), [Add, Remove], i);
  }
}
