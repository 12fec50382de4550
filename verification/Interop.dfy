/**
 The interop exchange: two peers running fixed scripts of sends and exact-length reads over a
 pair of byte streams that keep no message boundaries, and a close that may discard whatever
 it has not yet delivered.
 */
module Interop {
  import opened Wrappers

  type Message = seq<Byte>

  // ----- Reading exactly -----

  datatype Failure = Silence | EmptyChunk | Overshoot | Mismatch
  datatype Result<+T> = Ok(value: T) | Err(error: Failure)

  function Concat(chunks: seq<Message>): Message {
    if chunks == [] then [] else Concat(chunks[..|chunks| - 1]) + chunks[|chunks| - 1]
  }

  /**
   `recv_exactly` over the chunks a session yields: it reads until it has `want` bytes. It
   succeeds exactly when some prefix of the chunks, none of them empty, adds up to `want`, and
   returns those bytes; otherwise it says which way the stream disappointed it.
   */
  method RecvExactly(chunks: seq<Message>, want: nat) returns (r: Result<Message>, used: nat)
    ensures used <= |chunks|
    ensures r.Ok? ==> r.value == Concat(chunks[..used]) && |r.value| == want
    ensures r.Ok? || r == Err(Overshoot) ==> [] !in chunks[..used]
    ensures r == Err(EmptyChunk) ==>
      used > 0 && chunks[used - 1] == [] && [] !in chunks[..used - 1] && |Concat(chunks[..used - 1])| < want
    ensures r == Err(Overshoot) ==>
      used > 0 && |Concat(chunks[..used - 1])| < want < |Concat(chunks[..used])|
    ensures r == Err(Silence) ==> used == |chunks| && |Concat(chunks)| < want && [] !in chunks
    ensures r != Err(Mismatch)
  {
    var got: Message := [];
    used := 0;
    while |got| < want
      invariant 0 <= used <= |chunks| && got == Concat(chunks[..used]) && [] !in chunks[..used]
      invariant used > 0 ==> |Concat(chunks[..used - 1])| < want
      decreases |chunks| - used
    {
      if used == |chunks| {
        assert chunks[..used] == chunks;
        return Err(Silence), used;
      }
      var chunk := chunks[used];
      assert chunks[..used + 1][..used] == chunks[..used];
      used := used + 1;
      if chunk == [] {
        return Err(EmptyChunk), used;
      }
      got := got + chunk;
    }
    if |got| != want {
      return Err(Overshoot), used;
    }
    return Ok(got), used;
  }

  // ----- The exchange -----

  const BULK_LEN: nat := 4000

  /** `b"interop client hello"`, `b"interop server hello"` and `b"done"`. */
  const CLIENT_HELLO: Message :=
    [105, 110, 116, 101, 114, 111, 112, 32, 99, 108, 105, 101, 110, 116, 32, 104, 101, 108, 108, 111]
  const SERVER_HELLO: Message :=
    [105, 110, 116, 101, 114, 111, 112, 32, 115, 101, 114, 118, 101, 114, 32, 104, 101, 108, 108, 111]
  const DONE: Message := [100, 111, 110, 101]

  function Bulk(seed: Byte): (m: Message)
    ensures |m| == BULK_LEN
  {
    seq(BULK_LEN, i requires 0 <= i < BULK_LEN => BulkByte(i, seed))
  }

  function BulkByte(i: nat, seed: Byte): Byte {
    (i % 256 * 31 + seed) % 256
  }

  datatype Op = Send(msg: Message) | Recv(want: Message) | Linger | Disconnect

  /** `serve_exchange`. */
  function ServerScript(): (s: seq<Op>)
    ensures |s| == 8
  {
    [Recv(CLIENT_HELLO), Send(SERVER_HELLO), Recv(Bulk(0x5a)), Send(Bulk(0xa5)),
     Recv(DONE), Send(DONE), Linger, Disconnect]
  }

  /** `drive_exchange`. */
  function ClientScript(): (s: seq<Op>)
    ensures |s| == 7
  {
    [Send(CLIENT_HELLO), Recv(SERVER_HELLO), Send(Bulk(0x5a)), Recv(Bulk(0xa5)),
     Send(DONE), Recv(DONE), Disconnect]
  }

  /** Where a peer stands: its next operation, what its current read has so far, and any failure. */
  datatype Peer = Peer(pc: nat, got: Message, failure: Option<Failure>)

  /** The two peers, and the bytes each direction has accepted but not yet handed over. */
  datatype World = World(client: Peer, server: Peer, up: Message, down: Message)

  const START: World := World(Peer(0, [], None), Peer(0, [], None), [], [])

  datatype Step =
    | Client(n: nat)            // the client's next operation; a read takes `n` bytes
    | Server(n: nat)
    | DiscardUp(keep: nat)      // a closed client's undelivered bytes are cut short
    | DiscardDown(keep: nat)

  predicate OpEnabled(script: seq<Op>, p: Peer, incoming: Message, n: nat) {
    && p.failure.None? && p.pc < |script|
    && (script[p.pc].Recv? ==> 0 < n <= |incoming|)
  }

  predicate Enabled(w: World, s: Step) {
    match s
    case Client(n) => OpEnabled(ClientScript(), w.client, w.down, n)
    case Server(n) => OpEnabled(ServerScript(), w.server, w.up, n)
    case DiscardUp(keep) => w.client.pc == |ClientScript()| && keep < |w.up|
    case DiscardDown(keep) => w.server.pc == |ServerScript()| && keep < |w.down|
  }

  /** A read that has the length it wants checks the length and the contents, then moves on. */
  function AfterRead(p: Peer, got: Message, want: Message): Peer {
    if |got| < |want| then p.(got := got)
    else if |got| != |want| then p.(got := got, failure := Some(Overshoot))
    else if got != want then p.(got := got, failure := Some(Mismatch))
    else Peer(p.pc + 1, [], None)
  }

  /** One operation: the peer after it, what it consumed, and what it sent. */
  function RunOp(op: Op, p: Peer, incoming: Message, n: nat): (Peer, Message, Message)
    requires op.Recv? ==> n <= |incoming|
  {
    match op
    case Send(msg) => (p.(pc := p.pc + 1), incoming, msg)
    case Recv(want) => (AfterRead(p, p.got + incoming[..n], want), incoming[n..], [])
    case Linger => (p.(pc := p.pc + 1), incoming, [])
    case Disconnect => (p.(pc := p.pc + 1), incoming, [])
  }

  function Apply(w: World, s: Step): World
    requires Enabled(w, s)
  {
    match s
    case Client(n) =>
      var (p, incoming, out) := RunOp(ClientScript()[w.client.pc], w.client, w.down, n);
      w.(client := p, down := incoming, up := w.up + out)
    case Server(n) =>
      var (p, incoming, out) := RunOp(ServerScript()[w.server.pc], w.server, w.up, n);
      w.(server := p, up := incoming, down := w.down + out)
    case DiscardUp(keep) => w.(up := w.up[..keep])
    case DiscardDown(keep) => w.(down := w.down[..keep])
  }

  // ----- What every step keeps -----

  /** The six messages, in the order the scripts exchange them; even ones go up. */
  function Msg(k: nat): (m: Message)
    ensures m != []
  {
    if k == 0 then CLIENT_HELLO
    else if k == 1 then SERVER_HELLO
    else if k == 2 then Bulk(0x5a)
    else if k == 3 then Bulk(0xa5)
    else DONE
  }

  lemma ScriptOps(k: nat)
    requires k < 6
    ensures ClientScript()[k] == if k % 2 == 0 then Send(Msg(k)) else Recv(Msg(k))
    ensures ServerScript()[k] == if k % 2 == 0 then Recv(Msg(k)) else Send(Msg(k))
    ensures ClientScript()[6] == Disconnect && ServerScript()[6] == Linger && ServerScript()[7] == Disconnect
  {}

  /** Nothing is in flight and nobody is in the middle of a read. */
  ghost predicate Quiet(w: World) {
    w.up == [] && w.down == [] && w.client.got == [] && w.server.got == []
  }

  /** `got` and then `wire` are successive parts of `msg`, with something still to come or to read. */
  ghost predicate Partial(got: Message, wire: Message, msg: Message) {
    |got| < |msg| && |got| + |wire| <= |msg| && got + wire == msg[..|got| + |wire|]
  }

  /** Message `k` is on its way up, all of it either read or on the wire. */
  ghost predicate Rising(w: World, k: nat) {
    && w.down == [] && w.client.got == []
    && Partial(w.server.got, w.up, Msg(k)) && |w.server.got| + |w.up| == |Msg(k)|
  }

  /** Message `k` is on its way down; only a server that has disconnected can have cut it short. */
  ghost predicate Falling(w: World, k: nat) {
    && w.up == [] && w.server.got == []
    && Partial(w.client.got, w.down, Msg(k))
    && (w.server.pc != 8 ==> |w.client.got| + |w.down| == |Msg(k)|)
  }

  ghost predicate Turn(w: World) {
    var c, s := w.client.pc, w.server.pc;
    if c == s && c < 6 then Quiet(w)
    else if c == s + 1 && s < 6 && s % 2 == 0 then Rising(w, s)
    else if s == c + 1 && c < 6 && c % 2 == 1 then Falling(w, c)
    else if c == 5 && 6 <= s <= 8 then Falling(w, 5)
    else 6 <= c <= 7 && 6 <= s <= 8 && Quiet(w)
  }

  ghost predicate Healthy(w: World) {
    w.client.failure.None? && w.server.failure.None? && Turn(w)
  }

  /** Reading part of what is left of a message never overshoots it and never mismatches. */
  lemma ReadPart(p: Peer, wire: Message, msg: Message, n: nat)
    requires Partial(p.got, wire, msg) && 0 < n <= |wire| && p.failure.None?
    ensures var q := AfterRead(p, p.got + wire[..n], msg);
      && q.failure.None?
      && (|p.got| + n < |msg| ==> q.pc == p.pc && q.got == p.got + wire[..n] && Partial(q.got, wire[n..], msg))
      && (|p.got| + n == |msg| ==> q == Peer(p.pc + 1, [], None) && wire[n..] == [])
  {
    var all := p.got + wire;
    assert all[..|p.got| + n] == p.got + wire[..n];
    assert (p.got + wire[..n]) + wire[n..] == all;
    assert msg[..|all|][..|p.got| + n] == msg[..|p.got| + n];
    if |p.got| + n == |msg| {
      assert msg[..|msg|] == msg;
    }
  }

  lemma HealthyClientSend(w: World, n: nat)
    requires Healthy(w) && Enabled(w, Client(n)) && w.client.pc < 6 && w.client.pc % 2 == 0
    ensures Healthy(Apply(w, Client(n)))
  {
    var k := w.client.pc;
    ScriptOps(k);
    hide ClientScript, ServerScript, Msg;
    assert w.server.pc == k && Quiet(w);
    var t := Apply(w, Client(n));
    assert t.up == Msg(k) && [] + Msg(k) == Msg(k)[..|Msg(k)|];
    assert Rising(t, k);
  }

  lemma HealthyClientRead(w: World, n: nat)
    requires Healthy(w) && Enabled(w, Client(n)) && w.client.pc < 6 && w.client.pc % 2 == 1
    ensures Healthy(Apply(w, Client(n)))
  {
    var k := w.client.pc;
    ScriptOps(k);
    hide ClientScript, ServerScript, Msg;
    assert Falling(w, k);
    ReadPart(w.client, w.down, Msg(k), n);
    hide AfterRead, Partial;
    assert w.up + [] == w.up;
  }

  lemma HealthyServerSend(w: World, n: nat)
    requires Healthy(w) && Enabled(w, Server(n)) && w.server.pc < 6 && w.server.pc % 2 == 1
    ensures Healthy(Apply(w, Server(n)))
  {
    var k := w.server.pc;
    ScriptOps(k);
    hide ClientScript, ServerScript, Msg;
    assert w.client.pc == k && Quiet(w);
    var t := Apply(w, Server(n));
    assert t.down == Msg(k) && [] + Msg(k) == Msg(k)[..|Msg(k)|];
    assert Falling(t, k);
  }

  lemma HealthyServerRead(w: World, n: nat)
    requires Healthy(w) && Enabled(w, Server(n)) && w.server.pc < 6 && w.server.pc % 2 == 0
    ensures Healthy(Apply(w, Server(n)))
  {
    var k := w.server.pc;
    ScriptOps(k);
    hide ClientScript, ServerScript, Msg;
    assert Rising(w, k);
    ReadPart(w.server, w.up, Msg(k), n);
    hide AfterRead, Partial;
    assert w.down + [] == w.down;
  }

  lemma HealthyTail(w: World, s: Step)
    requires Healthy(w) && Enabled(w, s)
    requires (s.Client? && w.client.pc >= 6) || (s.Server? && w.server.pc >= 6)
    ensures Healthy(Apply(w, s))
  {
    ScriptOps(0);
    hide ClientScript, ServerScript, Msg, Partial;
    assert w.up + [] == w.up && w.down + [] == w.down;
  }

  /** A close can discard only what is left of the final echo. */
  lemma HealthyDiscard(w: World, s: Step)
    requires Healthy(w) && Enabled(w, s) && (s.DiscardUp? || s.DiscardDown?)
    ensures s.DiscardDown? && w.client.pc == 5 && Falling(w, 5)
    ensures Healthy(Apply(w, s))
  {
    hide Msg;
    if s.DiscardDown? {
      var t := Apply(w, s);
      assert w.client.got + w.down[..s.keep] == (w.client.got + w.down)[..|w.client.got| + s.keep];
      assert Msg(5)[..|w.client.got| + |w.down|][..|w.client.got| + s.keep] == Msg(5)[..|w.client.got| + s.keep];
    }
  }

  lemma HealthyStep(w: World, s: Step)
    requires Healthy(w) && Enabled(w, s)
    ensures Healthy(Apply(w, s))
  {
    match s
    case Client(n) =>
      if w.client.pc >= 6 {
        HealthyTail(w, s);
      } else if w.client.pc % 2 == 0 {
        HealthyClientSend(w, n);
      } else {
        HealthyClientRead(w, n);
      }
    case Server(n) =>
      if w.server.pc >= 6 {
        HealthyTail(w, s);
      } else if w.server.pc % 2 == 1 {
        HealthyServerSend(w, n);
      } else {
        HealthyServerRead(w, n);
      }
    case DiscardUp(_) => HealthyDiscard(w, s);
    case DiscardDown(_) => HealthyDiscard(w, s);
  }

  // ----- Whole runs -----

  function Exec(steps: seq<Step>): Option<World> {
    if steps == [] then Some(START)
    else
      var k := |steps| - 1;
      match Exec(steps[..k])
      case None => None
      case Some(w) => if Enabled(w, steps[k]) then Some(Apply(w, steps[k])) else None
  }

  lemma {:induction false} HealthyRun(steps: seq<Step>)
    requires Exec(steps).Some?
    ensures Healthy(Exec(steps).value)
    decreases |steps|
  {
    if steps != [] {
      hide Healthy, Apply, Enabled;
      var k := |steps| - 1;
      HealthyRun(steps[..k]);
      HealthyStep(Exec(steps[..k]).value, steps[k]);
    } else {
      assert Healthy(START);
    }
  }

  /** One message at most is in flight, in one direction only. */
  ghost predicate OneInFlight(w: World) {
    && (w.up == [] || w.down == [])
    && (w.up != [] ==> exists k :: 0 <= k < 6 && k % 2 == 0 && w.server.got + w.up == Msg(k))
    && (w.down != [] ==> exists k :: 0 <= k < 6 && k % 2 == 1 && w.client.got + w.down <= Msg(k))
  }

  /** A disconnect can discard nothing but bytes of the final echo. */
  ghost predicate OnlyEchoAtRisk(w: World) {
    && (forall keep :: !Enabled(w, DiscardUp(keep)))
    && (forall keep :: Enabled(w, DiscardDown(keep)) ==> w.client.pc == 5 && w.client.got + w.down <= DONE)
  }

  lemma HealthyInFlight(w: World)
    requires Healthy(w)
    ensures OneInFlight(w)
  {
    hide Msg;
    if w.up != [] {
      assert Rising(w, w.server.pc);
      assert Msg(w.server.pc)[..|Msg(w.server.pc)|] == Msg(w.server.pc);
    }
    if w.down != [] {
      assert Falling(w, w.client.pc);
    }
  }

  lemma HealthyAtRisk(w: World)
    requires Healthy(w)
    ensures OnlyEchoAtRisk(w)
  {
    LastIsDone();
    hide Msg;
    forall keep | Enabled(w, DiscardDown(keep)) ensures w.client.pc == 5 && w.client.got + w.down <= DONE {
      HealthyDiscard(w, DiscardDown(keep));
    }
  }

  /**
   However the sends are split into chunks and however the peers are scheduled: no read overshoots
   and no comparison fails; at most one message is in flight, in one direction only; and the only
   bytes a disconnect can ever discard belong to the server's final echo.
   */
  lemma ExchangeSafe(steps: seq<Step>)
    requires Exec(steps).Some?
    ensures var w := Exec(steps).value;
      w.client.failure.None? && w.server.failure.None? && OneInFlight(w) && OnlyEchoAtRisk(w)
  {
    HealthyRun(steps);
    HealthyInFlight(Exec(steps).value);
    HealthyAtRisk(Exec(steps).value);
    hide Exec, OneInFlight, OnlyEchoAtRisk;
  }

  lemma LastIsDone()
    ensures Msg(5) == DONE
  {}

  // ----- No deadlock, and an end -----

  /** Both peers ran their scripts to the end. */
  predicate Finished(w: World) {
    w.client.pc == 7 && w.server.pc == 8
  }

  /** The client waits for an echo of which nothing more will come. */
  predicate EchoDiscarded(w: World) {
    w.client.pc == 5 && w.server.pc == 8 && w.down == []
  }

  ghost predicate CanMove(w: World) {
    exists n :: Enabled(w, Client(n)) || Enabled(w, Server(n))
  }

  /** A reachable state in which neither peer can move is a finished one or has lost the echo. */
  lemma StuckIff(steps: seq<Step>)
    requires Exec(steps).Some?
    ensures var w := Exec(steps).value; !CanMove(w) <==> Finished(w) || EchoDiscarded(w)
  {
    HealthyRun(steps);
    var w := Exec(steps).value;
    hide Exec;
    var c, s := w.client.pc, w.server.pc;
    MoveIff(w);
  }

  lemma MoveIff(w: World)
    requires Healthy(w)
    ensures !CanMove(w) <==> Finished(w) || EchoDiscarded(w)
  {
    var c, s := w.client.pc, w.server.pc;
    ScriptOps(if c < 6 then c else 0);
    ScriptOps(if s < 6 then s else 0);
    hide ClientScript, ServerScript, Msg;
    if 6 <= c < 7 || (c < 6 && c % 2 == 0 && c == s) || (c < 6 && c % 2 == 1 && w.down != []) {
      assert Enabled(w, Client(|w.down|));
    } else if (6 <= s < 8) || (s < 6 && s % 2 == 1 && c == s) || (s < 6 && s % 2 == 0 && w.up != []) {
      assert Enabled(w, Server(|w.up|));
    } else {
      forall n ensures !Enabled(w, Client(n)) && !Enabled(w, Server(n)) {
      }
    }
  }

  /** Bytes of the messages from `k` on that go up (even) or down (odd). */
  function Unsent(k: nat, parity: nat): nat
    decreases 6 - k
  {
    if k >= 6 then 0 else (if k % 2 == parity then |Msg(k)| else 0) + Unsent(k + 1, parity)
  }

  /** Bytes still to be sent or handed over, and operations still to be run. */
  function Remaining(w: World): int {
    Unsent(w.client.pc, 0) + Unsent(w.server.pc, 1) + |w.up| + |w.down| + (7 - w.client.pc) + (8 - w.server.pc)
  }

  /** An operation moves on, or hands over at least one byte. */
  lemma OpProgress(op: Op, p: Peer, incoming: Message, n: nat)
    requires op.Recv? ==> 0 < n <= |incoming|
    ensures var (q, rest, out) := RunOp(op, p, incoming, n);
      && out == (if op.Send? then op.msg else [])
      && |rest| == (if op.Recv? then |incoming| - n else |incoming|)
      && (q.pc == p.pc + 1 || (op.Recv? && q.pc == p.pc))
  {}

  /** What is left to send after an operation at `k`, when its own message goes by `parity`. */
  lemma UnsentNext(k: nat, parity: nat)
    ensures Unsent(k, parity) == (if k < 6 && k % 2 == parity then |Msg(k)| else 0) + Unsent(k + 1, parity)
  {
    hide Msg;
  }

  lemma ClientProgress(w: World, n: nat)
    requires Healthy(w) && Enabled(w, Client(n))
    ensures Remaining(Apply(w, Client(n))) < Remaining(w)
  {
    var k := w.client.pc;
    ScriptOps(if k < 6 then k else 0);
    hide ClientScript, ServerScript, Msg, RunOp, Unsent;
    OpProgress(ClientScript()[k], w.client, w.down, n);
    UnsentNext(k, 0);
  }

  lemma ServerProgress(w: World, n: nat)
    requires Healthy(w) && Enabled(w, Server(n))
    ensures Remaining(Apply(w, Server(n))) < Remaining(w)
  {
    var k := w.server.pc;
    ScriptOps(if k < 6 then k else 0);
    hide ClientScript, ServerScript, Msg, RunOp, Unsent;
    OpProgress(ServerScript()[k], w.server, w.up, n);
    UnsentNext(k, 1);
  }

  /** A healthy exchange never has less than nothing left to do. */
  lemma RemainingNonnegative(w: World)
    requires Healthy(w)
    ensures Remaining(w) >= 0
  {
    hide Unsent, Msg;
  }

  /** Every step, of either peer and of either discard, leaves strictly less to do. */
  lemma StepProgress(w: World, s: Step)
    requires Healthy(w) && Enabled(w, s)
    ensures 0 <= Remaining(Apply(w, s)) < Remaining(w)
  {
    HealthyStep(w, s);
    RemainingNonnegative(Apply(w, s));
    match s
    case Client(n) => ClientProgress(w, n);
    case Server(n) => ServerProgress(w, n);
    case DiscardUp(_) => hide Unsent;
    case DiscardDown(_) => hide Unsent;
  }

  lemma {:induction false} RunBounded(steps: seq<Step>)
    requires Exec(steps).Some?
    ensures |steps| + Remaining(Exec(steps).value) <= Remaining(START)
    decreases |steps|
  {
    if steps == [] {
    } else {
      var k := |steps| - 1;
      RunBounded(steps[..k]);
      HealthyRun(steps[..k]);
      StepProgress(Exec(steps[..k]).value, steps[k]);
      hide Remaining, Apply, Enabled, Healthy;
    }
  }

  ghost predicate NoDiscard(steps: seq<Step>) {
    forall i :: 0 <= i < |steps| ==> steps[i].Client? || steps[i].Server?
  }

  /** The echo is whole while nothing has been discarded. */
  ghost predicate Whole(w: World) {
    w.client.pc == 5 && w.server.pc >= 6 ==> |w.client.got| + |w.down| == |Msg(5)|
  }

  lemma {:induction false} WholeRun(steps: seq<Step>)
    requires Exec(steps).Some? && NoDiscard(steps)
    ensures Whole(Exec(steps).value)
    decreases |steps|
  {
    if steps == [] {
    } else {
      var k := |steps| - 1;
      HealthyRun(steps[..k]);
      HealthyRun(steps);
      WholeRun(steps[..k]);
      WholeStep(Exec(steps[..k]).value, steps[k]);
      hide Apply, Enabled, Healthy, Whole;
    }
  }

  lemma WholeStep(w: World, s: Step)
    requires Healthy(w) && Whole(w) && Enabled(w, s) && (s.Client? || s.Server?)
    ensures Whole(Apply(w, s))
  {
    HealthyStep(w, s);
    ScriptOps(if s.Client? && w.client.pc < 6 then w.client.pc
              else if s.Server? && w.server.pc < 6 then w.server.pc else 0);
    hide ClientScript, ServerScript, Msg;
  }

  /**
   When everything sent is eventually delivered, the exchange cannot fail: every run is finite,
   and one that cannot be continued has taken both peers to the end of their scripts.
   */
  lemma ExchangeCompletes(steps: seq<Step>)
    requires Exec(steps).Some? && NoDiscard(steps)
    ensures |steps| <= Remaining(START)
    ensures CanMove(Exec(steps).value) || Finished(Exec(steps).value)
  {
    RunBounded(steps);
    HealthyRun(steps);
    WholeRun(steps);
    StuckIff(steps);
    hide Exec, Msg;
    assert 0 <= Remaining(Exec(steps).value) by {
      assert Exec(steps).value.client.pc <= 7 && Exec(steps).value.server.pc <= 8;
    }
  }
}
