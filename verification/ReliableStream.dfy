/**
 The reliable stream: a sender that buffers what it has sent until a selective acknowledgement
 covers it, a receiver that reassembles in order from a bounded reorder buffer, and a network
 between them that may lose, duplicate and reorder both data and acknowledgements.

 The model is a state machine over the steps of the two endpoints and the network. What has
 ever been put on the wire stays available for delivery, any number of times and in any order;
 a step that never happens is a loss.
 */
module ReliableStream {
  import opened Sack
  import opened Wrappers

  type Bytes = seq<Byte>

  /** What one stream offset carries: one payload, or the sub-payloads of a coalesced packet. */
  type Bundle = seq<Bytes>

  const MAX_RECV_REORDER: nat := 2048
  const MAX_PENDING_PACKETS: nat := 1024
  const NANOS_PER_MICRO: nat := 1000

  function Size(b: Bundle): nat {
    if b == [] then 0 else |b[0]| + Size(b[1..])
  }

  // ----- The receiver -----

  /** A segment that arrived ahead of its turn. */
  datatype Island = Island(offset: nat, bundle: Bundle)

  datatype Receiver = Receiver(next: nat, buf: seq<Island>, bytes: nat)

  predicate Buffered(buf: seq<Island>, offset: nat) {
    exists i :: 0 <= i < |buf| && buf[i].offset == offset
  }

  /** The first island carrying `offset`. */
  function Position(buf: seq<Island>, offset: nat): (i: nat)
    requires Buffered(buf, offset)
    ensures i < |buf| && buf[i].offset == offset
  {
    if buf[0].offset == offset then 0 else
      assert Buffered(buf[1..], offset) by {
        var i :| 0 <= i < |buf| && buf[i].offset == offset;
        assert buf[1..][i - 1] == buf[i];
      }
      1 + Position(buf[1..], offset)
  }

  function Without(buf: seq<Island>, i: nat): seq<Island>
    requires i < |buf|
  {
    buf[..i] + buf[i + 1..]
  }

  /** Take island `i` out of the buffer and move the cursor past it. */
  function Release(r: Receiver, i: nat): Receiver
    requires i < |r.buf|
  {
    var size := Size(r.buf[i].bundle);
    Receiver(r.next + 1, Without(r.buf, i), if r.bytes >= size then r.bytes - size else 0)
  }

  /** Release every island that has become contiguous. */
  function Drain(r: Receiver, out: seq<Bytes>): (Receiver, seq<Bytes>)
    decreases |r.buf|
  {
    if Buffered(r.buf, r.next) then
      var i := Position(r.buf, r.next);
      Drain(Release(r, i), out + r.buf[i].bundle)
    else (r, out)
  }

  /** `accept_in_order`: the receiver after a segment, and what it releases to the application. */
  function AcceptInOrder(r: Receiver, offset: nat, b: Bundle, limit: nat): (Receiver, seq<Bytes>) {
    if offset < r.next then (r, [])
    else if offset != r.next then
      if !Buffered(r.buf, offset) && |r.buf| < MAX_RECV_REORDER && r.bytes + Size(b) <= limit then
        (r.(buf := r.buf + [Island(offset, b)], bytes := r.bytes + Size(b)), [])
      else (r, [])
    else Drain(r.(next := r.next + 1), b)
  }

  /** The offsets the receiver has: delivered, or waiting in the reorder buffer. */
  predicate Held(r: Receiver, n: nat) {
    n < r.next || Buffered(r.buf, n)
  }

  // ----- Acknowledgements from live reorder state -----

  function Singles(buf: seq<Island>): seq<Range> {
    seq(|buf|, i requires 0 <= i < |buf| => Range(buf[i].offset, buf[i].offset))
  }

  function Contiguous(next: nat): seq<Range> {
    if next > 0 then [Range(0, next - 1)] else []
  }

  function HeldRanges(r: Receiver): seq<Range> {
    Coalesce(Contiguous(r.next), SortByLow(Singles(r.buf)))
  }

  /** `received_sack`: what the receiver reports, or nothing if it has nothing. */
  function ReceivedSack(r: Receiver, delay: nat): Option<Ack> {
    if r.next == 0 && r.buf == [] then None else FromRanges(HeldRanges(r), delay)
  }

  /** Offsets stay in the range the wire form can name. */
  ghost predicate InRange(r: Receiver) {
    r.next < U32 && forall i :: 0 <= i < |r.buf| ==> r.buf[i].offset < U32
  }

  lemma SinglesCover(buf: seq<Island>, n: nat)
    ensures Covers(Singles(buf), n) <==> Buffered(buf, n)
  {
    if Buffered(buf, n) {
      var i :| 0 <= i < |buf| && buf[i].offset == n;
      assert Singles(buf)[i] == Range(n, n);
    }
  }

  lemma HeldRangesCover(r: Receiver, n: nat)
    requires InRange(r)
    ensures AllProper(HeldRanges(r)) && (HeldRanges(r) == [] <==> r.next == 0 && r.buf == [])
    ensures Covers(HeldRanges(r), n) <==> Held(r, n)
  {
    var base, singles := Contiguous(r.next), Singles(r.buf);
    assert AllProper(singles);
    var sorted := SortByLow(singles);
    SortProper(singles);
    SortKeeps(singles);
    SameCover(singles, sorted, n);
    SinglesCover(r.buf, n);
    assert |multiset(sorted)| == |sorted| && |multiset(singles)| == |singles|;
    CoalesceShape(base, sorted);
    CoalesceCover(base, sorted, n);
    assert Covers(base, n) <==> n < r.next by {
      if r.next > 0 {
        CoversOne(Range(0, r.next - 1), n);
      }
    }
  }

  /**
   The receiver never acknowledges an offset it does not hold, always acknowledges its whole
   delivered run, and acknowledges every island too unless there are more than the wire holds.
   */
  lemma SackIsHonest(r: Receiver, delay: nat, n: nat)
    requires InRange(r) && delay < U32 && ReceivedSack(r, delay).Some?
    ensures var a := ReceivedSack(r, delay).value;
      && ValidAck(a)
      && (Covers(a.ranges, n) ==> Held(r, n))
      && (n < r.next ==> Covers(a.ranges, n))
      && (|Merged(HeldRanges(r))| <= MAX_SACK_RANGES ==> (Covers(a.ranges, n) <==> Held(r, n)))
  {
    HeldRangesCover(r, n);
    FromRangesKeeps(HeldRanges(r), delay, n);
    if n < r.next {
      forall m: nat | m <= n ensures Covers(HeldRanges(r), m) {
        HeldRangesCover(r, m);
      }
      assert RunTo(HeldRanges(r), n);
    }
  }

  // ----- The sender -----

  /** `on_sack`: forget every pending offset the acknowledgement covers. */
  function Retire(pending: seq<nat>, a: Ack): seq<nat> {
    if pending == [] then []
    else (if Covers(a.ranges, pending[0]) then [] else [pending[0]]) + Retire(pending[1..], a)
  }

  lemma {:induction false} RetireIs(pending: seq<nat>, a: Ack, n: nat)
    ensures n in Retire(pending, a) <==> n in pending && !Covers(a.ranges, n)
    decreases |pending|
  {
    if pending == [] {
    } else {
      RetireIs(pending[1..], a, n);
      assert pending == [pending[0]] + pending[1..];
    }
  }

  // ----- The two endpoints and the network -----

  datatype World = World(
    sent: seq<Bundle>,                  // every bundle the application has handed over
    pending: seq<nat>,                  // offsets in the send buffer
    rcv: Receiver,
    delivered: seq<Bytes>,              // everything released to the application so far
    packets: set<(nat, Bundle)>,        // data ever put on the wire
    acks: set<Ack>)                     // acknowledgements ever put on the wire

  datatype Move =
    | Push(bundle: Bundle)              // the application sends
    | Transmit(offset: nat)             // a pending segment goes out, for the first time or again
    | Arrive(offset: nat, bundle: Bundle, limit: nat)   // data reaches the receiver
    | Report(delay: nat)                // the receiver acknowledges
    | Hear(ack: Ack)                    // an acknowledgement reaches the sender

  const START: World := World([], [], Receiver(0, [], 0), [], {}, {})

  /** Offsets are assigned until the space is exhausted, and only into a buffer with room. */
  predicate Enabled(w: World, m: Move) {
    match m
    case Push(_) => |w.sent| < U32 - 1 && |w.pending| < MAX_PENDING_PACKETS
    case Transmit(offset) => offset in w.pending && offset < |w.sent|
    case Arrive(offset, bundle, _) => (offset, bundle) in w.packets
    case Report(delay) => delay < U32
    case Hear(ack) => ack in w.acks
  }

  function Apply(w: World, m: Move): World
    requires Enabled(w, m)
  {
    match m
    case Push(bundle) => w.(sent := w.sent + [bundle], pending := w.pending + [|w.sent|])
    case Transmit(offset) => w.(packets := w.packets + {(offset, w.sent[offset])})
    case Arrive(offset, bundle, limit) =>
      var (r, out) := AcceptInOrder(w.rcv, offset, bundle, limit);
      w.(rcv := r, delivered := w.delivered + out)
    case Report(delay) =>
      (match ReceivedSack(w.rcv, delay)
       case None => w
       case Some(a) => w.(acks := w.acks + {a}))
    case Hear(ack) => w.(pending := Retire(w.pending, ack))
  }

  // ----- What every step keeps -----

  function Flatten(bs: seq<Bundle>): seq<Bytes> {
    if bs == [] then [] else Flatten(bs[..|bs| - 1]) + bs[|bs| - 1]
  }

  function BufBytes(buf: seq<Island>): nat {
    if buf == [] then 0 else Size(buf[0].bundle) + BufBytes(buf[1..])
  }

  /** The reorder buffer holds distinct future offsets, each with what was sent at it. */
  ghost predicate Faithful(r: Receiver, sent: seq<Bundle>) {
    && r.next <= |sent|
    && (forall i :: 0 <= i < |r.buf| ==> r.next <= r.buf[i].offset < |sent| && r.buf[i].bundle == sent[r.buf[i].offset])
    && (forall i, j :: 0 <= i < j < |r.buf| ==> r.buf[i].offset != r.buf[j].offset)
    && r.bytes == BufBytes(r.buf)
    && |r.buf| <= MAX_RECV_REORDER
  }

  ghost predicate Waiting(r: Receiver) {
    !Buffered(r.buf, r.next)
  }

  ghost predicate Good(w: World) {
    && |w.sent| < U32
    && Faithful(w.rcv, w.sent) && Waiting(w.rcv)
    && w.delivered == Flatten(w.sent[..w.rcv.next])
    && (forall p :: p in w.packets ==> p.0 < |w.sent| && p.1 == w.sent[p.0])
    && (forall a :: a in w.acks ==> ValidAck(a) && forall n: nat :: Covers(a.ranges, n) ==> Held(w.rcv, n))
    && (forall n :: n in w.pending ==> n < |w.sent|)
    && (forall n :: 0 <= n < |w.sent| && n !in w.pending ==> Held(w.rcv, n))
  }

  // The drain loop.

  lemma {:induction false} BufBytesWithout(buf: seq<Island>, i: nat)
    requires i < |buf|
    ensures BufBytes(Without(buf, i)) + Size(buf[i].bundle) == BufBytes(buf)
    decreases |buf|
  {
    if i == 0 {
      assert Without(buf, 0) == buf[1..];
    } else {
      BufBytesWithout(buf[1..], i - 1);
      assert Without(buf, i) == [buf[0]] + Without(buf[1..], i - 1);
    }
  }

  lemma {:induction false} BufBytesPush(buf: seq<Island>, x: Island)
    ensures BufBytes(buf + [x]) == BufBytes(buf) + Size(x.bundle)
    decreases |buf|
  {
    if buf != [] {
      BufBytesPush(buf[1..], x);
      assert (buf + [x])[1..] == buf[1..] + [x];
    } else {
      assert (buf + [x])[1..] == [];
    }
  }

  lemma WithoutElements(buf: seq<Island>, i: nat)
    requires i < |buf|
    ensures |Without(buf, i)| == |buf| - 1
    ensures forall j :: 0 <= j < |buf| - 1 ==> Without(buf, i)[j] == buf[if j < i then j else j + 1]
  {}

  /** Releasing the island at the cursor keeps the buffer faithful and its byte count exact. */
  lemma ReleaseFaithful(r: Receiver, sent: seq<Bundle>, i: nat)
    requires Faithful(r, sent) && i < |r.buf| && r.buf[i].offset == r.next
    ensures Faithful(Release(r, i), sent)
  {
    BufBytesWithout(r.buf, i);
    WithoutElements(r.buf, i);
    hide Without, BufBytes, Size;
    var rest := Release(r, i).buf;
    assert |rest| == |r.buf| - 1;
    forall j | 0 <= j < |rest| ensures r.next + 1 <= rest[j].offset < |sent| && rest[j].bundle == sent[rest[j].offset] {
      var j' := if j < i then j else j + 1;
      assert rest[j] == r.buf[j'] && r.buf[j'].offset != r.buf[i].offset;
    }
  }

  /** ... and the receiver still holds all it held. */
  lemma ReleaseHeld(r: Receiver, i: nat, n: nat)
    requires i < |r.buf| && r.buf[i].offset == r.next && Held(r, n)
    ensures Held(Release(r, i), n)
  {
    WithoutElements(r.buf, i);
    if n > r.next {
      var j :| 0 <= j < |r.buf| && r.buf[j].offset == n;
      assert Release(r, i).buf[if j < i then j else j - 1] == r.buf[j];
    }
  }

  lemma FlattenNext(sent: seq<Bundle>, k: nat)
    requires k < |sent|
    ensures Flatten(sent[..k + 1]) == Flatten(sent[..k]) + sent[k]
  {
    assert sent[..k + 1][..k] == sent[..k];
  }

  lemma {:induction false} DrainKeeps(r: Receiver, out: seq<Bytes>, sent: seq<Bundle>, start: seq<Bytes>)
    requires Faithful(r, sent) && start + out == Flatten(sent[..r.next])
    ensures var (r', out') := Drain(r, out);
      && Faithful(r', sent) && Waiting(r') && start + out' == Flatten(sent[..r'.next])
      && r'.next >= r.next && forall n: nat :: Held(r, n) ==> Held(r', n)
    decreases |r.buf|
  {
    if !Buffered(r.buf, r.next) {
    } else {
      var i := Position(r.buf, r.next);
      var b := r.buf[i].bundle;
      ReleaseFaithful(r, sent, i);
      FlattenNext(sent, r.next);
      assert start + (out + b) == (start + out) + b;
      forall n: nat | Held(r, n) ensures Held(Release(r, i), n) {
        ReleaseHeld(r, i, n);
      }
      hide Faithful, Held;
      DrainKeeps(Release(r, i), out + b, sent, start);
    }
  }

  /** What one arrival keeps: order, fidelity, bounds, and everything already held. */
  lemma AcceptKeeps(r: Receiver, offset: nat, limit: nat, sent: seq<Bundle>)
    requires Faithful(r, sent) && Waiting(r) && offset < |sent|
    ensures var (r', out) := AcceptInOrder(r, offset, sent[offset], limit);
      && Faithful(r', sent) && Waiting(r') && Flatten(sent[..r.next]) + out == Flatten(sent[..r'.next])
      && r'.next >= r.next && (forall n: nat :: Held(r, n) ==> Held(r', n))
      && (offset == r.next ==> r'.next > r.next)
  {
    var before := Flatten(sent[..r.next]);
    if offset == r.next {
      FlattenNext(sent, r.next);
      AdvanceFaithful(r, sent);
      DrainKeeps(r.(next := r.next + 1), sent[offset], sent, before);
    } else {
      assert before + [] == before;
      if offset > r.next {
        BufferKeeps(r, offset, sent);
      }
    }
  }

  lemma AdvanceFaithful(r: Receiver, sent: seq<Bundle>)
    requires Faithful(r, sent) && Waiting(r) && r.next < |sent|
    ensures Faithful(r.(next := r.next + 1), sent)
  {}

  lemma BufferKeeps(r: Receiver, offset: nat, sent: seq<Bundle>)
    requires Faithful(r, sent) && Waiting(r) && r.next < offset < |sent|
    ensures var grown := r.(buf := r.buf + [Island(offset, sent[offset])], bytes := r.bytes + Size(sent[offset]));
      && (!Buffered(r.buf, offset) && |r.buf| < MAX_RECV_REORDER ==> Faithful(grown, sent) && Waiting(grown))
      && forall n: nat :: Held(r, n) ==> Held(grown, n)
  {
    var x := Island(offset, sent[offset]);
    BufBytesPush(r.buf, x);
    assert forall i :: 0 <= i < |r.buf| ==> (r.buf + [x])[i] == r.buf[i];
  }

  lemma GoodArrive(w: World, m: Move)
    requires Good(w) && Enabled(w, m) && m.Arrive?
    ensures Good(Apply(w, m))
  {
    AcceptKeeps(w.rcv, m.offset, m.limit, w.sent);
    hide Faithful, Held, AcceptInOrder, Waiting;
  }

  lemma FaithfulGrows(r: Receiver, sent: seq<Bundle>, b: Bundle)
    requires Faithful(r, sent)
    ensures Faithful(r, sent + [b]) && Flatten((sent + [b])[..r.next]) == Flatten(sent[..r.next])
  {
    assert (sent + [b])[..r.next] == sent[..r.next];
  }

  lemma GoodPush(w: World, m: Move)
    requires Good(w) && Enabled(w, m) && m.Push?
    ensures Good(Apply(w, m))
  {
    FaithfulGrows(w.rcv, w.sent, m.bundle);
    hide Faithful, Held, Waiting;
  }

  lemma FaithfulInRange(r: Receiver, sent: seq<Bundle>)
    requires Faithful(r, sent) && |sent| < U32
    ensures InRange(r)
  {}

  lemma GoodReport(w: World, m: Move)
    requires Good(w) && Enabled(w, m) && m.Report?
    ensures Good(Apply(w, m))
  {
    hide Held, Waiting, ReceivedSack, Covers, ValidAck, Faithful, Buffered;
    FaithfulInRange(w.rcv, w.sent);
    if ReceivedSack(w.rcv, m.delay).Some? {
      var a := ReceivedSack(w.rcv, m.delay).value;
      SackIsHonest(w.rcv, m.delay, 0);
      forall n: nat | Covers(a.ranges, n) ensures Held(w.rcv, n) {
        SackIsHonest(w.rcv, m.delay, n);
      }
    }
  }

  lemma GoodHear(w: World, m: Move)
    requires Good(w) && Enabled(w, m) && m.Hear?
    ensures Good(Apply(w, m))
  {
    hide Faithful, Held, Waiting, Covers, ValidAck;
    forall n: nat ensures n in Retire(w.pending, m.ack) <==> n in w.pending && !Covers(m.ack.ranges, n) {
      RetireIs(w.pending, m.ack, n);
    }
  }

  lemma GoodStep(w: World, m: Move)
    requires Good(w) && Enabled(w, m)
    ensures Good(Apply(w, m))
  {
    match m
    case Push(_) => GoodPush(w, m);
    case Transmit(_) =>
    case Arrive(_, _, _) => GoodArrive(w, m);
    case Report(_) => GoodReport(w, m);
    case Hear(_) => GoodHear(w, m);
  }

  // ----- Whole runs -----

  /** The world after a list of moves, if each was enabled when its turn came. */
  function Exec(moves: seq<Move>): Option<World> {
    if moves == [] then Some(START)
    else
      var k := |moves| - 1;
      match Exec(moves[..k])
      case None => None
      case Some(w) => if Enabled(w, moves[k]) then Some(Apply(w, moves[k])) else None
  }

  lemma {:induction false} GoodRun(moves: seq<Move>)
    requires Exec(moves).Some?
    ensures Good(Exec(moves).value)
    decreases |moves|
  {
    if moves == [] {
      assert START.sent[..0] == [];
    } else {
      hide Good, Apply;
      var k := |moves| - 1;
      GoodRun(moves[..k]);
      GoodStep(Exec(moves[..k]).value, moves[k]);
    }
  }

  // The byte budget.

  /** The largest byte limit any arrival was judged by. */
  function LargestLimit(moves: seq<Move>): nat {
    if moves == [] then 0
    else
      var rest, last := LargestLimit(moves[..|moves| - 1]), moves[|moves| - 1];
      if last.Arrive? && last.limit > rest then last.limit else rest
  }

  lemma {:induction false} DrainShrinks(r: Receiver, out: seq<Bytes>)
    ensures Drain(r, out).0.bytes <= r.bytes
    decreases |r.buf|
  {
    if !Buffered(r.buf, r.next) {
    } else {
      var i := Position(r.buf, r.next);
      DrainShrinks(Release(r, i), out + r.buf[i].bundle);
    }
  }

  lemma BytesStep(w: World, m: Move, most: nat)
    requires Enabled(w, m) && w.rcv.bytes <= most && (m.Arrive? ==> m.limit <= most)
    ensures Apply(w, m).rcv.bytes <= most
  {
    if m.Arrive? && m.offset == w.rcv.next {
      DrainShrinks(w.rcv.(next := w.rcv.next + 1), m.bundle);
    }
  }

  lemma {:induction false} WithinBudget(moves: seq<Move>)
    requires Exec(moves).Some?
    ensures Exec(moves).value.rcv.bytes <= LargestLimit(moves)
    decreases |moves|
  {
    if moves == [] {
    } else {
      hide Apply, Enabled;
      var k := |moves| - 1;
      WithinBudget(moves[..k]);
      BytesStep(Exec(moves[..k]).value, moves[k], LargestLimit(moves));
    }
  }

  /**
   In every run, over any loss, duplication and reordering of data and acknowledgements: the
   application has been given exactly the first `next` bundles, in order and once each; the
   sender has forgotten no offset the receiver does not hold; and the reorder buffer is within
   its cap with an exact byte count, never above the largest budget an arrival was judged by.
   */
  lemma ReliableDelivery(moves: seq<Move>)
    requires Exec(moves).Some?
    ensures var w := Exec(moves).value;
      && w.rcv.next <= |w.sent| && w.delivered == Flatten(w.sent[..w.rcv.next])
      && (forall n :: 0 <= n < |w.sent| && n !in w.pending ==> Held(w.rcv, n))
      && |w.rcv.buf| <= MAX_RECV_REORDER && w.rcv.bytes == BufBytes(w.rcv.buf) <= LargestLimit(moves)
  {
    GoodRun(moves);
    WithinBudget(moves);
  }

  lemma HoleIsPending(w: World)
    requires Good(w) && w.rcv.next < |w.sent|
    ensures w.rcv.next in w.pending
  {
    assert !Held(w.rcv, w.rcv.next);
  }

  /** Once the send buffer is empty, everything sent has been delivered. */
  lemma DrainedMeansDelivered(moves: seq<Move>)
    requires Exec(moves).Some? && Exec(moves).value.pending == []
    ensures var w := Exec(moves).value; w.delivered == Flatten(w.sent)
  {
    GoodRun(moves);
    var w := Exec(moves).value;
    if w.rcv.next < |w.sent| {
      HoleIsPending(w);
    }
    assert w.sent[..|w.sent|] == w.sent;
  }

  /**
   The stream is never stuck: while something sent is undelivered, the offset the receiver waits
   for is still in the send buffer, and sending it once more delivers it, whatever the reorder
   buffer holds and however small its byte budget is.
   */
  lemma NeverStuck(moves: seq<Move>, limit: nat)
    requires Exec(moves).Some? && Exec(moves).value.rcv.next < |Exec(moves).value.sent|
    ensures var w := Exec(moves).value;
      var hole := w.rcv.next;
      var after := Exec(moves + [Transmit(hole), Arrive(hole, w.sent[hole], limit)]);
      after.Some? && after.value.rcv.next > hole
  {
    GoodRun(moves);
    var w := Exec(moves).value;
    var hole := w.rcv.next;
    HoleIsPending(w);
    var one := moves + [Transmit(hole)];
    var two := one + [Arrive(hole, w.sent[hole], limit)];
    assert one[..|moves|] == moves && two[..|one|] == one;
    assert two == moves + [Transmit(hole), Arrive(hole, w.sent[hole], limit)];
    var sent := Apply(w, Transmit(hole));
    assert (hole, w.sent[hole]) in sent.packets;
    AcceptKeeps(w.rcv, hole, limit, w.sent);
    hide Good, AcceptInOrder;
    assert Exec(one) == Some(sent);
  }

  // ----- The loops -----

  lemma DrainNext(r: Receiver, out: seq<Bytes>)
    requires Buffered(r.buf, r.next)
    ensures var i := Position(r.buf, r.next); Drain(r, out) == Drain(Release(r, i), out + r.buf[i].bundle)
    ensures |Release(r, Position(r.buf, r.next)).buf| < |r.buf|
  {}

  lemma DrainDone(r: Receiver, out: seq<Bytes>)
    requires !Buffered(r.buf, r.next)
    ensures Drain(r, out) == (r, out)
  {}

  /** The delay to report: what the caller measured, or else the time since the last arrival, as far as it fits. */
  function DelayFor(measured: nat, arrived: Option<nat>, now: nat): (d: nat)
    requires measured < U32
    ensures d < U32
  {
    if measured != 0 then measured
    else if arrived.None? || now < arrived.value then 0
    else if (now - arrived.value) / NANOS_PER_MICRO < U32 then (now - arrived.value) / NANOS_PER_MICRO
    else U32 - 1
  }

  class StreamReceiver {
    var next: nat
    var buf: seq<Island>
    var bytes: nat
    var arrived: Option<nat>   // the instant data last arrived

    ghost function Current(): Receiver
      reads this
    {
      Receiver(next, buf, bytes)
    }

    constructor ()
      ensures Current() == START.rcv && arrived == None
    {
      next, buf, bytes, arrived := 0, [], 0, None;
    }

    method Accept(offset: nat, bundle: Bundle, limit: nat, now: nat) returns (out: seq<Bytes>)
      modifies this
      ensures (Current(), out) == AcceptInOrder(old(Current()), offset, bundle, limit) && arrived == Some(now)
    {
      hide Size;
      arrived := Some(now);
      if offset < next {
        return [];
      }
      if offset != next {
        var already := exists i :: 0 <= i < |buf| && buf[i].offset == offset;
        if !already && |buf| < MAX_RECV_REORDER && bytes + Size(bundle) <= limit {
          buf := buf + [Island(offset, bundle)];
          bytes := bytes + Size(bundle);
        }
        return [];
      }
      next := next + 1;
      out := DrainHeld(bundle);
    }

    /** Release every segment that has become contiguous. */
    method DrainHeld(first: seq<Bytes>) returns (out: seq<Bytes>)
      modifies this
      ensures (Current(), out) == Drain(old(Current()), first) && arrived == old(arrived)
    {
      hide Size, Drain, Without;
      out := first;
      while exists i :: 0 <= i < |buf| && buf[i].offset == next
        invariant Drain(Current(), out) == Drain(old(Current()), first) && arrived == old(arrived)
        decreases |buf|
      {
        assert Buffered(buf, next);
        DrainNext(Current(), out);
        var i := Position(buf, next);
        var size := Size(buf[i].bundle);
        out := out + buf[i].bundle;
        next := next + 1;
        bytes := if bytes >= size then bytes - size else 0;
        buf := Without(buf, i);
      }
      DrainDone(Current(), out);
    }

    method Delay(measured: nat, now: nat) returns (delay: nat)
      requires measured < U32
      ensures delay == DelayFor(measured, arrived, now)
    {
      delay := measured;
      if measured == 0 && arrived.Some? && now >= arrived.value {
        var micros := (now - arrived.value) / NANOS_PER_MICRO;
        delay := if micros < U32 then micros else U32 - 1;
      }
    }

    /** The acknowledgement to send, built from the live reorder state. */
    method Report(measured: nat, now: nat) returns (out: Option<Ack>)
      requires InRange(Current()) && measured < U32
      ensures out == ReceivedSack(Current(), DelayFor(measured, arrived, now))
    {
      if next == 0 && buf == [] {
        return None;
      }
      hide DelayFor, FromRanges, SortByLow, Buffered, Held, InRange, Absorb, Covers;
      var ranges := if next > 0 then [Range(0, next - 1)] else [];
      var islands := SortByLow(Singles(buf));
      var i := 0;
      while i < |islands|
        invariant 0 <= i <= |islands|
        invariant ranges == Coalesce(Contiguous(next), islands[..i])
      {
        ranges := Absorb(ranges, islands[i]);
        assert islands[..i + 1][..i] == islands[..i];
        i := i + 1;
      }
      assert islands[..i] == islands;
      HeldRangesCover(Current(), 0);
      var delay := Delay(measured, now);
      out := FromInclusiveRanges(ranges, delay);
    }
  }
}
