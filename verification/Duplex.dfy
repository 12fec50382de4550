/**
 One direction of the in-memory duplex of the embedded demo: a byte pipe behind a lock, and a
 notification with no memory, which wakes exactly the waiters registered when it fires.

 The reader and the writer interleave at every await and between every two statements that touch
 shared state. The reader registers for the notification before it looks at the buffer; `early`
 says so, and the model also runs the other order to show what the choice is worth.
 */
module Duplex {
  import opened Wrappers

  type Bytes = seq<Byte>

  function Min(a: nat, b: nat): nat {
    if a <= b then a else b
  }

  // ----- The two halves, interleaved -----

  datatype Reader =
    | Away                                              // no read in progress
    | Looking(room: nat, armed: bool, notified: bool)   // about to lock and check
    | Found(room: nat)                                  // found nothing and not yet registered
    | Parked(room: nat, notified: bool)                 // registered and waiting

  datatype Writer =
    | Idle
    | Appended(n: nat)    // the bytes are in, the counter and the notification are still to come
    | Counted             // only the notification is still to come

  datatype State = State(
    buf: Bytes,
    reader: Reader,
    writer: Writer,
    bytesOut: nat,
    written: Bytes,       // everything ever appended
    read: Bytes)          // everything ever handed to the reader

  const START: State := State([], Away, Idle, 0, [], [])

  datatype Step =
    | Read(room: nat)     // a read call with a non-empty slice
    | Check               // lock, look, take or move on
    | Arm                 // the late order only: register after the look
    | Wake                // the notification was seen: go round again
    | Cancel              // the read is dropped at an await
    | Write(data: Bytes)  // lock, append, unlock
    | Count
    | Notify

  predicate Enabled(s: State, step: Step) {
    match step
    case Read(room) => s.reader.Away? && room > 0
    case Check => s.reader.Looking?
    case Arm => s.reader.Found?
    case Wake => s.reader.Parked? && s.reader.notified
    case Cancel => !s.reader.Away?
    case Write(_) => s.writer.Idle?
    case Count => s.writer.Appended?
    case Notify => s.writer.Counted?
  }

  function Apply(early: bool, s: State, step: Step): State
    requires Enabled(s, step)
  {
    match step
    case Read(room) => s.(reader := Looking(room, early, false))
    case Check =>
      if s.buf != [] then
        var n := Min(s.reader.room, |s.buf|);
        s.(buf := s.buf[n..], read := s.read + s.buf[..n], reader := Away)
      else if s.reader.armed then s.(reader := Parked(s.reader.room, s.reader.notified))
      else s.(reader := Found(s.reader.room))
    case Arm => s.(reader := Parked(s.reader.room, false))
    case Wake => s.(reader := Looking(s.reader.room, early, false))
    case Cancel => s.(reader := Away)
    case Write(data) => s.(buf := s.buf + data, written := s.written + data, writer := Appended(|data|))
    case Count => s.(bytesOut := s.bytesOut + s.writer.n, writer := Counted)
    case Notify =>
      s.(writer := Idle,
         reader := match s.reader
                   case Looking(room, armed, notified) => Looking(room, armed, notified || armed)
                   case Parked(room, _) => Parked(room, true)
                   case other => other)
  }

  function Exec(early: bool, steps: seq<Step>): Option<State> {
    if steps == [] then Some(START)
    else
      var k := |steps| - 1;
      match Exec(early, steps[..k])
      case None => None
      case Some(s) => if Enabled(s, steps[k]) then Some(Apply(early, s, steps[k])) else None
  }

  // ----- The two halves as they run -----

  /**
   One direction of the pair, as its reader and its writer hold it. Each method is one step that
   nothing can interrupt, and is proved to be that step of the machine.
   */
  class Channel {
    var buf: Bytes
    var reader: Reader
    var writer: Writer
    var bytesOut: nat
    ghost var written: Bytes
    ghost var read: Bytes

    ghost function Current(): State
      reads this
    {
      State(buf, reader, writer, bytesOut, written, read)
    }

    constructor ()
      ensures Current() == START
    {
      buf, reader, writer, bytesOut, written, read := [], Away, Idle, 0, [], [];
    }

    /** Enter a read with a non-empty slice, registered before the first look. */
    method BeginRead(room: nat)
      requires reader.Away? && room > 0
      modifies this
      ensures Current() == Apply(true, old(Current()), Read(room))
    {
      reader := Looking(room, true, false);
    }

    /** Under the lock: move bytes from the front, one by one, as many as fit; or wait. */
    method Look() returns (out: Bytes)
      requires reader.Looking?
      modifies this
      ensures Current() == Apply(true, old(Current()), Check) && read == old(read) + out
    {
      out := [];
      if buf == [] {
        reader := if reader.armed then Parked(reader.room, reader.notified) else Found(reader.room);
        return;
      }
      var n := Min(reader.room, |buf|);
      while |out| < n
        invariant |out| <= n && n <= |old(buf)| && out == old(buf)[..|out|] && buf == old(buf)[|out|..]
        invariant Current() == old(Current()).(buf := buf)
        decreases n - |out|
      {
        out := out + [buf[0]];
        buf := buf[1..];
      }
      read := read + out;
      reader := Away;
    }

    /** The wait ended: register again and go round. */
    method GoRound()
      requires reader.Parked? && reader.notified
      modifies this
      ensures Current() == Apply(true, old(Current()), Wake)
    {
      reader := Looking(reader.room, true, false);
    }

    /** Under the lock: append the bytes. */
    method Append(data: Bytes)
      requires writer.Idle?
      modifies this
      ensures Current() == Apply(true, old(Current()), Write(data))
    {
      buf := buf + data;
      written := written + data;
      writer := Appended(|data|);
    }

    method AddToCount()
      requires writer.Appended?
      modifies this
      ensures Current() == Apply(true, old(Current()), Count)
    {
      bytesOut := bytesOut + writer.n;
      writer := Counted;
    }

    /** Wake whoever is registered; nobody else hears of it. */
    method NotifyWaiters()
      requires writer.Counted?
      modifies this
      ensures Current() == Apply(true, old(Current()), Notify)
    {
      match reader {
        case Looking(room, armed, notified) =>
          if armed {
            reader := Looking(room, armed, true);
          }
        case Parked(room, _) => reader := Parked(room, true);
        case _ =>
      }
      writer := Idle;
    }
  }

  // ----- What every step keeps -----

  /** Bytes come out in the order they went in, none lost and none twice; the counter is exact. */
  ghost predicate Fifo(s: State) {
    && s.read + s.buf == s.written
    && s.bytesOut + (if s.writer.Appended? then s.writer.n else 0) == |s.written|
    && (s.reader.Looking? || s.reader.Parked? || s.reader.Found? ==> s.reader.room > 0)
  }

  lemma FifoStep(early: bool, s: State, step: Step)
    requires Fifo(s) && Enabled(s, step)
    ensures Fifo(Apply(early, s, step))
  {
    match step
    case Check =>
      if s.buf != [] {
        var n := Min(s.reader.room, |s.buf|);
        assert (s.read + s.buf[..n]) + s.buf[n..] == s.read + s.buf;
      }
    case Write(data) =>
      assert s.read + (s.buf + data) == (s.read + s.buf) + data;
    case _ =>
  }

  lemma {:induction false} FifoRun(early: bool, steps: seq<Step>)
    requires Exec(early, steps).Some?
    ensures Fifo(Exec(early, steps).value)
    decreases |steps|
  {
    if steps == [] {
    } else {
      var k := |steps| - 1;
      FifoRun(early, steps[..k]);
      FifoStep(early, Exec(early, steps[..k]).value, steps[k]);
    }
  }

  /** Parked on a non-empty pipe with no notification seen, while the writer has nothing left to do. */
  ghost predicate LostWakeup(s: State) {
    s.reader.Parked? && !s.reader.notified && s.buf != [] && s.writer.Idle?
  }

  /** With early registration: whoever waits unnotified on bytes has a notification coming. */
  ghost predicate NotificationComing(s: State) {
    && !s.reader.Found?
    && (s.reader.Looking? ==> s.reader.armed)
    && (s.reader.Parked? && !s.reader.notified && s.buf != [] ==> !s.writer.Idle?)
  }

  lemma NotificationStep(s: State, step: Step)
    requires NotificationComing(s) && Enabled(s, step)
    ensures NotificationComing(Apply(true, s, step))
  {}

  /**
   In every interleaving, with the source's order: bytes read and bytes buffered are exactly the
   bytes written, in order; the byte counter is exact between writes; and a reader parked
   unnotified on a non-empty pipe implies the writer is between its append and its notification.
   */
  lemma {:induction false} NoLostWakeup(steps: seq<Step>)
    requires Exec(true, steps).Some?
    ensures var s := Exec(true, steps).value;
      && s.read + s.buf == s.written
      && (s.writer.Idle? ==> s.bytesOut == |s.written|)
      && NotificationComing(s) && !LostWakeup(s)
    decreases |steps|
  {
    FifoRun(true, steps);
    if steps == [] {
    } else {
      var k := |steps| - 1;
      NoLostWakeup(steps[..k]);
      NotificationStep(Exec(true, steps[..k]).value, steps[k]);
      hide Apply, Fifo, NotificationComing;
    }
  }

  /**
   So a waiting reader always gets its bytes: once the writer is done, a reader that waits on a
   non-empty pipe can go round, and its next look hands it at least one byte.
   */
  lemma ReaderGetsBytes(steps: seq<Step>)
    requires Exec(true, steps).Some?
    requires var s := Exec(true, steps).value; s.reader.Parked? && s.buf != [] && s.writer.Idle?
    ensures var s := Exec(true, steps).value;
      var t := Exec(true, steps + [Wake, Check]);
      t.Some? && t.value.reader.Away? && |t.value.read| > |s.read|
  {
    NoLostWakeup(steps);
    FifoRun(true, steps);
    var s := Exec(true, steps).value;
    var one := steps + [Wake];
    var two := one + [Check];
    assert one[..|steps|] == steps && two[..|one|] == one && two == steps + [Wake, Check];
    assert Exec(true, one) == Some(Apply(true, s, Wake));
    assert Exec(true, two) == Some(Apply(true, Apply(true, s, Wake), Check));
  }

  /** Registering after the look loses a wakeup: a write that fits in between is never announced. */
  lemma LateRegistrationLosesWakeup()
    ensures exists steps :: Exec(false, steps).Some? && LostWakeup(Exec(false, steps).value)
  {
    var a := [Read(1)];
    var b := a + [Check];
    var c := b + [Write([7])];
    var d := c + [Count];
    var e := d + [Notify];
    var f := e + [Arm];
    var sa := START.(reader := Looking(1, false, false));
    var sc := State([7], Found(1), Appended(1), 0, [7], []);
    assert a == [] + [Read(1)] && START.buf + [7] == [7] && START.written + [7] == [7];
    assert Exec(false, []) == Some(START);
    hide Exec;
    ExecPush(false, [], START, Read(1));
    ExecPush(false, a, sa, Check);
    ExecPush(false, b, sa.(reader := Found(1)), Write([7]));
    ExecPush(false, c, sc, Count);
    ExecPush(false, d, sc.(writer := Counted, bytesOut := 1), Notify);
    ExecPush(false, e, sc.(writer := Idle, bytesOut := 1), Arm);
    assert LostWakeup(Exec(false, f).value);
  }

  lemma ExecPush(early: bool, steps: seq<Step>, s: State, step: Step)
    requires Exec(early, steps) == Some(s) && Enabled(s, step)
    ensures Exec(early, steps + [step]) == Some(Apply(early, s, step))
  {
    assert (steps + [step])[..|steps|] == steps;
  }

  /** No run loses a wakeup exactly when the reader registers before it looks. */
  lemma EarlyIff(early: bool)
    ensures (forall steps :: Exec(early, steps).Some? ==> !LostWakeup(Exec(early, steps).value)) <==> early
  {
    if early {
      forall steps | Exec(true, steps).Some? ensures !LostWakeup(Exec(true, steps).value) {
        NoLostWakeup(steps);
      }
    } else {
      LateRegistrationLosesWakeup();
    }
  }
}
