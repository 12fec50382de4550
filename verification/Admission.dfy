/**
 Session admission of the reference server: a global pool of session slots, a per-source-address
 cap with scope-bound guards, one accept loop and any number of handlers that end whenever they
 like. The state machine interleaves all of them at the granularity of one lock or one permit.
 */
module Admission {
  import opened Wrappers

  type Ip = nat
  const USIZE_MAX: nat := 0xFFFF_FFFF_FFFF_FFFF

  /** The right to run one session from `ip`; `counted` unless the cap is disabled. */
  datatype Guard = Guard(ip: Ip, counted: bool)

  // ----- The per-address limiter -----

  /** `admit`: the guard, if any, and the counts after the call. */
  function Admit(counts: map<Ip, nat>, max: nat, ip: Ip): (Option<Guard>, map<Ip, nat>) {
    if max == 0 then (Some(Guard(ip, false)), counts)
    else
      var entered := if ip in counts then counts else counts[ip := 0];
      if entered[ip] >= max then (None, entered)
      else (Some(Guard(ip, true)), entered[ip := entered[ip] + 1])
  }

  /** The guard's drop: decrement, and remove the entry at zero. Wraps if there is nothing to take. */
  function Drop(counts: map<Ip, nat>, g: Guard): map<Ip, nat> {
    if !g.counted || g.ip !in counts then counts
    else
      var n := if counts[g.ip] == 0 then USIZE_MAX else counts[g.ip] - 1;
      if n == 0 then counts - {g.ip} else counts[g.ip := n]
  }

  /** How many counted guards of each address are alive. */
  type Census = Ip -> nat

  /** The map holds exactly the live counted guards: no entry at zero, no address missing. */
  ghost predicate Represents(counts: map<Ip, nat>, live: Census) {
    forall ip :: (ip in counts <==> live(ip) > 0) && (ip in counts ==> counts[ip] == live(ip))
  }

  /**
   A session is admitted exactly when the cap is disabled or the address has fewer live guards
   than the cap; no other address is looked at or changed; and a refusal changes nothing.
   */
  lemma AdmitIff(counts: map<Ip, nat>, live: Census, max: nat, ip: Ip)
    requires Represents(counts, live)
    ensures var p := Admit(counts, max, ip);
      && (p.0.Some? <==> max == 0 || live(ip) < max)
      && (p.0.None? ==> p.1 == counts)
      && (p.0.Some? ==> p.0.value == Guard(ip, max != 0))
      && (p.0.Some? && max != 0 ==> Represents(p.1, x => live(x) + if x == ip then 1 else 0))
      && (max == 0 ==> p.1 == counts)
  {}

  /** Dropping a live guard undoes its admission: the decrement never wraps, the entry goes at zero. */
  lemma DropUndoes(counts: map<Ip, nat>, live: Census, g: Guard)
    requires Represents(counts, live) && g.counted && live(g.ip) > 0
    ensures g.ip in counts && counts[g.ip] >= 1
    ensures Represents(Drop(counts, g), x => if x == g.ip && live(x) > 0 then live(x) - 1 else live(x))
  {}

  // ----- The sum of the counts -----

  ghost function Sum(m: map<Ip, nat>): nat
    decreases |m|
  {
    if m == map[] then 0 else
      var k :| k in m;
      m[k] + Sum(m - {k})
  }

  /** The sum may be taken in any order. */
  lemma {:induction false} SumAt(m: map<Ip, nat>, k: Ip)
    requires k in m
    ensures Sum(m) == m[k] + Sum(m - {k})
    decreases |m|
  {
    var j :| j in m && Sum(m) == m[j] + Sum(m - {j});
    if j == k {
    } else {
      SumAt(m - {j}, k);
      SumAt(m - {k}, j);
      assert (m - {j}) - {k} == (m - {k}) - {j};
    }
  }

  lemma SumAdmit(counts: map<Ip, nat>, max: nat, ip: Ip)
    ensures var p := Admit(counts, max, ip);
      Sum(p.1) == Sum(counts) + if p.0.Some? && max != 0 then 1 else 0
  {
    var after := Admit(counts, max, ip).1;
    if max != 0 {
      SumAt(after, ip);
      assert after - {ip} == counts - {ip};
      if ip in counts {
        SumAt(counts, ip);
      } else {
        assert counts - {ip} == counts;
      }
    }
  }

  lemma SumDrop(counts: map<Ip, nat>, g: Guard)
    requires g.counted && g.ip in counts && counts[g.ip] >= 1
    ensures Sum(Drop(counts, g)) == Sum(counts) - 1
  {
    SumAt(counts, g.ip);
    var after := Drop(counts, g);
    if g.ip in after {
      SumAt(after, g.ip);
      assert after - {g.ip} == counts - {g.ip};
    }
  }

  /** The limiter as the server holds it. */
  class PerIpLimiter {
    var counts: map<Ip, nat>
    const max: nat

    constructor (max: nat)
      ensures counts == map[] && this.max == max
    {
      counts := map[];
      this.max := max;
    }

    method AdmitFrom(ip: Ip) returns (g: Option<Guard>)
      modifies this
      ensures (g, counts) == Admit(old(counts), max, ip)
    {
      if max == 0 {
        return Some(Guard(ip, false));
      }
      if ip !in counts {
        counts := counts[ip := 0];
      }
      if counts[ip] >= max {
        return None;
      }
      counts := counts[ip := counts[ip] + 1];
      return Some(Guard(ip, true));
    }

    method Release(g: Guard)
      modifies this
      ensures counts == Drop(old(counts), g)
    {
      if !g.counted {
        return;
      }
      if g.ip in counts {
        var n := if counts[g.ip] == 0 then USIZE_MAX else counts[g.ip] - 1;
        counts := counts[g.ip := n];
        if n == 0 {
          counts := counts - {g.ip};
        }
      }
    }
  }

  // ----- The server -----

  /** The accept loop: waiting for a slot, holding one while it accepts, or over. */
  datatype Acceptor = Waiting | Holding | Stopped

  /** A handler runs, then drops its guard, then its slot: locals drop in reverse order. */
  datatype Handler = Running(guard: Guard) | Exiting

  datatype Server = Server(counts: map<Ip, nat>, free: nat, acceptor: Acceptor, handlers: seq<Handler>)

  datatype Config = Config(capacity: nat, max: nat)

  datatype Step =
    | Acquire                 // the loop takes a slot
    | Idle                    // the accept failed or timed out: the unused slot goes back
    | Incoming(ip: Ip)        // a connection from `ip`
    | DropGuard(i: nat)       // handler `i` has returned and drops its guard
    | DropSlot(i: nat)        // ... and then its slot
    | Shutdown                // the loop ends, dropping a slot it may hold

  function Boot(cfg: Config): Server {
    Server(map[], cfg.capacity, Waiting, [])
  }

  predicate Enabled(s: Server, step: Step) {
    match step
    case Acquire => s.acceptor.Waiting? && s.free > 0
    case Idle => s.acceptor.Holding?
    case Incoming(_) => s.acceptor.Holding?
    case DropGuard(i) => i < |s.handlers| && s.handlers[i].Running?
    case DropSlot(i) => i < |s.handlers| && s.handlers[i].Exiting?
    case Shutdown => !s.acceptor.Stopped?
  }

  function Apply(cfg: Config, s: Server, step: Step): Server
    requires Enabled(s, step)
  {
    match step
    case Acquire => s.(acceptor := Holding, free := s.free - 1)
    case Idle => s.(acceptor := Waiting, free := s.free + 1)
    case Incoming(ip) =>
      (match Admit(s.counts, cfg.max, ip)
       case (Some(g), counts) => s.(counts := counts, acceptor := Waiting, handlers := s.handlers + [Running(g)])
       case (None, counts) => s.(counts := counts, acceptor := Waiting, free := s.free + 1))
    case DropGuard(i) =>
      s.(counts := Drop(s.counts, s.handlers[i].guard), handlers := s.handlers[i := Exiting])
    case DropSlot(i) => s.(handlers := s.handlers[..i] + s.handlers[i + 1..], free := s.free + 1)
    case Shutdown => s.(acceptor := Stopped, free := if s.acceptor.Holding? then s.free + 1 else s.free)
  }

  // ----- What every step keeps -----

  /** One if the handler holds a live counted guard of `ip`. */
  function LiveOne(h: Handler, ip: Ip): nat {
    if h.Running? && h.guard.counted && h.guard.ip == ip then 1 else 0
  }

  /** Live counted guards of one address. */
  function Live(hs: seq<Handler>, ip: Ip): nat {
    if hs == [] then 0 else LiveOne(hs[0], ip) + Live(hs[1..], ip)
  }

  function CountedOne(h: Handler): nat {
    if h.Running? && h.guard.counted then 1 else 0
  }

  /** Live counted guards of all addresses together. */
  function Counted(hs: seq<Handler>): (n: nat)
    ensures n <= |hs|
  {
    if hs == [] then 0 else CountedOne(hs[0]) + Counted(hs[1..])
  }

  function SlotsHeld(s: Server): nat {
    |s.handlers| + if s.acceptor.Holding? then 1 else 0
  }

  ghost predicate WithinCap(counts: map<Ip, nat>, max: nat) {
    forall ip :: ip in counts ==> 1 <= counts[ip] <= max
  }

  ghost predicate GuardsMatch(hs: seq<Handler>, max: nat) {
    forall i :: 0 <= i < |hs| && hs[i].Running? ==> hs[i].guard.counted == (max != 0)
  }

  ghost predicate CountsMatch(counts: map<Ip, nat>, hs: seq<Handler>) {
    Represents(counts, ip => Live(hs, ip)) && Sum(counts) == Counted(hs)
  }

  ghost predicate Sound(cfg: Config, s: Server) {
    && s.free + SlotsHeld(s) == cfg.capacity
    && CountsMatch(s.counts, s.handlers)
    && WithinCap(s.counts, cfg.max)
    && GuardsMatch(s.handlers, cfg.max)
  }

  lemma {:induction false} LivePush(hs: seq<Handler>, h: Handler, ip: Ip)
    ensures Live(hs + [h], ip) == Live(hs, ip) + LiveOne(h, ip)
    ensures Counted(hs + [h]) == Counted(hs) + CountedOne(h)
    decreases |hs|
  {
    if hs == [] {
      assert (hs + [h])[1..] == [];
    } else {
      LivePush(hs[1..], h, ip);
      assert (hs + [h])[1..] == hs[1..] + [h];
    }
  }

  /** A handler that drops its guard takes exactly its own share away. */
  lemma {:induction false} LiveExit(hs: seq<Handler>, i: nat, ip: Ip)
    requires i < |hs|
    ensures Live(hs[i := Exiting], ip) + LiveOne(hs[i], ip) == Live(hs, ip)
    ensures Counted(hs[i := Exiting]) + CountedOne(hs[i]) == Counted(hs)
    decreases |hs|
  {
    if i == 0 {
      assert hs[0 := Exiting][1..] == hs[1..];
    } else {
      LiveExit(hs[1..], i - 1, ip);
      assert hs[i := Exiting][1..] == hs[1..][i - 1 := Exiting];
    }
  }

  lemma {:induction false} LiveRemove(hs: seq<Handler>, i: nat, ip: Ip)
    requires i < |hs| && hs[i].Exiting?
    ensures Live(hs[..i] + hs[i + 1..], ip) == Live(hs, ip)
    ensures Counted(hs[..i] + hs[i + 1..]) == Counted(hs)
    decreases |hs|
  {
    if i == 0 {
      assert hs[..0] + hs[1..] == hs[1..];
    } else {
      LiveRemove(hs[1..], i - 1, ip);
      assert (hs[..i] + hs[i + 1..])[1..] == hs[1..][..i - 1] + hs[1..][i..];
    }
  }

  lemma CountsMatchAdmit(counts: map<Ip, nat>, hs: seq<Handler>, max: nat, ip: Ip)
    requires CountsMatch(counts, hs) && Admit(counts, max, ip).0.Some?
    ensures var p := Admit(counts, max, ip); CountsMatch(p.1, hs + [Running(p.0.value)])
  {
    var p := Admit(counts, max, ip);
    var h := Running(p.0.value);
    AdmitIff(counts, x => Live(hs, x), max, ip);
    SumAdmit(counts, max, ip);
    LivePush(hs, h, ip);
    hide Admit, Live, Sum, Counted;
    forall x: Ip ensures Live(hs + [h], x) == Live(hs, x) + if max != 0 && x == ip then 1 else 0 {
      LivePush(hs, h, x);
    }
  }

  lemma CountsMatchDrop(counts: map<Ip, nat>, hs: seq<Handler>, i: nat)
    requires CountsMatch(counts, hs) && i < |hs| && hs[i].Running?
    ensures CountsMatch(Drop(counts, hs[i].guard), hs[i := Exiting])
    ensures hs[i].guard.counted ==> hs[i].guard.ip in counts && counts[hs[i].guard.ip] >= 1
  {
    var g := hs[i].guard;
    LiveExit(hs, i, g.ip);
    forall x: Ip ensures Live(hs[i := Exiting], x) + LiveOne(hs[i], x) == Live(hs, x) {
      LiveExit(hs, i, x);
    }
    hide Live, Sum, Counted;
    if g.counted {
      DropUndoes(counts, x => Live(hs, x), g);
      SumDrop(counts, g);
      hide Drop;
    }
  }

  lemma CountsMatchRemove(counts: map<Ip, nat>, hs: seq<Handler>, i: nat)
    requires CountsMatch(counts, hs) && i < |hs| && hs[i].Exiting?
    ensures CountsMatch(counts, hs[..i] + hs[i + 1..])
  {
    LiveRemove(hs, i, 0);
    forall x: Ip ensures Live(hs[..i] + hs[i + 1..], x) == Live(hs, x) {
      LiveRemove(hs, i, x);
    }
    hide Live, Sum, Counted;
  }

  lemma SoundIncoming(cfg: Config, s: Server, ip: Ip)
    requires Sound(cfg, s) && s.acceptor.Holding?
    ensures Sound(cfg, Apply(cfg, s, Incoming(ip)))
  {
    AdmitIff(s.counts, x => Live(s.handlers, x), cfg.max, ip);
    if Admit(s.counts, cfg.max, ip).0.Some? {
      CountsMatchAdmit(s.counts, s.handlers, cfg.max, ip);
    }
    hide CountsMatch;
  }

  lemma DropWithinCap(counts: map<Ip, nat>, g: Guard, max: nat)
    requires WithinCap(counts, max)
    ensures WithinCap(Drop(counts, g), max)
  {}

  lemma SoundDropGuard(cfg: Config, s: Server, i: nat)
    requires Sound(cfg, s) && Enabled(s, DropGuard(i))
    ensures Sound(cfg, Apply(cfg, s, DropGuard(i)))
    ensures var g := s.handlers[i].guard; g.counted ==> g.ip in s.counts && s.counts[g.ip] >= 1
  {
    CountsMatchDrop(s.counts, s.handlers, i);
    DropWithinCap(s.counts, s.handlers[i].guard, cfg.max);
    hide CountsMatch, Drop, WithinCap;
  }

  lemma SoundDropSlot(cfg: Config, s: Server, i: nat)
    requires Sound(cfg, s) && Enabled(s, DropSlot(i))
    ensures Sound(cfg, Apply(cfg, s, DropSlot(i)))
  {
    CountsMatchRemove(s.counts, s.handlers, i);
    hide CountsMatch, WithinCap;
    var t := Apply(cfg, s, DropSlot(i));
    assert forall j :: 0 <= j < |t.handlers| ==> t.handlers[j] == s.handlers[if j < i then j else j + 1];
  }

  lemma SoundStep(cfg: Config, s: Server, step: Step)
    requires Sound(cfg, s) && Enabled(s, step)
    ensures Sound(cfg, Apply(cfg, s, step))
  {
    match step
    case Acquire =>
    case Idle =>
    case Incoming(ip) => SoundIncoming(cfg, s, ip);
    case DropGuard(i) => SoundDropGuard(cfg, s, i);
    case DropSlot(i) => SoundDropSlot(cfg, s, i);
    case Shutdown =>
  }

  // ----- Every interleaving -----

  function Exec(cfg: Config, steps: seq<Step>): Option<Server> {
    if steps == [] then Some(Boot(cfg))
    else
      var k := |steps| - 1;
      match Exec(cfg, steps[..k])
      case None => None
      case Some(s) => if Enabled(s, steps[k]) then Some(Apply(cfg, s, steps[k])) else None
  }

  lemma {:induction false} SoundRun(cfg: Config, steps: seq<Step>)
    requires Exec(cfg, steps).Some?
    ensures Sound(cfg, Exec(cfg, steps).value)
    decreases |steps|
  {
    if steps == [] {
    } else {
      hide Sound, Apply;
      var k := |steps| - 1;
      SoundRun(cfg, steps[..k]);
      SoundStep(cfg, Exec(cfg, steps[..k]).value, steps[k]);
    }
  }

  /**
   In every interleaving of the accept loop and the handlers: slots held and free add up to the
   capacity; each address's count is its live counted guards and lies between one and the cap;
   the counts add up to the live guards and never exceed the slots held.
   */
  lemma AdmissionSafe(cfg: Config, steps: seq<Step>)
    requires Exec(cfg, steps).Some?
    ensures var s := Exec(cfg, steps).value;
      && s.free + SlotsHeld(s) == cfg.capacity
      && (forall ip :: ip in s.counts ==> 1 <= s.counts[ip] == Live(s.handlers, ip) <= cfg.max)
      && (forall ip: Ip :: ip !in s.counts ==> Live(s.handlers, ip) == 0)
      && Sum(s.counts) == Counted(s.handlers) <= SlotsHeld(s)
  {
    SoundRun(cfg, steps);
    hide Exec;
  }

  /** Whatever happened before, once every handler is gone the server is as it booted. */
  lemma DrainsClean(cfg: Config, steps: seq<Step>)
    requires Exec(cfg, steps).Some? && Exec(cfg, steps).value.handlers == []
    ensures var s := Exec(cfg, steps).value;
      s.counts == map[] && (!s.acceptor.Holding? ==> s.free == cfg.capacity)
  {
    SoundRun(cfg, steps);
    var s := Exec(cfg, steps).value;
    hide Exec;
    assert forall ip: Ip :: Live(s.handlers, ip) == 0;
    assert s.counts.Keys == {};
  }

  /**
   Every iteration of the accept loop that keeps no session gives its slot back: the free slots
   after it are those before it, and the counts are untouched.
   */
  lemma UnusedSlotReturns(cfg: Config, steps: seq<Step>, ip: Ip)
    requires Exec(cfg, steps).Some? && Enabled(Exec(cfg, steps).value, Acquire)
    ensures var s := Exec(cfg, steps).value;
      var held := Apply(cfg, s, Acquire);
      && Apply(cfg, held, Idle) == s
      && (Admit(s.counts, cfg.max, ip).0.None? ==> Apply(cfg, held, Incoming(ip)) == s)
      && (Admit(s.counts, cfg.max, ip).0.None? <==> cfg.max > 0 && Live(s.handlers, ip) >= cfg.max)
  {
    SoundRun(cfg, steps);
    var s := Exec(cfg, steps).value;
    AdmitIff(s.counts, x => Live(s.handlers, x), cfg.max, ip);
    hide Exec;
  }

  /**
   The pool never wedges: with a positive capacity and the loop still running, some step other
   than shutting down is always enabled, and the loop is kept from accepting only by live
   handlers, one per slot.
   */
  lemma NeverWedged(cfg: Config, steps: seq<Step>)
    requires Exec(cfg, steps).Some? && cfg.capacity > 0
    ensures var s := Exec(cfg, steps).value;
      !s.acceptor.Stopped? ==>
        && (exists step: Step :: !step.Shutdown? && Enabled(s, step))
        && (s.acceptor.Waiting? && !Enabled(s, Acquire) ==> |s.handlers| == cfg.capacity)
  {
    SoundRun(cfg, steps);
    var s := Exec(cfg, steps).value;
    if s.acceptor.Holding? {
      assert Enabled(s, Idle);
    } else if s.free > 0 {
      assert s.acceptor.Waiting? ==> Enabled(s, Acquire);
    } else if s.acceptor.Waiting? {
      assert s.handlers != [];
      assert Enabled(s, DropGuard(0)) || Enabled(s, DropSlot(0));
    }
  }
}
