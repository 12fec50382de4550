/**
 The independent loss model of the simulator. Its generator is reseeded whenever its state reaches
 zero, so a run draws the generator's first draws over and over, with a period that depends on the
 seed: the `j`th dequeue that draws meets draw `j` modulo that period.
 */
module BottleneckNoise {
  import opened Arithmetic
  import opened SplitMix
  import opened BottleneckModel
  import opened BottleneckCurves

  // ----- When the state reaches zero -----

  /** How many steps a non-zero state takes to reach zero. */
  function ZeroAfter(e: U64): int {
    TWO64 - (e * GAMMA_INVERSE) % TWO64
  }

  lemma GammaInverts()
    ensures (GAMMA * GAMMA_INVERSE) % TWO64 == 1
  {}

  lemma GammaTimes(e: U64)
    ensures ((e * GAMMA_INVERSE) % TWO64 * GAMMA) % TWO64 == e
  {
    var w := (e * GAMMA_INVERSE) % TWO64;
    MulModulo(e * GAMMA_INVERSE, GAMMA, TWO64);
    assert e * GAMMA_INVERSE * GAMMA == (GAMMA * GAMMA_INVERSE) * e;
    MulModulo(GAMMA * GAMMA_INVERSE, e, TWO64);
    GammaInverts();
    assert 1 * e == e && e % TWO64 == e;
  }

  lemma ZeroBounds(e: U64)
    requires e != 0
    ensures 1 <= ZeroAfter(e) < TWO64
  {
    GammaTimes(e);
    DivMod(e * GAMMA_INVERSE, TWO64);
  }

  /** That many steps, and no fewer. */
  lemma ReachesZero(e: U64)
    requires e != 0
    ensures 1 <= ZeroAfter(e) < TWO64 && StateAfter(e, ZeroAfter(e)) == 0
    ensures forall i :: 0 <= i < ZeroAfter(e) ==> StateAfter(e, i) != 0
  {
    ZeroBounds(e);
    var z := ZeroAfter(e);
    ZeroAt(e);
    hide ZeroAfter, StateAfter;
    forall i | 0 <= i < z ensures StateAfter(e, i) != 0 {
      FullPeriodState(e, i, z);
    }
  }

  lemma ZeroAt(e: U64)
    requires e != 0 && ZeroAfter(e) >= 0
    ensures StateAfter(e, ZeroAfter(e)) == 0
  {
    var w, z := (e * GAMMA_INVERSE) % TWO64, ZeroAfter(e);
    GammaTimes(e);
    StateClosedForm(e, z);
    DivMod(w * GAMMA, TWO64);
    var q := w * GAMMA / TWO64;
    Distribute(GAMMA, TWO64, w);
    assert z * GAMMA == TWO64 * GAMMA - w * GAMMA;
    Distribute(TWO64, GAMMA, q);
    assert e + z * GAMMA == TWO64 * (GAMMA - q);
    DivisionUnique(e + z * GAMMA, TWO64, GAMMA - q, 0);
  }

  // ----- The process, draw by draw -----

  /** How many draws a run makes from a seed before it starts over. */
  function Period(seed: U64): (z: nat)
    ensures 1 <= z < TWO64
  {
    ReachesZero(EffectiveSeed(seed));
    ZeroAfter(EffectiveSeed(seed))
  }

  /** The stored state after `n` draws from a run's start. */
  function RngAfter(seed: U64, n: nat): U64 {
    if n % Period(seed) == 0 then 0 else StateAfter(EffectiveSeed(seed), n % Period(seed))
  }

  /** Draw `n` of a run. */
  function DrawOf(seed: U64, n: nat): U64 {
    Draw(EffectiveSeed(seed), n % Period(seed))
  }

  lemma {:induction false} StateAdds(e: U64, i: nat, k: nat)
    ensures StateAfter(StateAfter(e, i), k) == StateAfter(e, i + k)
  {
    if k == 0 {
    } else {
      StateAdds(e, i, k - 1);
    }
  }

  lemma NextRemainder(n: nat, z: int)
    requires z >= 1
    ensures 0 <= n % z < z
    ensures (n + 1) % z == if n % z + 1 == z then 0 else n % z + 1
  {
    DivMod(n, z);
    var q, r := n / z, n % z;
    if r + 1 == z {
      Distribute(z, q, 1);
      DivisionUnique(n + 1, z, q + 1, 0);
    } else {
      DivisionUnique(n + 1, z, q, r + 1);
    }
  }

  /** The stored state is that of `n` draws: zero, or the seed it stands for, at the start of a period. */
  ghost predicate StandsAt(rng: U64, seed: U64, n: nat) {
    rng == RngAfter(seed, n) || (RngAfter(seed, n) == 0 && rng == EffectiveSeed(seed))
  }

  /** A dequeue at a positive rate draws from the seed. */
  predicate Draws(phase: Phase, seed: U64) {
    phase.lossModel == Independent(seed) && phase.lossPermille > 0
  }

  /** No other seed is drawn from. */
  predicate OneSeed(phase: Phase, seed: U64) {
    phase.lossModel == Even || phase.lossModel == Independent(seed)
  }

  lemma StandsIn(rng: U64, seed: U64, n: nat)
    requires StandsAt(rng, seed, n)
    ensures (if rng == 0 then EffectiveSeed(seed) else rng) == StateAfter(EffectiveSeed(seed), n % Period(seed))
  {
    var e := EffectiveSeed(seed);
    ReachesZero(e);
    assert StateAfter(e, 0) == e;
    hide ZeroAfter, StateAfter;
  }

  /** A dequeue that draws meets draw `n` and leaves the state for the next. */
  lemma NoiseDraws(phase: Phase, seed: U64, noise: nat, rng: U64, n: nat)
    requires Draws(phase, seed) && StandsAt(rng, seed, n)
    ensures Noise(phase, noise, rng) == (DrawOf(seed, n) % 1000 < phase.lossPermille, noise, RngAfter(seed, n + 1))
  {
    var e, z := EffectiveSeed(seed), Period(seed);
    StandsIn(rng, seed, n);
    ReachesZero(e);
    NextRemainder(n, z);
    StateAdds(e, n % z, 1);
    assert z == ZeroAfter(e);
    hide ZeroAfter, StateAfter, StandsAt, Period;
    assert Draw(StateAfter(e, n % z), 0) == Draw(e, n % z);
  }

  /** One that does not draw leaves the generator where it stands, seeded or not. */
  lemma NoiseRests(phase: Phase, seed: U64, noise: nat, rng: U64, n: nat)
    requires OneSeed(phase, seed) && !Draws(phase, seed) && StandsAt(rng, seed, n)
    ensures StandsAt(Noise(phase, noise, rng).2, seed, n)
  {
    hide RngAfter;
  }

  ghost predicate Follows(s: State, seed: U64, n: nat) {
    StandsAt(s.rng, seed, n)
  }

  /** What that does to the segment at the front. */
  lemma DequeueLost(cfg: TickConfig, s: State, seed: U64, n: nat)
    requires Follows(s, seed, n) && Draws(cfg.phase, seed) && s.queue != []
    ensures Follows(LinkOne(cfg, s), seed, n + 1)
    ensures LinkOne(cfg, s).returning
         == s.returning + [Returning(s.queue[0], cfg.now + 2 * PROPAGATION,
                                     DrawOf(seed, n) % 1000 < cfg.phase.lossPermille)]
  {
    hide RngAfter, DrawOf, Noise;
    NoiseDraws(cfg.phase, seed, s.noise, s.rng, n);
  }

  /** Draws made from `s` to `x` within a tick: one for each segment served, if the tick draws. */
  ghost predicate Drew(cfg: TickConfig, s: State, x: State, seed: U64, n: nat) {
    && x.log.served >= s.log.served
    && Follows(x, seed, if Draws(cfg.phase, seed) then n + x.log.served - s.log.served else n)
  }

  lemma DrewLink(cfg: TickConfig, s: State, x: State, seed: U64, n: nat)
    requires Drew(cfg, s, x, seed, n) && OneSeed(cfg.phase, seed) && x.queue != []
    ensures Drew(cfg, s, LinkOne(cfg, x), seed, n)
  {
    if Draws(cfg.phase, seed) {
      DequeueLost(cfg, x, seed, n + x.log.served - s.log.served);
    } else {
      NoiseRests(cfg.phase, seed, x.noise, x.rng, n);
    }
    hide StandsAt, Noise, Draws;
  }

  lemma DrewTick(env: Env, cfg: TickConfig, s: State, seed: U64, n: nat)
    requires Follows(s, seed, n) && OneSeed(cfg.phase, seed)
    ensures Drew(cfg, s, Tick(env, cfg, s), seed, n)
  {
    hide StandsAt, Noise, Draws, OneSeed, BeforeServe, LinkRate, LinkLoop, TrimRecent, ReadFidelity, NinetyReached;
    BeforeServeKeepsLink(env, cfg, s);
    var lit := EarnLink(cfg, BeforeServe(env, cfg, s));
    forall x: State | Drew(cfg, s, x, seed, n) && LinkReady(x) ensures Drew(cfg, s, LinkOne(cfg, x), seed, n) {
      DrewLink(cfg, s, x, seed, n);
    }
    LinkLoopKeeps(cfg, lit, (x: State) => Drew(cfg, s, x, seed, n));
  }

  lemma ServedGrows(env: Env, cfg: TickConfig, s: State)
    ensures Tick(env, cfg, s).log.served >= s.log.served
  {
    hide Noise, BeforeServe, LinkRate, LinkLoop, TrimRecent, ReadFidelity, NinetyReached;
    BeforeServeKeepsLink(env, cfg, s);
    var lit := EarnLink(cfg, BeforeServe(env, cfg, s));
    LinkLoopKeeps(cfg, lit, (x: State) => x.log.served >= s.log.served);
  }

  /** Segments served in the first `k` ticks at a tick that draws. */
  function Drawn(env: Env, sched: seq<TickConfig>, k: nat, seed: U64): nat
    requires k <= |sched|
  {
    if k == 0 then 0
    else
      var before, s, t := Drawn(env, sched, k - 1, seed), After(env, sched, k - 1), After(env, sched, k);
      ServedGrows(env, sched[k - 1], s);
      if Draws(sched[k - 1].phase, seed) then before + (t.log.served - s.log.served) else before
  }

  /**
   In any run that draws from one seed, through phases of any rates and of the even model too, the
   generator stands where its own draws put it: the `j`th segment served at a positive rate is
   decided by draw `j` modulo the seed's period.
   */
  lemma {:induction false} FollowsRun(env: Env, sched: seq<TickConfig>, k: nat, seed: U64)
    requires k <= |sched| && forall m :: 0 <= m < k ==> OneSeed(sched[m].phase, seed)
    ensures Follows(After(env, sched, k), seed, Drawn(env, sched, k, seed))
  {
    hide Tick, RngAfter, OneSeed, Draws;
    if k == 0 {
      StartsAtZero(seed);
    } else {
      FollowsRun(env, sched, k - 1, seed);
      DrewTick(env, sched[k - 1], After(env, sched, k - 1), seed, Drawn(env, sched, k - 1, seed));
      AfterNext(env, sched, k - 1);
      hide After, StandsAt;
    }
  }

  lemma StartsAtZero(seed: U64)
    ensures RngAfter(seed, 0) == 0
  {
    DivisionUnique(0, Period(seed), 0, 0);
  }

  /** Two draws of a run are the same exactly when they are whole periods apart. */
  lemma DrawsCycle(seed: U64, i: nat, j: nat)
    ensures DrawOf(seed, i) == DrawOf(seed, j) <==> i % Period(seed) == j % Period(seed)
  {
    var e, z := EffectiveSeed(seed), Period(seed);
    DivMod(i, z);
    DivMod(j, z);
    hide Period, StateAfter;
    if i % z < j % z {
      DrawsAllDistinct(e, i % z, j % z);
    } else if j % z < i % z {
      DrawsAllDistinct(e, j % z, i % z);
    }
  }

  /** The seed whose first step is to zero. */
  const STUCK_SEED: U64 := TWO64 - GAMMA

  lemma OneStepToZero(e: U64)
    ensures StateAfter(e, 1) == 0 <==> e == STUCK_SEED
  {
    assert StateAfter(e, 1) == (e + GAMMA) % TWO64 by {
      assert StateAfter(e, 0) == e;
    }
    if e + GAMMA < TWO64 {
      DivisionUnique(e + GAMMA, TWO64, 0, e + GAMMA);
    } else {
      DivisionUnique(e + GAMMA, TWO64, 1, e + GAMMA - TWO64);
    }
  }

  lemma PeriodOne(seed: U64)
    ensures Period(seed) == 1 <==> EffectiveSeed(seed) == STUCK_SEED
  {
    var e := EffectiveSeed(seed);
    ReachesZero(e);
    OneStepToZero(e);
    hide StateAfter;
    assert Period(seed) == ZeroAfter(e);
    hide ZeroAfter;
  }

  /** From that seed, and from no other, every draw of a run is the same: all segments are lost, or none is. */
  lemma StuckSeedIff(seed: U64)
    ensures (forall n: nat :: DrawOf(seed, n) == DrawOf(seed, 0)) <==> seed == STUCK_SEED
  {
    PeriodOne(seed);
    var z := Period(seed);
    hide Period, DrawOf;
    if z == 1 {
      forall n: nat ensures DrawOf(seed, n) == DrawOf(seed, 0) {
        DrawsCycle(seed, n, 0);
      }
    } else {
      DrawsCycle(seed, 1, 0);
      DivisionUnique(1, z, 0, 1);
      DivisionUnique(0, z, 0, 0);
      assert DrawOf(seed, 1) != DrawOf(seed, 0);
    }
  }
}
