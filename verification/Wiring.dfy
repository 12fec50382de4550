/**
 The gate-wiring check: which runners of the tree something invokes, directly from a workflow or
 a hook or through scripts that are themselves invoked. A runner's own mutation harness cannot
 vouch for it, and neither can the runner itself.
 */
module Wiring {

  /** A repository-relative path; `dir` is empty at the root. */
  datatype Path = Path(dir: string, name: string)

  /** A file and its text, comment lines already stripped. */
  datatype File = File(path: Path, text: string)

  // ----- Who names whom -----

  predicate StandsAt(text: string, k: nat, word: string) {
    k + |word| <= |text| && text[k..k + |word|] == word
  }

  predicate Contains(text: string, word: string) {
    exists k :: 0 <= k <= |text| && StandsAt(text, k, word)
  }

  function Posix(p: Path): string {
    if p.dir == "" then p.name else p.dir + "/" + p.name
  }

  /** The two spellings an invocation uses. */
  predicate InvokedBy(p: Path, text: string) {
    Contains(text, Posix(p)) || Contains(text, p.name)
  }

  /** The name up to its last dot, or all of it. */
  function Stem(name: string): string {
    if name == "" then ""
    else if name[|name| - 1] == '.' then name[..|name| - 1]
    else if '.' in name then Stem(name[..|name| - 1])
    else name
  }

  /** The files that exist to run `p` against fabricated trees. */
  function OwnHarness(p: Path): set<Path> {
    {Path(p.dir, Stem(p.name) + "_test.sh"), Path(p.dir, Stem(p.name) + "_test.py")}
  }

  /** A workflow or hook names the runner. */
  ghost predicate Seeded(entries: seq<File>, p: Path) {
    exists i :: 0 <= i < |entries| && InvokedBy(p, entries[i].text)
  }

  /** File `f` may pass an invocation on to `p`. */
  predicate MayPass(f: File, p: Path) {
    f.path != p && f.path !in OwnHarness(p) && InvokedBy(p, f.text)
  }

  ghost predicate Hop(relays: seq<File>, from: Path, to: Path) {
    exists i :: 0 <= i < |relays| && relays[i].path == from && MayPass(relays[i], to)
  }

  // ----- The specification: a chain from an entry point -----

  datatype Tree = Tree(inventory: seq<Path>, entries: seq<File>, relays: seq<File>)

  /** A path of runners, the first named by an entry point, each next one by the one before. */
  ghost predicate IsChain(t: Tree, chain: seq<Path>) {
    && chain != []
    && (forall i :: 0 <= i < |chain| ==> chain[i] in t.inventory)
    && Seeded(t.entries, chain[0])
    && (forall i :: 0 < i < |chain| ==> Hop(t.relays, chain[i - 1], chain[i]))
  }

  ghost predicate Reachable(t: Tree, p: Path) {
    exists chain :: IsChain(t, chain) && chain[|chain| - 1] == p
  }

  // ----- Provenance -----

  /** Why a runner counts as invoked: the text the report prints, as data. */
  datatype Why = ByEntry(source: Path) | ByRelay(source: Path, why: Why)

  /** The chain a provenance describes, ending in `p`. */
  function Trace(p: Path, why: Why): seq<Path>
    decreases why
  {
    match why
    case ByEntry(_) => [p]
    case ByRelay(source, w) => Trace(source, w) + [p]
  }

  lemma {:induction false} TraceEnds(p: Path, why: Why)
    ensures Trace(p, why) != [] && Trace(p, why)[|Trace(p, why)| - 1] == p
    decreases why
  {}

  ghost predicate Distinct(ps: seq<Path>) {
    forall i, j :: 0 <= i < j < |ps| ==> ps[i] != ps[j]
  }

  /** The entry point a provenance ends in. */
  function EntryOf(why: Why): Path {
    match why
    case ByEntry(source) => source
    case ByRelay(_, w) => EntryOf(w)
  }

  /** The entry point `entry` of the tree names the runner `p`. */
  ghost predicate EntryNames(t: Tree, entry: Path, p: Path) {
    exists j :: 0 <= j < |t.entries| && t.entries[j].path == entry && InvokedBy(p, t.entries[j].text)
  }

  /** What the report says of the relay it names is what it says of that relay itself. */
  ghost predicate Quotes(reached: map<Path, Why>, why: Why) {
    why.ByRelay? ==> why.source in reached && reached[why.source] == why.why
  }

  /**
   The provenance is a real chain, without a cycle, through runners already known to run; the entry
   point it ends in names the first of them; and it quotes its relay's own provenance.
   */
  ghost predicate Justified(t: Tree, reached: map<Path, Why>, p: Path)
    requires p in reached
  {
    var trace := Trace(p, reached[p]);
    && IsChain(t, trace) && Distinct(trace) && (forall q :: q in trace ==> q in reached)
    && EntryNames(t, EntryOf(reached[p]), trace[0])
    && Quotes(reached, reached[p])
  }

  ghost predicate Sound(t: Tree, reached: map<Path, Why>) {
    forall p :: p in reached ==> Justified(t, reached, p)
  }

  /** Nothing reached passes an invocation to a runner that is not. */
  ghost predicate ClosedAt(t: Tree, reached: map<Path, Why>, p: Path) {
    p in reached || forall q :: q in reached ==> !Hop(t.relays, q, p)
  }

  ghost predicate SeedsIn(t: Tree, reached: map<Path, Why>) {
    forall p :: p in t.inventory && Seeded(t.entries, p) ==> p in reached
  }

  ghost predicate Closed(t: Tree, reached: map<Path, Why>) {
    forall p :: p in t.inventory ==> ClosedAt(t, reached, p)
  }

  // ----- Adding one runner -----

  lemma JustifiedGrows(t: Tree, reached: map<Path, Why>, p: Path, why: Why, q: Path)
    requires p !in reached && q in reached && Justified(t, reached, q)
    ensures Justified(t, reached[p := why], q)
  {
    hide IsChain, EntryNames, Trace, EntryOf;
  }

  lemma AddSeed(t: Tree, reached: map<Path, Why>, p: Path, i: nat)
    requires Sound(t, reached) && p in t.inventory && p !in reached
    requires i < |t.entries| && InvokedBy(p, t.entries[i].text)
    ensures Sound(t, reached[p := ByEntry(t.entries[i].path)])
  {
    var why := ByEntry(t.entries[i].path);
    var grown := reached[p := why];
    assert Trace(p, why) == [p];
    assert IsChain(t, [p]) by {
      assert [p][0] == p && Seeded(t.entries, p);
    }
    assert EntryNames(t, EntryOf(why), p);
    hide IsChain, EntryNames;
    assert Justified(t, grown, p);
    forall q | q in grown ensures Justified(t, grown, q) {
      if q != p {
        JustifiedGrows(t, reached, p, why, q);
      }
    }
  }

  lemma ChainGrows(t: Tree, chain: seq<Path>, p: Path)
    requires IsChain(t, chain) && p in t.inventory && Hop(t.relays, chain[|chain| - 1], p)
    ensures IsChain(t, chain + [p])
  {
    hide Hop, Seeded;
    var c := chain + [p];
    assert forall i :: 0 <= i < |chain| ==> c[i] == chain[i];
    forall i | 0 < i < |c| ensures Hop(t.relays, c[i - 1], c[i]) {
      assert i < |chain| ==> Hop(t.relays, chain[i - 1], chain[i]);
    }
  }

  /** A trace through reached runners, extended by one that is not, still has no cycle. */
  lemma DistinctGrows(trace: seq<Path>, reached: map<Path, Why>, p: Path)
    requires Distinct(trace) && p !in reached && forall q :: q in trace ==> q in reached
    ensures Distinct(trace + [p])
  {
    var c := trace + [p];
    forall i, j | 0 <= i < j < |c| ensures c[i] != c[j] {
      assert trace[i] in trace;
    }
  }

  lemma RelayJustified(t: Tree, reached: map<Path, Why>, p: Path, s: Path)
    requires p in t.inventory && p !in reached && s in reached && Justified(t, reached, s) && Hop(t.relays, s, p)
    ensures Justified(t, reached[p := ByRelay(s, reached[s])], p)
  {
    var why := ByRelay(s, reached[s]);
    var before := Trace(s, reached[s]);
    TraceEnds(s, reached[s]);
    ChainGrows(t, before, p);
    hide IsChain, Hop;
    DistinctGrows(before, reached, p);
    hide Distinct, EntryNames;
    assert Trace(p, why) == before + [p] && (before + [p])[0] == before[0];
    assert EntryOf(why) == EntryOf(reached[s]);
  }

  lemma AddRelay(t: Tree, reached: map<Path, Why>, p: Path, i: nat)
    requires Sound(t, reached) && p in t.inventory && p !in reached
    requires i < |t.relays| && t.relays[i].path in reached && MayPass(t.relays[i], p)
    ensures var s := t.relays[i].path; Sound(t, reached[p := ByRelay(s, reached[s])])
  {
    hide MayPass, Justified;
    var s := t.relays[i].path;
    assert Hop(t.relays, s, p);
    var why := ByRelay(s, reached[s]);
    var grown := reached[p := why];
    RelayJustified(t, reached, p, s);
    forall q | q in grown ensures Justified(t, grown, q) {
      if q != p {
        JustifiedGrows(t, reached, p, why, q);
      }
    }
  }

  // ----- What the fixpoint is -----

  lemma {:induction false} ChainIsReached(t: Tree, reached: map<Path, Why>, chain: seq<Path>)
    requires Closed(t, reached) && SeedsIn(t, reached) && IsChain(t, chain)
    ensures chain[|chain| - 1] in reached
    decreases |chain|
  {
    var k := |chain| - 1;
    if k == 0 {
    } else {
      var shorter := chain[..k];
      hide Hop, Seeded;
      assert IsChain(t, shorter);
      ChainIsReached(t, reached, shorter);
      assert Hop(t.relays, chain[k - 1], chain[k]);
      assert ClosedAt(t, reached, chain[k]);
    }
  }

  /** Reached is exactly reachable: the least set with the entry points' runners closed under hops. */
  ghost predicate Exact(t: Tree, reached: map<Path, Why>) {
    forall p :: p in reached <==> Reachable(t, p)
  }

  lemma FixpointIsExact(t: Tree, reached: map<Path, Why>)
    requires Sound(t, reached) && Closed(t, reached) && SeedsIn(t, reached)
    ensures Exact(t, reached)
  {
    hide Reachable;
    forall p | p in reached ensures Reachable(t, p) {
      JustifiedIsReachable(t, reached, p);
    }
    forall p | Reachable(t, p) ensures p in reached {
      ReachableIsReached(t, reached, p);
    }
  }

  lemma JustifiedIsReachable(t: Tree, reached: map<Path, Why>, p: Path)
    requires p in reached && Justified(t, reached, p)
    ensures Reachable(t, p)
  {
    TraceEnds(p, reached[p]);
  }

  lemma ReachableIsReached(t: Tree, reached: map<Path, Why>, p: Path)
    requires Closed(t, reached) && SeedsIn(t, reached) && Reachable(t, p)
    ensures p in reached
  {
    hide Hop, Seeded;
    var chain :| IsChain(t, chain) && chain[|chain| - 1] == p;
    ChainIsReached(t, reached, chain);
  }

  /** Whatever order files and runners are listed in, the same runners are reached. */
  lemma OrderIrrelevant(t: Tree, u: Tree, a: map<Path, Why>, b: map<Path, Why>)
    requires Exact(t, a) && Exact(u, b)
    requires (forall p :: p in t.inventory <==> p in u.inventory)
    requires (forall f :: f in t.entries <==> f in u.entries) && (forall f :: f in t.relays <==> f in u.relays)
    ensures a.Keys == b.Keys
  {
    forall p ensures Reachable(t, p) <==> Reachable(u, p) {
      if Reachable(t, p) {
        ReachableIn(t, u, p);
      }
      if Reachable(u, p) {
        ReachableIn(u, t, p);
      }
    }
    hide Reachable;
  }

  lemma ReachableIn(t: Tree, u: Tree, p: Path)
    requires Reachable(t, p)
    requires (forall q :: q in t.inventory ==> q in u.inventory)
    requires (forall f :: f in t.entries ==> f in u.entries) && (forall f :: f in t.relays ==> f in u.relays)
    ensures Reachable(u, p)
  {
    var chain :| IsChain(t, chain) && chain[|chain| - 1] == p;
    assert Seeded(u.entries, chain[0]) by {
      var i :| 0 <= i < |t.entries| && InvokedBy(chain[0], t.entries[i].text);
      assert t.entries[i] in u.entries;
    }
    forall i | 0 < i < |chain| ensures Hop(u.relays, chain[i - 1], chain[i]) {
      assert Hop(t.relays, chain[i - 1], chain[i]);
      var j :| 0 <= j < |t.relays| && t.relays[j].path == chain[i - 1] && MayPass(t.relays[j], chain[i]);
      assert t.relays[j] in u.relays;
    }
    assert IsChain(u, chain);
  }

  // ----- The loops -----

  /** The first entry point, in the order they are read, that names the runner. */
  ghost predicate FirstEntry(t: Tree, p: Path, i: nat) {
    && i < |t.entries| && InvokedBy(p, t.entries[i].text)
    && forall j :: 0 <= j < i ==> !InvokedBy(p, t.entries[j].text)
  }

  /** Each runner reached so far is there on the word of the first entry point that names it. */
  ghost predicate BySeeds(t: Tree, reached: map<Path, Why>) {
    forall p :: p in reached ==>
      exists i: nat :: FirstEntry(t, p, i) && reached[p] == ByEntry(t.entries[i].path)
  }

  lemma BySeedsGrows(t: Tree, reached: map<Path, Why>, p: Path, i: nat)
    requires BySeeds(t, reached) && FirstEntry(t, p, i)
    ensures BySeeds(t, reached[p := ByEntry(t.entries[i].path)])
  {
    hide FirstEntry;
  }

  method Seed(t: Tree) returns (reached: map<Path, Why>)
    ensures Sound(t, reached) && SeedsIn(t, reached) && BySeeds(t, reached)
  {
    hide Sound, InvokedBy;
    reached := map[];
    assert Sound(t, reached) by {
      EmptySound(t);
    }
    var k := 0;
    while k < |t.inventory|
      invariant 0 <= k <= |t.inventory| && Sound(t, reached) && BySeeds(t, reached)
      invariant forall i :: 0 <= i < k && Seeded(t.entries, t.inventory[i]) ==> t.inventory[i] in reached
    {
      var p := t.inventory[k];
      var i := 0;
      while i < |t.entries| && !InvokedBy(p, t.entries[i].text)
        invariant 0 <= i <= |t.entries|
        invariant forall j :: 0 <= j < i ==> !InvokedBy(p, t.entries[j].text)
      {
        i := i + 1;
      }
      if i < |t.entries| && p !in reached {
        AddSeed(t, reached, p, i);
        BySeedsGrows(t, reached, p, i);
        reached := reached[p := ByEntry(t.entries[i].path)];
      }
      k := k + 1;
    }
  }

  lemma EmptySound(t: Tree)
    ensures Sound(t, map[])
  {}

  /** The first relay already reached that may pass an invocation to `p`, or none. */
  method FindRelay(t: Tree, reached: map<Path, Why>, p: Path) returns (i: nat)
    ensures i <= |t.relays|
    ensures i < |t.relays| ==> t.relays[i].path in reached && MayPass(t.relays[i], p)
    ensures forall j :: 0 <= j < i ==> t.relays[j].path !in reached || !MayPass(t.relays[j], p)
    ensures i == |t.relays| ==> ClosedAt(t, reached, p)
  {
    hide InvokedBy, OwnHarness;
    i := 0;
    while i < |t.relays|
      invariant 0 <= i <= |t.relays|
      invariant forall j :: 0 <= j < i ==> t.relays[j].path !in reached || !MayPass(t.relays[j], p)
    {
      var f := t.relays[i];
      if !(f.path == p || f.path !in reached || f.path in OwnHarness(p)) {
        if InvokedBy(p, f.text) {
          return;
        }
      }
      i := i + 1;
    }
  }

  /** One pass over the inventory, growing `reached` in place. */
  method Pass(t: Tree, start: map<Path, Why>) returns (reached: map<Path, Why>, grew: bool)
    requires Sound(t, start) && SeedsIn(t, start)
    ensures Sound(t, reached) && SeedsIn(t, reached) && start.Keys <= reached.Keys
    ensures reached.Keys <= start.Keys + (set p | p in t.inventory)
    ensures grew ==> start.Keys < reached.Keys
    ensures !grew ==> reached == start && Closed(t, reached)
  {
    hide Sound, ClosedAt, MayPass;
    reached, grew := start, false;
    var k := 0;
    while k < |t.inventory|
      invariant 0 <= k <= |t.inventory| && Sound(t, reached) && start.Keys <= reached.Keys
      invariant reached.Keys <= start.Keys + (set p | p in t.inventory)
      invariant grew ==> start.Keys < reached.Keys
      invariant !grew ==> reached == start && forall i :: 0 <= i < k ==> ClosedAt(t, reached, t.inventory[i])
    {
      var p := t.inventory[k];
      if p !in reached {
        var i := FindRelay(t, reached, p);
        if i < |t.relays| {
          var s := t.relays[i].path;
          AddRelay(t, reached, p, i);
          reached := reached[p := ByRelay(s, reached[s])];
          assert p in reached.Keys && p !in start.Keys;
          grew := true;
        }
      } else {
        InIsClosed(t, reached, p);
      }
      k := k + 1;
    }
  }

  lemma InIsClosed(t: Tree, reached: map<Path, Why>, p: Path)
    requires p in reached
    ensures ClosedAt(t, reached, p)
  {}

  /**
   The whole computation. It ends, and what it reaches is exactly what a chain from an entry
   point reaches, each with a provenance that is such a chain and has no cycle.
   */
  method FindReached(t: Tree) returns (reached: map<Path, Why>)
    ensures Exact(t, reached) && Sound(t, reached)
  {
    hide Sound, SeedsIn, Closed;
    reached := Seed(t);
    ghost var all := (set p | p in t.inventory) + reached.Keys;
    var grew := true;
    while grew
      invariant Sound(t, reached) && SeedsIn(t, reached) && reached.Keys <= all
      invariant !grew ==> Closed(t, reached)
      decreases |all - reached.Keys|, grew
    {
      ghost var before := reached;
      reached, grew := Pass(t, reached);
      if grew {
        assert all - reached.Keys < all - before.Keys by {
          var p :| p in reached.Keys && p !in before.Keys;
          assert p in all - before.Keys && p !in all - reached.Keys;
        }
        SmallerSet(all - reached.Keys, all - before.Keys);
      }
    }
    FixpointIsExact(t, reached);
  }

  lemma SmallerSet(a: set<Path>, b: set<Path>)
    requires a < b
    ensures |a| < |b|
  {
    var x :| x in b && x !in a;
    assert a <= b - {x};
    SubsetSize(a, b - {x});
  }

  lemma {:induction false} SubsetSize(a: set<Path>, b: set<Path>)
    requires a <= b
    ensures |a| <= |b|
    decreases |a|
  {
    if a == {} {
    } else {
      var x :| x in a;
      SubsetSize(a - {x}, b - {x});
    }
  }
}
