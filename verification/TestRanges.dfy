/**
 The second half of the panic-site scanner: which lines of a file a `#[cfg(test)]` attribute
 guards, found from the patterns its lines match and the braces left after scrubbing.
 */
module TestRanges {

  // ----- What the patterns see of a line -----

  predicate Blank(c: char) {
    c == ' ' || c == '\t'
  }

  /** The first position from `i` on that is no space or tab. */
  function SkipBlanks(s: string, i: nat): (j: nat)
    requires i <= |s|
    ensures i <= j <= |s| && (j < |s| ==> !Blank(s[j])) && forall k :: i <= k < j ==> Blank(s[k])
    decreases |s| - i
  {
    if i < |s| && Blank(s[i]) then SkipBlanks(s, i + 1) else i
  }

  predicate StandsAt(s: string, i: nat, w: string) {
    i + |w| <= |s| && s[i..i + |w|] == w
  }

  /** Past the word at `i` and the blanks after it, if it stands there with one; otherwise `i`. */
  function SkipWord(s: string, i: nat, w: string): (j: nat)
    requires i <= |s|
    ensures i <= j <= |s|
  {
    if StandsAt(s, i, w) && i + |w| < |s| && Blank(s[i + |w|]) then SkipBlanks(s, i + |w|) else i
  }

  /** The first `c` from `i` on, or the end. */
  function Find(s: string, i: nat, c: char): (j: nat)
    requires i <= |s|
    ensures i <= j <= |s| && (j < |s| ==> s[j] == c) && forall k :: i <= k < j ==> s[k] != c
    decreases |s| - i
  {
    if i < |s| && s[i] != c then Find(s, i + 1, c) else i
  }

  /** Past a visibility at `i`, with or without a parenthesised scope, and the blanks after it. */
  function SkipPub(s: string, i: nat): (j: nat)
    requires i <= |s|
    ensures i <= j <= |s|
  {
    if StandsAt(s, i, "pub") && i + 3 < |s| && s[i + 3] == '(' then
      var k := Find(s, i + 3, ')');
      if k + 1 < |s| && Blank(s[k + 1]) then SkipBlanks(s, k + 1) else i
    else SkipWord(s, i, "pub")
  }

  /** Past a foreign calling convention at `i`: the word, a quoted name, and blanks after each. */
  function SkipExtern(s: string, i: nat): (j: nat)
    requires i <= |s|
    ensures i <= j <= |s|
  {
    var q := SkipWord(s, i, "extern");
    if q == i || q == |s| || s[q] != '"' then i
    else
      var k := Find(s, q + 1, '"');
      if k + 1 < |s| && Blank(s[k + 1]) then SkipBlanks(s, k + 1) else i
  }

  predicate StartsName(s: string, i: nat) {
    i < |s| && ('a' <= s[i] <= 'z' || 'A' <= s[i] <= 'Z' || s[i] == '_')
  }

  /** The keyword at `i`, blanks, and the start of a name. */
  predicate Declares(s: string, i: nat, w: string)
    requires i <= |s|
  {
    SkipWord(s, i, w) > i && StartsName(s, SkipWord(s, i, w))
  }

  predicate IsModule(s: string) {
    Declares(s, SkipPub(s, SkipBlanks(s, 0)), "mod")
  }

  predicate IsFunction(s: string) {
    var i := SkipPub(s, SkipBlanks(s, 0));
    var j := SkipWord(s, SkipWord(s, SkipWord(s, SkipWord(s, i, "default"), "const"), "async"), "unsafe");
    Declares(s, SkipExtern(s, j), "fn")
  }

  predicate IsCfgTest(s: string) {
    StandsAt(s, SkipBlanks(s, 0), "#[cfg(test)]")
  }

  /** What `lstrip` takes away. */
  predicate Space(c: char) {
    || '\t' <= c <= '\r' || '\U{1C}' <= c <= ' ' || c == '\U{85}' || c == '\U{A0}' || c == '\U{1680}'
    || '\U{2000}' <= c <= '\U{200A}' || c == '\U{2028}' || c == '\U{2029}' || c == '\U{202F}'
    || c == '\U{205F}' || c == '\U{3000}'
  }

  predicate IsAttribute(s: string) {
    if s != "" && Space(s[0]) then IsAttribute(s[1..]) else StandsAt(s, 0, "#[")
  }

  function Count(s: string, c: char): nat {
    if s == "" then 0 else Count(s[..|s| - 1], c) + if s[|s| - 1] == c then 1 else 0
  }

  /** A line of the source, its braces counted on its scrubbed copy. */
  function Classify(line: string, scrubbed: string): Line {
    Line(IsCfgTest(line), IsAttribute(line), IsModule(line) || IsFunction(line),
         Count(scrubbed, '{'), Count(scrubbed, '}'))
  }

  /** The file line by line; the scrubbed copy is padded with empty lines where it comes up short. */
  function Classified(lines: seq<string>, scrubbed: seq<string>): seq<Line> {
    seq(|lines|, i requires 0 <= i < |lines| => Classify(lines[i], if i < |scrubbed| then scrubbed[i] else ""))
  }

  // ----- The scan -----

  /** What one line is to the scanner; braces are counted on its scrubbed copy. */
  datatype Line = Line(cfgTest: bool, attribute: bool, item: bool, opens: nat, closes: nat)

  /** An inclusive range of one-based line numbers. */
  datatype Span = Span(first: nat, last: nat)

  /** The first line from `i` on that is no attribute. */
  function SkipAttributes(lines: seq<Line>, i: nat): (j: nat)
    requires i <= |lines|
    ensures i <= j <= |lines| && (j < |lines| ==> !lines[j].attribute)
    ensures forall k :: i <= k < j ==> lines[k].attribute
    decreases |lines| - i
  {
    if i < |lines| && lines[i].attribute then SkipAttributes(lines, i + 1) else i
  }

  /** The attribute on line `i` guards a module or a function, past any further attributes. */
  predicate Guards(lines: seq<Line>, i: nat) {
    && i < |lines| && lines[i].cfgTest
    && var j := SkipAttributes(lines, i + 1); j < |lines| && lines[j].item
  }

  /** Braces opened less braces closed on lines `a` up to `b`. */
  function Depth(lines: seq<Line>, a: nat, b: nat): int
    requires a <= b <= |lines|
  {
    if a == b then 0 else Depth(lines, a, b - 1) + lines[b - 1].opens - lines[b - 1].closes
  }

  predicate Opened(lines: seq<Line>, a: nat, b: nat)
    requires a <= b <= |lines|
  {
    exists k :: a <= k < b && lines[k].opens > 0
  }

  /** By the end of line `j` the item that starts on line `a` has opened and closed its body. */
  predicate Complete(lines: seq<Line>, a: nat, j: nat)
    requires a <= j < |lines|
  {
    Opened(lines, a, j + 1) && Depth(lines, a, j + 1) <= 0
  }

  /** Line `e` is where the item on line `a` ends: the first complete one, or the file's last. */
  ghost predicate Ends(lines: seq<Line>, a: nat, e: nat) {
    && a <= e < |lines|
    && (Complete(lines, a, e) || e == |lines| - 1)
    && forall j :: a <= j < e ==> !Complete(lines, a, j)
  }

  method FindEnd(lines: seq<Line>, item: nat) returns (end: nat)
    requires item < |lines|
    ensures Ends(lines, item, end)
  {
    var depth := 0;
    var seenOpen := false;
    end := item;
    var j := item;
    while j < |lines|
      invariant item <= j <= |lines| && depth == Depth(lines, item, j) && seenOpen == Opened(lines, item, j)
      invariant end == if j == item then item else j - 1
      invariant forall k :: item <= k < j ==> !Complete(lines, item, k)
    {
      depth := depth + lines[j].opens - lines[j].closes;
      if lines[j].opens > 0 {
        seenOpen := true;
      }
      end := j;
      if seenOpen && depth <= 0 {
        return;
      }
      j := j + 1;
    }
  }

  ghost predicate IsTestSpan(lines: seq<Line>, r: Span) {
    && 1 <= r.first <= r.last <= |lines|
    && Guards(lines, r.first - 1)
    && Ends(lines, SkipAttributes(lines, r.first), r.last - 1)
  }

  ghost predicate Within(r: Span, line: nat) {
    r.first <= line <= r.last
  }

  ghost predicate AllSpans(lines: seq<Line>, a: seq<Span>) {
    forall i :: 0 <= i < |a| ==> IsTestSpan(lines, a[i])
  }

  ghost predicate Rising(a: seq<Span>) {
    forall i, j :: 0 <= i < j < |a| ==> a[i].last < a[j].first
  }

  /** Every guarding attribute above line `upto` lies in a span. */
  ghost predicate CoversGuards(lines: seq<Line>, a: seq<Span>, upto: nat) {
    forall k: nat :: k < upto && Guards(lines, k) ==> exists i :: 0 <= i < |a| && Within(a[i], k + 1)
  }

  /**
   The spans are disjoint and rising; each runs from a guarding attribute to the end of the item
   it guards; and every guarding attribute in the file lies in one of them.
   */
  ghost predicate Listing(lines: seq<Line>, a: seq<Span>) {
    AllSpans(lines, a) && Rising(a) && CoversGuards(lines, a, |lines|)
  }

  /** The listing of the lines above `idx`. */
  ghost predicate PartialListing(lines: seq<Line>, a: seq<Span>, idx: nat) {
    AllSpans(lines, a) && Rising(a) && CoversGuards(lines, a, idx) && forall i :: 0 <= i < |a| ==> a[i].last <= idx
  }

  lemma ListingSkips(lines: seq<Line>, a: seq<Span>, idx: nat)
    requires PartialListing(lines, a, idx) && !Guards(lines, idx)
    ensures PartialListing(lines, a, idx + 1)
  {
    hide Guards, IsTestSpan;
  }

  lemma ListingExtends(lines: seq<Line>, a: seq<Span>, r: Span)
    requires IsTestSpan(lines, r) && PartialListing(lines, a, r.first - 1)
    ensures PartialListing(lines, a + [r], r.last)
  {
    hide Guards, Ends, SkipAttributes;
    var b := a + [r];
    forall k: nat | k < r.last && Guards(lines, k) ensures exists i :: 0 <= i < |b| && Within(b[i], k + 1) {
      if k < r.first - 1 {
        var i :| 0 <= i < |a| && Within(a[i], k + 1);
        assert Within(b[i], k + 1);
      } else {
        assert Within(b[|a|], k + 1);
      }
    }
  }

  method ListRanges(lines: seq<Line>) returns (ranges: seq<Span>)
    ensures Listing(lines, ranges)
  {
    hide PartialListing, Listing;
    ranges := [];
    var idx := 0;
    assert PartialListing(lines, ranges, 0) by {
      EmptyListing(lines);
    }
    while idx < |lines|
      invariant 0 <= idx <= |lines| && PartialListing(lines, ranges, idx)
      decreases |lines| - idx
    {
      if !lines[idx].cfgTest {
        ListingSkips(lines, ranges, idx);
        idx := idx + 1;
        continue;
      }
      var item := idx + 1;
      while item < |lines| && lines[item].attribute
        invariant idx + 1 <= item <= |lines| && SkipAttributes(lines, item) == SkipAttributes(lines, idx + 1)
      {
        item := item + 1;
      }
      if item >= |lines| || !lines[item].item {
        ListingSkips(lines, ranges, idx);
        idx := idx + 1;
        continue;
      }
      var end := FindEnd(lines, item);
      ListingExtends(lines, ranges, Span(idx + 1, end + 1));
      ranges := ranges + [Span(idx + 1, end + 1)];
      idx := end + 1;
    }
    ListingDone(lines, ranges);
  }

  /** `test_line_ranges`, on the two copies of a file the caller splits into lines. */
  method TestLineRanges(lines: seq<string>, scrubbed: seq<string>) returns (ranges: seq<Span>)
    ensures Listing(Classified(lines, scrubbed), ranges)
  {
    hide Classify;
    ranges := ListRanges(Classified(lines, scrubbed));
  }

  lemma EmptyListing(lines: seq<Line>)
    ensures PartialListing(lines, [], 0)
  {}

  lemma ListingDone(lines: seq<Line>, a: seq<Span>)
    requires PartialListing(lines, a, |lines|)
    ensures Listing(lines, a)
  {}

  // ----- The listing is the only one -----

  /** The span of a listing that a given test span starts in. */
  lemma StartsIn(lines: seq<Line>, a: seq<Span>, r: Span) returns (i: nat)
    requires Listing(lines, a) && IsTestSpan(lines, r)
    ensures i < |a| && Within(a[i], r.first)
  {
    hide Guards, Ends, SkipAttributes;
    assert Guards(lines, r.first - 1);
    i :| 0 <= i < |a| && Within(a[i], r.first - 1 + 1);
  }

  ghost predicate Agree(a: seq<Span>, b: seq<Span>, n: nat) {
    n <= |a| && n <= |b| && forall i :: 0 <= i < n ==> a[i] == b[i]
  }

  lemma SpanUnique(lines: seq<Line>, x: Span, y: Span)
    requires IsTestSpan(lines, x) && IsTestSpan(lines, y) && x.first == y.first
    ensures x == y
  {
    hide Guards, Complete;
  }

  lemma SpanOrdered(lines: seq<Line>, r: Span)
    requires IsTestSpan(lines, r)
    ensures r.first <= r.last
  {
    hide Guards, Ends;
  }

  /** After agreeing on `n` spans, the next span of one list starts no later than the other's. */
  lemma NextStarts(lines: seq<Line>, a: seq<Span>, b: seq<Span>, n: nat)
    requires Listing(lines, a) && Listing(lines, b) && Agree(a, b, n) && n < |a|
    ensures n < |b| && b[n].first <= a[n].first
  {
    hide IsTestSpan, CoversGuards;
    var i := StartsIn(lines, b, a[n]);
    SpanOrdered(lines, b[i]);
    if n < i {
      SpanOrdered(lines, b[n]);
    }
  }

  lemma {:induction false} AgreeUpto(lines: seq<Line>, a: seq<Span>, b: seq<Span>, n: nat)
    requires Listing(lines, a) && Listing(lines, b) && n <= |a|
    ensures Agree(a, b, n)
    decreases n
  {
    hide IsTestSpan, CoversGuards;
    if n == 0 {
    } else {
      AgreeUpto(lines, a, b, n - 1);
      NextStarts(lines, a, b, n - 1);
      NextStarts(lines, b, a, n - 1);
      SpanUnique(lines, a[n - 1], b[n - 1]);
    }
  }

  /** Two listings of one file are the same list, so the scan's answer is forced. */
  lemma ListingUnique(lines: seq<Line>, a: seq<Span>, b: seq<Span>)
    requires Listing(lines, a) && Listing(lines, b)
    ensures a == b
  {
    AgreeUpto(lines, a, b, |a|);
    AgreeUpto(lines, b, a, |b|);
    hide Listing;
  }
}
