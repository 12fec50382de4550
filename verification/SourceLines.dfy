/**
 Lines of a source file and of its scrubbed copy. The panic-site scanner splits both and reads them
 side by side, so line `j` of the one has to be line `j` of the other. That holds exactly of files
 in which every line break outside code is a newline and no newline is a quoted character.
 */
module SourceLines {
  import opened Scrub
  import TestRanges

  // ----- Splitting into lines -----

  /** What the split takes for a line boundary. */
  predicate Separator(c: char) {
    || '\n' <= c <= '\r' || '\U{1C}' <= c <= '\U{1E}' || c == '\U{85}' || c == '\U{2028}' || c == '\U{2029}'
  }

  /** A line ends with position `q`; a carriage return before a newline ends it with the newline. */
  predicate Break(s: string, q: nat) {
    q < |s| && Separator(s[q]) && !(s[q] == '\r' && At(s, q + 1, '\n'))
  }

  /** The number of the line that position `q` is on. */
  function LineOf(s: string, q: nat): nat
    requires q <= |s|
  {
    if q == 0 then 0 else LineOf(s, q - 1) + if Break(s, q - 1) then 1 else 0
  }

  /** The first break from `i` on, or the end. */
  function NextBreak(s: string, i: nat): (e: nat)
    requires i <= |s|
    ensures i <= e <= |s| && (e < |s| ==> Break(s, e)) && forall k :: i <= k < e ==> !Break(s, k)
    decreases |s| - i
  {
    if i < |s| && !Break(s, i) then NextBreak(s, i + 1) else i
  }

  /** A line without the break at its end. */
  function Content(s: string, e: nat): string
    requires e < |s|
  {
    if e > 0 && s[e] == '\n' && s[e - 1] == '\r' then s[..e - 1] else s[..e]
  }

  /** `splitlines`. */
  function SplitLines(s: string): seq<string>
    decreases |s|
  {
    if s == "" then []
    else
      var e := NextBreak(s, 0);
      if e == |s| then [s] else [Content(s, e)] + SplitLines(s[e + 1..])
  }

  /** How many `c` stand on line `j`, over the first `q` positions. */
  function CountOn(s: string, j: nat, c: char, q: nat): nat
    requires q <= |s|
  {
    if q == 0 then 0
    else CountOn(s, j, c, q - 1) + if LineOf(s, q - 1) == j && s[q - 1] == c then 1 else 0
  }

  // ----- The split and the numbering agree -----

  lemma {:induction false} OnFirstLine(s: string, q: nat)
    requires q <= NextBreak(s, 0)
    ensures LineOf(s, q) == 0
  {
    if q == 0 {
    } else {
      OnFirstLine(s, q - 1);
    }
  }

  lemma BreakShifts(s: string, e: nat, q: nat)
    requires e < |s| && e + 1 + q <= |s|
    ensures Break(s, e + 1 + q) <==> Break(s[e + 1..], q)
  {}

  lemma {:induction false} LineShifts(s: string, q: nat)
    requires var e := NextBreak(s, 0); e < |s| && e + 1 + q <= |s|
    ensures var e := NextBreak(s, 0); LineOf(s, e + 1 + q) == 1 + LineOf(s[e + 1..], q)
  {
    var e := NextBreak(s, 0);
    if q == 0 {
      OnFirstLine(s, e);
    } else {
      LineShifts(s, q - 1);
      BreakShifts(s, e, q - 1);
      hide Break, NextBreak;
    }
  }

  /** On the first line, everything before the break is counted, and nothing from it on. */
  lemma {:induction false} FirstCount(s: string, c: char, q: nat)
    requires q <= NextBreak(s, 0)
    ensures CountOn(s, 0, c, q) == TestRanges.Count(s[..q], c)
  {
    if q == 0 {
    } else {
      FirstCount(s, c, q - 1);
      OnFirstLine(s, q - 1);
      assert s[..q][..q - 1] == s[..q - 1];
    }
  }

  lemma {:induction false} LaterCount(s: string, j: nat, c: char, q: nat)
    requires var e := NextBreak(s, 0); e < |s| && e + 1 + q <= |s|
    ensures var e := NextBreak(s, 0);
      CountOn(s, j, c, e + 1 + q) == CountOn(s, j, c, e + 1) + if j == 0 then 0 else CountOn(s[e + 1..], j - 1, c, q)
  {
    var e := NextBreak(s, 0);
    if q == 0 {
    } else {
      LaterCount(s, j, c, q - 1);
      LineShifts(s, q - 1);
      hide NextBreak, LineOf, Break;
      assert s[e + 1..][q - 1] == s[e + q];
    }
  }

  lemma {:induction false} EarlierCount(s: string, j: nat, c: char, q: nat)
    requires j > 0 && q <= |s| && (q == 0 || q - 1 <= NextBreak(s, 0))
    ensures CountOn(s, j, c, q) == 0
  {
    if q == 0 {
    } else {
      EarlierCount(s, j, c, q - 1);
      OnFirstLine(s, q - 1);
    }
  }

  lemma CountContent(s: string, e: nat, c: char)
    requires e < |s| && !Separator(c)
    ensures TestRanges.Count(Content(s, e), c) == TestRanges.Count(s[..e], c)
  {
    if e > 0 && s[e] == '\n' && s[e - 1] == '\r' {
      assert s[..e][..e - 1] == s[..e - 1];
    }
  }

  /** A character that ends no line is counted on line `j` of the split exactly as often as it stands there. */
  lemma {:induction false} SplitCounts(s: string, j: nat, c: char)
    requires !Separator(c)
    ensures CountOn(s, j, c, |s|) == if j < |SplitLines(s)| then TestRanges.Count(SplitLines(s)[j], c) else 0
    decreases |s|
  {
    if s == "" {
    } else {
      var e := NextBreak(s, 0);
      if e == |s| {
        FirstCount(s, c, e);
        assert s[..e] == s;
        if j > 0 {
          EarlierCount(s, j, c, |s|);
        }
      } else {
        SplitRest(s, j, c, e);
      }
    }
  }

  lemma CountSkips(s: string, j: nat, c: char, q: nat)
    requires q < |s| && s[q] != c
    ensures CountOn(s, j, c, q + 1) == CountOn(s, j, c, q)
  {
    hide LineOf;
  }

  lemma SplitFirst(s: string, c: char, e: nat)
    requires !Separator(c) && e == NextBreak(s, 0) < |s|
    ensures CountOn(s, 0, c, |s|) == TestRanges.Count(Content(s, e), c)
  {
    assert s[e] != c;
    hide NextBreak, CountOn, Content;
    LaterCount(s, 0, c, |s| - e - 1);
    CountSkips(s, 0, c, e);
    FirstCount(s, c, e);
    CountContent(s, e, c);
  }

  lemma SplitStep(s: string, e: nat)
    requires s != "" && e == NextBreak(s, 0) < |s|
    ensures SplitLines(s) == [Content(s, e)] + SplitLines(s[e + 1..])
  {
    hide NextBreak, Content;
  }

  lemma {:induction false} SplitRest(s: string, j: nat, c: char, e: nat)
    requires !Separator(c) && s != "" && e == NextBreak(s, 0) < |s|
    ensures CountOn(s, j, c, |s|) == if j < |SplitLines(s)| then TestRanges.Count(SplitLines(s)[j], c) else 0
    decreases |s|, 0
  {
    hide SplitLines, NextBreak, CountOn, Content, TestRanges.Count, Separator;
    SplitStep(s, e);
    if j == 0 {
      SplitFirst(s, c, e);
    } else {
      LaterCount(s, j, c, |s| - e - 1);
      EarlierCount(s, j, c, e + 1);
      SplitCounts(s[e + 1..], j - 1, c);
    }
  }

  // ----- When the two copies line up -----

  /** Position `q` is code to the scan. */
  predicate InCode(s: string, q: nat) {
    q < |s| && Reaches(s, 0, q) && TokenAt(s, q).kind.Code?
  }

  /** Line `j` of the scrubbed text is line `j` of the source, position by position. */
  ghost predicate Aligned(s: string) {
    forall q :: 0 <= q <= |s| ==> LineOf(Scrubbed(s), q) == LineOf(s, q)
  }

  /** This break survives scrubbing: a newline that is no quoted character, or any other in code. */
  predicate KeepsBreak(s: string, q: nat)
    requires q < |s|
  {
    if s[q] == '\n' then !NewlineLiteral(s, q) else InCode(s, q)
  }

  lemma CodeKept(s: string, q: nat)
    requires InCode(s, q)
    ensures Scrubbed(s)[q] == s[q]
  {
    ScrubbedIs(s, q, q);
  }

  lemma KeptIsBreak(s: string, q: nat)
    requires Break(s, q) && KeepsBreak(s, q)
    ensures Break(Scrubbed(s), q)
  {
    var out := Scrubbed(s);
    if s[q] == '\n' {
      NewlineKeptIff(s, q);
    } else {
      CodeKept(s, q);
      if q + 1 < |s| {
        NewlineKeptIff(s, q + 1);
      }
    }
    hide Scrubbed, Reaches, TokenAt;
  }

  lemma BreakIsKept(s: string, q: nat)
    requires q < |s| && Break(Scrubbed(s), q)
    ensures Break(s, q) && KeepsBreak(s, q)
  {
    var out := Scrubbed(s);
    PositionKept(s, q);
    NewlineKeptIff(s, q);
    if q + 1 < |s| {
      NewlineKeptIff(s, q + 1);
    }
    hide Scrubbed, Reaches, TokenAt;
  }

  /** Scrubbing introduces no break and loses exactly the others. */
  lemma BreakIff(s: string, q: nat)
    requires q < |s|
    ensures Break(Scrubbed(s), q) <==> Break(s, q) && KeepsBreak(s, q)
  {
    hide Break, KeepsBreak, Scrubbed;
    if Break(Scrubbed(s), q) {
      BreakIsKept(s, q);
    }
    if Break(s, q) && KeepsBreak(s, q) {
      KeptIsBreak(s, q);
    }
  }

  lemma {:induction false} SameBreaksAlign(s: string, out: string, q: nat)
    requires |out| == |s| && q <= |s| && forall k :: 0 <= k < q ==> (Break(out, k) <==> Break(s, k))
    ensures LineOf(out, q) == LineOf(s, q)
  {
    if q == 0 {
    } else {
      SameBreaksAlign(s, out, q - 1);
    }
  }

  /** Every break of the file survives. */
  ghost predicate AllBreaksKept(s: string) {
    forall q :: 0 <= q < |s| && Break(s, q) ==> KeepsBreak(s, q)
  }

  /**
   The lines of the two copies correspond, position by position, exactly when every line break of
   the source is a newline that is no quoted character, or stands in code.
   */
  lemma AlignedIff(s: string)
    ensures Aligned(s) <==> AllBreaksKept(s)
  {
    var out := Scrubbed(s);
    forall q: nat | q < |s| ensures Break(out, q) <==> Break(s, q) && KeepsBreak(s, q) {
      BreakIff(s, q);
    }
    hide Scrubbed, Break, KeepsBreak;
    if AllBreaksKept(s) {
      forall q | 0 <= q <= |s| ensures LineOf(out, q) == LineOf(s, q) {
        SameBreaksAlign(s, out, q);
      }
    } else {
      var q :| 0 <= q < |s| && Break(s, q) && !KeepsBreak(s, q);
      assert LineOf(s, q + 1) == LineOf(s, q) + 1 && LineOf(out, q + 1) == LineOf(out, q);
    }
  }

  /** How many `c` stand in code on line `j` of the source, over the first `q` positions. */
  function CodeOn(s: string, j: nat, c: char, q: nat): nat
    requires q <= |s|
  {
    if q == 0 then 0
    else CodeOn(s, j, c, q - 1) + if LineOf(s, q - 1) == j && s[q - 1] == c && InCode(s, q - 1) then 1 else 0
  }

  lemma CodeIff(s: string, q: nat, c: char)
    requires q < |s| && c != ' ' && c != '\n'
    ensures Scrubbed(s)[q] == c <==> s[q] == c && InCode(s, q)
  {
    PositionKept(s, q);
    if InCode(s, q) {
      CodeKept(s, q);
    }
    hide Scrubbed, Reaches, TokenAt;
  }

  lemma {:induction false} ScrubbedCounts(s: string, j: nat, c: char, q: nat)
    requires Aligned(s) && c != ' ' && c != '\n' && q <= |s|
    ensures CountOn(Scrubbed(s), j, c, q) == CodeOn(s, j, c, q)
  {
    if q == 0 {
    } else {
      ScrubbedCounts(s, j, c, q - 1);
      CodeIff(s, q - 1, c);
      hide Scrubbed, InCode, LineOf;
    }
  }

  /**
   So in such a file the braces the scanner counts on line `j` of the scrubbed copy are exactly the
   braces that stand in code on line `j` of the source.
   */
  lemma BracesAreCode(s: string, j: nat, c: char)
    requires AllBreaksKept(s) && (c == '{' || c == '}')
    ensures var scrubbed := SplitLines(Scrubbed(s));
      (if j < |scrubbed| then TestRanges.Count(scrubbed[j], c) else 0) == CodeOn(s, j, c, |s|)
  {
    hide Scrubbed, AllBreaksKept, Aligned;
    AlignedIff(s);
    SplitCounts(Scrubbed(s), j, c);
    ScrubbedCounts(s, j, c, |s|);
  }

  /** A form feed in a comment: two lines of source, one of scrubbed text. */
  lemma FormFeedMisaligns()
    ensures !Aligned(['/', '/', '\U{C}'])
  {
    var s := ['/', '/', '\U{C}'];
    AlignedIff(s);
    assert Reaches(s, 0, 0) && TokenAt(s, 0) == Token(LineComment, 3) by {
      assert LineEnd(s, 2) == 3;
    }
    assert Break(s, 2) && !Reaches(s, 3, 2);
    assert !InCode(s, 2);
    assert !KeepsBreak(s, 2);
  }
}
