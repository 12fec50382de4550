/**
 The source scrubber behind the panic-site inventory: it blanks comments, strings and character
 literals of a Rust file so that braces and calls can be counted in what is left, keeping every
 offset where it was.

 `Token` is the reference tokenizer: what starts at a position, and where it ends. `Scrubbed`
 blanks token by token. `ScrubSource` is the in-place scan.
 */
module Scrub {

  // ----- The reference tokenizer -----

  datatype Kind = Code | LineComment | BlockComment | RawString | Text | CharLiteral

  datatype Token = Token(kind: Kind, end: nat)

  predicate At(s: string, i: nat, c: char) {
    i < |s| && s[i] == c
  }

  /** The end of the line `i` is on: the newline, or the end of the file. */
  function LineEnd(s: string, i: nat): (e: nat)
    requires i <= |s|
    ensures i <= e <= |s|
    decreases |s| - i
  {
    if i < |s| && s[i] != '\n' then LineEnd(s, i + 1) else i
  }

  /** Where a block comment ends that has `depth` comments open at `i`; they nest. */
  function BlockEnd(s: string, i: nat, depth: nat): (e: nat)
    requires i <= |s|
    ensures i <= e <= |s|
    decreases |s| - i
  {
    if depth == 0 || i == |s| then i
    else if At(s, i, '/') && At(s, i + 1, '*') then BlockEnd(s, i + 2, depth + 1)
    else if At(s, i, '*') && At(s, i + 1, '/') then BlockEnd(s, i + 2, depth - 1)
    else BlockEnd(s, i + 1, depth)
  }

  /** How many `#` stand at `i`. */
  function Hashes(s: string, i: nat): (h: nat)
    requires i <= |s|
    ensures i + h <= |s| && forall k :: i <= k < i + h ==> s[k] == '#'
    decreases |s| - i
  {
    if i < |s| && s[i] == '#' then 1 + Hashes(s, i + 1) else 0
  }

  predicate ClosesRaw(s: string, i: nat, h: nat) {
    At(s, i, '"') && i + h < |s| && forall k :: i < k <= i + h ==> s[k] == '#'
  }

  /** One past the first closing quote with `h` hashes from `i` on, or the end of the file. */
  function RawEnd(s: string, i: nat, h: nat): (e: nat)
    requires i <= |s|
    ensures i <= e <= |s|
    decreases |s| - i
  {
    if i == |s| then i
    else if ClosesRaw(s, i, h) then i + 1 + h
    else RawEnd(s, i + 1, h)
  }

  /** One past the closing quote of a string whose inside starts at `i`; a backslash escapes. */
  function TextEnd(s: string, i: nat): (e: nat)
    requires i <= |s|
    ensures i <= e <= |s|
    decreases |s| - i
  {
    if i == |s| then i
    else if s[i] == '"' then i + 1
    else if s[i] == '\\' && i + 1 < |s| then TextEnd(s, i + 2)
    else TextEnd(s, i + 1)
  }

  predicate HexDigit(c: char) {
    '0' <= c <= '9' || 'a' <= c <= 'f' || 'A' <= c <= 'F'
  }

  function HexRun(s: string, i: nat): (h: nat)
    requires i <= |s|
    ensures i + h <= |s| && forall k :: i <= k < i + h ==> HexDigit(s[k])
    decreases |s| - i
  {
    if i < |s| && HexDigit(s[i]) then 1 + HexRun(s, i + 1) else 0
  }

  /**
   Length of the character literal at `i`, or zero: a quoted single character, a one-character
   escape, or a unicode escape of one to six hex digits. A lifetime is not one.
   */
  function CharLength(s: string, i: nat): (n: nat)
    ensures n == 0 || (3 <= n && i + n <= |s|)
  {
    if !At(s, i, '\'') then 0
    else if UnicodeEscape(s, i) then HexRun(s, i + 4) + 6
    else if At(s, i + 1, '\\') && i + 2 < |s| && s[i + 2] != '\n' && At(s, i + 3, '\'') then 4
    else if i + 1 < |s| && s[i + 1] != '\\' && s[i + 1] != '\'' && At(s, i + 2, '\'') then 3
    else 0
  }

  predicate UnicodeEscape(s: string, i: nat) {
    && At(s, i + 1, '\\') && At(s, i + 2, 'u') && At(s, i + 3, '{')
    && var h := HexRun(s, i + 4);
       1 <= h <= 6 && At(s, i + 4 + h, '}') && At(s, i + 5 + h, '\'')
  }

  /** What starts at `i` when the scan arrives there. */
  function TokenAt(s: string, i: nat): (t: Token)
    requires i < |s|
    ensures i < t.end <= |s|
    ensures t.kind.Code? ==> t.end == i + 1
    ensures !t.kind.Code? ==> t.end >= i + 2 || t.end == |s|
  {
    if At(s, i, '/') && At(s, i + 1, '/') then Token(LineComment, LineEnd(s, i + 2))
    else if At(s, i, '/') && At(s, i + 1, '*') then Token(BlockComment, BlockEnd(s, i + 2, 1))
    else if At(s, i, 'r') && At(s, i + 1 + Hashes(s, i + 1), '"') then
      var h := Hashes(s, i + 1);
      Token(RawString, RawEnd(s, i + 2 + h, h))
    else if At(s, i, '"') then Token(Text, TextEnd(s, i + 1))
    else if CharLength(s, i) > 0 then Token(CharLiteral, i + CharLength(s, i))
    else Token(Code, i + 1)
  }

  // ----- Scrubbing, token by token -----

  /** A position of a token after scrubbing. Only character literals lose a newline. */
  function Blank(kind: Kind, c: char): char {
    match kind
    case Code => c
    case CharLiteral => ' '
    case _ => if c == '\n' then c else ' '
  }

  function BlankAll(kind: Kind, part: string): (out: string)
    ensures |out| == |part|
  {
    seq(|part|, k requires 0 <= k < |part| => Blank(kind, part[k]))
  }

  function ScrubFrom(s: string, i: nat): (out: string)
    requires i <= |s|
    ensures |out| == |s| - i
    decreases |s| - i
  {
    if i == |s| then []
    else
      var t := TokenAt(s, i);
      BlankAll(t.kind, s[i..t.end]) + ScrubFrom(s, t.end)
  }

  function Scrubbed(s: string): (out: string)
    ensures |out| == |s|
  {
    ScrubFrom(s, 0)
  }

  // ----- Where the scan stops -----

  /** Scanning token by token from `i` arrives at `p`. */
  predicate Reaches(s: string, i: nat, p: nat)
    decreases |s| - i
  {
    i == p || (i < p && i < |s| && Reaches(s, TokenAt(s, i).end, p))
  }

  lemma {:induction false} ReachesNext(s: string, i: nat, p: nat)
    requires Reaches(s, i, p) && p < |s|
    ensures Reaches(s, i, TokenAt(s, p).end)
    decreases |s| - i
  {
    hide TokenAt;
    if i == p {
    } else {
      ReachesNext(s, TokenAt(s, i).end, p);
    }
  }

  /** Inside a token the scan arrives at, each position is that token's blank. */
  lemma {:induction false} ScrubbedInside(s: string, i: nat, p: nat, q: nat)
    requires i <= p <= q < |s| && Reaches(s, i, p) && q < TokenAt(s, p).end
    ensures ScrubFrom(s, i)[q - i] == Blank(TokenAt(s, p).kind, s[q])
    decreases |s| - i
  {
    hide TokenAt, Blank;
    ScrubFromSplit(s, i, q);
    if i == p {
    } else {
      ReachesBeyond(s, TokenAt(s, i).end, p);
      ScrubbedInside(s, TokenAt(s, i).end, p, q);
    }
  }

  /** One step of `ScrubFrom`, at one position. */
  lemma ScrubFromSplit(s: string, i: nat, q: nat)
    requires i <= q < |s|
    ensures var t := TokenAt(s, i);
      ScrubFrom(s, i)[q - i] == if q < t.end then Blank(t.kind, s[q]) else ScrubFrom(s, t.end)[q - t.end]
  {
    hide TokenAt, Blank;
    var t := TokenAt(s, i);
    var part := s[i..t.end];
    assert ScrubFrom(s, i) == BlankAll(t.kind, part) + ScrubFrom(s, t.end);
    if q < t.end {
      assert part[q - i] == s[q] && BlankAll(t.kind, part)[q - i] == Blank(t.kind, part[q - i]);
    }
  }

  /** Every position lies in exactly the token the scan last stopped at. */
  lemma {:induction false} Covering(s: string, i: nat, q: nat) returns (p: nat)
    requires i <= q < |s|
    ensures i <= p <= q < TokenAt(s, p).end && Reaches(s, i, p)
    decreases |s| - i
  {
    hide TokenAt;
    if q < TokenAt(s, i).end {
      p := i;
    } else {
      p := Covering(s, TokenAt(s, i).end, q);
    }
  }

  // ----- Shape -----

  /** Each position is the source's character or a space; what is neither is code. */
  lemma PositionKept(s: string, q: nat)
    requires q < |s|
    ensures var c := Scrubbed(s)[q];
      && (c == s[q] || c == ' ')
      && (c != ' ' && c != '\n' ==> Reaches(s, 0, q) && TokenAt(s, q).kind.Code?)
  {
    var p := Covering(s, 0, q);
    ScrubbedInside(s, 0, p, q);
    var t := TokenAt(s, p);
    assert t.kind.Code? ==> t.end == p + 1;
    hide TokenAt;
  }

  /** A position is blanked exactly when it lies inside a comment, a string or a literal. */
  lemma BlankedIff(s: string, q: nat)
    requires q < |s| && s[q] != ' ' && s[q] != '\n'
    ensures Scrubbed(s)[q] == ' ' <==>
      exists p :: 0 <= p <= q && Reaches(s, 0, p) && q < TokenAt(s, p).end && !TokenAt(s, p).kind.Code?
  {
    hide TokenAt;
    var p := Covering(s, 0, q);
    ScrubbedInside(s, 0, p, q);
    forall p' | 0 <= p' <= q && Reaches(s, 0, p') && q < TokenAt(s, p').end ensures p' == p {
      SameToken(s, 0, p, p', q);
    }
  }

  lemma {:induction false} SameToken(s: string, i: nat, p: nat, p': nat, q: nat)
    requires i <= p <= q < |s| && i <= p' <= q && Reaches(s, i, p) && Reaches(s, i, p')
    requires q < TokenAt(s, p).end && q < TokenAt(s, p').end
    ensures p == p'
    decreases |s| - i
  {
    hide TokenAt;
    if i == p && i == p' {
    } else if i == p' {
      ReachesBeyond(s, TokenAt(s, i).end, p);
    } else if i == p {
      ReachesBeyond(s, TokenAt(s, i).end, p');
    } else {
      SameToken(s, TokenAt(s, i).end, p, p', q);
    }
  }

  lemma {:induction false} ReachesBeyond(s: string, i: nat, p: nat)
    requires Reaches(s, i, p)
    ensures i <= p
    decreases |s| - i
  {}

  // ----- Nothing is left to scrub -----

  /** The scrubbed text holds no quote and opens no comment. */
  lemma NoOpeners(s: string, k: nat)
    requires k < |s|
    ensures var out := Scrubbed(s);
      && out[k] != '"'
      && (out[k] == '/' ==> !At(out, k + 1, '/') && !At(out, k + 1, '*'))
  {
    var out := Scrubbed(s);
    PositionKept(s, k);
    if k + 1 < |s| {
      PositionKept(s, k + 1);
    }
    hide Scrubbed, Reaches, CharLength;
  }

  /** After a code position comes a token; unless that is code too, it hides the position after it. */
  lemma CodeThen(s: string, k: nat)
    requires k + 1 < |s| && Reaches(s, 0, k) && TokenAt(s, k).kind.Code?
    ensures Reaches(s, 0, k + 1)
    ensures TokenAt(s, k + 1).kind.Code? ==> Scrubbed(s)[k + 1] == s[k + 1]
    ensures !TokenAt(s, k + 1).kind.Code? && k + 2 < |s| ==> Scrubbed(s)[k + 2] == ' ' || Scrubbed(s)[k + 2] == '\n'
  {
    ReachesNext(s, 0, k);
    ScrubbedInside(s, 0, k + 1, k + 1);
    if !TokenAt(s, k + 1).kind.Code? && k + 2 < |s| {
      ScrubbedInside(s, 0, k + 1, k + 2);
    }
    hide TokenAt;
  }

  lemma {:induction false} HexRunSame(s: string, out: string, i: nat)
    requires |s| == |out| && i <= |s|
    requires forall k :: i <= k < |s| && HexDigit(out[k]) ==> s[k] == out[k]
    requires forall k :: i <= k < |s| && !HexDigit(out[k]) && HexDigit(s[k]) ==> out[k] == ' '
    requires At(out, i + HexRun(out, i), '}') && s[i + HexRun(out, i)] == '}'
    ensures HexRun(s, i) == HexRun(out, i)
    decreases |s| - i
  {
    if i >= |s| || !HexDigit(out[i]) {
    } else {
      HexRunSame(s, out, i + 1);
    }
  }

  /** A unicode escape in the scrubbed text would have been one in the source. */
  lemma UnicodeWasThere(s: string, k: nat)
    requires UnicodeEscape(Scrubbed(s), k)
    ensures UnicodeEscape(s, k)
  {
    var out := Scrubbed(s);
    forall q | 0 <= q < |s| ensures out[q] == s[q] || out[q] == ' ' {
      PositionKept(s, q);
    }
    hide Scrubbed;
    HexRunSame(s, out, k + 4);
  }

  lemma NoCharLiteral(s: string, k: nat)
    requires k < |s|
    ensures CharLength(Scrubbed(s), k) == 0
  {
    var out := Scrubbed(s);
    if out[k] == '\'' {
      PositionKept(s, k);
      assert CharLength(s, k) == 0;
      if UnicodeEscape(out, k) {
        UnicodeWasThere(s, k);
        assert false;
      }
      if k + 3 < |s| && out[k + 1] == '\\' && out[k + 3] == '\'' {
        NoEscape(s, k);
      }
      if k + 2 < |s| && out[k + 2] == '\'' {
        NoPlain(s, k);
      }
      hide Scrubbed, TokenAt, UnicodeEscape;
    }
  }

  lemma NoPlain(s: string, k: nat)
    requires k + 2 < |s| && Reaches(s, 0, k) && TokenAt(s, k).kind.Code? && s[k] == '\''
    requires Scrubbed(s)[k + 2] == '\''
    ensures Scrubbed(s)[k + 1] == '\\' || Scrubbed(s)[k + 1] == '\''
  {
    PositionKept(s, k + 2);
    CodeThen(s, k);
    hide Scrubbed, Reaches;
  }

  lemma NoEscape(s: string, k: nat)
    requires k + 3 < |s| && Reaches(s, 0, k) && TokenAt(s, k).kind.Code? && s[k] == '\''
    requires Scrubbed(s)[k + 1] == '\\' && Scrubbed(s)[k + 3] == '\''
    ensures Scrubbed(s)[k + 2] == '\n'
  {
    PositionKept(s, k + 1);
    PositionKept(s, k + 3);
    CodeThen(s, k + 1);
    hide Scrubbed, Reaches;
  }

  lemma NoToken(s: string, k: nat)
    requires k < |s|
    ensures TokenAt(Scrubbed(s), k).kind.Code?
  {
    var out := Scrubbed(s);
    NoOpeners(s, k);
    NoCharLiteral(s, k);
    var q := k + 1 + Hashes(out, k + 1);
    if q < |s| {
      NoOpeners(s, q);
    }
    hide Scrubbed, CharLength, Hashes;
  }

  lemma {:induction false} AllCodeIsKept(s: string, i: nat)
    requires i <= |s| && forall k :: i <= k < |s| ==> TokenAt(s, k).kind.Code?
    ensures ScrubFrom(s, i) == s[i..]
    decreases |s| - i
  {
    hide TokenAt;
    if i >= |s| {
    } else {
      AllCodeIsKept(s, i + 1);
      assert TokenAt(s, i) == Token(Code, i + 1);
      assert s[i..] == [s[i]] + s[i + 1..];
      assert BlankAll(Code, s[i..i + 1]) == [s[i]];
    }
  }

  /** Scrubbing what was scrubbed changes nothing, on every input. */
  lemma ScrubIdempotent(s: string)
    ensures Scrubbed(Scrubbed(s)) == Scrubbed(s)
  {
    var out := Scrubbed(s);
    forall k | 0 <= k < |out| ensures TokenAt(out, k).kind.Code? {
      NoToken(s, k);
    }
    AllCodeIsKept(out, 0);
    hide ScrubFrom, TokenAt;
    assert out[0..] == out;
  }

  // ----- Newlines -----

  /** The scan stops at a quote with a raw newline and another quote after it. */
  predicate NewlineLiteral(s: string, p: nat) {
    p > 0 && p + 1 < |s| && s[p - 1] == '\'' && s[p] == '\n' && s[p + 1] == '\'' && Reaches(s, 0, p - 1)
  }

  lemma LiteralNewline(s: string, p: nat, q: nat)
    requires p <= q < |s| && TokenAt(s, p).kind.CharLiteral? && q < TokenAt(s, p).end && s[q] == '\n'
    ensures q == p + 1 && p + 2 < |s| && s[p] == '\'' && s[p + 2] == '\''
  {
  }

  lemma NewlineLiteralToken(s: string, p: nat)
    requires NewlineLiteral(s, p)
    ensures TokenAt(s, p - 1) == Token(CharLiteral, p + 2)
  {}

  /**
   A newline stays where it was exactly when it is not the inside of a character literal: the
   blanking loop for those has no newline guard. No newline is ever introduced.
   */
  lemma NewlineKeptIff(s: string, q: nat)
    requires q < |s|
    ensures Scrubbed(s)[q] == '\n' <==> s[q] == '\n' && !NewlineLiteral(s, q)
  {
    var p := Covering(s, 0, q);
    ScrubbedInside(s, 0, p, q);
    PositionKept(s, q);
    if TokenAt(s, p).kind.CharLiteral? && s[q] == '\n' {
      LiteralNewline(s, p, q);
    }
    if NewlineLiteral(s, q) {
      NewlineLiteralToken(s, q);
      ScrubbedInside(s, 0, q - 1, q);
    }
    hide TokenAt, Scrubbed, Reaches;
  }

  /** The documented promise, that every newline is kept, holds exactly of files with no such literal. */
  lemma AllNewlinesKeptIff(s: string)
    ensures (forall q :: 0 <= q < |s| ==> (Scrubbed(s)[q] == '\n' <==> s[q] == '\n'))
       <==> (forall q :: 0 <= q < |s| ==> !NewlineLiteral(s, q))
  {
    hide Scrubbed, Reaches;
    forall q | 0 <= q < |s| ensures Scrubbed(s)[q] == '\n' <==> s[q] == '\n' && !NewlineLiteral(s, q) {
      NewlineKeptIff(s, q);
    }
    if q :| 0 <= q < |s| && NewlineLiteral(s, q) {
      assert s[q] == '\n' && Scrubbed(s)[q] != '\n';
    }
  }

  /** The promise fails on a quoted raw newline: three characters, one line instead of two. */
  lemma NewlineLost()
    ensures Scrubbed(['\'', '\n', '\''])[1] == ' '
  {
    var s := ['\'', '\n', '\''];
    assert Reaches(s, 0, 0);
    assert TokenAt(s, 0) == Token(CharLiteral, 3);
    ScrubbedInside(s, 0, 0, 1);
  }

  // ----- The scan, in place -----

  /** Positions `from` up to `to` are blanked as `kind`; everything else is as it was. */
  twostate predicate BlankedSpan(out: array<char>, s: string, kind: Kind, from: nat, to: nat)
    requires out.Length == |s| && from <= to <= |s|
    reads out
  {
    && (forall k :: from <= k < to ==> out[k] == Blank(kind, s[k]))
    && (forall k :: 0 <= k < |s| && !(from <= k < to) ==> out[k] == old(out[k]))
  }

  method BlankLine(s: string, out: array<char>, start: nat) returns (i: nat)
    requires out.Length == |s| && start + 2 <= |s| && s[start] == '/' && s[start + 1] == '/'
    requires forall k :: start <= k < |s| ==> out[k] == s[k]
    modifies out
    ensures i == LineEnd(s, start + 2) && BlankedSpan(out, s, LineComment, start, i)
  {
    i := start;
    while i < |s| && s[i] != '\n'
      invariant start <= i <= |s| && LineEnd(s, i) == LineEnd(s, start)
      invariant forall k :: start <= k < i ==> out[k] == Blank(LineComment, s[k])
      invariant forall k :: 0 <= k < |s| && !(start <= k < i) ==> out[k] == old(out[k])
    {
      out[i] := ' ';
      i := i + 1;
    }
  }

  method BlankBlock(s: string, out: array<char>, start: nat) returns (i: nat)
    requires out.Length == |s| && start + 2 <= |s| && s[start] == '/' && s[start + 1] == '*'
    requires forall k :: start <= k < |s| ==> out[k] == s[k]
    modifies out
    ensures i == BlockEnd(s, start + 2, 1) && BlankedSpan(out, s, BlockComment, start, i)
  {
    var depth := 1;
    out[start], out[start + 1] := ' ', ' ';
    i := start + 2;
    while i < |s| && depth > 0
      invariant start + 2 <= i <= |s| && depth >= 0 && BlockEnd(s, i, depth) == BlockEnd(s, start + 2, 1)
      invariant forall k :: start <= k < i ==> out[k] == Blank(BlockComment, s[k])
      invariant forall k :: 0 <= k < |s| && !(start <= k < i) ==> out[k] == old(out[k])
    {
      if s[i] == '/' && i + 1 < |s| && s[i + 1] == '*' {
        depth := depth + 1;
        out[i], out[i + 1] := ' ', ' ';
        i := i + 2;
      } else if s[i] == '*' && i + 1 < |s| && s[i + 1] == '/' {
        depth := depth - 1;
        out[i], out[i + 1] := ' ', ' ';
        i := i + 2;
      } else {
        if s[i] != '\n' {
          out[i] := ' ';
        }
        i := i + 1;
      }
    }
  }

  /** The blanking loop of raw strings and of character literals. */
  method BlankTo(s: string, out: array<char>, start: nat, end: nat, kind: Kind)
    requires out.Length == |s| && start <= end <= |s| && (kind.RawString? || kind.CharLiteral?)
    requires forall k :: start <= k < |s| ==> out[k] == s[k]
    modifies out
    ensures BlankedSpan(out, s, kind, start, end)
  {
    var j := start;
    while j < end
      invariant start <= j <= end
      invariant forall k :: start <= k < j ==> out[k] == Blank(kind, s[k])
      invariant forall k :: 0 <= k < |s| && !(start <= k < j) ==> out[k] == old(out[k])
    {
      if kind.CharLiteral? || s[j] != '\n' {
        out[j] := ' ';
      }
      j := j + 1;
    }
  }

  method BlankText(s: string, out: array<char>, start: nat) returns (j: nat)
    requires out.Length == |s| && start < |s| && s[start] == '"'
    requires forall k :: start <= k < |s| ==> out[k] == s[k]
    modifies out
    ensures j == TextEnd(s, start + 1) && BlankedSpan(out, s, Text, start, j)
  {
    j := start + 1;
    out[start] := ' ';
    while j < |s| && s[j] != '"'
      invariant start + 1 <= j <= |s| && TextEnd(s, j) == TextEnd(s, start + 1)
      invariant forall k :: start <= k < j ==> out[k] == Blank(Text, s[k])
      invariant forall k :: 0 <= k < |s| && !(start <= k < j) ==> out[k] == old(out[k])
    {
      if s[j] == '\\' && j + 1 < |s| {
        out[j] := ' ';
        j := j + 1;
      }
      if s[j] != '\n' {
        out[j] := ' ';
      }
      j := j + 1;
    }
    if j < |s| {
      out[j] := ' ';
      j := j + 1;
    }
  }

  /** One token of the scan. */
  method ScrubToken(s: string, out: array<char>, i: nat) returns (next: nat)
    requires out.Length == |s| && i < |s|
    requires forall k :: i <= k < |s| ==> out[k] == s[k]
    modifies out
    ensures next == TokenAt(s, i).end && BlankedSpan(out, s, TokenAt(s, i).kind, i, next)
  {
    if s[i] == '/' && i + 1 < |s| && s[i + 1] == '/' {
      next := BlankLine(s, out, i);
    } else if s[i] == '/' && i + 1 < |s| && s[i + 1] == '*' {
      next := BlankBlock(s, out, i);
    } else if s[i] == 'r' && At(s, i + 1 + Hashes(s, i + 1), '"') {
      var h := Hashes(s, i + 1);
      next := RawEnd(s, i + 2 + h, h);
      BlankTo(s, out, i, next, RawString);
    } else if s[i] == '"' {
      next := BlankText(s, out, i);
    } else if CharLength(s, i) > 0 {
      next := i + CharLength(s, i);
      BlankTo(s, out, i, next, CharLiteral);
    } else {
      next := i + 1;
    }
  }

  method ScrubSource(s: string) returns (text: string)
    ensures text == Scrubbed(s)
  {
    var out := new char[|s|](k requires 0 <= k < |s| => s[k]);
    var i := 0;
    while i < |s|
      invariant 0 <= i <= |s| && Reaches(s, 0, i)
      invariant forall k :: 0 <= k < i ==> out[k] == Scrubbed(s)[k]
      invariant forall k :: i <= k < |s| ==> out[k] == s[k]
    {
      hide TokenAt, Scrubbed;
      ghost var t := TokenAt(s, i);
      forall k | i <= k < t.end ensures Scrubbed(s)[k] == Blank(t.kind, s[k]) {
        ScrubbedIs(s, i, k);
      }
      ReachesNext(s, 0, i);
      i := ScrubToken(s, out, i);
    }
    text := out[..];
  }

  lemma ScrubbedIs(s: string, p: nat, q: nat)
    requires p <= q < |s| && Reaches(s, 0, p) && q < TokenAt(s, p).end
    ensures Scrubbed(s)[q] == Blank(TokenAt(s, p).kind, s[q])
  {
    ScrubbedInside(s, 0, p, q);
  }
}
