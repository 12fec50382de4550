/**
 Stripping generic argument lists from a symbol: innermost pairs of angle brackets are removed,
 all at once, until nothing changes. The reference is one left-to-right pass with a stack, which
 drops everything between a closing bracket and the opening one it matches.
 */
module Generics {

  predicate Bracket(c: char) {
    c == '<' || c == '>'
  }

  // ----- The loop -----

  /** How many characters come before the first bracket. */
  function Plain(s: string): (k: nat)
    ensures k <= |s| && (forall i :: 0 <= i < k ==> !Bracket(s[i])) && (k < |s| ==> Bracket(s[k]))
  {
    if s == "" || Bracket(s[0]) then 0 else 1 + Plain(s[1..])
  }

  /** Length of a bracket pair with no bracket inside it at the front of `s`, or zero. */
  function PairLength(s: string): (n: nat)
    ensures n == 0 || (2 <= n <= |s| && s[0] == '<' && s[n - 1] == '>' && forall i :: 1 <= i < n - 1 ==> !Bracket(s[i]))
  {
    if s == "" || s[0] != '<' then 0
    else
      var k := Plain(s[1..]);
      if 1 + k < |s| && s[1 + k] == '>' then k + 2 else 0
  }

  /** One substitution: every innermost pair goes, left to right, without overlap. */
  function Pass(s: string): (out: string)
    ensures |out| <= |s| && (|out| == |s| ==> out == s)
  {
    if s == "" then ""
    else if PairLength(s) > 0 then Pass(s[PairLength(s)..])
    else [s[0]] + Pass(s[1..])
  }

  /** Substitute until nothing changes. */
  function Strip(s: string): string
    decreases |s|
  {
    var t := Pass(s);
    if t == s then s else Strip(t)
  }

  // ----- The reference: one pass with a stack -----

  /** What is left of `acc` once its last opening bracket and all after it are gone. */
  function PopOpen(acc: string): string
    requires '<' in acc
  {
    var k := |acc| - 1;
    if acc[k] == '<' then acc[..k] else PopOpen(acc[..k])
  }

  /** A closing bracket takes its opening one with it, if there is one. */
  function PushChar(acc: string, c: char): string {
    if c == '>' && '<' in acc then PopOpen(acc) else acc + [c]
  }

  function Matched(acc: string, s: string): string
    decreases |s|
  {
    if s == "" then acc else Matched(PushChar(acc, s[0]), s[1..])
  }

  // ----- A pass does not change what the stack leaves -----

  lemma {:induction false} PopOpenIs(acc: string, w: string)
    requires forall i :: 0 <= i < |w| ==> w[i] != '<'
    ensures '<' in acc + ['<'] + w && PopOpen(acc + ['<'] + w) == acc
    decreases |w|
  {
    var all := acc + ['<'] + w;
    assert all[|acc|] == '<';
    if w != "" {
      var k := |w| - 1;
      assert all[..|all| - 1] == acc + ['<'] + w[..k] && all[|all| - 1] == w[k];
      PopOpenIs(acc, w[..k]);
    } else {
      assert all[..|all| - 1] == acc;
    }
  }

  lemma {:induction false} MatchedPlain(acc: string, w: string, t: string)
    requires forall i :: 0 <= i < |w| ==> !Bracket(w[i])
    ensures Matched(acc, w + t) == Matched(acc + w, t)
    decreases |w|
  {
    if w == "" {
      assert w + t == t && acc + w == acc;
    } else {
      assert (w + t)[0] == w[0] && (w + t)[1..] == w[1..] + t;
      MatchedPlain(acc + [w[0]], w[1..], t);
      assert acc + [w[0]] + w[1..] == acc + w;
    }
  }

  /** A pair with nothing inside but plain characters vanishes. */
  lemma MatchedPair(acc: string, s: string)
    requires PairLength(s) > 0
    ensures Matched(acc, s) == Matched(acc, s[PairLength(s)..])
  {
    var n := PairLength(s);
    var w, t := s[1..n - 1], s[n - 1..];
    hide PairLength;
    assert s[1..] == w + t && t[0] == '>' && t[1..] == s[n..];
    MatchedPlain(acc + ['<'], w, t);
    PopOpenIs(acc, w);
  }

  lemma {:induction false} PassKeepsMatched(acc: string, s: string)
    ensures Matched(acc, Pass(s)) == Matched(acc, s)
    decreases |s|
  {
    if s == "" {
    } else {
      hide PairLength, PushChar;
      if PairLength(s) > 0 {
        MatchedPair(acc, s);
        PassKeepsMatched(acc, s[PairLength(s)..]);
      } else {
        PassKeepsMatched(PushChar(acc, s[0]), s[1..]);
        assert ([s[0]] + Pass(s[1..]))[1..] == Pass(s[1..]);
      }
    }
  }

  // ----- A string a pass leaves alone has nothing to match -----

  /** No innermost pair starts anywhere. */
  ghost predicate Settled(s: string) {
    forall i :: 0 <= i < |s| ==> PairLength(s[i..]) == 0
  }

  lemma {:induction false} UnchangedIsSettled(s: string)
    requires Pass(s) == s
    ensures Settled(s)
    decreases |s|
  {
    hide PairLength;
    if s == "" {
    } else {
      assert PairLength(s) == 0;
      assert Pass(s[1..]) == s[1..];
      UnchangedIsSettled(s[1..]);
      forall i | 0 <= i < |s| ensures PairLength(s[i..]) == 0 {
        if i == 0 {
          assert s[0..] == s;
        } else {
          assert s[i..] == s[1..][i - 1..];
        }
      }
    }
  }

  /** After an opening bracket, a closing one somewhere means an innermost pair in between. */
  lemma {:induction false} PairBetween(s: string, p: nat, q: nat) returns (i: nat)
    requires p < q < |s| && s[p] == '<' && s[q] == '>'
    ensures p <= i < q && PairLength(s[i..]) > 0
    decreases q - p
  {
    var k := Plain(s[p + 1..]);
    var b := p + 1 + k;
    assert s[p..][0] == '<' && s[p..][1..] == s[p + 1..];
    assert forall j :: p + 1 <= j < b ==> s[j] == s[p + 1..][j - p - 1];
    assert b <= q;
    assert s[b] == s[p + 1..][k];
    if s[b] == '>' {
      assert s[p..][1 + k] == s[b];
      i := p;
    } else {
      i := PairBetween(s, b, q);
    }
  }

  lemma {:induction false} SettledIsMatched(s: string, n: nat)
    requires Settled(s) && n <= |s|
    ensures Matched("", s) == Matched(s[..n], s[n..])
    decreases n
  {
    if n == 0 {
      assert s[..0] == "" && s[0..] == s;
    } else {
      SettledIsMatched(s, n - 1);
      var acc, c := s[..n - 1], s[n - 1];
      assert s[n - 1..][0] == c && s[n - 1..][1..] == s[n..] && s[..n] == acc + [c];
      if c == '>' && '<' in acc {
        var p :| 0 <= p < |acc| && acc[p] == '<';
        var i := PairBetween(s, p, n - 1);
        assert false;
      }
    }
  }

  /**
   On every string, balanced or not, stripping innermost pairs until nothing changes leaves
   exactly what one pass with a stack leaves.
   */
  lemma {:induction false} StripIsMatched(s: string)
    ensures Strip(s) == Matched("", s)
    decreases |s|
  {
    var t := Pass(s);
    if t == s {
      UnchangedIsSettled(s);
      SettledIsMatched(s, |s|);
      assert s[..|s|] == s && s[|s|..] == "";
    } else {
      StripIsMatched(t);
      PassKeepsMatched("", s);
    }
  }

  // ----- On balanced strings: the characters at depth zero -----

  /** From nesting depth `d`, the brackets never go below zero and end there. */
  predicate Balanced(s: string, d: nat)
    decreases |s|
  {
    if s == "" then d == 0
    else if s[0] == '<' then Balanced(s[1..], d + 1)
    else if s[0] == '>' then d > 0 && Balanced(s[1..], d - 1)
    else Balanced(s[1..], d)
  }

  /** The characters outside every bracket, starting at depth `d`. */
  function DepthZero(s: string, d: nat): string
    requires Balanced(s, d)
    decreases |s|
  {
    if s == "" then ""
    else if s[0] == '<' then DepthZero(s[1..], d + 1)
    else if s[0] == '>' then DepthZero(s[1..], d - 1)
    else (if d == 0 then [s[0]] else "") + DepthZero(s[1..], d)
  }

  /** Opening brackets on the stack. */
  function Opens(acc: string): nat {
    if acc == "" then 0 else Opens(acc[..|acc| - 1]) + if acc[|acc| - 1] == '<' then 1 else 0
  }

  /** The stack up to its first opening bracket. */
  function Outside(acc: string): string {
    if acc == "" || acc[0] == '<' then "" else [acc[0]] + Outside(acc[1..])
  }

  lemma {:induction false} OpensIff(acc: string)
    ensures Opens(acc) > 0 <==> '<' in acc
    decreases |acc|
  {
    if acc == "" {
    } else {
      var k := |acc| - 1;
      OpensIff(acc[..k]);
      assert acc == acc[..k] + [acc[k]];
    }
  }

  lemma {:induction false} OutsideAll(acc: string)
    requires '<' !in acc
    ensures Outside(acc) == acc
  {
    if acc == "" {
    } else {
      assert acc[0] in acc && forall c :: c in acc[1..] ==> c in acc;
      OutsideAll(acc[1..]);
      assert acc == [acc[0]] + acc[1..];
    }
  }

  lemma {:induction false} OutsidePush(acc: string, c: char)
    ensures Outside(acc + [c]) == if '<' in acc || c == '<' then Outside(acc) else acc + [c]
    decreases |acc|
  {
    if acc == "" {
      assert (acc + [c])[1..] == "";
    } else if acc[0] != '<' {
      OutsidePush(acc[1..], c);
      assert (acc + [c])[1..] == acc[1..] + [c];
      assert acc == [acc[0]] + acc[1..];
      if '<' !in acc[1..] {
        assert '<' !in acc;
        OutsideAll(acc[1..]);
      }
    }
  }

  lemma {:induction false} PopOpenKeeps(acc: string)
    requires '<' in acc
    ensures Opens(PopOpen(acc)) == Opens(acc) - 1 && Outside(PopOpen(acc)) == Outside(acc)
    decreases |acc|
  {
    var k := |acc| - 1;
    assert acc == acc[..k] + [acc[k]];
    OutsidePush(acc[..k], acc[k]);
    OpensIff(acc[..k]);
    if acc[k] == '<' {
    } else {
      PopOpenKeeps(acc[..k]);
    }
  }

  /** One character keeps the outside, and the depth counts the open brackets. */
  lemma PushCharKeeps(acc: string, c: char)
    requires c == '>' ==> Opens(acc) > 0
    ensures Opens(PushChar(acc, c)) == Opens(acc) + (if c == '<' then 1 else if c == '>' then -1 else 0)
    ensures Outside(PushChar(acc, c)) == Outside(acc) + (if Bracket(c) || Opens(acc) > 0 then "" else [c])
  {
    OpensIff(acc);
    if c == '>' {
      PopOpenKeeps(acc);
    } else {
      OutsidePush(acc, c);
      assert (acc + [c])[..|acc|] == acc;
      if Opens(acc) == 0 {
        OutsideAll(acc);
      }
    }
  }

  /** The depth after one character. */
  function Deeper(c: char, d: nat): nat
    requires c == '>' ==> d > 0
  {
    if c == '<' then d + 1 else if c == '>' then d - 1 else d
  }

  lemma DepthZeroStep(s: string, d: nat)
    requires s != "" && Balanced(s, d)
    ensures (s[0] == '>' ==> d > 0) && Balanced(s[1..], Deeper(s[0], d))
    ensures DepthZero(s, d) == (if Bracket(s[0]) || d > 0 then "" else [s[0]]) + DepthZero(s[1..], Deeper(s[0], d))
  {
    assert forall t: string :: "" + t == t;
  }

  lemma {:induction false} MatchedIsDepthZero(acc: string, s: string, d: nat)
    requires Balanced(s, d) && Opens(acc) == d
    ensures Matched(acc, s) == Outside(acc) + DepthZero(s, d)
    decreases |s|
  {
    if s == "" {
      OpensIff(acc);
      OutsideAll(acc);
      assert acc + "" == acc;
    } else {
      DepthZeroStep(s, d);
      PushCharKeeps(acc, s[0]);
      assert Matched(acc, s) == Matched(PushChar(acc, s[0]), s[1..]);
      hide Opens, Outside, PushChar, Balanced, DepthZero, Matched;
      MatchedIsDepthZero(PushChar(acc, s[0]), s[1..], Deeper(s[0], d));
      Regroup(Outside(acc), if Bracket(s[0]) || d > 0 then "" else [s[0]], DepthZero(s[1..], Deeper(s[0], d)));
    }
  }

  lemma Regroup(a: string, b: string, c: string)
    ensures (a + b) + c == a + (b + c)
  {}

  /** On every well-bracketed symbol, exactly the characters outside all brackets are kept. */
  lemma StripKeepsDepthZero(s: string)
    requires Balanced(s, 0)
    ensures Strip(s) == DepthZero(s, 0)
  {
    StripIsMatched(s);
    MatchedIsDepthZero("", s, 0);
  }

  /** So nothing is left to strip, and no bracket either. */
  lemma {:induction false} DepthZeroPlain(s: string, d: nat)
    requires Balanced(s, d)
    ensures forall c :: c in DepthZero(s, d) ==> !Bracket(c)
    decreases |s|
  {
    if s == "" {
    } else {
      DepthZeroPlain(s[1..], if s[0] == '<' then d + 1 else if s[0] == '>' then d - 1 else d);
    }
  }

  /** The loop leaves what the stack leaves, and on a balanced symbol the characters outside all brackets. */
  method StripGenerics(symbol: string) returns (out: string)
    ensures out == Matched("", symbol)
    ensures Balanced(symbol, 0) ==> out == DepthZero(symbol, 0)
  {
    out := symbol;
    while true
      invariant Strip(out) == Strip(symbol)
      decreases |out|
    {
      var stripped := Pass(out);
      if stripped == out {
        StripIsMatched(symbol);
        if Balanced(symbol, 0) {
          StripKeepsDepthZero(symbol);
        }
        return;
      }
      out := stripped;
    }
  }
}
