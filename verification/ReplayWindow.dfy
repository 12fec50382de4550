/**
 The bitmap replay window of the data plane: a 1024-bit sliding window over packet numbers,
 held as sixteen 64-bit words and shifted in place.

 The fast form is the bitmap. The reference form is the history of packet numbers offered:
 a number is fresh when it has not been offered before and is less than 1024 behind the
 largest one offered. The two give the same verdict on every arrival of every history.
 */
module ReplayWindow {

  const WINDOW_BITS: nat := 1024
  const WINDOW_WORDS: nat := 16

  // ----- Words -----

  /** A 64-bit word, least significant bit first. */
  type Word = w: seq<bool> | |w| == 64 witness seq(64, i => false)

  function Zero(): Word {
    seq(64, _ => false)
  }

  function ShiftUp(w: Word, k: nat): Word {
    seq(64, i requires 0 <= i < 64 => i >= k && w[i - k])
  }

  function ShiftDown(w: Word, k: nat): Word {
    seq(64, i requires 0 <= i < 64 => i + k < 64 && w[i + k])
  }

  function Or(a: Word, b: Word): Word {
    seq(64, i requires 0 <= i < 64 => a[i] || b[i])
  }

  function SetBit(w: Word, bit: nat): Word
    requires bit < 64
  {
    w[bit := true]
  }

  // ----- Bitmaps -----

  type Bitmap = m: seq<Word> | |m| == 16 witness seq(16, _ => Zero())

  /** Bit `i` of the whole map, counting from the low bit of word zero. */
  predicate BitOf(m: Bitmap, i: nat)
    requires i < WINDOW_BITS
  {
    m[i / 64][i % 64]
  }

  function Empty(): Bitmap {
    seq(16, _ => Zero())
  }

  /** The word at `i`, or no bits at all below the map. */
  function WordAt(m: Bitmap, i: int): Word
    requires i < 16
  {
    if i >= 0 then m[i] else Zero()
  }

  function MoveWords(m: Bitmap, k: nat): Bitmap {
    if k >= 16 then Empty() else Empty()[..k] + m[..16 - k]
  }

  function MoveBits(m: Bitmap, k: nat): Bitmap
    requires k < 64
  {
    seq(16, i requires 0 <= i < 16 =>
      if i == 0 then ShiftUp(m[0], k) else Or(ShiftUp(m[i], k), ShiftDown(m[i - 1], 64 - k)))
  }

  function ShiftLeft(m: Bitmap, shift: nat): Bitmap {
    MoveBits(MoveWords(m, shift / 64), shift % 64)
  }

  lemma MoveBitsZero(m: Bitmap)
    ensures MoveBits(m, 0) == m
  {
    forall i | 0 <= i < 16 ensures MoveBits(m, 0)[i] == m[i] {
      assert ShiftUp(m[i], 0) == m[i];
      if i != 0 {
        assert Or(ShiftUp(m[i], 0), ShiftDown(m[i - 1], 64)) == m[i];
      }
    }
  }

  lemma MoveBitsBit(m: Bitmap, k: nat, word: nat, bit: nat)
    requires k < 64 && word < 16 && bit < 64
    ensures MoveBits(m, k)[word][bit]
         == if bit >= k then m[word][bit - k] else word > 0 && m[word - 1][bit + 64 - k]
  {
    MovedWord(m, k, word);
    hide MoveBits, ShiftUp, ShiftDown, Or;
    UpBit(m[word], k, bit);
    if word > 0 {
      DownBit(m[word - 1], 64 - k, bit);
      OrBit(ShiftUp(m[word], k), ShiftDown(m[word - 1], 64 - k), bit);
    }
  }

  lemma UpBit(w: Word, k: nat, i: nat)
    requires i < 64
    ensures ShiftUp(w, k)[i] == (i >= k && w[i - k])
  {}

  lemma DownBit(w: Word, k: nat, i: nat)
    requires i < 64
    ensures ShiftDown(w, k)[i] == (i + k < 64 && w[i + k])
  {}

  lemma OrBit(a: Word, b: Word, i: nat)
    requires i < 64
    ensures Or(a, b)[i] == (a[i] || b[i])
  {}

  lemma MovedWord(m: Bitmap, k: nat, i: nat)
    requires k < 64 && i < 16
    ensures MoveBits(m, k)[i] == if i == 0 then ShiftUp(m[0], k) else Or(ShiftUp(m[i], k), ShiftDown(m[i - 1], 64 - k))
  {
    hide ShiftUp, ShiftDown, Or;
  }

  lemma MovedWhole(m: Bitmap, k: nat, i: nat)
    requires k < 16 && i < 16
    ensures MoveWords(m, k)[i] == if i < k then Zero() else m[i - k]
  {
    hide Zero;
  }

  /** Where bit `i` of a shifted map comes from, as word and bit. */
  lemma SplitShift(i: nat, shift: nat)
    requires shift <= i
    ensures var ws, bs, word, bit := shift / 64, shift % 64, i / 64, i % 64;
      if bit >= bs then (i - shift) / 64 == word - ws && (i - shift) % 64 == bit - bs
      else (i - shift) / 64 == word - ws - 1 && (i - shift) % 64 == bit + 64 - bs
  {}

  /** The two-stage shift is a shift of the whole map: bit `i` moves to bit `i + shift`. */
  lemma ShiftLeftBit(m: Bitmap, shift: nat, i: nat)
    requires i < WINDOW_BITS
    ensures BitOf(ShiftLeft(m, shift), i) == (i >= shift && BitOf(m, i - shift))
  {
    var ws, bs := shift / 64, shift % 64;
    var word, bit := i / 64, i % 64;
    var moved := MoveWords(m, ws);
    MoveBitsBit(moved, bs, word, bit);
    assert moved[word] == WordAt(m, word - ws) && (word > 0 ==> moved[word - 1] == WordAt(m, word - 1 - ws));
    hide MoveBits, MoveWords;
    if i >= shift {
      SplitShift(i, shift);
    } else {
      assert word < ws || (word == ws && bit < bs);
    }
  }

  // ----- The specification on values -----

  /** What one direction of a session remembers. */
  datatype Window = Window(bitmap: Bitmap, high: nat, initialized: bool)

  function FreshWindow(): Window {
    Window(Empty(), 0, false)
  }

  /** The map once the watermark has moved up by `shift`, before the new number is marked. */
  function Slide(m: Bitmap, shift: nat): Bitmap {
    if shift >= WINDOW_BITS then Empty() else ShiftLeft(m, shift)
  }

  function Mark(m: Bitmap, offset: nat): Bitmap
    requires offset < WINDOW_BITS
  {
    m[offset / 64 := SetBit(m[offset / 64], offset % 64)]
  }

  /** `accept`, on values: the verdict and the window after it. */
  function Accept(w: Window, n: nat): (bool, Window) {
    if !w.initialized then (true, Window(w.bitmap[0 := SetBit(Zero(), 0)], n, true))
    else if n > w.high then (true, Window(Mark(Slide(w.bitmap, n - w.high), 0), n, true))
    else if w.high - n >= WINDOW_BITS || BitOf(w.bitmap, w.high - n) then (false, w)
    else (true, Window(Mark(w.bitmap, w.high - n), w.high, true))
  }

  /** The bitmap holds exactly the recent part of the set of accepted numbers. */
  ghost predicate Remembers(w: Window, accepted: set<nat>) {
    && (w.initialized <==> accepted != {})
    && (!w.initialized ==> w.bitmap == Empty())
    && (w.initialized ==>
          && w.high in accepted
          && (forall n :: n in accepted ==> n <= w.high)
          && (forall i :: 0 <= i < WINDOW_BITS ==> (BitOf(w.bitmap, i) <==> i <= w.high && w.high - i in accepted)))
  }

  /** Not accepted before, and inside the window that trails the largest accepted number. */
  ghost predicate Novel(w: Window, accepted: set<nat>, n: nat) {
    n !in accepted && (!w.initialized || n + WINDOW_BITS > w.high)
  }

  lemma MarkBit(m: Bitmap, at: nat, i: nat)
    requires at < WINDOW_BITS && i < WINDOW_BITS
    ensures BitOf(Mark(m, at), i) <==> i == at || BitOf(m, i)
  {
    assert i != at ==> i / 64 != at / 64 || i % 64 != at % 64;
  }

  lemma FirstAccept(w: Window, n: nat)
    requires Remembers(w, {})
    ensures Remembers(Accept(w, n).1, {n})
  {
    assert Accept(w, n).1.bitmap == Mark(Empty(), 0);
    forall i | 0 <= i < WINDOW_BITS ensures BitOf(Mark(Empty(), 0), i) <==> i == 0 {
      MarkBit(Empty(), 0, i);
      assert !BitOf(Empty(), i);
    }
  }

  lemma SlideBit(m: Bitmap, shift: nat, i: nat)
    requires i < WINDOW_BITS
    ensures BitOf(Slide(m, shift), i) <==> i >= shift && BitOf(m, i - shift)
  {
    if shift < WINDOW_BITS {
      ShiftLeftBit(m, shift, i);
    }
  }

  lemma AdvanceBit(w: Window, accepted: set<nat>, n: nat, i: nat)
    requires Remembers(w, accepted) && w.initialized && n > w.high && i < WINDOW_BITS
    ensures BitOf(Mark(Slide(w.bitmap, n - w.high), 0), i) <==> i <= n && n - i in accepted + {n}
  {
    hide Slide, BitOf, Mark;
    var shift := n - w.high;
    MarkBit(Slide(w.bitmap, shift), 0, i);
    SlideBit(w.bitmap, shift, i);
    if shift <= i {
      assert BitOf(w.bitmap, i - shift) <==> i - shift <= w.high && w.high - (i - shift) in accepted;
    }
  }

  lemma AdvanceAccept(w: Window, accepted: set<nat>, n: nat)
    requires Remembers(w, accepted) && w.initialized && n > w.high
    ensures Accept(w, n).0 && Remembers(Accept(w, n).1, accepted + {n}) && n !in accepted
  {
    hide Slide, BitOf, Mark;
    var t := Accept(w, n).1;
    forall i | 0 <= i < WINDOW_BITS
      ensures BitOf(t.bitmap, i) <==> i <= n && n - i in accepted + {n}
    {
      AdvanceBit(w, accepted, n, i);
    }
  }

  lemma WithinAccept(w: Window, accepted: set<nat>, n: nat)
    requires Remembers(w, accepted) && w.initialized && w.high < n + WINDOW_BITS && n <= w.high
    ensures Accept(w, n).0 <==> n !in accepted
    ensures Remembers(Accept(w, n).1, accepted + {n})
  {
    var offset := w.high - n;
    assert BitOf(w.bitmap, offset) <==> n in accepted;
    if n in accepted {
      assert accepted + {n} == accepted;
    } else {
      var t := Accept(w, n).1;
      forall i | 0 <= i < WINDOW_BITS
        ensures BitOf(t.bitmap, i) <==> i <= w.high && w.high - i in accepted + {n}
      {
        MarkBit(w.bitmap, offset, i);
      }
    }
  }

  /**
   `accept` says yes to exactly the novel numbers, records each one it says yes to, and
   changes nothing otherwise.
   */
  lemma AcceptIsNovel(w: Window, accepted: set<nat>, n: nat)
    requires Remembers(w, accepted)
    ensures Accept(w, n).0 <==> Novel(w, accepted, n)
    ensures Remembers(Accept(w, n).1, if Accept(w, n).0 then accepted + {n} else accepted)
    ensures !Accept(w, n).0 ==> Accept(w, n).1 == w
  {
    if !w.initialized {
      FirstAccept(w, n);
      assert accepted == {} && accepted + {n} == {n};
    } else if n > w.high {
      AdvanceAccept(w, accepted, n);
    } else if w.high < n + WINDOW_BITS {
      WithinAccept(w, accepted, n);
    }
  }

  // ----- Whole histories -----

  /** The window after a history of arrivals, and the numbers it accepted. */
  function After(arrivals: seq<nat>): Window {
    if arrivals == [] then FreshWindow()
    else Accept(After(arrivals[..|arrivals| - 1]), arrivals[|arrivals| - 1]).1
  }

  /** The verdict on arrival `k` of a history. */
  predicate Verdict(arrivals: seq<nat>, k: nat)
    requires k < |arrivals|
  {
    Accept(After(arrivals[..k]), arrivals[k]).0
  }

  ghost function Accepted(arrivals: seq<nat>): set<nat> {
    set k | 0 <= k < |arrivals| && Verdict(arrivals, k) :: arrivals[k]
  }

  /** No arrival before the history's end exceeds it by a window or more. */
  ghost predicate TooOld(arrivals: seq<nat>, n: nat) {
    exists k :: 0 <= k < |arrivals| && arrivals[k] >= n + WINDOW_BITS
  }

  /** The reference verdict, from the history alone. */
  ghost predicate FirstSeenInWindow(arrivals: seq<nat>, k: nat)
    requires k < |arrivals|
  {
    arrivals[k] !in arrivals[..k] && !TooOld(arrivals[..k], arrivals[k])
  }

  lemma VerdictPrefix(arrivals: seq<nat>, k: nat, i: nat)
    requires i < k <= |arrivals|
    ensures Verdict(arrivals[..k], i) == Verdict(arrivals, i)
  {
    assert arrivals[..k][..i] == arrivals[..i];
  }

  lemma AcceptedExtends(arrivals: seq<nat>)
    requires arrivals != []
    ensures var k := |arrivals| - 1;
      Accepted(arrivals) == Accepted(arrivals[..k]) + (if Verdict(arrivals, k) then {arrivals[k]} else {})
  {
    hide Verdict;
    var k := |arrivals| - 1;
    var before := arrivals[..k];
    forall i | 0 <= i < k ensures Verdict(before, i) == Verdict(arrivals, i) {
      VerdictPrefix(arrivals, k, i);
    }
    forall n | n in Accepted(before) ensures n in Accepted(arrivals) {
      var i :| 0 <= i < k && Verdict(before, i) && n == before[i];
      assert Verdict(arrivals, i) && arrivals[i] == n;
    }
    forall n | n in Accepted(arrivals)
      ensures n in Accepted(before) || (Verdict(arrivals, k) && n == arrivals[k])
    {
      var i :| 0 <= i < |arrivals| && Verdict(arrivals, i) && n == arrivals[i];
      assert i < k ==> Verdict(before, i) && before[i] == n;
    }
  }

  /** Everything a history leaves behind that the next verdict depends on. */
  ghost predicate Kept(w: Window, accepted: set<nat>, arrivals: seq<nat>) {
    && Remembers(w, accepted)
    && (w.initialized <==> arrivals != [])
    && (w.initialized ==> w.high in arrivals)
    && (forall n :: n in arrivals ==> n <= w.high)
    && (forall n :: n in accepted ==> n in arrivals)
    && (forall n :: n in arrivals ==> n in accepted || n + WINDOW_BITS <= w.high)
  }

  lemma KeptExtends(w: Window, accepted: set<nat>, before: seq<nat>, n: nat)
    requires Kept(w, accepted, before)
    ensures Kept(Accept(w, n).1, accepted + (if Accept(w, n).0 then {n} else {}), before + [n])
  {
    AcceptIsNovel(w, accepted, n);
    WatermarkGrows(w, n);
    hide Accept, Remembers;
    assert accepted + {} == accepted;
  }

  /**
   After any history: the bitmap remembers exactly what was accepted, the watermark is the
   largest number offered, and a number offered but not accepted is out of the window for good.
   */
  lemma {:induction false} HistoryKept(arrivals: seq<nat>)
    ensures Kept(After(arrivals), Accepted(arrivals), arrivals)
    decreases |arrivals|
  {
    hide Accept, Kept;
    if arrivals == [] {
      KeptEmpty();
    } else {
      var k := |arrivals| - 1;
      HistoryKept(arrivals[..k]);
      AcceptedExtends(arrivals);
      KeptExtends(After(arrivals[..k]), Accepted(arrivals[..k]), arrivals[..k], arrivals[k]);
      assert arrivals == arrivals[..k] + [arrivals[k]];
    }
  }

  lemma KeptEmpty()
    ensures Kept(After([]), Accepted([]), [])
  {}

  lemma WatermarkGrows(w: Window, n: nat)
    ensures var t := Accept(w, n).1;
      && t.initialized
      && (w.initialized ==> t.high == if n > w.high then n else w.high)
      && (!w.initialized ==> t.high == n)
  {}

  /**
   On every history, the bitmap gives the reference verdict: an arrival is accepted exactly
   when its number was never offered before and none at least 1024 above it has been.
   */
  lemma VerdictIsReference(arrivals: seq<nat>, k: nat)
    requires k < |arrivals|
    ensures Verdict(arrivals, k) <==> FirstSeenInWindow(arrivals, k)
  {
    var before, n := arrivals[..k], arrivals[k];
    var w := After(before);
    HistoryKept(before);
    AcceptIsNovel(w, Accepted(before), n);
    hide Accept, Remembers, After, Accepted;
    assert TooOld(before, n) <==> w.initialized && w.high >= n + WINDOW_BITS by {
      if w.initialized && w.high >= n + WINDOW_BITS {
        var j :| 0 <= j < |before| && before[j] == w.high;
      }
      if TooOld(before, n) {
        var j :| 0 <= j < |before| && before[j] >= n + WINDOW_BITS;
        assert before[j] in before;
      }
    }
  }

  /** No replay gets through: of two arrivals of one number, at most one is accepted. */
  lemma NoReplayAccepted(arrivals: seq<nat>, i: nat, j: nat)
    requires i < j < |arrivals| && arrivals[i] == arrivals[j]
    ensures !(Verdict(arrivals, i) && Verdict(arrivals, j))
  {
    VerdictIsReference(arrivals, j);
    assert arrivals[..j][i] == arrivals[j];
  }

  // ----- The mutable object -----

  class Tracker {
    const bitmap: array<Word>
    var high: nat
    var initialized: bool

    ghost predicate Valid() {
      bitmap.Length == WINDOW_WORDS
    }

    ghost function Current(): Window
      requires Valid()
      reads this, bitmap
    {
      Window(bitmap[..], high, initialized)
    }

    constructor ()
      ensures Valid() && fresh(bitmap) && Current() == FreshWindow()
    {
      bitmap := new Word[16](i => Zero());
      high, initialized := 0, false;
      new;
      assert bitmap[..] == Empty();
    }

    /** Offer a packet number; `ok` says whether it is let through. */
    method Offer(n: nat) returns (ok: bool)
      requires Valid()
      modifies this, bitmap
      ensures (ok, Current()) == Accept(old(Current()), n)
    {
      hide Zero, Empty, SetBit, ShiftLeft;
      if !initialized {
        high := n;
        bitmap[0] := SetBit(Zero(), 0);
        initialized := true;
        return true;
      }
      if n > high {
        var shift := n - high;
        if shift >= WINDOW_BITS {
          ClearAll();
        } else {
          ShiftInPlace(shift);
        }
        bitmap[0] := SetBit(bitmap[0], 0);
        high := n;
        return true;
      }
      var offset := high - n;
      if offset >= WINDOW_BITS {
        return false;
      }
      var word, bit := offset / 64, offset % 64;
      if bitmap[word][bit] {
        return false;
      }
      bitmap[word] := SetBit(bitmap[word], bit);
      return true;
    }

    method ClearAll()
      requires Valid()
      modifies bitmap
      ensures bitmap[..] == Empty()
    {
      var i := 0;
      while i < 16
        invariant 0 <= i <= 16
        invariant forall j :: 0 <= j < i ==> bitmap[j] == Zero()
      {
        bitmap[i] := Zero();
        i := i + 1;
      }
    }

    method ShiftInPlace(shift: nat)
      requires Valid() && shift < WINDOW_BITS
      modifies bitmap
      ensures bitmap[..] == ShiftLeft(old(bitmap[..]), shift)
    {
      hide MoveBits;
      var wordShift, bitShift := shift / 64, shift % 64;
      if wordShift > 0 {
        ShiftWords(wordShift);
      } else {
        assert MoveWords(bitmap[..], 0) == bitmap[..];
      }
      if bitShift > 0 {
        ShiftBits(bitShift);
      } else {
        MoveBitsZero(bitmap[..]);
      }
    }

    method ShiftWords(k: nat)
      requires Valid() && 0 < k < 16
      modifies bitmap
      ensures bitmap[..] == MoveWords(old(bitmap[..]), k)
    {
      hide Zero, MoveWords;
      ghost var was := bitmap[..];
      var i := 16;
      while i > k
        invariant k <= i <= 16
        invariant forall j :: 0 <= j < i ==> bitmap[j] == old(bitmap[j])
        invariant forall j :: i <= j < 16 ==> bitmap[j] == old(bitmap[j - k])
      {
        i := i - 1;
        bitmap[i] := bitmap[i - k];
      }
      i := 0;
      while i < k
        invariant 0 <= i <= k
        invariant forall j :: 0 <= j < i ==> bitmap[j] == Zero()
        invariant forall j :: k <= j < 16 ==> bitmap[j] == old(bitmap[j - k])
      {
        bitmap[i] := Zero();
        i := i + 1;
      }
      forall j: nat | j < 16 ensures bitmap[j] == MoveWords(was, k)[j] {
        MovedWhole(was, k, j);
      }
    }

    method ShiftBits(k: nat)
      requires Valid() && 0 < k < 64
      modifies bitmap
      ensures bitmap[..] == MoveBits(old(bitmap[..]), k)
    {
      hide MoveBits, ShiftUp, ShiftDown, Or;
      ghost var was := bitmap[..];
      var i := 16;
      while i > 1
        invariant 1 <= i <= 16
        invariant forall j :: 0 <= j < i ==> bitmap[j] == was[j]
        invariant forall j :: i <= j < 16 ==> bitmap[j] == MoveBits(was, k)[j]
      {
        i := i - 1;
        MovedWord(was, k, i);
        bitmap[i] := Or(ShiftUp(bitmap[i], k), ShiftDown(bitmap[i - 1], 64 - k));
      }
      MovedWord(was, k, 0);
      bitmap[0] := ShiftUp(bitmap[0], k);
    }
  }
}
