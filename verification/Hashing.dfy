/**
  The two Murmur-style hash functions of the agent.

  Both are built from steps that lose nothing: a product with an odd number modulo 2^64, and the xor
  of a word with a right shift of itself.
 */
module Hashing {
  import opened Words

  datatype Frame = Frame(bci: int, methodId: Word)

  const M: Word := 0xc6a4a7935bd1e995

  /** The inverse of `M` modulo 2^64. */
  const M_INVERSE: Word := 0x5f7a0ea7e59b19bd

  /** `x ^ (x >> n)` */
  function Fold(x: Word, n: nat): Word
  {
    ShrDivides(x, n);
    XorIsWord(x, Shr(x, n));
    Xor(x, Shr(x, n))
  }

  /** The key of a frame: `(uint64_t) bci << 32`, which drops the upper half, xor the method id. */
  function Key(f: Frame): Word
  {
    XorIsWord(f.bci * 0x1_0000_0000 % WORDS, f.methodId);
    Xor(f.bci * 0x1_0000_0000 % WORDS, f.methodId)
  }

  /** What one round of the loop of `hashCallTrace` makes of the frame key alone. */
  function Scramble(k: Word): Word
  {
    Mul(Fold(Mul(k, M), 47), M)
  }

  function Mix(h: Word, k: Word): Word
  {
    XorIsWord(h, Scramble(k));
    Mul(Xor(h, Scramble(k)), M)
  }

  function HashFrames(h: Word, frames: seq<Frame>): Word
    decreases |frames|
  {
    if frames == [] then h
    else Mix(HashFrames(h, frames[..|frames| - 1]), Key(frames[|frames| - 1]))
  }

  function Finish(h: Word): Word
  {
    Fold(Mul(Fold(h, 47), M), 47)
  }

  function HashTrace(frames: seq<Frame>): Word
  {
    Finish(HashFrames(Mul(|frames|, M), frames))
  }

  function HashMethod(m: Word): Word
  {
    Fold(Mul(Fold(m, 17), M), 17)
  }

  method HashCallTrace(frames: array<Frame>, numFrames: nat) returns (h: Word)
    requires numFrames <= frames.Length
    ensures h == HashTrace(frames[..numFrames])
  {
    h := Mul(numFrames, M);
    for i := 0 to numFrames
      invariant h == HashFrames(Mul(numFrames, M), frames[..i])
    {
      var k := Key(frames[i]);
      k := Mul(k, M);
      k := Fold(k, 47);
      k := Mul(k, M);
      XorIsWord(h, k);
      h := Xor(h, k);
      h := Mul(h, M);
      assert frames[..i + 1][..i] == frames[..i];
    }
    h := Fold(h, 47);
    h := Mul(h, M);
    h := Fold(h, 47);
  }

  // ---------------------------------------------------------------------------
  // The steps and their inverses

  lemma MulUndone(x: Word, a: Word, b: Word)
    requires a * b % WORDS == 1
    ensures Mul(Mul(x, a), b) == x
  {
    var q, t := x * a / WORDS, a * b / WORDS;
    calc {
      Mul(x, a) * b;
      (x * a - q * WORDS) * b;
      x * (a * b) - q * b * WORDS;
      x * (t * WORDS + 1) - q * b * WORDS;
      x + (x * t - q * b) * WORDS;
    }
    ModAdd(x, x * t - q * b);
  }

  lemma ModAdd(x: Word, k: int)
    ensures (x + k * WORDS) % WORDS == x
  {
  }

  lemma TimesM(x: Word)
    ensures Mul(Mul(x, M), M_INVERSE) == x
    ensures Mul(Mul(x, M_INVERSE), M) == x
  {
    assert M * M_INVERSE % WORDS == 1;
    MulUndone(x, M, M_INVERSE);
    MulUndone(x, M_INVERSE, M);
  }

  lemma Fold47Undone(x: Word)
    ensures Fold(Fold(x, 47), 47) == x
  {
    hide Xor, Shr;
    var y := Shr(x, 47);
    ShrXor(x, y, 47);
    ShrShr(x, 47, 47);
    ShrOut(x, 94);
    XorZero(y);
    XorCancels(x, y);
  }

  /** Folding by 17 and then by 34 leaves `x ^ (x >> 68)`, in either order. */
  lemma Fold17Undone(x: Word)
    ensures Fold(Fold(Fold(x, 17), 17), 34) == x
    ensures Fold(Fold(Fold(x, 17), 34), 17) == x
  {
    hide Xor, Shr;
    FoldTwice(x, 17);
    Fold34Undone(x);
    FoldsCommute(Fold(x, 17), 17, 34);
  }

  lemma FoldTwice(x: Word, n: nat)
    ensures Fold(Fold(x, n), n) == Xor(x, Shr(x, n + n))
  {
    hide Xor, Shr;
    var y := Shr(x, n);
    ShrXor(x, y, n);
    ShrShr(x, n, n);
    XorAssociates(Xor(x, y), y, Shr(y, n));
    XorCancels(x, y);
  }

  lemma Fold34Undone(x: Word)
    ensures Fold(Fold(x, 34), 34) == x
  {
    hide Xor, Shr;
    FoldTwice(x, 34);
    ShrOut(x, 68);
    XorZero(x);
  }

  lemma FoldsCommute(x: Word, m: nat, n: nat)
    ensures Fold(Fold(x, m), n) == Fold(Fold(x, n), m)
  {
    hide Xor, Shr;
    var a, b, c := Shr(x, m), Shr(x, n), Shr(x, m + n);
    ShrXor(x, a, n);
    ShrXor(x, b, m);
    ShrShr(x, m, n);
    ShrShr(x, n, m);
    calc {
      Xor(Xor(x, a), Xor(b, c));
      { XorAssociates(Xor(x, a), b, c); XorAssociates(x, a, b); XorCommutes(a, b); XorAssociates(x, b, a); }
      Xor(Xor(Xor(x, b), a), c);
      { XorAssociates(Xor(x, b), a, c); }
      Xor(Xor(x, b), Xor(a, c));
    }
  }

  /** The inverse of `HashMethod`. */
  function UnhashMethod(h: Word): Word
  {
    Fold(Fold(Mul(Fold(Fold(h, 17), 34), M_INVERSE), 17), 34)
  }

  /** `hashMethod` is a bijection on 64-bit words: distinct methods never share a hash. */
  lemma HashMethodBijective(m: Word)
    ensures UnhashMethod(HashMethod(m)) == m
    ensures HashMethod(UnhashMethod(m)) == m
  {
    hide Fold, Mul;
    Fold17Undone(m);
    Fold17Undone(Mul(Fold(m, 17), M));
    TimesM(Fold(m, 17));
    TimesM(Fold(Fold(m, 17), 34));
    Fold17Undone(Mul(Fold(Fold(m, 17), 34), M_INVERSE));
  }

  function Unfinish(h: Word): Word
  {
    Fold(Mul(Fold(h, 47), M_INVERSE), 47)
  }

  lemma FinishBijective(h: Word)
    ensures Unfinish(Finish(h)) == h
    ensures Finish(Unfinish(h)) == h
  {
    hide Fold, Mul;
    Fold47Undone(h);
    Fold47Undone(Mul(Fold(h, 47), M));
    TimesM(Fold(h, 47));
    Fold47Undone(Mul(Fold(h, 47), M_INVERSE));
  }

  function Unscramble(k: Word): Word
  {
    Mul(Fold(Mul(k, M_INVERSE), 47), M_INVERSE)
  }

  lemma ScrambleBijective(k: Word)
    ensures Unscramble(Scramble(k)) == k
    ensures Scramble(Unscramble(k)) == k
  {
    hide Fold, Mul;
    TimesM(k);
    Fold47Undone(Mul(k, M));
    TimesM(Fold(Mul(k, M), 47));
    Fold47Undone(Mul(k, M_INVERSE));
    TimesM(Fold(Mul(k, M_INVERSE), 47));
  }

  /** Solved for the key: the only key that takes `h` to `g`. */
  function Unmix(h: Word, g: Word): Word
  {
    XorIsWord(Mul(g, M_INVERSE), h);
    Unscramble(Xor(Mul(g, M_INVERSE), h))
  }

  /** One round loses nothing: the old hash with the new one gives the key, and the key the old hash. */
  lemma MixInvertible(h: Word, k: Word)
    ensures Unmix(h, Mix(h, k)) == k
    ensures Mix(h, Unmix(h, k)) == k
    ensures Xor(Mul(Mix(h, k), M_INVERSE), Scramble(k)) == h
  {
    hide Xor, Mul, Scramble, Unscramble;
    XorIsWord(h, Scramble(k));
    TimesM(Xor(h, Scramble(k)));
    XorCancels(h, Scramble(k));
    XorCommutes(h, Scramble(k));
    XorCancels(Scramble(k), h);
    ScrambleBijective(k);
    var x := Mul(k, M_INVERSE);
    XorIsWord(x, h);
    ScrambleBijective(Xor(x, h));
    XorCommutes(h, Xor(x, h));
    XorCancels(x, h);
    TimesM(k);
  }

  lemma {:induction false} SameKeysSameHash(h: Word, s: seq<Frame>, t: seq<Frame>)
    requires |s| == |t| && forall i :: 0 <= i < |s| ==> Key(s[i]) == Key(t[i])
    ensures HashFrames(h, s) == HashFrames(h, t)
    decreases |s|
  {
    if s != [] {
      SameKeysSameHash(h, s[..|s| - 1], t[..|t| - 1]);
    }
  }

  lemma {:induction false} OneKeyDiffers(h: Word, s: seq<Frame>, t: seq<Frame>, j: nat)
    requires j < |s| == |t| && Key(s[j]) != Key(t[j])
    requires forall i :: 0 <= i < |s| && i != j ==> Key(s[i]) == Key(t[i])
    ensures HashFrames(h, s) != HashFrames(h, t)
    decreases |s|
  {
    hide Key, Mix, Scramble, Unmix, Xor, Mul;
    var n := |s| - 1;
    var p, q := HashFrames(h, s[..n]), HashFrames(h, t[..n]);
    MixInvertible(p, Key(s[n]));
    MixInvertible(q, Key(t[n]));
    if j == n {
      SameKeysSameHash(h, s[..n], t[..n]);
    } else {
      OneKeyDiffers(h, s[..n], t[..n], j);
    }
  }

  /** Two traces of one length that differ in the key of exactly one frame never share a hash. */
  lemma HashTraceSeparates(s: seq<Frame>, t: seq<Frame>, j: nat)
    requires j < |s| == |t| && Key(s[j]) != Key(t[j])
    requires forall i :: 0 <= i < |s| && i != j ==> Key(s[i]) == Key(t[i])
    ensures HashTrace(s) != HashTrace(t)
  {
    hide Finish, Unfinish, HashFrames;
    var h := Mul(|s|, M);
    OneKeyDiffers(h, s, t, j);
    FinishBijective(HashFrames(h, s));
    FinishBijective(HashFrames(h, t));
  }

  /** The shift of a bytecode index loses nothing of 32 bits. */
  lemma ShiftSeparates(b: int, c: int)
    requires -0x8000_0000 <= b < 0x8000_0000 && -0x8000_0000 <= c < 0x8000_0000 && b != c
    ensures b * 0x1_0000_0000 % WORDS != c * 0x1_0000_0000 % WORDS
  {
    var x, y := b * 0x1_0000_0000, c * 0x1_0000_0000;
    assert x % WORDS == if b >= 0 then x else x + WORDS;
    assert y % WORDS == if c >= 0 then y else y + WORDS;
  }

  /** Frames that differ in their method alone, or in their 32-bit bytecode index alone, have different keys. */
  lemma KeySeparates(f: Frame, g: Frame)
    requires f != g
    ensures f.bci == g.bci ==> Key(f) != Key(g)
    ensures f.methodId == g.methodId && -0x8000_0000 <= f.bci < 0x8000_0000 && -0x8000_0000 <= g.bci < 0x8000_0000 ==>
      Key(f) != Key(g)
  {
    var x, y := f.bci * 0x1_0000_0000 % WORDS, g.bci * 0x1_0000_0000 % WORDS;
    hide Xor;
    XorCancels(f.methodId, x);
    XorCancels(g.methodId, y);
    XorCancels(x, f.methodId);
    XorCancels(y, g.methodId);
    XorCommutes(x, f.methodId);
    XorCommutes(y, g.methodId);
    if f.methodId == g.methodId && -0x8000_0000 <= f.bci < 0x8000_0000 && -0x8000_0000 <= g.bci < 0x8000_0000 {
      ShiftSeparates(f.bci, g.bci);
    }
  }

  /** Two traces that differ in the method of one frame, whatever its bytecode index, never share a hash. */
  lemma HashSeesMethod(s: seq<Frame>, t: seq<Frame>, j: nat)
    requires j < |s| == |t| && s[j].methodId != t[j].methodId && s[j].bci == t[j].bci
    requires forall i :: 0 <= i < |s| && i != j ==> s[i] == t[i]
    ensures HashTrace(s) != HashTrace(t)
  {
    hide HashTrace, Key;
    KeySeparates(s[j], t[j]);
    HashTraceSeparates(s, t, j);
  }

  /** Two traces that differ in the 32-bit bytecode index of one frame never share a hash. */
  lemma HashSeesBci(s: seq<Frame>, t: seq<Frame>, j: nat)
    requires j < |s| == |t| && s[j].methodId == t[j].methodId && s[j].bci != t[j].bci
    requires -0x8000_0000 <= s[j].bci < 0x8000_0000 && -0x8000_0000 <= t[j].bci < 0x8000_0000
    requires forall i :: 0 <= i < |s| && i != j ==> s[i] == t[i]
    ensures HashTrace(s) != HashTrace(t)
  {
    hide HashTrace, Key;
    KeySeparates(s[j], t[j]);
    HashTraceSeparates(s, t, j);
  }

  lemma ShiftedKey()
    ensures Key(Frame(1, 0)) == 0x1_0000_0000
  {
    hide Xor;
    XorZero(0x1_0000_0000);
  }

  /** The key mixes the two: the bytecode index meets the upper half of the method id. */
  lemma KeyMerges()
    ensures HashTrace([Frame(1, 0)]) == HashTrace([Frame(0, 0x1_0000_0000)])
  {
    var s, t := [Frame(1, 0)], [Frame(0, 0x1_0000_0000)];
    hide Key, HashFrames, Finish;
    ShiftedKey();
    PlainKey(0x1_0000_0000);
    SameKeysSameHash(Mul(1, M), s, t);
  }

  lemma PlainKey(m: Word)
    ensures Key(Frame(0, m)) == m
  {
    hide Xor;
    XorZero(m);
    assert 0 * 0x1_0000_0000 % WORDS == 0;
  }

  lemma HashOne(h: Word, f: Frame)
    ensures HashFrames(h, [f]) == Mix(h, Key(f))
  {
    hide Mix, Key;
    assert [f][..0] == [];
  }

  /** The frame whose trace alone has the hash `h`. */
  function FrameOfHash(h: Word): Frame
  {
    Frame(0, Unmix(Mul(1, M), Unfinish(h)))
  }

  /** Every word is the hash of a trace of one frame, so the empty mark 0 is one too. */
  lemma EveryHashOccurs(h: Word) returns (f: Frame)
    ensures f == FrameOfHash(h) && HashTrace([f]) == h
  {
    hide Finish, Unfinish, Mix, Unmix, Key, HashFrames;
    f := FrameOfHash(h);
    PlainKey(f.methodId);
    HashOne(Mul(1, M), f);
    MixInvertible(Mul(1, M), Unfinish(h));
    FinishBijective(h);
  }
}
