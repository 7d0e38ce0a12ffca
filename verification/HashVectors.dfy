/**
  Two hash values worked out by hand, digit by digit, from the steps of the source: they fix every
  constant and every step of the two hash functions.
 */
module HashVectors {
  import opened Words
  import opened Hashing

  // ---------------------------------------------------------------------------
  // Xor on hexadecimal digits

  function Odd(x: nat, y: nat): nat { if x == y then 0 else 1 }

  lemma XorDouble(a: nat, b: nat, x: nat, y: nat)
    requires x < 2 && y < 2
    ensures Xor(2 * a + x, 2 * b + y) == 2 * Xor(a, b) + Odd(x, y)
  {
    hide Xor;
    var c, d := 2 * a + x, 2 * b + y;
    XorBits(c, d);
    assert c / 2 == a && d / 2 == b;
    assert (c + d) % 2 == Odd(x, y);
  }

  lemma XorNibble(a: nat, b: nat, x3: nat, x2: nat, x1: nat, x0: nat, y3: nat, y2: nat, y1: nat, y0: nat)
    requires x3 < 2 && x2 < 2 && x1 < 2 && x0 < 2 && y3 < 2 && y2 < 2 && y1 < 2 && y0 < 2
    ensures Xor(16 * a + 8 * x3 + 4 * x2 + 2 * x1 + x0, 16 * b + 8 * y3 + 4 * y2 + 2 * y1 + y0) ==
      16 * Xor(a, b) + 8 * Odd(x3, y3) + 4 * Odd(x2, y2) + 2 * Odd(x1, y1) + Odd(x0, y0)
  {
    hide Xor;
    XorDouble(a, b, x3, y3);
    XorDouble(2 * a + x3, 2 * b + y3, x2, y2);
    XorDouble(4 * a + 2 * x3 + x2, 4 * b + 2 * y3 + y2, x1, y1);
    XorDouble(8 * a + 4 * x3 + 2 * x2 + x1, 8 * b + 4 * y3 + 2 * y2 + y1, x0, y0);
  }

  /** The xor of two hexadecimal digits. */
  function Nib(x: nat, y: nat): nat
  {
    if x >= 8 then (if y >= 8 then Nib3(x - 8, y - 8) else 8 + Nib3(x - 8, y))
    else if y >= 8 then 8 + Nib3(x, y - 8) else Nib3(x, y)
  }

  function Nib3(x: nat, y: nat): nat
  {
    if x >= 4 then (if y >= 4 then Nib2(x - 4, y - 4) else 4 + Nib2(x - 4, y))
    else if y >= 4 then 4 + Nib2(x, y - 4) else Nib2(x, y)
  }

  function Nib2(x: nat, y: nat): nat
  {
    if x >= 2 then (if y >= 2 then Odd(x - 2, y - 2) else 2 + Odd(x - 2, y))
    else if y >= 2 then 2 + Odd(x, y - 2) else Odd(x, y)
  }

  lemma NibIs(x: nat, y: nat, i: nat, j: nat)
    requires i == (if x >= 8 then 1 else 0) && j == (if y >= 8 then 1 else 0)
    ensures Nib(x, y) == 8 * Odd(i, j) + Nib3(x - 8 * i, y - 8 * j)
  {
    hide Nib3;
  }

  lemma Nib3Is(x: nat, y: nat, i: nat, j: nat)
    requires i == (if x >= 4 then 1 else 0) && j == (if y >= 4 then 1 else 0)
    ensures Nib3(x, y) == 4 * Odd(i, j) + Nib2(x - 4 * i, y - 4 * j)
  {
    hide Nib2;
  }

  lemma Nib2Is(x: nat, y: nat, i: nat, j: nat)
    requires i == (if x >= 2 then 1 else 0) && j == (if y >= 2 then 1 else 0)
    ensures Nib2(x, y) == 2 * Odd(i, j) + Odd(x - 2 * i, y - 2 * j)
  {
  }

  lemma XorDigit(a: nat, b: nat, x: nat, y: nat)
    requires x < 16 && y < 16
    ensures Xor(16 * a + x, 16 * b + y) == 16 * Xor(a, b) + Nib(x, y)
  {
    hide Xor, Odd, Nib, Nib3, Nib2;
    var x3, y3 := if x >= 8 then 1 else 0, if y >= 8 then 1 else 0;
    var u, v := x - 8 * x3, y - 8 * y3;
    var x2, y2 := if u >= 4 then 1 else 0, if v >= 4 then 1 else 0;
    var s, t := u - 4 * x2, v - 4 * y2;
    var x1, y1 := if s >= 2 then 1 else 0, if t >= 2 then 1 else 0;
    NibIs(x, y, x3, y3);
    Nib3Is(u, v, x2, y2);
    Nib2Is(s, t, x1, y1);
    XorNibble(a, b, x3, x2, x1, s - 2 * x1, y3, y2, y1, t - 2 * y1);
  }

  /** Four digits at a time. */
  lemma XorQuad(a: nat, b: nat, x3: nat, x2: nat, x1: nat, x0: nat, y3: nat, y2: nat, y1: nat, y0: nat)
    requires x3 < 16 && x2 < 16 && x1 < 16 && x0 < 16 && y3 < 16 && y2 < 16 && y1 < 16 && y0 < 16
    ensures Xor(0x10000 * a + 0x1000 * x3 + 0x100 * x2 + 0x10 * x1 + x0,
                0x10000 * b + 0x1000 * y3 + 0x100 * y2 + 0x10 * y1 + y0) ==
      0x10000 * Xor(a, b) + 0x1000 * Nib(x3, y3) + 0x100 * Nib(x2, y2) + 0x10 * Nib(x1, y1) + Nib(x0, y0)
  {
    hide Xor, Nib;
    XorDigit(a, b, x3, y3);
    XorDigit(16 * a + x3, 16 * b + y3, x2, y2);
    XorDigit(256 * a + 16 * x3 + x2, 256 * b + 16 * y3 + y2, x1, y1);
    XorDigit(4096 * a + 256 * x3 + 16 * x2 + x1, 4096 * b + 256 * y3 + 16 * y2 + y1, x0, y0);
  }

  // ---------------------------------------------------------------------------
  // The words that are folded and mixed

  lemma MethodFirst()
    ensures Xor(0x7f3a5c0012d8, 0x3f9d2e00) == 0x7f3a639d3cd8
  {
    hide Xor;
    XorZero(0);
    XorQuad(0x0, 0x0, 0x7, 0xf, 0x3, 0xa, 0x0, 0x0, 0x0, 0x0);
    XorQuad(0x7f3a, 0x0, 0x5, 0xc, 0x0, 0x0, 0x3, 0xf, 0x9, 0xd);
    XorQuad(0x7f3a5c00, 0x3f9d, 0x1, 0x2, 0xd, 0x8, 0x2, 0xe, 0x0, 0x0);
  }

  lemma MethodLast()
    ensures Xor(0xe48541ad8b3d01b8, 0x7242a0d6c59e) == 0xe48533ef2bebc426
  {
    hide Xor;
    XorZero(0);
    XorQuad(0x0, 0x0, 0xe, 0x4, 0x8, 0x5, 0x0, 0x0, 0x0, 0x0);
    XorQuad(0xe485, 0x0, 0x4, 0x1, 0xa, 0xd, 0x7, 0x2, 0x4, 0x2);
    XorQuad(0xe48541ad, 0x7242, 0x8, 0xb, 0x3, 0xd, 0xa, 0x0, 0xd, 0x6);
    XorQuad(0xe48541ad8b3d, 0x7242a0d6, 0x0, 0x1, 0xb, 0x8, 0xc, 0x5, 0x9, 0xe);
  }

  lemma FirstKey()
    ensures Xor(0x300000000, 0x7f3a5c0012d8) == 0x7f395c0012d8
  {
    hide Xor;
    XorZero(0);
    XorQuad(0x0, 0x0, 0x0, 0x0, 0x0, 0x3, 0x7, 0xf, 0x3, 0xa);
    XorQuad(0x3, 0x7f3a, 0x0, 0x0, 0x0, 0x0, 0x5, 0xc, 0x0, 0x0);
    XorQuad(0x30000, 0x7f3a5c00, 0x0, 0x0, 0x0, 0x0, 0x1, 0x2, 0xd, 0x8);
  }

  lemma FirstScramble()
    ensures Xor(0xb8531de8c7898fb8, 0x170a6) == 0xb8531de8c788ff1e
  {
    hide Xor;
    XorZero(0);
    XorQuad(0x0, 0x0, 0xb, 0x8, 0x5, 0x3, 0x0, 0x0, 0x0, 0x0);
    XorQuad(0xb853, 0x0, 0x1, 0xd, 0xe, 0x8, 0x0, 0x0, 0x0, 0x0);
    XorQuad(0xb8531de8, 0x0, 0xc, 0x7, 0x8, 0x9, 0x0, 0x0, 0x0, 0x1);
    XorQuad(0xb8531de8c789, 0x1, 0x8, 0xf, 0xb, 0x8, 0x7, 0x0, 0xa, 0x6);
  }

  lemma FirstMix()
    ensures Xor(0x8d494f26b7a3d32a, 0xade0efd9c46cca76) == 0x20a9a0ff73cf195c
  {
    hide Xor;
    XorZero(0);
    XorQuad(0x0, 0x0, 0x8, 0xd, 0x4, 0x9, 0xa, 0xd, 0xe, 0x0);
    XorQuad(0x8d49, 0xade0, 0x4, 0xf, 0x2, 0x6, 0xe, 0xf, 0xd, 0x9);
    XorQuad(0x8d494f26, 0xade0efd9, 0xb, 0x7, 0xa, 0x3, 0xc, 0x4, 0x6, 0xc);
    XorQuad(0x8d494f26b7a3, 0xade0efd9c46c, 0xd, 0x3, 0x2, 0xa, 0xc, 0xa, 0x7, 0x6);
  }

  lemma SecondKey()
    ensures Xor(0xffffffff00000000, 0x7f3a5c001300) == 0xffff80c55c001300
  {
    hide Xor;
    XorZero(0);
    XorQuad(0x0, 0x0, 0xf, 0xf, 0xf, 0xf, 0x0, 0x0, 0x0, 0x0);
    XorQuad(0xffff, 0x0, 0xf, 0xf, 0xf, 0xf, 0x7, 0xf, 0x3, 0xa);
    XorQuad(0xffffffff, 0x7f3a, 0x0, 0x0, 0x0, 0x0, 0x5, 0xc, 0x0, 0x0);
    XorQuad(0xffffffff0000, 0x7f3a5c00, 0x0, 0x0, 0x0, 0x0, 0x1, 0x3, 0x0, 0x0);
  }

  lemma SecondScramble()
    ensures Xor(0xe12d9f6b20560f00, 0x1c25b) == 0xe12d9f6b2057cd5b
  {
    hide Xor;
    XorZero(0);
    XorQuad(0x0, 0x0, 0xe, 0x1, 0x2, 0xd, 0x0, 0x0, 0x0, 0x0);
    XorQuad(0xe12d, 0x0, 0x9, 0xf, 0x6, 0xb, 0x0, 0x0, 0x0, 0x0);
    XorQuad(0xe12d9f6b, 0x0, 0x2, 0x0, 0x5, 0x6, 0x0, 0x0, 0x0, 0x1);
    XorQuad(0xe12d9f6b2056, 0x1, 0x0, 0xf, 0x0, 0x0, 0xc, 0x2, 0x5, 0xb);
  }

  lemma SecondMix()
    ensures Xor(0xa561f3014dba7e8c, 0x9a482fb8bd4d58f7) == 0x3f29dcb9f0f7267b
  {
    hide Xor;
    XorZero(0);
    XorQuad(0x0, 0x0, 0xa, 0x5, 0x6, 0x1, 0x9, 0xa, 0x4, 0x8);
    XorQuad(0xa561, 0x9a48, 0xf, 0x3, 0x0, 0x1, 0x2, 0xf, 0xb, 0x8);
    XorQuad(0xa561f301, 0x9a482fb8, 0x4, 0xd, 0xb, 0xa, 0xb, 0xd, 0x4, 0xd);
    XorQuad(0xa561f3014dba, 0x9a482fb8bd4d, 0x7, 0xe, 0x8, 0xc, 0x5, 0x8, 0xf, 0x7);
  }

  lemma FinishFirst()
    ensures Xor(0x8a899e9f554a5897, 0x11513) == 0x8a899e9f554b4d84
  {
    hide Xor;
    XorZero(0);
    XorQuad(0x0, 0x0, 0x8, 0xa, 0x8, 0x9, 0x0, 0x0, 0x0, 0x0);
    XorQuad(0x8a89, 0x0, 0x9, 0xe, 0x9, 0xf, 0x0, 0x0, 0x0, 0x0);
    XorQuad(0x8a899e9f, 0x0, 0x5, 0x5, 0x4, 0xa, 0x0, 0x0, 0x0, 0x1);
    XorQuad(0x8a899e9f554a, 0x1, 0x5, 0x8, 0x9, 0x7, 0x1, 0x5, 0x1, 0x3);
  }

  lemma FinishLast()
    ensures Xor(0xe13d5d32632541d4, 0x1c27a) == 0xe13d5d32632483ae
  {
    hide Xor;
    XorZero(0);
    XorQuad(0x0, 0x0, 0xe, 0x1, 0x3, 0xd, 0x0, 0x0, 0x0, 0x0);
    XorQuad(0xe13d, 0x0, 0x5, 0xd, 0x3, 0x2, 0x0, 0x0, 0x0, 0x0);
    XorQuad(0xe13d5d32, 0x0, 0x6, 0x3, 0x2, 0x5, 0x0, 0x0, 0x0, 0x1);
    XorQuad(0xe13d5d326325, 0x1, 0x4, 0x1, 0xd, 0x4, 0xc, 0x2, 0x7, 0xa);
  }

  // ---------------------------------------------------------------------------
  // The two values

  /** `a >> n` is division by a power of two. */
  lemma {:induction false} ShrIs(a: nat, n: nat)
    ensures Pow2(n) > 0 && Shr(a, n) == a / Pow2(n)
    decreases n
  {
    if n > 0 {
      ShrIs(a / 2, n - 1);
      DivideOn(a, Pow2(n - 1));
    }
  }

  lemma DivideOn(a: nat, p: nat)
    requires p > 0
    ensures a / 2 / p == a / (2 * p)
  {
    var q, r := Divided(a, 2 * p);
    Regroup(p, q);
    var pq := p * q;
    HalfOf(a, pq, r);
    QuotientIs(a / 2, p, q, r / 2);
  }

  lemma Divided(a: nat, n: nat) returns (q: nat, r: nat)
    requires n > 0
    ensures q == a / n && a == n * q + r && r < n
  {
    q, r := a / n, a % n;
  }

  lemma Regroup(p: nat, q: nat)
    ensures 2 * p * q == 2 * (p * q)
  {
  }

  lemma HalfOf(a: nat, b: nat, r: nat)
    requires a == 2 * b + r
    ensures a / 2 == b + r / 2
  {
  }

  lemma QuotientIs(a: nat, p: nat, q: nat, r: nat)
    requires p > 0 && a == p * q + r && r < p
    ensures a / p == q
  {
    var d := a / p - q;
    assert p * d == p * (a / p) - p * q == r - a % p;
    if d >= 1 {
      AtLeast(p, d);
    } else if d <= -1 {
      assert p * -d == -(p * d);
      AtLeast(p, -d);
    }
  }

  lemma AtLeast(p: nat, d: nat)
    requires d >= 1
    ensures p * d >= p
  {
  }

  lemma Shifts(a: nat)
    ensures Shr(a, 17) == a / 0x2_0000 && Shr(a, 47) == a / 0x8000_0000_0000
  {
    Powers();
    hide Pow2, Shr;
    ShrIs(a, 17);
    ShrIs(a, 47);
  }

  lemma Powers()
    ensures Pow2(17) == 0x2_0000 && Pow2(47) == 0x8000_0000_0000
  {
    assert Pow2(15) == 0x8000;
    Pow2Sum(15, 2);
    Pow2Sum(15, 15);
    Pow2Sum(17, 30);
  }

  /** The hash of a method id, worked out by hand. */
  lemma MethodHashValue()
    ensures HashMethod(0x7f3a5c0012d8) == 0xe48533ef2bebc426
  {
    hide Xor, Shr;
    Shifts(0x7f3a5c0012d8);
    MethodFirst();
    assert Fold(0x7f3a5c0012d8, 17) == 0x7f3a639d3cd8;
    assert Mul(0x7f3a639d3cd8, M) == 0xe48541ad8b3d01b8;
    Shifts(0xe48541ad8b3d01b8);
    MethodLast();
  }

  /** One round of the loop, given what each of its steps yields. */
  lemma RoundIs(h: Word, f: Frame, shifted: Word, key: Word, k1: Word, k2: Word, k3: Word, g: Word, h': Word)
    requires f.bci * 0x1_0000_0000 % WORDS == shifted && Xor(shifted, f.methodId) == key
    requires key * M % WORDS == k1 && Xor(k1, k1 / 0x8000_0000_0000) == k2 && k2 * M % WORDS == k3
    requires Xor(h, k3) == g && g * M % WORDS == h'
    ensures Mix(h, Key(f)) == h'
  {
    hide Xor, Shr;
    Shifts(k1);
    assert Key(f) == key && Scramble(key) == k3;
  }

  lemma FirstProducts()
    ensures 3 * 0x1_0000_0000 % WORDS == 0x300000000 && 0x7f395c0012d8 * M % WORDS == 0xb8531de8c7898fb8
    ensures 0xb8531de8c788ff1e * M % WORDS == 0xade0efd9c46cca76 && 0x20a9a0ff73cf195c * M % WORDS == 0xa561f3014dba7e8c
  {
  }

  lemma FirstRound()
    ensures Mix(0x8d494f26b7a3d32a, Key(Frame(3, 0x7f3a5c0012d8))) == 0xa561f3014dba7e8c
  {
    hide Xor, Shr, Mix, Key, Scramble, Mul, Fold;
    FirstProducts();
    FirstKey();
    FirstScramble();
    FirstMix();
    RoundIs(0x8d494f26b7a3d32a, Frame(3, 0x7f3a5c0012d8), 0x300000000, 0x7f395c0012d8,
            0xb8531de8c7898fb8, 0xb8531de8c788ff1e, 0xade0efd9c46cca76, 0x20a9a0ff73cf195c, 0xa561f3014dba7e8c);
  }

  lemma SecondProducts()
    ensures -1 * 0x1_0000_0000 % WORDS == 0xffffffff00000000 && 0xffff80c55c001300 * M % WORDS == 0xe12d9f6b20560f00
    ensures 0xe12d9f6b2057cd5b * M % WORDS == 0x9a482fb8bd4d58f7 && 0x3f29dcb9f0f7267b * M % WORDS == 0x8a899e9f554a5897
  {
  }

  lemma SecondRound()
    ensures Mix(0xa561f3014dba7e8c, Key(Frame(-1, 0x7f3a5c001300))) == 0x8a899e9f554a5897
  {
    hide Xor, Shr, Mix, Key, Scramble, Mul, Fold;
    SecondProducts();
    SecondKey();
    SecondScramble();
    SecondMix();
    RoundIs(0xa561f3014dba7e8c, Frame(-1, 0x7f3a5c001300), 0xffffffff00000000, 0xffff80c55c001300,
            0xe12d9f6b20560f00, 0xe12d9f6b2057cd5b, 0x9a482fb8bd4d58f7, 0x3f29dcb9f0f7267b, 0x8a899e9f554a5897);
  }

  lemma Finished()
    ensures Finish(0x8a899e9f554a5897) == 0xe13d5d32632483ae
  {
    hide Xor, Shr;
    Shifts(0x8a899e9f554a5897);
    FinishFirst();
    assert Fold(0x8a899e9f554a5897, 47) == 0x8a899e9f554b4d84 && Mul(0x8a899e9f554b4d84, M) == 0xe13d5d32632541d4;
    Shifts(0xe13d5d32632541d4);
    FinishLast();
  }

  /** The hash of a trace of two frames, worked out by hand. */
  lemma TraceHashValue()
    ensures HashTrace([Frame(3, 0x7f3a5c0012d8), Frame(-1, 0x7f3a5c001300)]) == 0xe13d5d32632483ae
  {
    hide Mix, Key, Finish;
    var f, g := Frame(3, 0x7f3a5c0012d8), Frame(-1, 0x7f3a5c001300);
    var s := [f, g];
    FirstRound();
    SecondRound();
    Finished();
    assert Mul(2, M) == 0x8d494f26b7a3d32a;
    HashOne(0x8d494f26b7a3d32a, f);
    assert s[..1] == [f] && s[1] == g;
    assert HashFrames(0x8d494f26b7a3d32a, s) == Mix(HashFrames(0x8d494f26b7a3d32a, s[..1]), Key(s[1]));
  }
}
