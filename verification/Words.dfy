/**
  Arithmetic of unsigned 64-bit words, on natural numbers: the product wraps at 2^64, and `Xor` and
  `Shr` are defined bit by bit.
 */
module Words {

  const WORDS: nat := 0x1_0000_0000_0000_0000

  type Word = w: nat | w < WORDS

  function Pow2(n: nat): nat
  {
    if n == 0 then 1 else 2 * Pow2(n - 1)
  }

  function Xor(a: nat, b: nat): nat
    decreases a + b
  {
    if a == 0 && b == 0 then 0 else (a + b) % 2 + 2 * Xor(a / 2, b / 2)
  }

  function Shr(a: nat, n: nat): nat
    decreases n
  {
    if n == 0 then a else Shr(a / 2, n - 1)
  }

  function Mul(a: nat, b: nat): Word
  {
    a * b % WORDS
  }

  /** `Xor` is the sum of the lowest bits, and `Xor` again on the rest. */
  lemma {:induction false} XorBits(a: nat, b: nat)
    ensures Xor(a, b) == (a + b) % 2 + 2 * Xor(a / 2, b / 2)
    ensures Xor(a, b) % 2 == (a + b) % 2
    ensures Xor(a, b) / 2 == Xor(a / 2, b / 2)
  {
    assert Xor(0, 0) == 0;
    assert Xor(a, b) == (a + b) % 2 + 2 * Xor(a / 2, b / 2);
    Halve((a + b) % 2, Xor(a / 2, b / 2));
  }

  lemma Halve(r: nat, x: nat)
    requires r < 2
    ensures (r + 2 * x) % 2 == r && (r + 2 * x) / 2 == x
  {
  }

  lemma Parity(x: nat, a: nat, b: nat, c: nat)
    requires x % 2 == (a + b) % 2
    ensures (x + c) % 2 == (a + b + c) % 2
  {
  }

  lemma {:induction false} XorCommutes(a: nat, b: nat)
    ensures Xor(a, b) == Xor(b, a)
    decreases a + b
  {
    if a + b > 0 {
      XorCommutes(a / 2, b / 2);
    }
  }

  lemma {:induction false} XorAssociates(a: nat, b: nat, c: nat)
    ensures Xor(Xor(a, b), c) == Xor(a, Xor(b, c))
    decreases a + b + c
  {
    if a + b + c > 0 {
      XorAssociates(a / 2, b / 2, c / 2);
      hide Xor;
      calc {
        Xor(Xor(a, b), c);
        { XorBits(Xor(a, b), c); XorBits(a, b); Parity(Xor(a, b), a, b, c); }
        (a + b + c) % 2 + 2 * Xor(Xor(a / 2, b / 2), c / 2);
        (b + c + a) % 2 + 2 * Xor(a / 2, Xor(b / 2, c / 2));
        { XorBits(a, Xor(b, c)); XorBits(b, c); Parity(Xor(b, c), b, c, a); }
        Xor(a, Xor(b, c));
      }
    }
  }

  lemma {:induction false} XorZero(a: nat)
    ensures Xor(a, 0) == a && Xor(0, a) == a
  {
    if a > 0 {
      XorZero(a / 2);
    }
  }

  lemma {:induction false} XorSelf(a: nat)
    ensures Xor(a, a) == 0
  {
    if a > 0 {
      XorSelf(a / 2);
    }
  }

  lemma XorCancels(a: nat, b: nat)
    ensures Xor(Xor(a, b), b) == a
  {
    XorAssociates(a, b, b);
    XorSelf(b);
    XorZero(a);
  }

  lemma {:induction false} XorBound(a: nat, b: nat, n: nat)
    requires a < Pow2(n) && b < Pow2(n)
    ensures Xor(a, b) < Pow2(n)
    decreases n
  {
    if n > 0 {
      XorBound(a / 2, b / 2, n - 1);
      XorBits(a, b);
    } else {
      assert a == 0 && b == 0;
    }
  }

  lemma XorIsWord(a: Word, b: Word)
    ensures Xor(a, b) < WORDS
  {
    Pow64();
    XorBound(a, b, 64);
  }

  lemma {:induction false} ShrXor(a: nat, b: nat, n: nat)
    ensures Shr(Xor(a, b), n) == Xor(Shr(a, n), Shr(b, n))
    decreases n
  {
    if n > 0 {
      XorBits(a, b);
      ShrXor(a / 2, b / 2, n - 1);
    }
  }

  lemma {:induction false} ShrShr(a: nat, m: nat, n: nat)
    ensures Shr(Shr(a, m), n) == Shr(a, m + n)
    decreases m
  {
    if m > 0 {
      ShrShr(a / 2, m - 1, n);
    }
  }

  lemma {:induction false} ShrDivides(a: nat, n: nat)
    ensures Shr(a, n) <= a
    ensures a < Pow2(n) ==> Shr(a, n) == 0
    decreases n
  {
    if n > 0 {
      ShrDivides(a / 2, n - 1);
    }
  }

  lemma {:induction false} Pow2Sum(m: nat, n: nat)
    ensures Pow2(m + n) == Pow2(m) * Pow2(n)
  {
    if m > 0 {
      Pow2Sum(m - 1, n);
    }
  }

  lemma Pow64()
    ensures Pow2(64) == WORDS
  {
    assert Pow2(8) == 256;
    Pow2Sum(8, 8);
    Pow2Sum(16, 16);
    Pow2Sum(32, 32);
  }

  lemma Pow2Grows(m: nat, n: nat)
    requires m <= n
    ensures Pow2(m) <= Pow2(n)
  {
  }

  /** Shifting a word by 64 bits or more leaves nothing. */
  lemma ShrOut(a: Word, n: nat)
    requires 64 <= n
    ensures Shr(a, n) == 0
  {
    Pow64();
    Pow2Grows(64, n);
    ShrDivides(a, n);
  }
}
