/** 32-bit words as numbers, and their bits. */
module Words {
  import opened Util

  type Word = n: nat | n < 0x1_0000_0000

  /** x >> k. */
  function Down(x: nat, k: nat): (y: nat)
    ensures y <= x
  {
    if k == 0 then x else Down(x / 2, k - 1)
  }

  lemma TwoToThe32()
    ensures Pow2(32) == 0x1_0000_0000
  {
    assert Pow2(8) == 0x100;
    assert Pow2(16) == 0x1_0000;
    assert Pow2(24) == 0x100_0000;
  }

  /** Shifting right divides by a power of two. */
  lemma {:induction false} DownDivides(x: nat, k: nat)
    ensures Down(x, k) == x / Pow2(k)
  {
    if k > 0 {
      DownDivides(x / 2, k - 1);
      HalfFirst(x, Pow2(k - 1));
    }
  }

  lemma HalfFirst(n: nat, d: nat)
    requires d > 0
    ensures n / 2 / d == n / (2 * d)
  {
    var q, r := n / 2 / d, n / 2 % d;
    assert n / 2 == d * q + r;
    assert n == (2 * d) * q + (2 * r + n % 2);
    ModUnique(n, 2 * d, q, 2 * r + n % 2);
  }

  // --- Bit operations -----------------------------------------------------------------------

  /** Bitwise or. */
  function BitOr(a: nat, b: nat): nat
    decreases a + b
  {
    if a == 0 && b == 0 then 0 else 2 * BitOr(a / 2, b / 2) + if a % 2 == 1 || b % 2 == 1 then 1 else 0
  }

  /** 1 << k. */
  function Mask(k: nat): Word
    requires k < 32
  {
    TwoToThe32();
    Pow2Monotone(k + 1, 32);
    Pow2(k)
  }

  /** w & m is not 0. */
  predicate Meets(w: Word, m: Word) {
    BitAnd(w, m) != 0
  }

  /** w | m. */
  function With(w: Word, m: Word): Word {
    TwoToThe32();
    OrSmall(w, m, 32);
    BitOr(w, m)
  }

  /** w & ~m. */
  function Without(w: Word, m: Word): Word {
    AndSmall(w, 0xffff_ffff - m);
    BitAnd(w, 0xffff_ffff - m)
  }

  predicate Bit(w: Word, k: nat)
    requires k < 32
  {
    Meets(w, Mask(k))
  }

  lemma {:induction false} OrSmall(a: nat, b: nat, n: nat)
    requires a < Pow2(n) && b < Pow2(n)
    ensures BitOr(a, b) < Pow2(n)
    decreases a + b
  {
    if a != 0 || b != 0 {
      if n == 0 {
        assert false;
      } else {
        OrSmall(a / 2, b / 2, n - 1);
      }
    }
  }

  lemma {:induction false} AndSmall(a: nat, b: nat)
    ensures BitAnd(a, b) <= a
  {
    if a != 0 && b != 0 { AndSmall(a / 2, b / 2); }
  }

  // --- Digits -------------------------------------------------------------------------------

  /** The k-th binary digit of a number is 1. */
  predicate Digit(n: nat, k: nat) {
    Down(n, k) % 2 == 1
  }

  lemma {:induction false} DigitOfAnd(a: nat, b: nat, j: nat)
    ensures Digit(BitAnd(a, b), j) <==> Digit(a, j) && Digit(b, j)
  {
    AndHalves(a, b);
    if j > 0 { DigitOfAnd(a / 2, b / 2, j - 1); }
  }

  lemma AndHalves(a: nat, b: nat)
    ensures BitAnd(a, b) / 2 == BitAnd(a / 2, b / 2)
    ensures BitAnd(a, b) % 2 == if a % 2 == 1 && b % 2 == 1 then 1 else 0
  {
    var last := (a % 2) * (b % 2);
    assert last == if a % 2 == 1 && b % 2 == 1 then 1 else 0;
    if a == 0 || b == 0 {
    } else {
      assert BitAnd(a, b) == 2 * BitAnd(a / 2, b / 2) + last;
      hide BitAnd;
    }
  }

  lemma {:induction false} DigitOfOr(a: nat, b: nat, j: nat)
    ensures Digit(BitOr(a, b), j) <==> Digit(a, j) || Digit(b, j)
  {
    OrHalves(a, b);
    if j > 0 { DigitOfOr(a / 2, b / 2, j - 1); }
  }

  lemma OrHalves(a: nat, b: nat)
    ensures BitOr(a, b) / 2 == BitOr(a / 2, b / 2)
    ensures BitOr(a, b) % 2 == if a % 2 == 1 || b % 2 == 1 then 1 else 0
  {
  }

  lemma {:induction false} DigitOfPower(k: nat, j: nat)
    ensures Digit(Pow2(k), j) <==> j == k
  {
    if k > 0 && j > 0 {
      DigitOfPower(k - 1, j - 1);
    } else if j > 0 {
      DigitOfZero(j - 1);
    }
  }

  lemma {:induction false} DigitOfZero(j: nat)
    ensures !Digit(0, j)
  {
    if j > 0 { DigitOfZero(j - 1); }
  }

  lemma {:induction false} DigitOfComplement(n: nat, bits: nat, j: nat)
    requires n < Pow2(bits) && j < bits
    ensures Digit(Pow2(bits) - 1 - n, j) <==> !Digit(n, j)
  {
    if j > 0 {
      assert (Pow2(bits) - 1 - n) / 2 == Pow2(bits - 1) - 1 - n / 2;
      DigitOfComplement(n / 2, bits - 1, j - 1);
    }
  }

  /** A number has a digit 1 exactly when it is not 0. */
  lemma {:induction false} SomeDigit(n: nat) returns (j: nat)
    requires n > 0
    ensures Digit(n, j)
  {
    if n % 2 == 1 {
      j := 0;
    } else {
      j := SomeDigit(n / 2);
      j := j + 1;
    }
  }

  lemma BitIsDown(w: Word, k: nat)
    requires k < 32
    ensures Bit(w, k) <==> Digit(w, k)
  {
    hide Digit;
    DigitOfAnd(w, Pow2(k), k);
    DigitOfPower(k, k);
    DigitOfZero(k);
    if Meets(w, Mask(k)) {
      var j := SomeDigit(BitAnd(w, Pow2(k)));
      DigitOfAnd(w, Pow2(k), j);
      DigitOfPower(k, j);
    }
  }

  /** Bit k of a word is its k-th binary digit. */
  lemma BitIsDigit(w: Word, k: nat)
    requires k < 32
    ensures Bit(w, k) <==> w / Pow2(k) % 2 == 1
  {
    BitIsDown(w, k);
    DownDivides(w, k);
  }

  /** Or-ing a mask sets one bit of a word, and and-ing its complement clears one bit, and nothing else. */
  lemma OneBit(w: Word, k: nat, j: nat)
    requires k < 32 && j < 32
    ensures Bit(With(w, Mask(k)), j) <==> j == k || Bit(w, j)
    ensures Bit(Without(w, Mask(k)), j) <==> j != k && Bit(w, j)
  {
    hide Digit, Bit;
    BitIsDown(w, j);
    BitIsDown(With(w, Mask(k)), j);
    BitIsDown(Without(w, Mask(k)), j);
    DigitOfOr(w, Pow2(k), j);
    DigitOfAnd(w, 0xffff_ffff - Pow2(k), j);
    DigitOfPower(k, j);
    TwoToThe32();
    Pow2Monotone(k + 1, 32);
    DigitOfComplement(Pow2(k), 32, j);
  }
}
