/** The host's integer mixing step on 32-bit words, and that it loses nothing. */
module Mixing {
  import opened Util
  import opened Words

  /** Bitwise exclusive or. */
  function BitXor(a: nat, b: nat): nat
    decreases a + b
  {
    if a == 0 && b == 0 then 0 else 2 * BitXor(a / 2, b / 2) + (a + b) % 2
  }

  /** x ^= x >> k. */
  function XorDown(x: Word, k: nat): Word {
    XorBound(x, Down(x, k));
    BitXor(x, Down(x, k))
  }

  /** x += ~(x * factor), the complement of the 32-bit product. */
  function AddNot(x: Word, factor: nat): Word {
    Wrap(x + (0xffff_ffff - Wrap(x * factor)))
  }

  /** The integer mixing step: shifts left are products with powers of two. */
  function HashInt(key: Word): Word {
    var k1 := AddNot(key, 0x8000);
    var k2 := XorDown(k1, 10);
    var k3 := Wrap(k2 + Wrap(k2 * 8));
    var k4 := XorDown(k3, 6);
    var k5 := AddNot(k4, 0x800);
    XorDown(k5, 16)
  }

  // --- Exclusive or -------------------------------------------------------------------------

  lemma {:induction false} XorSmall(a: nat, b: nat, n: nat)
    requires a < Pow2(n) && b < Pow2(n)
    ensures BitXor(a, b) < Pow2(n)
    decreases a + b
  {
    if a != 0 || b != 0 {
      if n == 0 {
        assert false;
      } else {
        XorSmall(a / 2, b / 2, n - 1);
      }
    }
  }

  lemma XorBound(a: Word, b: nat)
    requires b <= a
    ensures BitXor(a, b) < 0x1_0000_0000
  {
    TwoToThe32();
    XorSmall(a, b, 32);
  }

  lemma {:induction false} XorAssociates(a: nat, b: nat, c: nat)
    ensures BitXor(BitXor(a, b), c) == BitXor(a, BitXor(b, c))
    decreases a + b + c
  {
    hide BitXor;
    if a == 0 && b == 0 && c == 0 {
      XorSelf(0);
    } else {
      XorAssociates(a / 2, b / 2, c / 2);
      XorDigits(a, b);
      XorDigits(b, c);
      XorDigits(BitXor(a, b), c);
      XorDigits(a, BitXor(b, c));
      LastDigits(a, b, c, BitXor(a, b), BitXor(b, c));
    }
  }

  lemma LastDigits(a: nat, b: nat, c: nat, ab: nat, bc: nat)
    requires ab % 2 == (a + b) % 2 && bc % 2 == (b + c) % 2
    ensures (ab + c) % 2 == (a + bc) % 2
  {
  }

  /** Halving and last digit of an exclusive or. */
  lemma XorDigits(a: nat, b: nat)
    ensures BitXor(a, b) / 2 == BitXor(a / 2, b / 2) && BitXor(a, b) % 2 == (a + b) % 2
    ensures BitXor(a, b) == 2 * BitXor(a / 2, b / 2) + (a + b) % 2
  {
  }

  lemma {:induction false} XorSelf(a: nat)
    ensures BitXor(a, a) == 0 && BitXor(a, 0) == a && BitXor(0, a) == a
  {
    if a != 0 { XorSelf(a / 2); }
  }

  /** Shifting right commutes with exclusive or. */
  lemma {:induction false} XorShifts(a: nat, b: nat, k: nat)
    ensures Down(BitXor(a, b), k) == BitXor(Down(a, k), Down(b, k))
  {
    if k > 0 {
      XorDigits(a, b);
      XorShifts(a / 2, b / 2, k - 1);
    }
  }

  lemma {:induction false} DownAgain(x: nat, j: nat, k: nat)
    ensures Down(Down(x, j), k) == Down(x, j + k)
  {
    if j > 0 { DownAgain(x / 2, j - 1, k); }
  }

  lemma {:induction false} DownToZero(x: nat, k: nat)
    requires x < Pow2(k)
    ensures Down(x, k) == 0
  {
    if k > 0 { DownToZero(x / 2, k - 1); }
  }

  // --- Undoing the steps --------------------------------------------------------------------

  /** y ^ (y >> k) ^ (y >> 2k) ^ ..., n terms. */
  function UndoXor(y: nat, k: nat, n: nat): nat {
    if n == 0 then 0 else BitXor(y, Down(UndoXor(y, k, n - 1), k))
  }

  /** Enough shifts leave nothing of a word. */
  lemma NothingLeft(y: Word, k: nat)
    requires k >= 32
    ensures Down(y, k) == 0
  {
    TwoToThe32();
    Pow2Monotone(32, k);
    DownToZero(y, k);
  }

  lemma XorCancels(a: nat, b: nat, c: nat)
    ensures BitXor(BitXor(a, b), BitXor(b, c)) == BitXor(a, c)
  {
    hide BitXor;
    XorAssociates(a, b, BitXor(b, c));
    XorAssociates(b, b, c);
    XorSelf(b);
    XorSelf(c);
  }

  /** Undoing after x ^ (x >> k): all but the first and the last term cancel. */
  lemma {:induction false} UndoneAfter(x: nat, k: nat, n: nat)
    ensures UndoXor(BitXor(x, Down(x, k)), k, n) == BitXor(x, Down(x, k * n))
  {
    hide BitXor, Down;
    if n == 0 {
      NoShift(x);
      XorSelf(x);
    } else {
      UndoneAfter(x, k, n - 1);
      assert k * (n - 1) + k == k * n;
      XorShifts(x, Down(x, k * (n - 1)), k);
      DownAgain(x, k * (n - 1), k);
      XorCancels(x, Down(x, k), Down(x, k * n));
    }
  }

  lemma NoShift(x: nat)
    ensures forall n: nat :: n == 0 ==> Down(x, n) == x
  {
  }

  lemma {:induction false} DownNothing(k: nat)
    ensures Down(0, k) == 0
  {
  }

  /** One more term is one more shift. */
  lemma {:induction false} UndoGrows(y: nat, k: nat, n: nat)
    ensures UndoXor(y, k, n + 1) == BitXor(UndoXor(y, k, n), Down(y, k * n))
  {
    hide BitXor, Down;
    if n == 0 {
      NoShift(y);
      DownNothing(k);
      XorSelf(y);
      assert UndoXor(y, k, 1) == BitXor(y, Down(UndoXor(y, k, 0), k));
    } else {
      UndoGrows(y, k, n - 1);
      assert k * (n - 1) + k == k * n;
      XorShifts(UndoXor(y, k, n - 1), Down(y, k * (n - 1)), k);
      DownAgain(y, k * (n - 1), k);
      XorAssociates(y, Down(UndoXor(y, k, n - 1), k), Down(y, k * n));
    }
  }

  /** x ^ (x >> k) can be undone, from either side. */
  lemma XorUndone(x: Word, k: nat, n: nat)
    requires k * n >= 32
    ensures UndoXor(XorDown(x, k), k, n) == x
    ensures BitXor(UndoXor(x, k, n), Down(UndoXor(x, k, n), k)) == x
  {
    hide BitXor, Down, UndoXor;
    NothingLeft(x, k * n);
    UndoneAfter(x, k, n);
    XorSelf(x);
    UndoGrows(x, k, n);
    XorSelf(UndoXor(x, k, n));
    LastTerm(x, k, n);
    var z := Down(UndoXor(x, k, n), k);
    XorAssociates(x, z, z);
    XorSelf(z);
  }

  lemma LastTerm(y: nat, k: nat, n: nat)
    ensures UndoXor(y, k, n + 1) == BitXor(y, Down(UndoXor(y, k, n), k))
  {
  }

  lemma {:induction false} UndoSmall(y: Word, k: nat, n: nat)
    ensures UndoXor(y, k, n) < 0x1_0000_0000
  {
    hide BitXor, Down;
    TwoToThe32();
    if n > 0 {
      UndoSmall(y, k, n - 1);
      XorSmall(y, Down(UndoXor(y, k, n - 1), k), 32);
    }
  }

  // --- Sums and products --------------------------------------------------------------------

  /** x + ~(x * factor) is x times 1 - factor, minus 1. */
  lemma AddNotIs(x: Word, factor: nat)
    ensures AddNot(x, factor) == Wrap(x * (1 - factor) - 1)
  {
    hide Wrap;
    var n := x * factor;
    WrapLater(n, -1, x + 0xffff_ffff);
    WrapMultiple(x - n - 1, 1);
    assert x * (1 - factor) == x - n;
  }

  function UndoAdd(y: Word, inverse: nat): Word {
    Wrap((y + 1) * inverse)
  }

  /** That can be undone when 1 - factor has an inverse modulo 2^32. */
  lemma AddUndone(x: Word, factor: nat, inverse: nat, q: int)
    requires (1 - factor) * inverse == 1 + q * 0x1_0000_0000
    ensures UndoAdd(AddNot(x, factor), inverse) == x && AddNot(UndoAdd(x, inverse), factor) == x
  {
    hide AddNot, UndoAdd;
    UndoneAdd(x, factor, inverse, q);
    AddOfUndone(x, factor, inverse, q);
  }

  lemma UndoneAdd(x: Word, factor: nat, inverse: nat, q: int)
    requires (1 - factor) * inverse == 1 + q * 0x1_0000_0000
    ensures UndoAdd(AddNot(x, factor), inverse) == x
  {
    hide Wrap, AddNot;
    var g := 1 - factor;
    AddNotIs(x, factor);
    var y := AddNot(x, factor);
    WrapLater(x * g - 1, inverse, inverse);
    assert (y + 1) * inverse == y * inverse + inverse;
    Regroup(x, g, inverse, q);
    WrapMultiple(x, x * q);
    WordWraps(x);
  }

  lemma AddOfUndone(x: Word, factor: nat, inverse: nat, q: int)
    requires (1 - factor) * inverse == 1 + q * 0x1_0000_0000
    ensures AddNot(UndoAdd(x, inverse), factor) == x
  {
    hide Wrap, AddNot;
    var g := 1 - factor;
    AddNotIs(UndoAdd(x, inverse), factor);
    WrapLater((x + 1) * inverse, g, -1);
    Swap(inverse, g);
    Regroup(x + 1, inverse, g, q);
    WrapBefore(x, (x + 1) * q);
    WordWraps(x);
  }

  lemma Swap(a: int, b: int)
    ensures a * b == b * a
  {
  }

  lemma WrapBefore(x: int, q: int)
    ensures Wrap(q * 0x1_0000_0000 + (x + 1) - 1) == Wrap(x)
  {
    WrapMultiple(x, q);
  }

  lemma Regroup(x: int, g: int, h: int, q: int)
    requires g * h == 1 + q * 0x1_0000_0000
    ensures (x * g - 1) * h + h == (x * q) * 0x1_0000_0000 + x && x * g * h == (x * q) * 0x1_0000_0000 + x
  {
    assert x * g * h == x * (g * h);
    assert x * (1 + q * 0x1_0000_0000) == (x * q) * 0x1_0000_0000 + x;
    assert (x * g - 1) * h + h == x * g * h;
  }

  lemma WordWraps(x: Word)
    ensures Wrap(x) == x
  {
  }

  /** x + (x << 3) is nine times x, undone by 0x38e38e39: nine times that is 1 modulo 2^32. */
  lemma NineUndone(x: Word)
    ensures Wrap(Wrap(x + Wrap(x * 8)) * 0x38e3_8e39) == x
    ensures var z := Wrap(x * 0x38e3_8e39); Wrap(z + Wrap(z * 8)) == x
  {
    NineTimes(x);
    NineTimes(Wrap(x * 0x38e3_8e39));
    hide Wrap;
    WrapLater(x * 9, 0x38e3_8e39, 0);
    WrapLater(x * 0x38e3_8e39, 9, 0);
    WrapMultiple(x, x * 2);
    WordWraps(x);
  }

  lemma NineTimes(x: Word)
    ensures Wrap(x + Wrap(x * 8)) == Wrap(x * 9)
  {
    WrapLater(x * 8, 1, x);
  }

  // --- The inverse --------------------------------------------------------------------------

  /** The word that mixing turned into y. */
  function UnHash(y: Word): Word {
    UndoSmall(y, 16, 2);
    var k4 := UndoAdd(UndoXor(y, 16, 2), 0x40_0801);
    UndoSmall(k4, 6, 6);
    var k2 := Wrap(UndoXor(k4, 6, 6) * 0x38e3_8e39);
    UndoSmall(k2, 10, 4);
    UndoAdd(UndoXor(k2, 10, 4), 0x4000_8001)
  }

  /** Mixing loses nothing: an explicit function undoes it, from either side. */
  lemma MixingUndone(x: Word)
    ensures UnHash(HashInt(x)) == x && HashInt(UnHash(x)) == x
  {
    hide AddNot, XorDown, UndoAdd, UndoXor, Wrap;
    HashUndone(x);
    UnHashUndone(x);
  }

  lemma HashUndone(x: Word)
    ensures UnHash(HashInt(x)) == x
  {
    hide AddNot, XorDown, UndoAdd, UndoXor, Wrap;
    var k1 := AddNot(x, 0x8000);
    var k2 := XorDown(k1, 10);
    var k3 := Wrap(k2 + Wrap(k2 * 8));
    var k4 := XorDown(k3, 6);
    var k5 := AddNot(k4, 0x800);
    AddUndone(x, 0x8000, 0x4000_8001, -8192);
    XorUndone(k1, 10, 4);
    NineUndone(k2);
    XorUndone(k3, 6, 6);
    AddUndone(k4, 0x800, 0x40_0801, -2);
    XorUndone(k5, 16, 2);
  }

  lemma UnHashUndone(x: Word)
    ensures HashInt(UnHash(x)) == x
  {
    hide AddNot, UndoAdd, UndoXor, Wrap, BitXor, Down;
    UndoSmall(x, 16, 2);
    var k5 := UndoXor(x, 16, 2);
    var k4 := UndoAdd(k5, 0x40_0801);
    UndoSmall(k4, 6, 6);
    var k3 := UndoXor(k4, 6, 6);
    var k2 := Wrap(k3 * 0x38e3_8e39);
    UndoSmall(k2, 10, 4);
    var k1 := UndoXor(k2, 10, 4);
    XorUndone(x, 16, 2);
    AddUndone(k5, 0x800, 0x40_0801, -2);
    XorUndone(k4, 6, 6);
    NineUndone(k3);
    XorUndone(k2, 10, 4);
    AddUndone(k1, 0x8000, 0x4000_8001, -8192);
  }
}
