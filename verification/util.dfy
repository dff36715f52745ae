/** Arithmetic shared by host and DPU: power-of-two sizing, rounding, masking
    and the block partition macros. */
module Util {
  datatype Option<+T> = None | Some(value: T)
  datatype Status = Ok | Err

  const U32_LIMIT: nat := 0x1_0000_0000
  const TOP_BIT: nat := 0x8000_0000

  /** The 32-bit unsigned word a computation leaves behind. */
  function Wrap(x: int): (r: nat)
    ensures r < U32_LIMIT
  {
    x % 0x1_0000_0000
  }

  /** Wrapping a factor first makes no difference to a wrapped product and sum. */
  lemma WrapLater(a: int, b: int, c: int)
    ensures Wrap(Wrap(a) * b + c) == Wrap(a * b + c)
  {
    var q := a / 0x1_0000_0000;
    assert a == q * 0x1_0000_0000 + Wrap(a);
    Distribute(q, Wrap(a), b);
    WrapMultiple(Wrap(a) * b + c, q * b);
  }

  lemma Distribute(q: int, r: int, b: int)
    ensures (q * 0x1_0000_0000 + r) * b == (q * b) * 0x1_0000_0000 + r * b
  {
  }

  lemma WrapMultiple(n: int, q: int)
    ensures Wrap(q * 0x1_0000_0000 + n) == Wrap(n)
  {
  }

  function Pow2(k: nat): (r: nat)
    ensures r >= 1
  {
    if k == 0 then 1 else 2 * Pow2(k - 1)
  }

  lemma {:induction false} Pow2Monotone(a: nat, b: nat)
    requires a <= b
    ensures Pow2(a) <= Pow2(b)
  {
    if a < b { Pow2Monotone(a, b - 1); }
  }

  ghost predicate IsPow2(n: nat) {
    exists k: nat :: n == Pow2(k)
  }

  lemma TopBitIsPow2()
    ensures Pow2(31) == TOP_BIT
  {
    assert Pow2(10) == 1024;
    assert Pow2(20) == 1024 * 1024;
    assert Pow2(30) == 1024 * 1024 * 1024;
  }

  ghost predicate LeastPow2(size: nat, p: nat) {
    IsPow2(p) && size <= p && forall k: nat :: size <= Pow2(k) ==> p <= Pow2(k)
  }

  lemma LeastPow2Unique(size: nat, p: nat, q: nat)
    requires LeastPow2(size, p) && LeastPow2(size, q)
    ensures p == q
  {
    var a: nat, b: nat :| p == Pow2(a) && q == Pow2(b);
  }

  /** The least power of two that is at least `size`, saturating at 2^31. */
  method NextPower(size: nat) returns (i: nat)
    requires size < U32_LIMIT
    ensures IsPow2(i) && i <= TOP_BIT
    ensures size <= TOP_BIT ==> size <= i
    ensures size > TOP_BIT ==> i == TOP_BIT
    ensures forall k: nat :: size <= Pow2(k) ==> i <= Pow2(k)
  {
    TopBitIsPow2();
    if size >= TOP_BIT {
      return TOP_BIT;
    }
    i := 1;
    ghost var e: nat := 0;
    while i < size
      invariant i == Pow2(e) && i <= TOP_BIT
      invariant forall k: nat :: size <= Pow2(k) ==> i <= Pow2(k)
      decreases TOP_BIT - i
    {
      forall k: nat | size <= Pow2(k)
        ensures 2 * i <= Pow2(k)
      {
        if k <= e { Pow2Monotone(k, e); } else { Pow2Monotone(e + 1, k); }
      }
      if e + 1 > 31 { Pow2Monotone(31, e); }
      Pow2Monotone(e + 1, 31);
      i := i * 2;
      e := e + 1;
    }
  }

  function Align8(s: nat): (r: nat)
    ensures r % 8 == 0 && s <= r < s + 8
  {
    if s % 8 == 0 then s else (s / 8 + 1) * 8
  }

  /** Bitwise conjunction of two unsigned words, bit by bit. */
  function BitAnd(a: nat, b: nat): nat {
    if a == 0 || b == 0 then 0 else 2 * BitAnd(a / 2, b / 2) + (a % 2) * (b % 2)
  }

  lemma {:induction false} ModPow2Unfold(h: nat, k: nat)
    requires k > 0
    ensures h % Pow2(k) == 2 * ((h / 2) % Pow2(k - 1)) + h % 2
  {
    var m := Pow2(k - 1);
    var q, r := (h / 2) / m, (h / 2) % m;
    assert h / 2 == q * m + r;
    assert h == Pow2(k) * q + (2 * r + h % 2);
    ModUnique(h, Pow2(k), q, 2 * r + h % 2);
  }

  lemma ModUnique(h: int, m: nat, q: int, r: int)
    requires m > 0 && h == m * q + r && 0 <= r < m
    ensures h % m == r && h / m == q
  {
    var d, rest := h / m, h % m;
    assert h == m * d + rest;
    assert m * (d - q) == r - rest by { MulDistributes(m, d, q); }
    if d > q { MulAtLeast(m, d - q); }
    if d < q { MulAtLeast(m, q - d); MulDistributes(m, q, d); }
  }

  lemma MulDistributes(m: int, a: int, b: int)
    ensures m * (a - b) == m * a - m * b
  {
  }

  lemma MulAtLeast(m: nat, k: nat)
    requires k >= 1
    ensures m * k >= m
  {
    assert m * k == m * (k - 1) + m;
  }

  /** Masking with a power of two minus one is reduction modulo that power. */
  lemma {:induction false} MaskIsMod(h: nat, k: nat)
    ensures BitAnd(h, Pow2(k) - 1) == h % Pow2(k)
  {
    if k == 0 {
    } else {
      var m := Pow2(k - 1);
      var mask := Pow2(k) - 1;
      assert mask == 2 * (m - 1) + 1;
      assert mask / 2 == m - 1 && mask % 2 == 1;
      ModPow2Unfold(h, k);
      MaskIsMod(h / 2, k - 1);
    }
  }

  /** First index of the block of `rank` when 0..n is cut into p blocks. */
  function BlockLow(rank: nat, p: nat, n: nat): nat
    requires p > 0
  {
    rank * n / p
  }

  /** A block begins at the rank's share of n, rounded down. */
  lemma BlockLowInNumbers(rank: nat, p: nat, n: nat)
    requires p > 0
    ensures BlockLow(rank, p, n) * p <= rank * n < (BlockLow(rank, p, n) + 1) * p
  {
    var x := rank * n;
    assert x == p * (x / p) + x % p;
    assert (x / p + 1) * p == p * (x / p) + p;
  }

  function BlockSize(rank: nat, p: nat, n: nat): int
    requires p > 0
  {
    BlockLow(rank + 1, p, n) - BlockLow(rank, p, n)
  }

  lemma DivMonotone(a: nat, b: nat, p: nat)
    requires p > 0 && a <= b
    ensures a / p <= b / p
  {
    var x, y := a / p, b / p;
    assert a == p * x + a % p && b == p * y + b % p;
    if x > y { MulAtLeast(p, x - y); MulDistributes(p, x, y); }
  }

  lemma BlockLowMonotone(r1: nat, r2: nat, p: nat, n: nat)
    requires p > 0 && r1 <= r2
    ensures BlockLow(r1, p, n) <= BlockLow(r2, p, n)
    ensures BlockLow(0, p, n) == 0 && BlockLow(p, p, n) == n
  {
    assert (r2 - r1) * n >= 0;
    assert r1 * n <= r2 * n;
    DivMonotone(r1 * n, r2 * n, p);
    ModUnique(p * n, p, n, 0);
  }

  /** Any two blocks differ in size by at most one element. */
  lemma BlocksBalanced(r1: nat, r2: nat, p: nat, n: nat)
    requires p > 0
    ensures BlockSize(r1, p, n) - BlockSize(r2, p, n) <= 1
  {
    BlockSizeBounds(r1, p, n);
    BlockSizeBounds(r2, p, n);
  }

  lemma BlockSizeBounds(r: nat, p: nat, n: nat)
    requires p > 0
    ensures n / p <= BlockSize(r, p, n) <= n / p + 1
  {
    var q, m := n / p, n % p;
    var a, am := r * n / p, (r * n) % p;
    assert n == p * q + m && r * n == p * a + am;
    assert (r + 1) * n == p * (a + q) + (am + m);
    if am + m < p {
      ModUnique((r + 1) * n, p, a + q, am + m);
    } else {
      ModUnique((r + 1) * n, p, a + q + 1, am + m - p);
    }
  }

  predicate InBlock(i: nat, rank: nat, p: nat, n: nat)
    requires p > 0
  {
    BlockLow(rank, p, n) <= i < BlockLow(rank + 1, p, n)
  }

  lemma {:induction false} BlockContaining(i: nat, p: nat, n: nat, from: nat) returns (r: nat)
    requires from < p && BlockLow(from, p, n) <= i < BlockLow(p, p, n)
    ensures r < p && InBlock(i, r, p, n)
    decreases p - from
  {
    if i < BlockLow(from + 1, p, n) {
      r := from;
    } else {
      assert from + 1 != p;
      r := BlockContaining(i, p, n, from + 1);
    }
  }

  lemma BlocksDisjoint(i: nat, r1: nat, r2: nat, p: nat, n: nat)
    requires p > 0 && InBlock(i, r1, p, n) && InBlock(i, r2, p, n)
    ensures r1 == r2
  {
    if r1 < r2 { BlockLowMonotone(r1 + 1, r2, p, n); }
    if r2 < r1 { BlockLowMonotone(r2 + 1, r1, p, n); }
  }

  /** Every index below n lies in exactly one of the p blocks. */
  lemma BlocksPartition(i: nat, p: nat, n: nat)
    requires p > 0 && i < n
    ensures exists r: nat :: r < p && InBlock(i, r, p, n)
    ensures forall r1: nat, r2: nat :: InBlock(i, r1, p, n) && InBlock(i, r2, p, n) ==> r1 == r2
  {
    BlockLowMonotone(0, 0, p, n);
    var r := BlockContaining(i, p, n, 0);
    forall r1: nat, r2: nat | InBlock(i, r1, p, n) && InBlock(i, r2, p, n)
      ensures r1 == r2
    {
      BlocksDisjoint(i, r1, r2, p, n);
    }
  }

  /** The products inside the macros stay below 2^32 for every batch that fits one package. */
  lemma BlockProductFits(rank: nat, n: nat)
    requires rank <= 16 && n <= 87380
    ensures rank * n < U32_LIMIT
  {
    assert rank * n <= 16 * n by { assert (16 - rank) * n >= 0; }
  }

  /** The block of `rank` as a slice of the batch. */
  function Block<T>(items: seq<T>, p: nat, rank: nat): (s: seq<T>)
    requires 0 <= rank < p
    ensures |s| == BlockSize(rank, p, |items|)
  {
    BlockLowMonotone(rank, rank + 1, p, |items|);
    BlockLowMonotone(rank + 1, p, p, |items|);
    items[BlockLow(rank, p, |items|)..BlockLow(rank + 1, p, |items|)]
  }

  /** Concatenation of the blocks of ranks below r. */
  function Blocks<T>(items: seq<T>, p: nat, r: nat): seq<T>
    requires r <= p && p > 0
  {
    if r == 0 then [] else Blocks(items, p, r - 1) + Block(items, p, r - 1)
  }

  lemma {:induction false} BlocksPrefix<T>(items: seq<T>, p: nat, r: nat)
    requires r <= p && p > 0
    ensures BlockLow(r, p, |items|) <= |items|
    ensures Blocks(items, p, r) == items[..BlockLow(r, p, |items|)]
  {
    BlockLowMonotone(r, p, p, |items|);
    if r > 0 {
      BlocksPrefix(items, p, r - 1);
      BlockLowMonotone(r - 1, r, p, |items|);
    }
  }

  /** The blocks of all p ranks, in order, make up the whole batch. */
  lemma BlocksCover<T>(items: seq<T>, p: nat)
    requires p > 0
    ensures Blocks(items, p, p) == items
  {
    BlocksPrefix(items, p, p);
    BlockLowMonotone(p, p, p, |items|);
    assert items[..|items|] == items;
  }
}
