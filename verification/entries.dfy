/** Keys, hash-table entries as they lie in MRAM, and the byte-level helpers on them. */
module Entries {
  import opened Util

  type Byte = b: int | -128 <= b < 128
  type Key = k: seq<Byte> | 1 <= |k| <= 15 witness [0]
  type KeyBuf = b: seq<Byte> | |b| == 16 witness [0, 0, 0, 0, 0, 0, 0, 0, 0, 0, 0, 0, 0, 0, 0, 0]
  type Addr = nat

  const NULL: Addr := 0
  const ENTRY_SIZE: nat := 40
  const DPU_SEED: nat := 3917
  const HOST_SEED: nat := 5381

  datatype Metadata = Metadata(kind: nat, id: nat)

  /** One entry: 16 key bytes of which keyLen count, a link, metadata and a value.
      keyLen 0 marks an empty bucket head. */
  datatype Entry = Entry(bytes: KeyBuf, keyLen: nat, next: Addr, meta: Metadata, val: nat)

  /** What an entry means to a caller. */
  datatype Rec = Rec(key: Key, val: nat, meta: Metadata)

  ghost predicate Stored(e: Entry, r: Rec) {
    1 <= e.keyLen <= 15 && e.bytes[..e.keyLen] == r.key && e.val == r.val && e.meta == r.meta
  }

  predicate Matches(e: Entry, key: Key) {
    e.keyLen == |key| && e.bytes[..|key|] == key
  }

  /** The key buffer after copying `key` and its terminator over it. */
  function StoreKey(buf: KeyBuf, key: Key): (r: KeyBuf)
    ensures r[..|key|] == key
  {
    key + [0] + buf[|key| + 1..]
  }

  /** Byte-wise copy of a key with its terminator; later bytes keep their old content. */
  method WramMemcpy(dest: KeyBuf, src: Key) returns (r: KeyBuf)
    ensures r == StoreKey(dest, src)
    ensures r[..|src|] == src && r[|src|] == 0 && r[|src| + 1..] == dest[|src| + 1..]
  {
    r := dest;
    for i := 0 to |src|
      invariant r[..i] == src[..i] && r[i..] == dest[i..]
    {
      r := r[i := src[i]];
    }
    assert r[|src| + 1..] == dest[|src| + 1..];
    r := r[|src| := 0];
  }

  method KeyCompare(e: Entry, key: Key) returns (same: bool)
    ensures same == Matches(e, key)
  {
    if e.keyLen != |key| {
      return false;
    }
    for i := 0 to |key|
      invariant e.bytes[..i] == key[..i]
    {
      if e.bytes[i] != key[i] {
        assert e.bytes[..|key|][i] != key[i];
        return false;
      }
    }
    assert key[..|key|] == key;
    return true;
  }

  /** hash * 33 + c over 32-bit words, from a running value. */
  function HashFrom(h: nat, bytes: seq<Byte>): (r: nat)
    requires h < U32_LIMIT
    ensures r < U32_LIMIT
    decreases |bytes|
  {
    if bytes == [] then h else HashFrom(Wrap(h * 33 + bytes[0]), bytes[1..])
  }

  method HashBytes(seed: nat, bytes: seq<Byte>) returns (h: nat)
    requires seed < U32_LIMIT
    ensures h == HashFrom(seed, bytes)
  {
    h := seed;
    for i := 0 to |bytes|
      invariant h < U32_LIMIT && HashFrom(h, bytes[i..]) == HashFrom(seed, bytes)
    {
      h := Wrap(h * 33 + bytes[i]);
      assert bytes[i..][1..] == bytes[i + 1..];
    }
  }

  function Pow33(n: nat): int {
    if n == 0 then 1 else 33 * Pow33(n - 1)
  }

  /** The bytes as the digits of a number to base 33, the last one counting once. */
  function Digits33(bytes: seq<Byte>): int {
    if bytes == [] then 0 else bytes[0] * Pow33(|bytes| - 1) + Digits33(bytes[1..])
  }

  /** The hash is a polynomial in 33, modulo 2^32: the seed times 33 to the key's length, plus the bytes as digits. */
  lemma {:induction false} HashIsPolynomial(h: nat, bytes: seq<Byte>)
    requires h < U32_LIMIT
    ensures HashFrom(h, bytes) == Wrap(h * Pow33(|bytes|) + Digits33(bytes))
    decreases |bytes|
  {
    if bytes == [] {
    } else {
      var c, p, rest := bytes[0], Pow33(|bytes| - 1), Digits33(bytes[1..]);
      HashIsPolynomial(Wrap(h * 33 + c), bytes[1..]);
      HornerStep(h, c, p, rest);
    }
  }

  lemma HornerStep(h: nat, c: int, p: int, rest: int)
    ensures Wrap(Wrap(h * 33 + c) * p + rest) == Wrap(h * (33 * p) + (c * p + rest))
  {
    hide Wrap;
    WrapLater(h * 33 + c, p, rest);
    assert (h * 33 + c) * p + rest == h * (33 * p) + (c * p + rest);
  }

  /** The bucket of a key in an index of `size` buckets. */
  function LocalBucket(key: Key, size: nat): (b: nat)
    requires size > 0
    ensures b < size
  {
    HashFrom(DPU_SEED, key) % size
  }

  /** The bucket in numbers: seed 3917, base 33. */
  lemma LocalBucketInNumbers(key: Key, size: nat)
    requires size > 0
    ensures LocalBucket(key, size) == (3917 * Pow33(|key|) + Digits33(key)) % 0x1_0000_0000 % size
  {
    HashIsPolynomial(DPU_SEED, key);
  }

  /** `hash & sizemask` is that bucket when the size is a power of two. */
  lemma MaskedHashIsLocalBucket(key: Key, size: nat)
    requires IsPow2(size)
    ensures BitAnd(HashFrom(DPU_SEED, key), size - 1) == LocalBucket(key, size)
  {
    var k: nat :| size == Pow2(k);
    MaskIsMod(HashFrom(DPU_SEED, key), k);
  }
}
