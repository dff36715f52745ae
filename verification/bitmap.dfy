/** A bitmap in MRAM behind a write-back window of 32 words. */
module Bitmap {
  import opened Util
  import opened Words

  const MAP_CACHE_SIZE: nat := 32
  const BITMAP_INIT_BUFFER_SIZE: nat := 16
  const BITMAP_SIZE_MAX: nat := 16 * 1024 * 1024 / 32
  const BITMAP_HEADER: nat := 24

  // --- Bits of words ------------------------------------------------------------------------

  /** The i-th bit of a sequence of words. */
  predicate BitAt(ws: seq<Word>, i: nat) {
    i / 32 < |ws| && Bit(ws[i / 32], i % 32)
  }

  /** The i-th bit in numbers: digit i % 32 of word i / 32. */
  lemma BitInNumbers(ws: seq<Word>, i: nat)
    ensures BitAt(ws, i) <==> i / 32 < |ws| && ws[i / 32] / Pow2(i % 32) % 2 == 1
  {
    hide Bit;
    if i / 32 < |ws| { BitIsDigit(ws[i / 32], i % 32); }
  }

  lemma SplitIndex(i: nat, j: nat)
    ensures i == j <==> i / 32 == j / 32 && i % 32 == j % 32
  {
  }

  function SetAt(ws: seq<Word>, i: nat): (r: seq<Word>)
    requires i / 32 < |ws|
    ensures |r| == |ws|
  {
    ws[i / 32 := With(ws[i / 32], Mask(i % 32))]
  }

  function ClearAt(ws: seq<Word>, i: nat): (r: seq<Word>)
    requires i / 32 < |ws|
    ensures |r| == |ws|
  {
    ws[i / 32 := Without(ws[i / 32], Mask(i % 32))]
  }

  lemma SetChangesOneBit(ws: seq<Word>, i: nat, j: nat)
    requires i / 32 < |ws|
    ensures BitAt(SetAt(ws, i), j) <==> j == i || BitAt(ws, j)
  {
    hide Bit, Mask, With, Without;
    SplitIndex(i, j);
    OneBit(ws[i / 32], i % 32, j % 32);
  }

  lemma ClearChangesOneBit(ws: seq<Word>, i: nat, j: nat)
    requires i / 32 < |ws|
    ensures BitAt(ClearAt(ws, i), j) <==> j != i && BitAt(ws, j)
  {
    hide Bit, Mask, With, Without;
    SplitIndex(i, j);
    OneBit(ws[i / 32], i % 32, j % 32);
  }

  /** Two views whose bits differ at i only, where the new one has the given value. */
  ghost predicate Changed(before: seq<Word>, after: seq<Word>, i: nat, value: bool) {
    |after| == |before| && forall j: nat :: BitAt(after, j) <==> if j == i then value else BitAt(before, j)
  }

  // --- Space --------------------------------------------------------------------------------

  /** Words the space computation reserves; it looks at the word count where the bit count was meant. */
  function ReservedWords(bits: nat): nat {
    var mapSize := bits / 32;
    if mapSize % 32 != 0 then mapSize + 1 else mapSize
  }

  function BitmapDpuSize(bits: nat): nat {
    BITMAP_HEADER + 4 * ReservedWords(bits)
  }

  /** Words that hold some of the bits. */
  function MapSize(bits: nat): nat {
    bits / 32 + if bits % 32 != 0 then 1 else 0
  }

  /** The words hold all the bits, and none of them is superfluous. */
  lemma MapSizeInNumbers(bits: nat)
    ensures bits <= 32 * MapSize(bits) < bits + 32
  {
  }

  /** Words clearing touches: whole buffers of 16. */
  function InitWords(bits: nat): nat {
    (MapSize(bits) + 15) / 16 * 16
  }

  /** Words the window moves over: whole windows of 32, and the first one even without bits. */
  function WindowWords(bits: nat): nat {
    if bits == 0 then MAP_CACHE_SIZE else (MapSize(bits) + 31) / 32 * 32
  }

  /** Clearing writes the bits' words in whole buffers of 16, and the window moves in steps of 32, over no more words
      than that takes. */
  lemma ExtentsInNumbers(bits: nat)
    ensures InitWords(bits) % 16 == 0 && MapSize(bits) <= InitWords(bits) < MapSize(bits) + 16
    ensures bits > 0 ==> WindowWords(bits) % 32 == 0 && MapSize(bits) <= WindowWords(bits) < MapSize(bits) + 32
    ensures WindowWords(0) == 32
  {
    hide MapSize;
  }

  /** First word of the window that holds bit i. */
  function WindowOf(i: nat): nat {
    i / 32 / MAP_CACHE_SIZE * MAP_CACHE_SIZE
  }

  lemma WindowBounds(bits: nat)
    ensures MAP_CACHE_SIZE <= WindowWords(bits) && MapSize(bits) <= InitWords(bits) <= WindowWords(bits)
  {
    assert bits > 0 ==> MapSize(bits) > 0;
    var m := MapSize(bits);
    hide MapSize;
    RoundedUp(m, 16);
    RoundedUp(m, 32);
    assert (m + 15) / 16 <= (m + 31) / 32 * 2;
  }

  lemma RoundedUp(m: nat, d: nat)
    requires d > 0
    ensures m <= (m + d - 1) / d * d < m + d
  {
    var n := m + d - 1;
    assert n == n / d * d + n % d;
  }

  lemma WindowHolds(bits: nat, i: nat)
    requires i < bits
    ensures WindowOf(i) <= i / 32 < WindowOf(i) + MAP_CACHE_SIZE <= WindowWords(bits)
            && WindowOf(i) % MAP_CACHE_SIZE == 0
  {
    var w := i / 32;
    assert w < MapSize(bits);
    assert w / 32 <= (MapSize(bits) - 1) / 32;
  }

  /** The reservation holds all the bits exactly when the bits fill their words or the whole words do not
      fill their windows. */
  lemma ReservedHoldsBitsIff(bits: nat)
    ensures ReservedWords(bits) >= MapSize(bits) <==> bits % 32 == 0 || (bits / 32) % 32 != 0
  {
  }

  /** The reservation covers every write-back exactly when there are bits and they fill all but less than a
      word of their last window. */
  lemma ReservedHoldsWindowsIff(bits: nat)
    ensures ReservedWords(bits) >= WindowWords(bits) <==> bits > 0 && (bits % 1024 == 0 || bits % 1024 >= 992)
  {
    hide ReservedWords, WindowWords;
    ReservedInWindow(bits / 1024, bits % 1024);
    WindowsOver(bits / 1024, bits % 1024);
  }

  lemma ReservedInWindow(q: nat, r: nat)
    requires r < 1024
    ensures ReservedWords(1024 * q + r) == 32 * q + r / 32 + if r / 32 != 0 then 1 else 0
  {
    assert (1024 * q + r) / 32 == 32 * q + r / 32;
    assert (32 * q + r / 32) % 32 == r / 32;
  }

  lemma WindowsOver(q: nat, r: nat)
    requires r < 1024
    ensures WindowWords(1024 * q + r) == if q == 0 && r == 0 then 32 else 32 * q + if r == 0 then 0 else 32
  {
    assert (1024 * q + r) / 32 == 32 * q + r / 32 && (1024 * q + r) % 32 == r % 32;
    var m := MapSize(1024 * q + r);
    assert r > 0 ==> 32 * q < m <= 32 * q + 32;
  }

  // --- The bitmap and its cache -------------------------------------------------------------

  datatype Head = Head(size: nat, firstAvail: nat, full: bool)

  /** Transfer of a whole buffer into MRAM. */
  method MramWrite(dest: array<Word>, at: nat, src: array<Word>)
    requires at + src.Length <= dest.Length && src != dest
    modifies dest
    ensures dest[..] == old(dest[..at]) + src[..] + old(dest[at + src.Length..])
  {
    forall k | 0 <= k < src.Length {
      dest[at + k] := src[k];
    }
  }

  /** Transfer of MRAM words into a whole buffer. */
  method MramRead(src: array<Word>, at: nat, dest: array<Word>)
    requires at + dest.Length <= src.Length && src != dest
    modifies dest
    ensures dest[..] == src[at..at + dest.Length]
  {
    forall k | 0 <= k < dest.Length {
      dest[k] := src[at + k];
    }
  }

  /** The first n words are 0. */
  ghost predicate ZeroUpTo(ws: seq<Word>, n: nat) {
    n <= |ws| && forall k :: 0 <= k < n ==> ws[k] == 0
  }

  lemma ZeroedOver(before: seq<Word>, at: nat, zeros: seq<Word>, after: seq<Word>)
    requires at + |zeros| <= |before| && after == before[..at] + zeros + before[at + |zeros|..]
    requires ZeroUpTo(before, at) && ZeroUpTo(zeros, |zeros|)
    ensures ZeroUpTo(after, at + |zeros|)
    ensures after[at + |zeros|..] == before[at..][|zeros|..]
  {
  }

  lemma ZeroBits(ws: seq<Word>, n: nat, bits: nat)
    requires ZeroUpTo(ws, n) && MapSize(bits) <= n
    ensures forall i :: 0 <= i < bits ==> !BitAt(ws, i)
  {
  }

  lemma ZeroBuffer(ws: seq<Word>)
    requires forall k :: 0 <= k < |ws| ==> ws[k] == 0
    ensures ZeroUpTo(ws, |ws|)
  {
  }

  lemma ZeroWords(ws: seq<Word>, n: nat)
    requires ZeroUpTo(ws, n)
    ensures n <= |ws| && forall k :: 0 <= k < n ==> ws[k] == 0
  {
  }

  lemma NoBuffers(bits: nat, ws: seq<Word>)
    ensures MapSize(bits) <= InitWords(bits) && ZeroUpTo(ws, 0)
  {
    hide MapSize;
    RoundedUp(MapSize(bits), 16);
  }

  lemma NextBuffer(bits: nat, n: nat)
    requires n % 16 == 0 && n < MapSize(bits)
    ensures n + 16 <= InitWords(bits) && (n + 16) % 16 == 0
  {
    hide MapSize;
    RoundedUp(MapSize(bits), 16);
  }

  lemma AllBuffers(bits: nat, n: nat)
    requires n % 16 == 0 && MapSize(bits) <= n <= InitWords(bits)
    ensures n == InitWords(bits)
  {
    hide MapSize;
    RoundedUp(MapSize(bits), 16);
  }

  /** The bitmap as it lies in MRAM. */
  class BitmapDpu {
    var head: Head
    var mapSize: nat
    const words: array<Word>

    /** Every window over the bitmap lies inside its words. */
    ghost predicate WindowsFit()
      reads this
    {
      WindowWords(head.size) <= words.Length
    }

    constructor (length: nat)
      ensures fresh(words) && words.Length == length
    {
      words := new Word[length];
      head := Head(0, 0, false);
      mapSize := 0;
    }

    /** Clears all bits and the head, or refuses a bitmap that is too large. */
    method Init(size: nat) returns (st: Status)
      requires size <= BITMAP_SIZE_MAX ==> InitWords(size) <= words.Length
      modifies this, words
      ensures st == Err <==> size > 524288
      ensures st == Err ==> head == old(head) && words[..] == old(words[..])
      ensures st == Ok ==> head == Head(size, 0, false) && mapSize == MapSize(size)
      ensures st == Ok ==> forall i :: 0 <= i < size ==> !BitAt(words[..], i)
      ensures st == Ok ==>
                InitWords(size) <= words.Length
                && (forall w :: 0 <= w < InitWords(size) ==> words[w] == 0)
                && words[InitWords(size)..] == old(words[InitWords(size)..])
    {
      hide InitWords, BitAt, ZeroUpTo;
      if size > BITMAP_SIZE_MAX {
        return Err;
      }
      NoBuffers(size, words[..]);
      head := Head(size, 0, false);
      mapSize := size / 32;
      if size % 32 != 0 {
        mapSize := mapSize + 1;
      }
      var zeros := new Word[BITMAP_INIT_BUFFER_SIZE](_ => 0);
      ZeroBuffer(zeros[..]);
      var initialized := 0;
      while initialized < mapSize
        invariant head == Head(size, 0, false) && mapSize == MapSize(size)
        invariant initialized % BITMAP_INIT_BUFFER_SIZE == 0
        invariant initialized <= InitWords(size)
        invariant initialized <= words.Length && ZeroUpTo(words[..], initialized)
        invariant words[initialized..] == old(words[..])[initialized..]
        invariant zeros.Length == BITMAP_INIT_BUFFER_SIZE && ZeroUpTo(zeros[..], zeros.Length)
      {
        ghost var before := words[..];
        NextBuffer(size, initialized);
        MramWrite(words, initialized, zeros);
        ZeroedOver(before, initialized, zeros[..], words[..]);
        initialized := initialized + BITMAP_INIT_BUFFER_SIZE;
      }
      AllBuffers(size, initialized);
      ZeroBits(words[..], initialized, size);
      ZeroWords(words[..], initialized);
      return Ok;
    }
  }

  /** The window over a bitmap: `window` holds the words from mapOffset on, and is newer than the bitmap's
      own words when `modified` is set. */
  class BitmapCache {
    var head: Head
    var mapOffset: nat
    var modified: bool
    const bitmap: BitmapDpu
    const window: array<Word>

    ghost predicate Valid()
      reads this, bitmap, bitmap.words, window
    {
      && window.Length == MAP_CACHE_SIZE && window != bitmap.words
      && mapOffset % MAP_CACHE_SIZE == 0 && mapOffset + MAP_CACHE_SIZE <= bitmap.words.Length
      && WindowWords(head.size) <= bitmap.words.Length
      && (!modified ==> bitmap.words[mapOffset..mapOffset + MAP_CACHE_SIZE] == window[..])
    }

    /** The combined view: the window's words from the cache, the rest from MRAM. */
    ghost function Words(): (r: seq<Word>)
      requires Valid()
      reads this, bitmap, bitmap.words, window
      ensures |r| == bitmap.words.Length
    {
      bitmap.words[..mapOffset] + window[..] + bitmap.words[mapOffset + MAP_CACHE_SIZE..]
    }

    /** The head fields say the truth about the bits: firstAvail is the least clear bit, or the size if there is
        none, and full marks a non-empty bitmap without a clear bit. */
    ghost predicate HeadOk()
      requires Valid()
      reads this, bitmap, bitmap.words, window
    {
      && head.firstAvail <= head.size
      && (forall i :: 0 <= i < head.firstAvail ==> BitAt(Words(), i))
      && (head.firstAvail < head.size ==> !BitAt(Words(), head.firstAvail))
      && (head.full <==> head.size > 0 && head.firstAvail == head.size)
    }

    /** In every state the full flag tells whether there is a clear bit exactly when the bitmap is not empty. */
    lemma FullIff()
      requires Valid() && HeadOk()
      ensures (head.full <==> forall i :: 0 <= i < head.size ==> BitAt(Words(), i)) <==> head.size > 0
    {
      hide BitAt, WindowWords;
    }

    /** Loads the head and the first window. */
    constructor (bitmap: BitmapDpu)
      requires bitmap.WindowsFit()
      ensures Valid() && this.bitmap == bitmap && fresh(window) && !modified
      ensures head == bitmap.head && Words() == bitmap.words[..]
      ensures head == Head(head.size, 0, false) && (forall i :: 0 <= i < head.size ==> !BitAt(Words(), i)) ==> HeadOk()
    {
      WindowBounds(bitmap.head.size);
      hide WindowWords, BitAt;
      head := bitmap.head;
      mapOffset := 0;
      modified := false;
      this.bitmap := bitmap;
      window := new Word[MAP_CACHE_SIZE];
      new;
      MramRead(bitmap.words, 0, window);
    }

    /** Position of bit i's word in the window, moved there first when necessary. The combined view stays. */
    method Hit(i: nat) returns (index: nat)
      requires Valid() && i < head.size
      modifies this`mapOffset, this`modified, window, bitmap.words
      ensures Valid() && Words() == old(Words())
      ensures index < MAP_CACHE_SIZE && mapOffset + index == i / 32
    {
      WindowHolds(head.size, i);
      hide Meets, Mask, WindowWords;
      var word := i / 32;
      if word < mapOffset || word >= mapOffset + MAP_CACHE_SIZE {
        if modified {
          WriteBack();
        }
        Load(word / MAP_CACHE_SIZE * MAP_CACHE_SIZE);
      }
      index := word - mapOffset;
    }

    /** Fetches the window at an offset over a window that needs no writing back. */
    method Load(offset: nat)
      requires Valid() && !modified && offset % MAP_CACHE_SIZE == 0 && offset + MAP_CACHE_SIZE <= bitmap.words.Length
      modifies this`mapOffset, window
      ensures Valid() && !modified && mapOffset == offset && Words() == old(Words())
    {
      hide WindowWords;
      CleanWords();
      MramRead(bitmap.words, offset, window);
      mapOffset := offset;
      CleanWords();
    }

    lemma CleanWords()
      requires Valid() && !modified
      ensures Words() == bitmap.words[..]
    {
    }

    /** Writes the whole window back. */
    method WriteBack()
      requires Valid()
      modifies this`modified, bitmap.words
      ensures Valid() && !modified && Words() == old(Words()) && bitmap.words[..] == Words()
    {
      hide WindowWords;
      MramWrite(bitmap.words, mapOffset, window);
      modified := false;
    }

    method Test(i: nat) returns (isSet: bool)
      requires Valid() && i < head.size
      modifies this`mapOffset, this`modified, window, bitmap.words
      ensures Valid() && Words() == old(Words())
      ensures isSet <==> BitAt(Words(), i)
    {
      hide WindowWords;
      var index := Hit(i);
      isSet := Meets(window[index], Mask(i % 32));
    }

    /** Changes one word of the window. */
    method Store(i: nat, index: nat, word: Word)
      requires Valid() && index < MAP_CACHE_SIZE && mapOffset + index == i / 32
      modifies this`modified, window
      ensures Valid() && i / 32 < |old(Words())| && Words() == old(Words())[i / 32 := word]
    {
      hide WindowWords;
      window[index] := word;
      modified := true;
    }

    /** Sets bit i of the combined view and no other, and finds the next clear bit when the least one was taken. */
    method Set(i: nat) returns (st: Status)
      requires Valid() && HeadOk()
      modifies this`head, this`mapOffset, this`modified, window, bitmap.words
      ensures Valid() && HeadOk() && head.size == old(head.size)
      ensures st == Err <==> i >= head.size
      ensures st == Err ==> head == old(head) && Words() == old(Words())
      ensures st == Ok ==> Changed(old(Words()), Words(), i, true)
    {
      hide BitAt, WindowWords;
      if i >= head.size {
        return Err;
      }
      SetWord(i);
      if head.firstAvail == i {
        Rescan(i);
      }
      return Ok;
    }

    /** The scan from a position up to which all bits are set: firstAvail and full are right afterwards. */
    method Rescan(from: nat)
      requires Valid() && from < head.size && !head.full
      requires forall j :: 0 <= j < from ==> BitAt(Words(), j)
      modifies this`head, this`mapOffset, this`modified, window, bitmap.words
      ensures Valid() && HeadOk() && head.size == old(head.size) && Words() == old(Words())
    {
      hide BitAt, WindowWords;
      var i := from;
      head := head.(firstAvail := head.size);
      while i < head.size
        invariant Valid() && Words() == old(Words()) && from <= i <= head.size
        invariant head == old(head).(firstAvail := old(head.size))
        invariant forall j :: 0 <= j < i ==> BitAt(Words(), j)
      {
        var isSet := Test(i);
        if !isSet {
          head := head.(firstAvail := i);
          break;
        }
        i := i + 1;
      }
      if head.firstAvail == head.size {
        head := head.(full := true);
      }
    }

    /** Clears bit i of the combined view and no other; a bit that is clear already is an error. */
    method Clear(i: nat) returns (st: Status)
      requires Valid() && HeadOk()
      modifies this`head, this`mapOffset, this`modified, window, bitmap.words
      ensures Valid() && HeadOk() && head.size == old(head.size)
      ensures st == Err <==> i >= head.size || !BitAt(old(Words()), i)
      ensures st == Err ==> head == old(head) && Words() == old(Words())
      ensures st == Ok ==> Changed(old(Words()), Words(), i, false)
    {
      hide BitAt, WindowWords;
      if i >= head.size {
        return Err;
      }
      ghost var before := Words();
      var isSet := Test(i);
      if !isSet {
        return Err;
      }
      ClearWord(i);
      head := head.(full := false);
      if i < head.firstAvail {
        head := head.(firstAvail := i);
      }
      return Ok;
    }

    /** Clears one bit of the word in the window. */
    method ClearWord(i: nat)
      requires Valid() && i < head.size
      modifies this`mapOffset, this`modified, window, bitmap.words
      ensures Valid() && Changed(old(Words()), Words(), i, false)
    {
      hide BitAt, Without, Mask, WindowWords;
      ghost var before := Words();
      var index := Hit(i);
      Store(i, index, Without(window[index], Mask(i % 32)));
      assert Words() == ClearAt(before, i);
      forall j: nat ensures BitAt(Words(), j) <==> j != i && BitAt(before, j) {
        ClearChangesOneBit(before, i, j);
      }
    }

    /** Sets one bit of the word in the window. */
    method SetWord(i: nat)
      requires Valid() && i < head.size
      modifies this`mapOffset, this`modified, window, bitmap.words
      ensures Valid() && Changed(old(Words()), Words(), i, true)
    {
      hide BitAt, With, Mask, WindowWords;
      ghost var before := Words();
      var index := Hit(i);
      Store(i, index, With(window[index], Mask(i % 32)));
      assert Words() == SetAt(before, i);
      forall j: nat ensures BitAt(Words(), j) <==> j == i || BitAt(before, j) {
        SetChangesOneBit(before, i, j);
      }
    }

    /** Writes head and window back. */
    method Save()
      requires Valid()
      modifies this`modified, bitmap`head, bitmap.words
      ensures Valid() && !modified && Words() == old(Words()) && head == old(head)
      ensures bitmap.words[..] == Words() && bitmap.head == head
    {
      hide WindowWords;
      bitmap.head := head;
      WriteBack();
    }

    /** Saving and loading again gives a cache with the same head and the same combined view. */
    method SaveAndReload() returns (reloaded: BitmapCache)
      requires Valid() && HeadOk()
      modifies this`modified, bitmap`head, bitmap.words
      ensures reloaded.Valid() && reloaded.HeadOk() && reloaded.bitmap == bitmap && reloaded.head == old(head)
              && reloaded.Words() == old(Words())
    {
      Save();
      reloaded := new BitmapCache(bitmap);
    }
  }
}
