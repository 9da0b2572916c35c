/** Disk blocks as byte buffers: single bits of a bitmap byte, and the
    little-endian 32-bit words of an index block. */
module Blocks {
  const BSIZE := 1024
  const NINDIRECT := 256
  const UINT_LIMIT := 0x1_0000_0000

  datatype Option<+T> = None | Some(value: T)

  type byte = bv8
  type Block = s: seq<byte> | |s| == BSIZE witness seq(BSIZE, _ => 0)

  function ZeroBlock(): Block {
    seq(BSIZE, _ => 0)
  }

  // ---- bits ----

  /** The mask `1 << k` for a bit position inside a byte. */
  function Mask(k: nat): byte
    requires k < 8
  {
    if k == 0 then 1 else if k == 1 then 2 else if k == 2 then 4 else if k == 3 then 8
    else if k == 4 then 16 else if k == 5 then 32 else if k == 6 then 64 else 128
  }

  lemma MaskIs(k: nat)
    requires k < 8
    ensures Mask(k) == (1 as bv8) << k
  {
  }

  predicate HasBit(x: byte, k: nat)
    requires k < 8
  {
    x & Mask(k) != 0
  }

  function SetBit(x: byte, k: nat): (y: byte)
    requires k < 8
    ensures forall j: nat | j < 8 :: HasBit(y, j) <==> j == k || HasBit(x, j)
  {
    x | Mask(k)
  }

  function ClearBit(x: byte, k: nat): (y: byte)
    requires k < 8
    ensures forall j: nat | j < 8 :: HasBit(y, j) <==> j != k && HasBit(x, j)
  {
    x & !Mask(k)
  }

  lemma BitsDetermine(x: byte, y: byte)
    requires forall k: nat | k < 8 :: HasBit(x, k) == HasBit(y, k)
    ensures x == y
  {
    assert forall k: nat | k < 8 :: HasBit(x, k) == HasBit(y, k);
    assert HasBit(x, 0) == HasBit(y, 0) && HasBit(x, 1) == HasBit(y, 1) && HasBit(x, 2) == HasBit(y, 2) && HasBit(x, 3) == HasBit(y, 3);
    assert HasBit(x, 4) == HasBit(y, 4) && HasBit(x, 5) == HasBit(y, 5) && HasBit(x, 6) == HasBit(y, 6) && HasBit(x, 7) == HasBit(y, 7);
  }

  // ---- little-endian words ----

  type uint = x: int | 0 <= x < UINT_LIMIT

  function Bit(b: byte, k: nat): (d: nat)
    requires k < 8
    ensures d <= 1
  {
    if HasBit(b, k) then 1 else 0
  }

  /** The number whose binary digits are the bits of `b`. */
  function ByteVal(b: byte): (v: nat)
    ensures v < 256
  {
    Bit(b, 0) + 2 * (Bit(b, 1) + 2 * (Bit(b, 2) + 2 * (Bit(b, 3) +
    2 * (Bit(b, 4) + 2 * (Bit(b, 5) + 2 * (Bit(b, 6) + 2 * Bit(b, 7)))))))
  }

  /** Counting up in a byte is counting up in numbers. */
  lemma ByteValCounts(b: byte)
    ensures ByteVal(0) == 0
    ensures b != 255 ==> ByteVal(b + 1) == ByteVal(b) + 1
  {
  }

  function OfBits(b0: bool, b1: bool, b2: bool, b3: bool, b4: bool, b5: bool, b6: bool, b7: bool): byte {
    (if b0 then 1 else 0) | (if b1 then 2 else 0) | (if b2 then 4 else 0) | (if b3 then 8 else 0) |
    (if b4 then 16 else 0) | (if b5 then 32 else 0) | (if b6 then 64 else 0) | (if b7 then 128 else 0)
  }

  lemma BitsOf(b0: bool, b1: bool, b2: bool, b3: bool, b4: bool, b5: bool, b6: bool, b7: bool)
    ensures var b := OfBits(b0, b1, b2, b3, b4, b5, b6, b7);
            && HasBit(b, 0) == b0 && HasBit(b, 1) == b1 && HasBit(b, 2) == b2 && HasBit(b, 3) == b3
            && HasBit(b, 4) == b4 && HasBit(b, 5) == b5 && HasBit(b, 6) == b6 && HasBit(b, 7) == b7
  {
  }

  /** `v` halved `k` times. */
  function Half(v: nat, k: nat): nat {
    if k == 0 then v else Half(v, k - 1) / 2
  }

  /** Binary digit `k` of `v`. */
  function Digit(v: nat, k: nat): nat {
    Half(v, k) % 2
  }

  function ToByte(v: int): byte
    requires 0 <= v < 256
  {
    OfBits(Digit(v, 0) == 1, Digit(v, 1) == 1, Digit(v, 2) == 1, Digit(v, 3) == 1,
           Digit(v, 4) == 1, Digit(v, 5) == 1, Digit(v, 6) == 1, Digit(v, 7) == 1)
  }

  lemma HalfIs(v: nat, k: nat)
    ensures Half(v, 0) == v && Half(v, k) == Digit(v, k) + 2 * Half(v, k + 1) && Digit(v, k) <= 1
  {
  }

  /** A number below 256 is made of its eight binary digits. */
  lemma Digits(v: nat)
    requires v < 256
    ensures v == Digit(v, 0) + 2 * (Digit(v, 1) + 2 * (Digit(v, 2) + 2 * (Digit(v, 3) +
                 2 * (Digit(v, 4) + 2 * (Digit(v, 5) + 2 * (Digit(v, 6) + 2 * Digit(v, 7)))))))
    ensures forall k: nat :: Digit(v, k) <= 1
  {
    hide Digit, Half;
    HalfIs(v, 0);
    HalfIs(v, 1);
    HalfIs(v, 2);
    HalfIs(v, 3);
    HalfIs(v, 4);
    HalfIs(v, 5);
    HalfIs(v, 6);
    HalfIs(v, 7);
    forall k: nat ensures Digit(v, k) <= 1 {
      HalfIs(v, k);
    }
  }

  lemma BitOfByte(v: int, k: nat)
    requires 0 <= v < 256 && k < 8
    ensures Bit(ToByte(v), k) == Digit(v, k)
  {
    hide HasBit, OfBits, Digit;
    Digits(v);
    BitsOf(Digit(v, 0) == 1, Digit(v, 1) == 1, Digit(v, 2) == 1, Digit(v, 3) == 1,
           Digit(v, 4) == 1, Digit(v, 5) == 1, Digit(v, 6) == 1, Digit(v, 7) == 1);
    assert k == 0 || k == 1 || k == 2 || k == 3 || k == 4 || k == 5 || k == 6 || k == 7;
  }

  lemma ByteOf(v: int)
    requires 0 <= v < 256
    ensures ByteVal(ToByte(v)) == v
  {
    hide ToByte, Digit, Bit;
    Digits(v);
    BitOfByte(v, 0);
    BitOfByte(v, 1);
    BitOfByte(v, 2);
    BitOfByte(v, 3);
    BitOfByte(v, 4);
    BitOfByte(v, 5);
    BitOfByte(v, 6);
    BitOfByte(v, 7);
  }

  function Pow256(n: nat): (p: int)
    ensures p >= 1
  {
    if n == 0 then 1 else 0x100 * Pow256(n - 1)
  }

  /** The number in the bytes from `lo` up to `hi`, least significant first. */
  function Load(b: Block, lo: nat, hi: nat): (w: nat)
    requires lo <= hi <= BSIZE
    decreases hi - lo
  {
    if lo == hi then 0 else ByteVal(b[lo]) + 0x100 * Load(b, lo + 1, hi)
  }

  function Store(b: Block, lo: nat, hi: nat, w: nat): (b': Block)
    requires lo <= hi <= BSIZE
    decreases hi - lo
  {
    if lo == hi then b else Store(b[lo := ToByte(w % 0x100)], lo + 1, hi, w / 0x100)
  }

  lemma {:induction false} LoadBound(b: Block, lo: nat, hi: nat)
    requires lo <= hi <= BSIZE
    ensures Load(b, lo, hi) < Pow256(hi - lo)
    decreases hi - lo
  {
    hide ByteVal, ToByte;
    if lo < hi {
      LoadBound(b, lo + 1, hi);
    }
  }

  lemma {:induction false} StoreFrame(b: Block, lo: nat, hi: nat, w: nat)
    requires lo <= hi <= BSIZE
    ensures forall t | 0 <= t < BSIZE && !(lo <= t < hi) :: Store(b, lo, hi, w)[t] == b[t]
    decreases hi - lo
  {
    if lo < hi {
      StoreFrame(b[lo := ToByte(w % 0x100)], lo + 1, hi, w / 0x100);
    }
  }

  lemma {:induction false} LoadAfterStore(b: Block, lo: nat, hi: nat, w: nat)
    requires lo <= hi <= BSIZE && w < Pow256(hi - lo)
    ensures Load(Store(b, lo, hi, w), lo, hi) == w
    decreases hi - lo
  {
    hide ByteVal, ToByte;
    if lo < hi {
      ByteOf(w % 0x100);
      var b1 := b[lo := ToByte(w % 0x100)];
      LoadAfterStore(b1, lo + 1, hi, w / 0x100);
      StoreFrame(b1, lo + 1, hi, w / 0x100);
    }
  }

  lemma {:induction false} LoadFrame(b: Block, c: Block, lo: nat, hi: nat)
    requires lo <= hi <= BSIZE
    requires forall t | lo <= t < hi :: b[t] == c[t]
    ensures Load(b, lo, hi) == Load(c, lo, hi)
    decreases hi - lo
  {
    if lo < hi {
      LoadFrame(b, c, lo + 1, hi);
    }
  }

  lemma {:induction false} LoadOfZero(lo: nat, hi: nat)
    requires lo <= hi <= BSIZE
    ensures Load(ZeroBlock(), lo, hi) == 0
    decreases hi - lo
  {
    if lo < hi {
      LoadOfZero(lo + 1, hi);
    }
  }

  lemma Pow256Of4()
    ensures Pow256(4) == UINT_LIMIT
  {
    assert Pow256(2) == 0x1_0000;
  }

  /** Entry `j` of a block read as an array of `uint`. */
  function Word(b: Block, j: nat): (w: uint)
    requires j < NINDIRECT
  {
    LoadBound(b, 4 * j, 4 * j + 4);
    Pow256Of4();
    Load(b, 4 * j, 4 * j + 4)
  }

  function SetWord(b: Block, j: nat, w: uint): (b': Block)
    requires j < NINDIRECT
  {
    Store(b, 4 * j, 4 * j + 4, w)
  }

  lemma WordAfterSet(b: Block, j: nat, w: uint, k: nat)
    requires j < NINDIRECT && k < NINDIRECT
    ensures Word(SetWord(b, j, w), k) == if j == k then w else Word(b, k)
  {
    Pow256Of4();
    StoreFrame(b, 4 * j, 4 * j + 4, w);
    if j == k {
      LoadAfterStore(b, 4 * j, 4 * j + 4, w);
    } else {
      LoadFrame(b, SetWord(b, j, w), 4 * k, 4 * k + 4);
    }
  }

  lemma WordOfZero(k: nat)
    requires k < NINDIRECT
    ensures Word(ZeroBlock(), k) == 0
  {
    LoadOfZero(4 * k, 4 * k + 4);
  }

  /** A word is stored least significant byte first. */
  lemma WordBytes(b: Block, j: nat)
    requires j < NINDIRECT
    ensures Word(b, j) == ByteVal(b[4 * j]) + 0x100 * ByteVal(b[4 * j + 1]) +
                          0x1_0000 * ByteVal(b[4 * j + 2]) + 0x100_0000 * ByteVal(b[4 * j + 3])
  {
    hide ByteVal;
    var lo := 4 * j;
    assert Load(b, lo + 4, lo + 4) == 0;
    assert Load(b, lo + 3, lo + 4) == ByteVal(b[lo + 3]);
    assert Load(b, lo + 2, lo + 4) == ByteVal(b[lo + 2]) + 0x100 * Load(b, lo + 3, lo + 4);
    assert Load(b, lo + 1, lo + 4) == ByteVal(b[lo + 1]) + 0x100 * Load(b, lo + 2, lo + 4);
  }
}
