/** The block bitmap and its scan (kernel/fs.c). */
module FsBitmap {
  const BPB: nat := 8192

  function Mask(k: int): bv8
    requires 0 <= k < 8
  {
    if k == 0 then 1 else if k == 1 then 2 else if k == 2 then 4 else if k == 3 then 8
    else if k == 4 then 16 else if k == 5 then 32 else if k == 6 then 64 else 128
  }

  type Bitmap = seq<seq<bv8>>

  predicate Fits(bm: Bitmap, n: int) {
    n <= |bm| * BPB && forall j :: 0 <= j < |bm| ==> |bm[j]| == 1024
  }

  predicate BitOn(x: bv8, k: int)
    requires 0 <= k < 8
  {
    x & Mask(k) != 0
  }

  /** The position of b's bit in its byte. */
  function BitNo(b: int): int { b % BPB % 8 }

  function ByteOf(bm: Bitmap, n: int, b: int): bv8
    requires Fits(bm, n) && 0 <= b < n
  {
    bm[b / BPB][b % BPB / 8]
  }

  /** Bit b: byte (b % BPB) / 8 of bitmap block b / BPB. */
  predicate BitAt(bm: Bitmap, n: int, b: int)
    requires Fits(bm, n) && 0 <= b < n
  {
    BitOn(ByteOf(bm, n, b), BitNo(b))
  }

  ghost predicate Shows(bm: Bitmap, n: int, marked: set<int>) {
    Fits(bm, n) && forall b :: 0 <= b < n ==> (BitAt(bm, n, b) <==> b in marked)
  }

  /** data[bi / 8] |= m. */
  function SetIn(x: bv8, k: int): bv8
    requires 0 <= k < 8
  {
    x | Mask(k)
  }

  /** data[bi / 8] &= ~m. */
  function ClearIn(x: bv8, k: int): bv8
    requires 0 <= k < 8
  {
    x & !Mask(k)
  }

  lemma SetMask(x: bv8, j: int, k: int)
    requires 0 <= j < 8 && 0 <= k < 8
    ensures BitOn(SetIn(x, k), j) <==> j == k || BitOn(x, j)
  {
  }

  lemma ClearMask(x: bv8, j: int, k: int)
    requires 0 <= j < 8 && 0 <= k < 8
    ensures BitOn(ClearIn(x, k), j) <==> j != k && BitOn(x, j)
  {
  }

  function WithByte(bm: Bitmap, n: int, b: int, x: bv8): Bitmap
    requires Fits(bm, n) && 0 <= b < n
  {
    bm[b / BPB := bm[b / BPB][b % BPB / 8 := x]]
  }

  function SetBit(bm: Bitmap, n: int, b: int): Bitmap
    requires Fits(bm, n) && 0 <= b < n
  {
    WithByte(bm, n, b, SetIn(ByteOf(bm, n, b), BitNo(b)))
  }

  function ClearBit(bm: Bitmap, n: int, b: int): Bitmap
    requires Fits(bm, n) && 0 <= b < n
  {
    WithByte(bm, n, b, ClearIn(ByteOf(bm, n, b), BitNo(b)))
  }

  predicate SameByte(b: int, c: int) { b / BPB == c / BPB && b % BPB / 8 == c % BPB / 8 }

  lemma OneBit(b: int, c: int)
    requires 0 <= b && 0 <= c && SameByte(b, c)
    ensures BitNo(b) == BitNo(c) <==> b == c
  {
  }

  lemma ByteWritten(bm: Bitmap, n: int, b: int, x: bv8, c: int)
    requires Fits(bm, n) && 0 <= b < n && 0 <= c < n
    ensures Fits(WithByte(bm, n, b, x), n)
    ensures ByteOf(WithByte(bm, n, b, x), n, c) == if SameByte(b, c) then x else ByteOf(bm, n, c)
  {
  }

  lemma SharedByte(bm: Bitmap, n: int, b: int, c: int)
    requires Fits(bm, n) && 0 <= b < n && 0 <= c < n
    ensures SameByte(b, c) ==> ByteOf(bm, n, b) == ByteOf(bm, n, c)
    ensures b == c ==> SameByte(b, c)
  {
  }

  lemma SetBitAt(bm: Bitmap, n: int, b: int, c: int)
    requires Fits(bm, n) && 0 <= b < n && 0 <= c < n
    ensures Fits(SetBit(bm, n, b), n) && (BitAt(SetBit(bm, n, b), n, c) <==> c == b || BitAt(bm, n, c))
  {
    hide Fits, WithByte, ByteOf, SetIn, BitOn, SameByte;
    ByteWritten(bm, n, b, SetIn(ByteOf(bm, n, b), BitNo(b)), c);
    SetMask(ByteOf(bm, n, b), BitNo(c), BitNo(b));
    SharedByte(bm, n, b, c);
    if SameByte(b, c) { OneBit(b, c); }
  }

  lemma ClearBitAt(bm: Bitmap, n: int, b: int, c: int)
    requires Fits(bm, n) && 0 <= b < n && 0 <= c < n
    ensures Fits(ClearBit(bm, n, b), n) && (BitAt(ClearBit(bm, n, b), n, c) <==> c != b && BitAt(bm, n, c))
  {
    hide Fits, WithByte, ByteOf, ClearIn, BitOn, SameByte;
    ByteWritten(bm, n, b, ClearIn(ByteOf(bm, n, b), BitNo(b)), c);
    ClearMask(ByteOf(bm, n, b), BitNo(c), BitNo(b));
    SharedByte(bm, n, b, c);
    if SameByte(b, c) { OneBit(b, c); }
  }

  lemma SetShows(bm: Bitmap, n: int, marked: set<int>, b: int)
    requires Shows(bm, n, marked) && 0 <= b < n
    ensures Shows(SetBit(bm, n, b), n, marked + {b})
  {
    hide BitAt, SetBit, Fits;
    SetBitAt(bm, n, b, b);
    forall c | 0 <= c < n ensures BitAt(SetBit(bm, n, b), n, c) <==> c in marked + {b} { SetBitAt(bm, n, b, c); }
  }

  lemma ClearShows(bm: Bitmap, n: int, marked: set<int>, b: int)
    requires Shows(bm, n, marked) && 0 <= b < n
    ensures Shows(ClearBit(bm, n, b), n, marked - {b})
  {
    hide BitAt, ClearBit, Fits;
    ClearBitAt(bm, n, b, b);
    forall c | 0 <= c < n ensures BitAt(ClearBit(bm, n, b), n, c) <==> c in marked - {b} { ClearBitAt(bm, n, b, c); }
  }
}
