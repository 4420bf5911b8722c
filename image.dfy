// The pixel surface RePiImage: a byte buffer addressed by pitch arithmetic,
// with bounds-checked pixel reads and writes, a row-replicating clear, and the
// BMP row, padding and mask arithmetic of Encode/Decode.

module Imaging {
  import opened Base

  // ---------------------------------------------------------------------
  // Byte-buffer helpers.  A byte index past the end of the buffer is
  // undefined behaviour in the source; the model reads such a byte as 0 and
  // drops such a write.
  // ---------------------------------------------------------------------

  function ByteAt(buf: seq<bv8>, i: int): bv8
  {
    if 0 <= i < |buf| then buf[i] else 0
  }

  /** Store one byte; a store outside the buffer is dropped. */
  function Poke(buf: seq<bv8>, i: int, v: bv8): (r: seq<bv8>)
    ensures |r| == |buf|
  {
    if 0 <= i < |buf| then buf[i := v] else buf
  }

  /** memcpy of `bytes` to offset `at`; bytes that fall outside are dropped. */
  function Splice(buf: seq<bv8>, at: nat, bytes: seq<bv8>): (r: seq<bv8>)
    ensures |r| == |buf|
    ensures at + |bytes| <= |buf| ==> r == buf[..at] + bytes + buf[at + |bytes|..]
  {
    if at + |bytes| <= |buf| then buf[..at] + bytes + buf[at + |bytes|..]
    else if at < |buf| then buf[..at] + bytes[..|buf| - at]
    else buf
  }

  /** std::vector::resize: keeps the common prefix and zero-fills the rest. */
  function Resized(buf: seq<bv8>, n: nat): (r: seq<bv8>)
    ensures |r| == n
    ensures forall i :: 0 <= i < n ==> r[i] == (if i < |buf| then buf[i] else 0)
  {
    if n <= |buf| then buf[..n] else buf + seq(n - |buf|, _ => 0)
  }

  /** `s` concatenated `n` times. */
  function Repeat(s: seq<bv8>, n: nat): (r: seq<bv8>)
    ensures |r| == n * |s|
  {
    if n == 0 then [] else Repeat(s, n - 1) + s
  }

  // ---------------------------------------------------------------------
  // Pixel addressing.
  // ---------------------------------------------------------------------

  predicate InImage(w: int, h: int, x: int, y: int)
  {
    0 <= x < w && 0 <= y < h
  }

  /** Byte offset of pixel (x, y): y * pitch + x * bytesPerPixel. */
  function PixelOffset(w: nat, bpp: nat, x: nat, y: nat): nat
  {
    y * (w * bpp) + x * bpp
  }

  lemma PixelInBuffer(w: nat, h: nat, bpp: nat, x: nat, y: nat)
    requires InImage(w, h, x, y)
    ensures PixelOffset(w, bpp, x, y) + bpp <= w * bpp * h
  {
    var p := w * bpp;
    MulSucc(x, bpp);
    MulLe(x + 1, w, bpp);
    MulSucc(y, p);
    MulLe(y + 1, h, p);
    MulComm(p, h);
  }

  /** Pixels that differ start at least one pixel apart. */
  lemma PixelsApart(w: nat, h: nat, bpp: nat, x: nat, y: nat, x': nat, y': nat)
    requires InImage(w, h, x, y) && InImage(w, h, x', y')
    requires (x, y) != (x', y')
    ensures PixelOffset(w, bpp, x, y) + bpp <= PixelOffset(w, bpp, x', y')
         || PixelOffset(w, bpp, x', y') + bpp <= PixelOffset(w, bpp, x, y)
  {
    if y == y' {
      if x < x' {
        RowApart(bpp, x, x');
      } else {
        RowApart(bpp, x', x);
      }
    } else if y < y' {
      RowsApart(w, bpp, x, y, x', y');
    } else {
      RowsApart(w, bpp, x', y', x, y);
    }
  }

  lemma RowApart(bpp: nat, x: nat, x': nat)
    requires x < x'
    ensures x * bpp + bpp <= x' * bpp
  {
    MulSucc(x, bpp);
    MulLe(x + 1, x', bpp);
  }

  lemma RowsApart(w: nat, bpp: nat, x: nat, y: nat, x': nat, y': nat)
    requires x < w && y < y'
    ensures PixelOffset(w, bpp, x, y) + bpp <= PixelOffset(w, bpp, x', y')
  {
    var p := w * bpp;
    MulSucc(x, bpp);
    MulLe(x + 1, w, bpp);
    MulSucc(y, p);
    MulLe(y + 1, y', p);
  }

  /** The colour whose bytes b, g, r (and a when bpp >= 4) start at o. */
  function LoadColor(buf: seq<bv8>, o: nat, bpp: nat): Color
  {
    Color(ByteAt(buf, o + 2), ByteAt(buf, o + 1), ByteAt(buf, o),
          if bpp >= 4 then ByteAt(buf, o + 3) else 255)
  }

  /** Number of bytes a pixel write stores: b, g, r, and a when bpp >= 4. */
  function WriteWidth(bpp: nat): nat
  {
    if bpp >= 4 then 4 else 3
  }

  /** Stores c's bytes b, g, r (and a when bpp >= 4) from offset o on. */
  function StoreColor(buf: seq<bv8>, o: nat, bpp: nat, c: Color): (r: seq<bv8>)
    ensures |r| == |buf|
  {
    var r3 := Poke(Poke(Poke(buf, o, c.b), o + 1, c.g), o + 2, c.r);
    if bpp >= 4 then Poke(r3, o + 3, c.a) else r3
  }

  lemma StoreColorBytes(buf: seq<bv8>, o: nat, bpp: nat, c: Color)
    requires o + WriteWidth(bpp) <= |buf|
    ensures var r := StoreColor(buf, o, bpp, c);
            && r[o] == c.b && r[o + 1] == c.g && r[o + 2] == c.r
            && (bpp >= 4 ==> r[o + 3] == c.a)
            && forall i :: 0 <= i < |buf| && !(o <= i < o + WriteWidth(bpp)) ==> r[i] == buf[i]
  {
  }

  /**
   * The colour stored at (x, y): bytes b, g, r, then a when a pixel has at
   * least 4 bytes, else alpha 255.  An empty buffer or an out-of-range
   * coordinate reads as Black.
   */
  function ReadPixel(buf: seq<bv8>, w: nat, h: nat, bpp: nat, x: int, y: int): (c: Color)
    ensures |buf| == 0 || !InImage(w, h, x, y) ==> c == Black
    ensures bpp < 4 ==> c.a == 255
  {
    if |buf| == 0 || !InImage(w, h, x, y) then Black
    else LoadColor(buf, PixelOffset(w, bpp, x, y), bpp)
  }

  /**
   * The buffer after writing c at (x, y): b, g, r (and a when bpp >= 4) from
   * the pixel's offset on.  An empty buffer or an out-of-range coordinate is
   * left as it is.
   */
  function WritePixel(buf: seq<bv8>, w: nat, h: nat, bpp: nat, c: Color, x: int, y: int): (r: seq<bv8>)
    ensures |r| == |buf|
    ensures |buf| == 0 || !InImage(w, h, x, y) ==> r == buf
  {
    if |buf| == 0 || !InImage(w, h, x, y) then buf
    else StoreColor(buf, PixelOffset(w, bpp, x, y), bpp, c)
  }

  /**
   * A write stores the colour's bytes at the pixel's offset and changes no
   * other byte.
   */
  lemma WritePixelBytes(buf: seq<bv8>, w: nat, h: nat, bpp: nat, c: Color, x: nat, y: nat)
    requires |buf| == w * bpp * h && bpp >= 3 && InImage(w, h, x, y)
    ensures var r := WritePixel(buf, w, h, bpp, c, x, y);
            var o := PixelOffset(w, bpp, x, y);
            && o + WriteWidth(bpp) <= |buf|
            && r[o] == c.b && r[o + 1] == c.g && r[o + 2] == c.r
            && (bpp >= 4 ==> r[o + 3] == c.a)
            && forall i :: 0 <= i < |buf| && !(o <= i < o + WriteWidth(bpp)) ==> r[i] == buf[i]
  {
    var o := PixelOffset(w, bpp, x, y);
    PixelInBuffer(w, h, bpp, x, y);
    assert o + WriteWidth(bpp) <= |buf|;
    assert WritePixel(buf, w, h, bpp, c, x, y) == StoreColor(buf, o, bpp, c);
    StoreColorBytes(buf, o, bpp, c);
  }

  /**
   * Reading a pixel back after writing it gives the colour written, with
   * alpha forced to 255 for 3-byte pixels.
   */
  lemma ReadAfterWrite(buf: seq<bv8>, w: nat, h: nat, bpp: nat, c: Color, x: nat, y: nat)
    requires |buf| == w * bpp * h && bpp >= 3 && InImage(w, h, x, y)
    ensures ReadPixel(WritePixel(buf, w, h, bpp, c, x, y), w, h, bpp, x, y)
         == if bpp >= 4 then c else c.(a := 255)
  {
    PixelInBuffer(w, h, bpp, x, y);
  }

  /** Writing one pixel leaves every other pixel's colour as it was. */
  lemma ReadOtherAfterWrite(buf: seq<bv8>, w: nat, h: nat, bpp: nat, c: Color,
                            x: nat, y: nat, x': nat, y': nat)
    requires |buf| == w * bpp * h && bpp >= 3
    requires InImage(w, h, x, y) && (x', y') != (x, y)
    ensures ReadPixel(WritePixel(buf, w, h, bpp, c, x, y), w, h, bpp, x', y')
         == ReadPixel(buf, w, h, bpp, x', y')
  {
    if InImage(w, h, x', y') {
      PixelInBuffer(w, h, bpp, x, y);
      PixelInBuffer(w, h, bpp, x', y');
      PixelsApart(w, h, bpp, x, y, x', y');
      WritePixelBytes(buf, w, h, bpp, c, x, y);
    }
  }

  // ---------------------------------------------------------------------
  // Repetition, used to state what Clear leaves in the buffer.
  // ---------------------------------------------------------------------

  lemma {:induction false} RepeatBlock(s: seq<bv8>, n: nat, k: nat)
    requires k < n
    ensures k * |s| + |s| <= n * |s|
    ensures Repeat(s, n)[k * |s| .. k * |s| + |s|] == s
  {
    MulSucc(k, |s|);
    MulLe(k + 1, n, |s|);
    MulSucc(n - 1, |s|);
    assert Repeat(s, n) == Repeat(s, n - 1) + s;
    if k < n - 1 {
      RepeatBlock(s, n - 1, k);
    }
  }

  /**
   * In a cleared buffer every pixel holds the clear pattern: pixel (x, y) of
   * Repeat(Repeat(pattern, w), h) is `pattern`.
   */
  lemma ClearedPixel(pattern: seq<bv8>, w: nat, h: nat, x: nat, y: nat)
    requires InImage(w, h, x, y)
    ensures var bpp := |pattern|;
            var o := PixelOffset(w, bpp, x, y);
            o + bpp <= |Repeat(Repeat(pattern, w), h)|
            && Repeat(Repeat(pattern, w), h)[o .. o + bpp] == pattern
  {
    var bpp := |pattern|;
    var row := Repeat(pattern, w);
    RepeatBlock(row, h, y);
    RepeatBlock(pattern, w, x);
    SliceOfSlice(Repeat(row, h), y * |row|, |row|, x * bpp, bpp);
  }

  lemma SliceOfSlice(s: seq<bv8>, a: nat, len: nat, b: nat, n: nat)
    requires a + len <= |s| && b + n <= len
    ensures s[a + b .. a + b + n] == s[a .. a + len][b .. b + n]
  {
    var l := s[a + b .. a + b + n];
    var r := s[a .. a + len][b .. b + n];
    assert |l| == |r|;
    forall i | 0 <= i < n
      ensures l[i] == r[i]
    {
      assert l[i] == s[a + b + i];
      assert r[i] == s[a .. a + len][b + i] == s[a + b + i];
    }
  }

  // ---------------------------------------------------------------------
  // countTrailingZeros.
  // ---------------------------------------------------------------------

  predicate BitSet(v: bv32, i: nat)
    requires i < 32
  {
    (v >> i) & 1 == 1
  }

  /** The index of the lowest set bit of v at or above i, or 32 if none. */
  function LowestSetBitFrom(v: bv32, i: nat): (r: nat)
    requires i <= 32
    ensures i <= r <= 32
    decreases 32 - i
  {
    if i == 32 then 32
    else if BitSet(v, i) then i
    else LowestSetBitFrom(v, i + 1)
  }

  /** The number of trailing zero bits of v (32 for 0). */
  function TrailingZeros(v: bv32): nat
  {
    LowestSetBitFrom(v, 0)
  }

  lemma {:induction false} LowestSetBitFromIsLowest(v: bv32, i: nat)
    requires i <= 32
    ensures var r := LowestSetBitFrom(v, i);
            && (r < 32 ==> BitSet(v, r))
            && forall j :: i <= j < r ==> !BitSet(v, j)
    decreases 32 - i
  {
    if i < 32 && !BitSet(v, i) {
      LowestSetBitFromIsLowest(v, i + 1);
    }
  }

  lemma NoBitSet(v: bv32)
    requires forall j :: 0 <= j < 32 ==> !BitSet(v, j)
    ensures v == 0
  {
    assert !BitSet(v, 0) && !BitSet(v, 1) && !BitSet(v, 2) && !BitSet(v, 3);
    assert !BitSet(v, 4) && !BitSet(v, 5) && !BitSet(v, 6) && !BitSet(v, 7);
    assert !BitSet(v, 8) && !BitSet(v, 9) && !BitSet(v, 10) && !BitSet(v, 11);
    assert !BitSet(v, 12) && !BitSet(v, 13) && !BitSet(v, 14) && !BitSet(v, 15);
    assert !BitSet(v, 16) && !BitSet(v, 17) && !BitSet(v, 18) && !BitSet(v, 19);
    assert !BitSet(v, 20) && !BitSet(v, 21) && !BitSet(v, 22) && !BitSet(v, 23);
    assert !BitSet(v, 24) && !BitSet(v, 25) && !BitSet(v, 26) && !BitSet(v, 27);
    assert !BitSet(v, 28) && !BitSet(v, 29) && !BitSet(v, 30) && !BitSet(v, 31);
  }

  /**
   * TrailingZeros(v) is the index of the lowest set bit of v, and it is 32
   * exactly when v is 0.
   */
  lemma TrailingZerosIsLowestSetBit(v: bv32)
    ensures var r := TrailingZeros(v);
            && r <= 32
            && (r < 32 ==> BitSet(v, r))
            && (forall j :: 0 <= j < r ==> !BitSet(v, j))
            && (r == 32 <==> v == 0)
  {
    LowestSetBitFromIsLowest(v, 0);
    if TrailingZeros(v) == 32 {
      NoBitSet(v);
    }
  }

  /** A set bit with only clear bits below it is the trailing-zero count. */
  lemma TrailingZerosAt(v: bv32, k: nat)
    requires k < 32 && BitSet(v, k)
    requires forall j :: 0 <= j < k ==> !BitSet(v, j)
    ensures TrailingZeros(v) == k
  {
    TrailingZerosIsLowestSetBit(v);
  }

  /** countTrailingZeros: scans the bits from the least significant up. */
  method CountTrailingZeros(value: bv32) returns (r: nat)
    ensures r == TrailingZeros(value)
  {
    var i := 0;
    while i < 32
      invariant 0 <= i <= 32
      invariant LowestSetBitFrom(value, i) == TrailingZeros(value)
    {
      if (value >> i) & 1 == 1 {
        return i;
      }
      i := i + 1;
    }
    return 32;
  }

  // ---------------------------------------------------------------------
  // BMP arithmetic.
  // ---------------------------------------------------------------------

  const BmpSignature: nat := 0x4D42
  /** sizeof(BMPHeader) + sizeof(DIBHeader), both packed. */
  const BmpHeaderBytes: nat := 14
  const DibHeaderBytes: nat := 40
  const MaskHeaderBytes: nat := 16

  const RedMaskDefault: bv32 := 0x00FF_0000
  const GreenMaskDefault: bv32 := 0x0000_FF00
  const BlueMaskDefault: bv32 := 0x0000_00FF
  const AlphaMaskDefault: bv32 := 0xFF00_0000

  datatype Masks = Masks(red: bv32, green: bv32, blue: bv32, alpha: bv32)

  /**
   * The fields of a BMP file that Encode writes and Decode reads.  The file
   * width is modelled as non-negative.  `storedMasks` are the 16 bytes after
   * the DIB header read as a mask header; `pixelData` are the bytes from
   * offsetData on.
   */
  datatype BmpFile = BmpFile(
    signature: nat,
    fileSize: nat,
    offsetData: nat,
    headerSize: nat,
    width: nat,
    height: int,
    planes: nat,
    bitsPerPixel: nat,
    compression: nat,
    imageSize: int,
    storedMasks: Masks,
    pixelData: seq<bv8>)

  /**
   * A BMP row of n payload bytes padded to a multiple of 4: (n + 3) & ~3.
   * Clearing the two low bits of n + 3 rounds it down to a multiple of 4.
   */
  function RowSize(n: nat): (r: nat)
    ensures r % 4 == 0 && n <= r < n + 4
  {
    (n + 3) / 4 * 4
  }

  /** Bytes of padding after each row of n payload bytes. */
  function Padding(n: nat): (p: nat)
    ensures p < 4 && (n + p) % 4 == 0
  {
    RowSize(n) - n
  }

  /**
   * The stored row that holds output row y of an image h rows tall: a
   * positive stored height means bottom-up rows, otherwise top-down.
   */
  function SourceRow(y: nat, h: nat, storedHeight: int): (r: nat)
    requires y < h
    ensures r < h
    ensures storedHeight > 0 ==> r + y == h - 1
    ensures storedHeight <= 0 ==> r == y
  {
    if storedHeight > 0 then h - 1 - y else y
  }

  /** The row flip is its own inverse. */
  lemma SourceRowInvolution(y: nat, h: nat, storedHeight: int)
    requires y < h
    ensures SourceRow(SourceRow(y, h, storedHeight), h, storedHeight) == y
  {
  }

  /** Decode accepts a BMP signature, at least 8 bits, compression 0 or 3. */
  predicate Supported(f: BmpFile)
  {
    f.signature == BmpSignature && f.bitsPerPixel >= 8
    && (f.compression == 0 || f.compression == 3)
  }

  /**
   * Uncompressed files use the default masks of as many channels as the
   * depth holds; bit-field files use the stored masks when the DIB header
   * is large enough to include them, and no masks otherwise.
   */
  function DecodeMasks(f: BmpFile): (m: Masks)
    ensures f.compression == 0 ==>
      && (m.red != 0 <==> f.bitsPerPixel >= 8)
      && (m.green != 0 <==> f.bitsPerPixel >= 16)
      && (m.blue != 0 <==> f.bitsPerPixel >= 24)
      && (m.alpha != 0 <==> f.bitsPerPixel >= 32)
    ensures f.compression != 0 && f.headerSize < DibHeaderBytes + MaskHeaderBytes ==> m == Masks(0, 0, 0, 0)
  {
    if f.compression == 0 then
      Masks(if f.bitsPerPixel >= 8 then RedMaskDefault else 0,
            if f.bitsPerPixel >= 16 then GreenMaskDefault else 0,
            if f.bitsPerPixel >= 24 then BlueMaskDefault else 0,
            if f.bitsPerPixel >= 32 then AlphaMaskDefault else 0)
    else if f.headerSize >= DibHeaderBytes + MaskHeaderBytes then f.storedMasks
    else Masks(0, 0, 0, 0)
  }

  function Count(b: bool): nat { if b then 1 else 0 }

  /** The number of nonzero masks. */
  function MaskCount(m: Masks): (n: nat)
    ensures n <= 4
    ensures n == 0 <==> m == Masks(0, 0, 0, 0)
  {
    Count(m.red != 0) + Count(m.green != 0) + Count(m.blue != 0) + Count(m.alpha != 0)
  }

  /** A channel value: (pixel & mask) >> countTrailingZeros(mask), as a byte. */
  function Extract(pixel: bv32, mask: bv32): bv8
    requires mask != 0
  {
    TrailingZerosIsLowestSetBit(mask);
    (((pixel & mask) >> TrailingZeros(mask)) & 0xFF) as bv8
  }

  /** The channel byte of one mask, or nothing for an absent (zero) mask. */
  function Keep(pixel: bv32, mask: bv32): (r: seq<bv8>)
    ensures |r| == Count(mask != 0)
  {
    if mask == 0 then [] else [Extract(pixel, mask)]
  }

  /** The channel order Decode stores: red, green, blue, alpha. */
  function ChannelBytesAsWritten(pixel: bv32, m: Masks): (r: seq<bv8>)
    ensures |r| == MaskCount(m)
  {
    Keep(pixel, m.red) + Keep(pixel, m.green) + Keep(pixel, m.blue) + Keep(pixel, m.alpha)
  }

  /**
   * The channel order that matches the pixel layout of GetPixel, SetPixel and
   * Encode: blue, green, red, alpha.
   */
  function ChannelBytes(pixel: bv32, m: Masks): (r: seq<bv8>)
    ensures |r| == MaskCount(m)
  {
    Keep(pixel, m.blue) + Keep(pixel, m.green) + Keep(pixel, m.red) + Keep(pixel, m.alpha)
  }

  /** memcpy of up to four bytes into a zeroed little-endian uint32. */
  function LittleEndian(b0: bv8, b1: bv8, b2: bv8, b3: bv8): bv32
  {
    (b0 as bv32) | ((b1 as bv32) << 8) | ((b2 as bv32) << 16) | ((b3 as bv32) << 24)
  }

  const DefaultMasks32 := Masks(RedMaskDefault, GreenMaskDefault, BlueMaskDefault, AlphaMaskDefault)
  const DefaultMasks24 := Masks(RedMaskDefault, GreenMaskDefault, BlueMaskDefault, 0)

  lemma DefaultMaskShifts()
    ensures TrailingZeros(BlueMaskDefault) == 0
    ensures TrailingZeros(GreenMaskDefault) == 8
    ensures TrailingZeros(RedMaskDefault) == 16
    ensures TrailingZeros(AlphaMaskDefault) == 24
  {
    TrailingZerosAt(BlueMaskDefault, 0);
    TrailingZerosAt(GreenMaskDefault, 8);
    TrailingZerosAt(RedMaskDefault, 16);
    TrailingZerosAt(AlphaMaskDefault, 24);
  }

  /** Each default mask extracts its byte of a little-endian pixel. */
  lemma ExtractDefaults(b0: bv8, b1: bv8, b2: bv8, b3: bv8)
    ensures Extract(LittleEndian(b0, b1, b2, b3), BlueMaskDefault) == b0
    ensures Extract(LittleEndian(b0, b1, b2, b3), GreenMaskDefault) == b1
    ensures Extract(LittleEndian(b0, b1, b2, b3), RedMaskDefault) == b2
    ensures Extract(LittleEndian(b0, b1, b2, b3), AlphaMaskDefault) == b3
  {
    DefaultMaskShifts();
  }

  /**
   * As written, Decode stores the bytes of a default-mask pixel with the
   * first and third swapped: a file pixel b, g, r, a becomes r, g, b, a in the
   * buffer, which GetPixel then reads with red and blue exchanged.
   */
  lemma DecodeSwapsRedAndBlue(b0: bv8, b1: bv8, b2: bv8, b3: bv8)
    ensures ChannelBytesAsWritten(LittleEndian(b0, b1, b2, b3), DefaultMasks32) == [b2, b1, b0, b3]
    ensures ChannelBytesAsWritten(LittleEndian(b0, b1, b2, 0), DefaultMasks24) == [b2, b1, b0]
  {
    ExtractDefaults(b0, b1, b2, b3);
    ExtractDefaults(b0, b1, b2, 0);
  }

  /** In blue-green-red order a default-mask pixel keeps its file bytes. */
  lemma DecodeKeepsFileBytes(b0: bv8, b1: bv8, b2: bv8, b3: bv8)
    ensures ChannelBytes(LittleEndian(b0, b1, b2, b3), DefaultMasks32) == [b0, b1, b2, b3]
    ensures ChannelBytes(LittleEndian(b0, b1, b2, 0), DefaultMasks24) == [b0, b1, b2]
  {
    ExtractDefaults(b0, b1, b2, b3);
    ExtractDefaults(b0, b1, b2, 0);
  }

  // ---------------------------------------------------------------------
  // Decode: source bytes and the order of the buffer fill.
  // ---------------------------------------------------------------------

  /** Bytes per stored pixel: BitsPerPixel >> 3. */
  function FileBytesPerPixel(f: BmpFile): nat
  {
    f.bitsPerPixel / 8
  }

  /** Bytes per stored row, padded to a multiple of 4. */
  function FileRowSize(f: BmpFile): nat
  {
    RowSize(f.width * FileBytesPerPixel(f))
  }

  /**
   * The size of the temporary pixel buffer as written: RowSize times the
   * stored height, which is negative for a top-down file.
   */
  function DataSizeAsWritten(f: BmpFile): int
  {
    FileRowSize(f) * f.height
  }

  /**
   * A top-down file (negative stored height) with a nonempty row asks for a
   * temporary buffer of negative size, so the std::vector constructor throws
   * and the top-down branch of the row flip is never reached.
   */
  lemma TopDownDataSizeNegative(f: BmpFile)
    requires f.height < 0 && f.width > 0 && f.bitsPerPixel >= 8
    ensures DataSizeAsWritten(f) < 0
  {
    MulLe(1, f.width, FileBytesPerPixel(f));
    assert FileRowSize(f) > 0;
  }

  /** The temporary buffer's size, taken over the number of rows. */
  function DataSize(f: BmpFile): (n: nat)
    ensures n == FileRowSize(f) * Abs(f.height)
  {
    FileRowSize(f) * Abs(f.height)
  }

  /** Byte i of the temporary buffer: file bytes, zero past the end of file. */
  function SourceByte(f: BmpFile, i: int): bv8
  {
    if 0 <= i < DataSize(f) && i < |f.pixelData| then f.pixelData[i] else 0
  }

  /** Offset of stored pixel x of the stored row that holds output row y. */
  function SourceOffset(f: BmpFile, x: nat, y: nat): nat
    requires y < Abs(f.height)
  {
    SourceRow(y, Abs(f.height), f.height) * FileRowSize(f) + x * FileBytesPerPixel(f)
  }

  /** Every byte of every stored pixel Decode reads lies inside DataSize. */
  lemma DecodeReadsInBounds(f: BmpFile, x: nat, y: nat)
    requires x < f.width && y < Abs(f.height)
    ensures SourceOffset(f, x, y) + FileBytesPerPixel(f) <= DataSize(f)
  {
    var bpp := FileBytesPerPixel(f);
    var r := SourceRow(y, Abs(f.height), f.height);
    MulSucc(x, bpp);
    MulLe(x + 1, f.width, bpp);
    MulSucc(r, FileRowSize(f));
    MulLe(r + 1, Abs(f.height), FileRowSize(f));
  }

  /**
   * The stored pixel for output pixel (x, y): up to four bytes copied into a
   * zeroed little-endian uint32.
   */
  function LoadPixel(f: BmpFile, x: nat, y: nat): bv32
    requires y < Abs(f.height)
  {
    var n := FileBytesPerPixel(f);
    var at := SourceOffset(f, x, y);
    LittleEndian(SourceByte(f, at),
                 if n >= 2 then SourceByte(f, at + 1) else 0,
                 if n >= 3 then SourceByte(f, at + 2) else 0,
                 if n >= 4 then SourceByte(f, at + 3) else 0)
  }

  /** The buffer after decoding pixels 0 .. x-1 of output row y. */
  function DecodeRow(buf: seq<bv8>, f: BmpFile, m: Masks, bpp: nat, y: nat, x: nat): (r: seq<bv8>)
    requires y < Abs(f.height)
    ensures |r| == |buf|
  {
    if x == 0 then buf
    else Splice(DecodeRow(buf, f, m, bpp, y, x - 1), PixelOffset(f.width, bpp, x - 1, y),
                ChannelBytes(LoadPixel(f, x - 1, y), m))
  }

  /** The buffer after decoding output rows 0 .. y-1. */
  function DecodeRows(buf: seq<bv8>, f: BmpFile, m: Masks, bpp: nat, y: nat): (r: seq<bv8>)
    requires y <= Abs(f.height)
    ensures |r| == |buf|
  {
    if y == 0 then buf
    else DecodeRow(DecodeRows(buf, f, m, bpp, y - 1), f, m, bpp, y - 1, f.width)
  }

  // ---------------------------------------------------------------------
  // Encode: the file image of a buffer.
  // ---------------------------------------------------------------------

  /** Row r of the buffer followed by its zero padding. */
  function RowBlock(buf: seq<bv8>, pitch: nat, pad: nat, r: nat): seq<bv8>
    requires (r + 1) * pitch <= |buf|
  {
    MulSucc(r, pitch);
    buf[r * pitch .. (r + 1) * pitch] + seq(pad, _ => 0)
  }

  /** Rows n-1 down to 0 of the buffer, each padded: the BMP bottom-up order. */
  function EncodedRows(buf: seq<bv8>, pitch: nat, pad: nat, n: nat): (r: seq<bv8>)
    requires n * pitch <= |buf|
    ensures |r| == n * (pitch + pad)
  {
    if n == 0 then []
    else
      MulSucc(n - 1, pitch);
      MulSucc(n - 1, pitch + pad);
      RowBlock(buf, pitch, pad, n - 1) + EncodedRows(buf, pitch, pad, n - 1)
  }

  /** A slice lying wholly in the second part of a concatenation. */
  lemma SliceOfSecond(a: seq<bv8>, b: seq<bv8>, i: nat, j: nat)
    requires |a| <= i <= j <= |a| + |b|
    ensures (a + b)[i..j] == b[i - |a|..j - |a|]
  {
  }

  /** The offsets EncodedRowsBlock slices at, in range. */
  lemma BlockBounds(pitch: nat, pad: nat, n: nat, k: nat)
    requires k < n
    ensures 0 <= k * (pitch + pad) && 0 <= (n - 1 - k) * pitch
    ensures k * (pitch + pad) + pitch <= n * (pitch + pad)
    ensures (n - 1 - k) * pitch + pitch <= n * pitch
    ensures k > 0 ==> k * (pitch + pad) == (k - 1) * (pitch + pad) + (pitch + pad)
  {
    var row := pitch + pad;
    MulLe(0, k, row);
    MulLe(0, n - 1 - k, pitch);
    MulSucc(k, row);
    MulLe(k + 1, n, row);
    MulSucc(n - 1 - k, pitch);
    MulLe(n - k, n, pitch);
    if k > 0 {
      MulSucc(k - 1, row);
    }
  }

  /** File row k of the encoded rows holds buffer row n - 1 - k. */
  lemma EncodedRowsBlock(buf: seq<bv8>, pitch: nat, pad: nat, n: nat, k: nat)
    requires n * pitch <= |buf| && k < n
    ensures 0 <= k * (pitch + pad) && 0 <= (n - 1 - k) * pitch
    ensures k * (pitch + pad) + pitch <= |EncodedRows(buf, pitch, pad, n)|
    ensures (n - 1 - k) * pitch + pitch <= |buf|
    ensures EncodedRows(buf, pitch, pad, n)[k * (pitch + pad) .. k * (pitch + pad) + pitch]
         == buf[(n - 1 - k) * pitch .. (n - 1 - k) * pitch + pitch]
  {
    BlockBounds(pitch, pad, n, k);
    TimesIsMul(k, pitch + pad);
    EncodedRowsAt(buf, pitch, pad, n, k, n - 1 - k, (n - 1 - k) * pitch);
  }

  /** k * step, by repeated addition. */
  function Times(k: nat, step: nat): nat
  {
    if k == 0 then 0 else Times(k - 1, step) + step
  }

  lemma {:induction false} TimesIsMul(k: nat, step: nat)
    ensures Times(k, step) == k * step
  {
    if k > 0 {
      TimesIsMul(k - 1, step);
      MulSucc(k - 1, step);
    }
  }

  /**
   * EncodedRowsBlock with the file offset of row k written as a sum and
   * the source row m = n - 1 - k fixed, so that the induction on k is linear.
   */
  lemma {:induction false} EncodedRowsAt(buf: seq<bv8>, pitch: nat, pad: nat, n: nat, k: nat, m: nat, src: nat)
    requires n * pitch <= |buf| && n == m + k + 1 && src == m * pitch
    ensures Times(k, pitch + pad) + pitch <= |EncodedRows(buf, pitch, pad, n)| && src + pitch <= |buf|
    ensures EncodedRows(buf, pitch, pad, n)[Times(k, pitch + pad) .. Times(k, pitch + pad) + pitch]
         == buf[src .. src + pitch]
  {
    var e := EncodedRows(buf, pitch, pad, n);
    var lo := Times(k, pitch + pad);
    if k == 0 {
      EncodedRowsFirst(buf, pitch, pad, n);
      assert e[lo .. lo + pitch] == buf[src .. src + pitch];
    } else {
      MulLe(n - 1, n, pitch);
      EncodedRowsAt(buf, pitch, pad, n - 1, k - 1, m, src);
      EncodedRowsLater(buf, pitch, pad, n, lo, src);
    }
  }

  /** The first file row is the last buffer row. */
  lemma EncodedRowsFirst(buf: seq<bv8>, pitch: nat, pad: nat, n: nat)
    requires n * pitch <= |buf| && 0 < n
    ensures (n - 1) * pitch + pitch <= |buf| && pitch <= |EncodedRows(buf, pitch, pad, n)|
    ensures 0 <= (n - 1) * pitch
    ensures EncodedRows(buf, pitch, pad, n)[0 .. pitch] == buf[(n - 1) * pitch .. (n - 1) * pitch + pitch]
  {
    MulSucc(n - 1, pitch);
    MulLe(0, n - 1, pitch);
    var lo := (n - 1) * pitch;
    var block := RowBlock(buf, pitch, pad, n - 1);
    var rest := EncodedRows(buf, pitch, pad, n - 1);
    assert EncodedRows(buf, pitch, pad, n) == block + rest;
    assert block == buf[lo .. lo + pitch] + seq(pad, _ => 0);
    PrefixOfConcat(buf[lo .. lo + pitch], seq(pad, _ => 0), pitch);
    PrefixOfConcat(block, rest, pitch);
  }

  lemma PrefixOfConcat<T>(a: seq<T>, b: seq<T>, len: nat)
    requires len <= |a|
    ensures (a + b)[0 .. len] == a[0 .. len]
  {
  }

  /**
   * Past the first file row, the encoded rows of n rows are those of the
   * last n - 1: a row the shorter encoding copies from src, the longer one
   * copies too, one file row further on.
   */
  lemma EncodedRowsLater(buf: seq<bv8>, pitch: nat, pad: nat, n: nat, lo: nat, src: nat)
    requires n * pitch <= |buf| && 0 < n
    requires (n - 1) * pitch <= |buf| && src + pitch <= |buf|
    requires pitch + pad <= lo && lo - (pitch + pad) + pitch <= |EncodedRows(buf, pitch, pad, n - 1)|
    requires EncodedRows(buf, pitch, pad, n - 1)[lo - (pitch + pad) .. lo - (pitch + pad) + pitch]
          == buf[src .. src + pitch]
    ensures lo + pitch <= |EncodedRows(buf, pitch, pad, n)|
    ensures EncodedRows(buf, pitch, pad, n)[lo .. lo + pitch] == buf[src .. src + pitch]
  {
    MulSucc(n - 1, pitch);
    var block := RowBlock(buf, pitch, pad, n - 1);
    var rest := EncodedRows(buf, pitch, pad, n - 1);
    assert EncodedRows(buf, pitch, pad, n) == block + rest;
    assert |block| == pitch + pad;
    SliceOfSecond(block, rest, lo, lo + pitch);
  }

  /**
   * Encode: nothing for an empty image or a buffer shorter than
   * width * height * bytesPerPixel; otherwise a BMP with the default
   * headers, no compression, and the rows bottom-up with padding.  The mask
   * header field is unused for uncompressed files.
   */
  function Encode(buf: seq<bv8>, w: nat, h: nat, bits: nat): (r: Option<BmpFile>)
    ensures r.None? <==> (w == 0 || h == 0 || |buf| < w * h * (bits / 8))
    ensures r.Some? ==>
      && r.value.signature == BmpSignature
      && r.value.offsetData == BmpHeaderBytes + DibHeaderBytes
      && r.value.headerSize == DibHeaderBytes
      && r.value.width == w && r.value.height == h && r.value.bitsPerPixel == bits
      && r.value.compression == 0
      && |r.value.pixelData| == RowSize(w * (bits / 8)) * h
      && r.value.fileSize == r.value.offsetData + |r.value.pixelData|
  {
    var bpp := bits / 8;
    if w == 0 || h == 0 || |buf| < w * h * bpp then None
    else
      var pitch := w * bpp;
      var rowSize := RowSize(pitch);
      var dataSize := rowSize * h;
      EncodeSizes(w, h, bpp, pitch, rowSize);
      Some(BmpFile(BmpSignature, BmpHeaderBytes + DibHeaderBytes + dataSize,
                   BmpHeaderBytes + DibHeaderBytes, DibHeaderBytes, w, h, 1, bits, 0,
                   dataSize, Masks(0, 0, 0, 0),
                   EncodedRows(buf, pitch, Padding(pitch), h)))
  }

  /** The products Encode relies on, reordered. */
  lemma EncodeSizes(w: nat, h: nat, bpp: nat, pitch: nat, rowSize: nat)
    requires pitch == w * bpp
    ensures w * h * bpp == h * pitch
    ensures h * rowSize == rowSize * h
  {
    MulComm(w * h, bpp);
    MulComm(h, rowSize);
    assert w * h * bpp == h * (w * bpp);
  }

  /** The stored layout of an encoded image. */
  lemma EncodeLayout(buf: seq<bv8>, w: nat, h: nat, bits: nat)
    requires w > 0 && h > 0 && bits >= 8 && |buf| == w * (bits / 8) * h
    ensures var f := Encode(buf, w, h, bits);
            var pitch := w * (bits / 8);
            && f.Some?
            && FileBytesPerPixel(f.value) == bits / 8
            && FileRowSize(f.value) == pitch + Padding(pitch)
            && h * pitch <= |buf|
            && f.value.pixelData == EncodedRows(buf, pitch, Padding(pitch), h)
            && DataSize(f.value) == |f.value.pixelData|
  {
    var bpp := bits / 8;
    MulComm(w * bpp, h);
    MulComm(w, h);
    MulComm(w * h, bpp);
    assert w * bpp * h == w * h * bpp by {
      MulComm(w * bpp, h);
      assert h * (w * bpp) == (h * w) * bpp;
    }
  }

  /** Byte j of a stored pixel of an encoded image is byte j of the pixel. */
  lemma EncodedSourceByte(buf: seq<bv8>, w: nat, h: nat, bits: nat, x: nat, y: nat, j: nat)
    requires w > 0 && h > 0 && bits >= 8 && |buf| == w * (bits / 8) * h
    requires InImage(w, h, x, y) && j < bits / 8
    ensures var f := Encode(buf, w, h, bits);
            var o := PixelOffset(w, bits / 8, x, y);
            && f.Some?
            && y < Abs(f.value.height)
            && o + j < |buf|
            && SourceByte(f.value, SourceOffset(f.value, x, y) + j) == buf[o + j]
  {
    var bpp := bits / 8;
    var pitch := w * bpp;
    EncodeLayout(buf, w, h, bits);
    PixelInBuffer(w, h, bpp, x, y);
    StoredByte(Encode(buf, w, h, bits).value, buf, w, h, bpp, pitch, Padding(pitch), x, y, j);
  }

  /** EncodedSourceByte for a file laid out as Encode lays it out. */
  lemma StoredByte(f: BmpFile, buf: seq<bv8>, w: nat, h: nat, bpp: nat, pitch: nat, pad: nat,
                   x: nat, y: nat, j: nat)
    requires f.height == h && x < w && y < h && j < bpp
    requires pitch == w * bpp && h * pitch <= |buf|
    requires FileBytesPerPixel(f) == bpp && FileRowSize(f) == pitch + pad
    requires f.pixelData == EncodedRows(buf, pitch, pad, h) && DataSize(f) == |f.pixelData|
    ensures PixelOffset(w, bpp, x, y) + j < |buf|
    ensures SourceByte(f, SourceOffset(f, x, y) + j) == buf[PixelOffset(w, bpp, x, y) + j]
  {
    var k := h - 1 - y;
    var row := pitch + pad;
    MulLe(0, y, pitch);
    var rowBuf: nat := y * pitch;
    EncodedRowsAt(buf, pitch, pad, h, k, y, rowBuf);
    TimesIsMul(k, row);
    var rowStart: nat := Times(k, row);
    InsidePixel(w, bpp, x, j);
    var xoff: nat := x * bpp;
    assert SourceRow(y, h, f.height) == k;
    assert SourceOffset(f, x, y) == rowStart + xoff;
    assert PixelOffset(w, bpp, x, y) == rowBuf + xoff;
    StoredByteAt(f, buf, rowStart, rowBuf, pitch, xoff + j,
                 SourceOffset(f, x, y) + j, PixelOffset(w, bpp, x, y) + j);
  }

  /** Byte i of a stored row that copies a buffer row. */
  lemma StoredByteAt(f: BmpFile, buf: seq<bv8>, rowStart: nat, rowBuf: nat, pitch: nat, i: nat,
                     src: nat, dst: nat)
    requires rowStart + pitch <= |f.pixelData| == DataSize(f) && rowBuf + pitch <= |buf| && i < pitch
    requires f.pixelData[rowStart .. rowStart + pitch] == buf[rowBuf .. rowBuf + pitch]
    requires src == rowStart + i && dst == rowBuf + i
    ensures dst < |buf| && SourceByte(f, src) == buf[dst]
  {
    ByteOfBlock(f.pixelData, buf, rowStart, rowBuf, pitch, i);
  }

  /** Byte j of pixel x lies inside the row. */
  lemma InsidePixel(w: nat, bpp: nat, x: nat, j: nat)
    requires x < w && j < bpp
    ensures 0 <= x * bpp && x * bpp + j < w * bpp
  {
    MulLe(0, x, bpp);
    MulSucc(x, bpp);
    MulLe(x + 1, w, bpp);
  }

  lemma ByteOfBlock(data: seq<bv8>, buf: seq<bv8>, at: nat, from: nat, len: nat, i: nat)
    requires at + len <= |data| && from + len <= |buf| && i < len
    requires data[at .. at + len] == buf[from .. from + len]
    ensures data[at + i] == buf[from + i]
  {
    assert data[at .. at + len][i] == buf[from .. from + len][i];
  }

  /**
   * Decoding an encoded 24- or 32-bit image reads back each pixel's bytes
   * unchanged: the stored row of output row y is buffer row y, and the
   * blue-green-red channel order keeps the bytes in place.
   */
  lemma EncodeDecodePixel(buf: seq<bv8>, w: nat, h: nat, bits: nat, x: nat, y: nat)
    requires bits == 24 || bits == 32
    requires |buf| == w * (bits / 8) * h && InImage(w, h, x, y)
    ensures var f := Encode(buf, w, h, bits);
            var o := PixelOffset(w, bits / 8, x, y);
            && f.Some? && y < Abs(f.value.height) && o + bits / 8 <= |buf|
            && ChannelBytes(LoadPixel(f.value, x, y), DecodeMasks(f.value)) == buf[o .. o + bits / 8]
  {
    EncodedLoad(buf, w, h, bits, x, y);
    var f := Encode(buf, w, h, bits).value;
    var o := PixelOffset(w, bits / 8, x, y);
    PixelChannelBytes(f, LoadPixel(f, x, y), buf, o);
  }

  /** DefaultChannelBytes for the pixel stored at offset o of a byte sequence. */
  lemma PixelChannelBytes(f: BmpFile, p: bv32, buf: seq<bv8>, o: nat)
    requires f.compression == 0 && (f.bitsPerPixel == 24 || f.bitsPerPixel == 32)
    requires o + f.bitsPerPixel / 8 <= |buf|
    requires p == LittleEndian(buf[o], buf[o + 1], buf[o + 2], if f.bitsPerPixel == 32 then buf[o + 3] else 0)
    ensures ChannelBytes(p, DecodeMasks(f)) == buf[o .. o + f.bitsPerPixel / 8]
  {
    var b := buf[o .. o + f.bitsPerPixel / 8];
    assert b[0] == buf[o] && b[1] == buf[o + 1] && b[2] == buf[o + 2];
    assert f.bitsPerPixel == 32 ==> b[3] == buf[o + 3];
    DefaultChannelBytes(f, p, b);
  }

  /** Every pixel of output row y decodes to the bytes `buf` holds at its offset. */
  ghost predicate RowDecodesTo(f: BmpFile, m: Masks, bpp: nat, buf: seq<bv8>, y: nat)
    requires y < Abs(f.height)
  {
    forall x :: 0 <= x < f.width ==>
      var o := PixelOffset(f.width, bpp, x, y);
      o + bpp <= |buf| && ChannelBytes(LoadPixel(f, x, y), m) == buf[o .. o + bpp]
  }

  /**
   * Decoding pixels 0 .. x-1 of output row y: when the first y rows of the
   * buffer already hold buf's bytes and every pixel of row y decodes to
   * buf's bytes, afterwards its first y rows and x pixels do.
   */
  lemma {:induction false} DecodeRowRestores(f: BmpFile, m: Masks, bpp: nat, buf: seq<bv8>, b: seq<bv8>, y: nat, x: nat)
    requires y < Abs(f.height) && x <= f.width && |b| == |buf|
    requires RowDecodesTo(f, m, bpp, buf, y)
    requires y * (f.width * bpp) <= |buf| && b[..y * (f.width * bpp)] == buf[..y * (f.width * bpp)]
    ensures var n := y * (f.width * bpp) + x * bpp;
            n <= |buf| && DecodeRow(b, f, m, bpp, y, x)[..n] == buf[..n]
  {
    if x > 0 {
      DecodeRowRestores(f, m, bpp, buf, b, y, x - 1);
      DecodeRowStep(f, m, bpp, buf, b, y, x);
    }
  }

  /** One pixel of DecodeRowRestores: decoding pixel x-1 extends the restored prefix by that pixel. */
  lemma DecodeRowStep(f: BmpFile, m: Masks, bpp: nat, buf: seq<bv8>, b: seq<bv8>, y: nat, x: nat)
    requires y < Abs(f.height) && 0 < x <= f.width && |b| == |buf|
    requires RowDecodesTo(f, m, bpp, buf, y)
    requires var o := y * (f.width * bpp) + (x - 1) * bpp;
             o <= |buf| && DecodeRow(b, f, m, bpp, y, x - 1)[..o] == buf[..o]
    ensures var n := y * (f.width * bpp) + x * bpp;
            n <= |buf| && DecodeRow(b, f, m, bpp, y, x)[..n] == buf[..n]
  {
    var n := y * (f.width * bpp) + x * bpp;
    var o := PixelOffset(f.width, bpp, x - 1, y);
    assert o + bpp == n by {
      MulSucc(x - 1, bpp);
    }
    var bytes := ChannelBytes(LoadPixel(f, x - 1, y), m);
    assert n <= |buf| && bytes == buf[o .. n] by {
      assert RowDecodesTo(f, m, bpp, buf, y);
    }
    SplicePrefix(DecodeRow(b, f, m, bpp, y, x - 1), buf, o, bytes);
  }

  /** Writing the next bytes of `buf` after a prefix that matches `buf` extends the matching prefix. */
  lemma SplicePrefix(prev: seq<bv8>, buf: seq<bv8>, o: nat, bytes: seq<bv8>)
    requires |prev| == |buf| && o + |bytes| <= |buf|
    requires prev[..o] == buf[..o] && bytes == buf[o .. o + |bytes|]
    ensures Splice(prev, o, bytes)[..o + |bytes|] == buf[..o + |bytes|]
  {
    assert Splice(prev, o, bytes)[..o + |bytes|] == prev[..o] + bytes;
    assert buf[..o + |bytes|] == buf[..o] + buf[o .. o + |bytes|];
  }

  /** Decoding the first y output rows restores buf's first y rows when every row decodes to buf's bytes. */
  lemma {:induction false} DecodeRowsRestores(f: BmpFile, m: Masks, bpp: nat, buf: seq<bv8>, b: seq<bv8>, y: nat)
    requires y <= Abs(f.height) && |b| == |buf| && Abs(f.height) * (f.width * bpp) == |buf|
    requires forall r :: 0 <= r < Abs(f.height) ==> RowDecodesTo(f, m, bpp, buf, r)
    ensures y * (f.width * bpp) <= |buf|
    ensures DecodeRows(b, f, m, bpp, y)[..y * (f.width * bpp)] == buf[..y * (f.width * bpp)]
  {
    var pitch := f.width * bpp;
    assert y * pitch <= |buf| by {
      MulLe(y, Abs(f.height), pitch);
    }
    if y > 0 {
      DecodeRowsRestores(f, m, bpp, buf, b, y - 1);
      assert (y - 1) * pitch + f.width * bpp == y * pitch by {
        MulSucc(y - 1, pitch);
      }
      assert RowDecodesTo(f, m, bpp, buf, y - 1);
      DecodeRowRestores(f, m, bpp, buf, DecodeRows(b, f, m, bpp, y - 1), y - 1, f.width);
    }
  }

  /** Every output row of an encoded 24- or 32-bit image decodes to the buffer's bytes. */
  lemma EncodedRowsDecode(buf: seq<bv8>, w: nat, h: nat, bits: nat)
    requires bits == 24 || bits == 32
    requires w > 0 && h > 0 && |buf| == w * (bits / 8) * h
    ensures var f := Encode(buf, w, h, bits);
            && f.Some? && f.value.width == w && Abs(f.value.height) == h
            && forall r :: 0 <= r < h ==> RowDecodesTo(f.value, DecodeMasks(f.value), bits / 8, buf, r)
  {
    EncodeLayout(buf, w, h, bits);
    forall r | 0 <= r < h
      ensures RowDecodesTo(Encode(buf, w, h, bits).value, DecodeMasks(Encode(buf, w, h, bits).value), bits / 8, buf, r)
    {
      EncodedRowDecodes(buf, w, h, bits, r);
    }
  }

  /** Output row r of an encoded 24- or 32-bit image decodes to the buffer's bytes. */
  lemma EncodedRowDecodes(buf: seq<bv8>, w: nat, h: nat, bits: nat, r: nat)
    requires bits == 24 || bits == 32
    requires w > 0 && |buf| == w * (bits / 8) * h && r < h
    ensures var f := Encode(buf, w, h, bits);
            && f.Some? && r < Abs(f.value.height)
            && RowDecodesTo(f.value, DecodeMasks(f.value), bits / 8, buf, r)
  {
    EncodeDecodePixel(buf, w, h, bits, 0, r);
    var f := Encode(buf, w, h, bits).value;
    forall x | 0 <= x < w
      ensures var o := PixelOffset(w, bits / 8, x, r);
              o + bits / 8 <= |buf| && ChannelBytes(LoadPixel(f, x, r), DecodeMasks(f)) == buf[o .. o + bits / 8]
    {
      EncodeDecodePixel(buf, w, h, bits, x, r);
    }
  }

  /**
   * Decoding an encoded 24- or 32-bit image into an empty image gives back
   * the encoded buffer, the width, the height and the bytes per pixel.
   */
  lemma EncodeDecodeRoundTrip(buf: seq<bv8>, w: nat, h: nat, bits: nat)
    requires bits == 24 || bits == 32
    requires w > 0 && h > 0 && |buf| == w * (bits / 8) * h
    ensures var f := Encode(buf, w, h, bits);
            && f.Some? && Supported(f.value)
            && f.value.width == w && Abs(f.value.height) == h
            && MaskCount(DecodeMasks(f.value)) == bits / 8
            && DecodeRows(Resized([], w * (bits / 8) * h), f.value, DecodeMasks(f.value), bits / 8, h) == buf
  {
    var bpp := bits / 8;
    EncodedRowsDecode(buf, w, h, bits);
    var f := Encode(buf, w, h, bits).value;
    assert h * (w * bpp) == |buf| by {
      MulComm(h, w * bpp);
    }
    var base := Resized([], |buf|);
    DecodeRowsRestores(f, DecodeMasks(f), bpp, buf, base, h);
    var out := DecodeRows(base, f, DecodeMasks(f), bpp, h);
    assert out == out[..|buf|] && buf == buf[..|buf|];
  }

  /**
   * With the default masks of an uncompressed 24- or 32-bit file, the
   * channel bytes of a little-endian pixel are its stored bytes.
   */
  lemma DefaultChannelBytes(f: BmpFile, p: bv32, b: seq<bv8>)
    requires f.compression == 0 && (f.bitsPerPixel == 24 || f.bitsPerPixel == 32)
    requires |b| == f.bitsPerPixel / 8
    requires p == LittleEndian(b[0], b[1], b[2], if f.bitsPerPixel == 32 then b[3] else 0)
    ensures ChannelBytes(p, DecodeMasks(f)) == b
  {
    if f.bitsPerPixel == 32 {
      assert b == [b[0], b[1], b[2], b[3]];
      assert DecodeMasks(f) == DefaultMasks32;
      DecodeKeepsFileBytes(b[0], b[1], b[2], b[3]);
    } else {
      assert b == [b[0], b[1], b[2]];
      assert DecodeMasks(f) == DefaultMasks24;
      DecodeKeepsFileBytes(b[0], b[1], b[2], 0);
    }
  }

  /** The stored pixel an encoded 24- or 32-bit image yields for (x, y). */
  lemma EncodedLoad(buf: seq<bv8>, w: nat, h: nat, bits: nat, x: nat, y: nat)
    requires bits == 24 || bits == 32
    requires |buf| == w * (bits / 8) * h && InImage(w, h, x, y)
    ensures var f := Encode(buf, w, h, bits);
            var o := PixelOffset(w, bits / 8, x, y);
            && f.Some? && y < Abs(f.value.height) && o + bits / 8 <= |buf|
            && LoadPixel(f.value, x, y)
               == LittleEndian(buf[o], buf[o + 1], buf[o + 2], if bits == 32 then buf[o + 3] else 0)
  {
    EncodedSourceByte(buf, w, h, bits, x, y, 0);
    var f := Encode(buf, w, h, bits).value;
    EncodedSourceByte(buf, w, h, bits, x, y, 1);
    EncodedSourceByte(buf, w, h, bits, x, y, 2);
    if bits == 32 {
      EncodedSourceByte(buf, w, h, bits, x, y, 3);
    }
    assert FileBytesPerPixel(f) == bits / 8;
  }

  // ---------------------------------------------------------------------
  // The image object.
  // ---------------------------------------------------------------------

  class Image {
    var channels: nat
    var width: nat
    var height: nat
    var bitsPerPixel: nat
    var buffer: seq<bv8>

    /** The buffer holds pitch * height bytes. */
    ghost predicate Valid()
      reads this
    {
      |buffer| == Pitch() * height
    }

    constructor()
      ensures Valid()
      ensures width == 0 && height == 0 && bitsPerPixel == 0 && channels == 0
      ensures buffer == []
    {
      width, height, bitsPerPixel, channels := 0, 0, 0, 0;
      buffer := [];
    }

    /** bitsPerPixel >> 3 */
    function BytesPerPixel(): nat
      reads this
    {
      bitsPerPixel / 8
    }

    /** width * bytesPerPixel */
    function Pitch(): nat
      reads this
    {
      width * BytesPerPixel()
    }

    /**
     * Sets the geometry and resizes the buffer to pitch * height bytes; the
     * resize keeps the old prefix and zero-fills new bytes.
     */
    method Create(w: nat, h: nat, bits: nat)
      modifies this
      ensures Valid()
      ensures width == w && height == h && bitsPerPixel == bits
      ensures channels == bits / 8
      ensures buffer == Resized(old(buffer), w * (bits / 8) * h)
    {
      width := w;
      height := h;
      bitsPerPixel := bits;
      channels := bitsPerPixel / 8;
      buffer := Resized(buffer, Pitch() * height);
    }

    function GetPixel(x: int, y: int): Color
      reads this
    {
      ReadPixel(buffer, width, height, BytesPerPixel(), x, y)
    }

    method SetPixel(c: Color, x: int, y: int)
      requires Valid()
      modifies this
      ensures Valid()
      ensures width == old(width) && height == old(height)
      ensures bitsPerPixel == old(bitsPerPixel) && channels == old(channels)
      ensures buffer == WritePixel(old(buffer), width, height, BytesPerPixel(), c, x, y)
    {
      if |buffer| == 0 || x >= width || x < 0 || y >= height || y < 0 {
        return;
      }
      var pos := y * Pitch() + x * BytesPerPixel();
      buffer := Poke(buffer, pos, c.b);
      buffer := Poke(buffer, pos + 1, c.g);
      buffer := Poke(buffer, pos + 2, c.r);
      if BytesPerPixel() >= 4 {
        buffer := Poke(buffer, pos + 3, c.a);
      }
    }

    /**
     * Copies the first bytesPerPixel bytes of `colorBytes` (the in-memory
     * representation of the clear colour) into every pixel of row 0, then
     * copies each row from the one above it.
     */
    method Clear(colorBytes: seq<bv8>)
      requires Valid() && BytesPerPixel() <= |colorBytes|
      modifies this
      ensures Valid()
      ensures width == old(width) && height == old(height)
      ensures bitsPerPixel == old(bitsPerPixel) && channels == old(channels)
      ensures buffer == Repeat(Repeat(colorBytes[..BytesPerPixel()], width), height)
    {
      var bpp := BytesPerPixel();
      var pitch := Pitch();
      var pattern := colorBytes[..bpp];
      var buf := buffer;
      var x := 0;
      while x < width
        modifies {}
        invariant 0 <= x <= width
        invariant |buf| == pitch * height
        invariant height == 0 ==> buf == []
        invariant height > 0 ==> x * bpp <= |buf| && buf[..x * bpp] == Repeat(pattern, x)
      {
        if height > 0 {
          FillStep(buf, pattern, x, width, height);
        }
        buf := Splice(buf, x * bpp, pattern);
        x := x + 1;
      }
      if height == 0 {
        buffer := buf;
        return;
      }
      var row := Repeat(pattern, width);
      var y := 1;
      while y < height
        modifies {}
        invariant 1 <= y <= height
        invariant |buf| == pitch * height
        invariant y * pitch <= |buf|
        invariant buf[..y * pitch] == Repeat(row, y)
      {
        CopyStep(buf, row, y, height);
        buf := Splice(buf, y * pitch, buf[(y - 1) * pitch .. y * pitch]);
        y := y + 1;
      }
      assert buf == buf[..y * pitch];
      buffer := buf;
    }
    /**
     * Decode of a parsed file (None when the file cannot be opened): rejects
     * a bad signature, fewer than 8 bits per pixel and compression other
     * than 0 or 3; otherwise adds the number of nonzero masks to the channel
     * count, takes the file's width and the magnitude of its height, resizes
     * the buffer, and fills every output pixel from its stored pixel, one
     * byte per nonzero mask.
     */
    method Decode(file: Option<BmpFile>) returns (ok: bool)
      requires Valid()
      modifies this
      ensures Valid()
      ensures ok <==> file.Some? && Supported(file.value)
      ensures !ok ==> width == old(width) && height == old(height) && buffer == old(buffer)
                      && bitsPerPixel == old(bitsPerPixel) && channels == old(channels)
      ensures ok ==>
        var f := file.value;
        var m := DecodeMasks(f);
        && width == f.width && height == Abs(f.height)
        && channels == old(channels) + MaskCount(m)
        && bitsPerPixel == 8 * channels
        && buffer == DecodeRows(Resized(old(buffer), Pitch() * height), f, m, channels, height)
    {
      if file.None? {
        return false;
      }
      var f := file.value;
      if f.signature != BmpSignature {
        return false;
      }
      if f.bitsPerPixel < 8 || (f.compression != 0 && f.compression != 3) {
        return false;
      }
      var m := DecodeMasks(f);
      channels := channels + Count(m.red != 0);
      channels := channels + Count(m.green != 0);
      channels := channels + Count(m.blue != 0);
      channels := channels + Count(m.alpha != 0);
      width := f.width;
      height := Abs(f.height);
      bitsPerPixel := 8 * channels;
      assert BytesPerPixel() == channels;
      buffer := DecodePixels(Resized(buffer, Pitch() * height), f, m, BytesPerPixel());
      return true;
    }
  }

  /**
   * Decode's pixel loops: for each output row y and each pixel x, the
   * stored pixel's channel bytes are written at the pixel's offset.
   */
  method DecodePixels(base: seq<bv8>, f: BmpFile, m: Masks, bpp: nat) returns (pixels: seq<bv8>)
    ensures pixels == DecodeRows(base, f, m, bpp, Abs(f.height))
  {
    pixels := base;
    var y := 0;
    while y < Abs(f.height)
      invariant 0 <= y <= Abs(f.height)
      invariant pixels == DecodeRows(base, f, m, bpp, y)
    {
      var x := 0;
      while x < f.width
        invariant 0 <= x <= f.width
        invariant pixels == DecodeRow(DecodeRows(base, f, m, bpp, y), f, m, bpp, y, x)
      {
        var pixel := LoadPixel(f, x, y);
        var pixelIndex := PixelOffset(f.width, bpp, x, y);
        pixels := Splice(pixels, pixelIndex, ChannelBytes(pixel, m));
        x := x + 1;
      }
      y := y + 1;
    }
  }

  /** One step of Clear's first loop: pixel x of row 0 receives the pattern. */
  lemma FillStep(buf: seq<bv8>, pattern: seq<bv8>, x: nat, w: nat, h: nat)
    requires x < w && 0 < h && |buf| == w * |pattern| * h
    requires x * |pattern| <= |buf| && buf[..x * |pattern|] == Repeat(pattern, x)
    ensures (x + 1) * |pattern| <= |buf|
    ensures Splice(buf, x * |pattern|, pattern)[..(x + 1) * |pattern|] == Repeat(pattern, x + 1)
  {
    var bpp := |pattern|;
    MulSucc(x, bpp);
    MulLe(x + 1, w, bpp);
    MulLe(1, h, w * bpp);
    var r := Splice(buf, x * bpp, pattern);
    assert r == buf[..x * bpp] + pattern + buf[x * bpp + bpp..];
    assert r[..(x + 1) * bpp] == buf[..x * bpp] + pattern;
  }

  /** One step of Clear's second loop: row y receives a copy of row y - 1. */
  lemma CopyStep(buf: seq<bv8>, row: seq<bv8>, y: nat, h: nat)
    requires 1 <= y < h && |buf| == |row| * h
    requires y * |row| <= |buf| && buf[..y * |row|] == Repeat(row, y)
    ensures (y - 1) * |row| + |row| == y * |row|
    ensures (y + 1) * |row| <= |buf|
    ensures buf[(y - 1) * |row| .. y * |row|] == row
    ensures Splice(buf, y * |row|, buf[(y - 1) * |row| .. y * |row|])[..(y + 1) * |row|]
         == Repeat(row, y + 1)
  {
    var p := |row|;
    MulSucc(y, p);
    MulLe(y + 1, h, p);
    MulSucc(y - 1, p);
    RepeatBlock(row, y, y - 1);
    var above := buf[(y - 1) * p .. y * p];
    assert above == Repeat(row, y)[(y - 1) * p .. (y - 1) * p + p];
    var r := Splice(buf, y * p, above);
    assert r == buf[..y * p] + above + buf[y * p + p..];
    assert r[..(y + 1) * p] == buf[..y * p] + above;
  }
}
