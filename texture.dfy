// The texture RePiTexture: an image plus 32-bit colour packing, address
// modes and point / bilinear sample selection (RePiTexture.cpp).  A float
// stored in a texture is modelled by its 32-bit pattern, which is what the
// memcpy in PackFloat / UnpackFloat moves.

module Texturing {
  import opened Base
  import opened Imaging

  datatype TextureFormat = R8G8B8A8Unorm | R32Float | OtherFormat

  datatype AddressMode = Wrap | Mirror | MirrorOnce | Clamp

  datatype SampleFilter = FilterPoint | FilterLinear | OtherFilter

  /** Bits per pixel of a format: 32 for the two supported formats, else 0. */
  function FormatBits(format: TextureFormat): (bits: nat)
    ensures bits == 32 || bits == 0
    ensures bits == 32 <==> format == R8G8B8A8Unorm || format == R32Float
  {
    match format
    case R8G8B8A8Unorm => 32
    case R32Float => 32
    case OtherFormat => 0
  }

  // ---------------------------------------------------------------------
  // 32-bit packing of a colour.
  // ---------------------------------------------------------------------

  /** r in bits 31-24, g in 23-16, b in 15-8, a in 7-0. */
  function PackFloat(c: Color): (d: bv32)
  {
    (c.r as bv32 << 24) | (c.g as bv32 << 16) | (c.b as bv32 << 8) | c.a as bv32
  }

  /** The four bytes of a 32-bit pattern, from the high byte down. */
  function UnpackFloat(d: bv32): (c: Color)
  {
    Color(((d >> 24) & 0xFF) as bv8, ((d >> 16) & 0xFF) as bv8,
          ((d >> 8) & 0xFF) as bv8, (d & 0xFF) as bv8)
  }

  /** Unpacking a packed colour gives the colour back. */
  lemma UnpackPack(c: Color)
    ensures UnpackFloat(PackFloat(c)) == c
  {
  }

  /** Packing an unpacked pattern gives the pattern back. */
  lemma PackUnpack(d: bv32)
    ensures PackFloat(UnpackFloat(d)) == d
  {
  }

  /**
   * The assumed in-memory layout of a colour that Clear copies into every
   * pixel: blue, green, red, alpha, the order the pixel accessors use.
   */
  function Representation(c: Color): (bytes: seq<bv8>)
    ensures |bytes| == 4
  {
    [c.b, c.g, c.r, c.a]
  }

  // ---------------------------------------------------------------------
  // Address modes over reals; fmodf is C's fmod (FMod).
  // ---------------------------------------------------------------------

  /** Clamp: saturate to [0, 1]. */
  function ClampCoord(u: real): (r: real)
    ensures 0.0 <= r <= 1.0
    ensures 0.0 <= u <= 1.0 ==> r == u
    ensures u < 0.0 ==> r == 0.0
    ensures u > 1.0 ==> r == 1.0
  {
    var u := if u < 0.0 then 0.0 else u;
    if u > 1.0 then 1.0 else u
  }

  /** Wrap: fmod(u, 1), which keeps the sign of u. */
  function WrapCoord(u: real): (r: real)
    ensures u >= 0.0 ==> 0.0 <= r < 1.0
    ensures u < 0.0 ==> -1.0 < r <= 0.0
  {
    FMod(u, 1.0)
  }

  /** Mirror: fmod(u, 2), shifted into [0, 2), then folded at 1. */
  function MirrorCoord(u: real): (r: real)
    ensures 0.0 <= r <= 1.0
  {
    var m := FMod(u, 2.0);
    var m := if m < 0.0 then 2.0 + m else m;
    if m > 1.0 then 2.0 - m else m
  }

  /**
   * Mirror-once as written: u in (-1, 0) or (1, 2) becomes 1 - fmod(u, 1),
   * anything else is clamped.
   */
  function MirrorOnceAsWritten(u: real): real
  {
    if (-1.0 < u < 0.0) || (1.0 < u < 2.0) then 1.0 - FMod(u, 1.0)
    else ClampCoord(u)
  }

  lemma FModUnitInterval(u: real)
    ensures 0.0 <= u < 1.0 ==> FMod(u, 1.0) == u
    ensures 1.0 <= u < 2.0 ==> FMod(u, 1.0) == u - 1.0
    ensures -1.0 < u < 0.0 ==> FMod(u, 1.0) == u
  {
  }

  /**
   * As written, mirror-once reflects (1, 2) about 1 but sends (-1, 0) to
   * 1 - u, out of [0, 1]: u = -0.25 becomes 1.25.
   */
  lemma MirrorOnceLeavesUnitRange(u: real)
    requires -1.0 < u < 0.0
    ensures MirrorOnceAsWritten(u) == 1.0 - u > 1.0
  {
    FModUnitInterval(u);
  }

  /**
   * Mirror-once reflecting the first unit on either side into [0, 1]: about
   * 0 below, about 1 above; anything else is clamped.
   */
  function MirrorOnceCoord(u: real): (r: real)
    ensures 0.0 <= r <= 1.0
    ensures -1.0 < u < 0.0 ==> r == -u
    ensures 1.0 < u < 2.0 ==> r == 2.0 - u
    ensures 0.0 <= u <= 1.0 ==> r == u
  {
    FModUnitInterval(u);
    if -1.0 < u < 0.0 then -u
    else if 1.0 < u < 2.0 then 1.0 - FMod(u, 1.0)
    else ClampCoord(u)
  }

  /** Mirror-once agrees with the code as written except on (-1, 0). */
  lemma MirrorOnceAgrees(u: real)
    requires !(-1.0 < u < 0.0)
    ensures MirrorOnceCoord(u) == MirrorOnceAsWritten(u)
  {
  }

  function Adjust(u: real, mode: AddressMode): real
  {
    match mode
    case Wrap => WrapCoord(u)
    case Mirror => MirrorCoord(u)
    case MirrorOnce => MirrorOnceCoord(u)
    case Clamp => ClampCoord(u)
  }

  /** AjdustTextureAddress: the mode applied to u and to v. */
  function AdjustTextureAddress(uv: Float2, mode: AddressMode): (r: Float2)
    ensures mode != Wrap ==> 0.0 <= r.x <= 1.0 && 0.0 <= r.y <= 1.0
    ensures mode == Wrap && uv.x >= 0.0 ==> 0.0 <= r.x < 1.0
    ensures mode == Wrap && uv.y >= 0.0 ==> 0.0 <= r.y < 1.0
  {
    Float2(Adjust(uv.x, mode), Adjust(uv.y, mode))
  }

  // ---------------------------------------------------------------------
  // Sample selection.
  // ---------------------------------------------------------------------

  /** The nearest pixel column (row) of a coordinate: int32(u * (n - 1)). */
  function Nearest(u: real, n: int): int
  {
    Trunc(u * (n - 1) as real)
  }

  /** A coordinate in [0, 1] selects a pixel inside a nonempty axis. */
  lemma NearestInRange(u: real, n: int)
    requires 0.0 <= u <= 1.0 && n >= 1
    ensures 0 <= Nearest(u, n) <= n - 1
  {
    var m := (n - 1) as real;
    assert 0.0 <= u * m <= m by {
      MulLeReal(0.0, u, m + 1.0);
      if m > 0.0 { MulLeReal(u, 1.0, m); }
    }
  }

  /**
   * The two bilinear taps and the fraction between them:
   * x0 = int32(x), x1 = min(x0 + 1, n - 1), fraction x - x0.
   */
  datatype Taps = Taps(i0: int, i1: int, fraction: real)

  function LinearTaps(u: real, n: int): Taps
  {
    var x := u * (n - 1) as real;
    var i0 := Trunc(x);
    Taps(i0, Min(i0 + 1, n - 1), x - i0 as real)
  }

  /** For a coordinate in [0, 1] both taps are in range and adjacent. */
  lemma LinearTapsInRange(u: real, n: int)
    requires 0.0 <= u <= 1.0 && n >= 1
    ensures var t := LinearTaps(u, n);
            && 0 <= t.i0 <= t.i1 <= n - 1
            && t.i1 <= t.i0 + 1
            && 0.0 <= t.fraction < 1.0
  {
    NearestInRange(u, n);
  }

  /** The combination of four colours with weights (dx, dy); colour math is not modelled. */
  type Blend = (Color, Color, Color, Color, real, real) -> Color

  class Texture {
    const image: Image

    constructor()
      ensures fresh(image) && image.Valid()
      ensures image.width == 0 && image.height == 0 && image.buffer == []
    {
      image := new Image();
    }

    /**
     * Create: an image of the given size with 32 bits per pixel for the two
     * supported formats, and 0 bits (no storage) otherwise.
     */
    method Create(size: Int2, format: TextureFormat)
      requires size.x >= 0 && size.y >= 0
      modifies image
      ensures image.Valid()
      ensures image.width == size.x && image.height == size.y
      ensures image.bitsPerPixel == FormatBits(format)
      ensures image.buffer == Resized(old(image.buffer), size.x * (FormatBits(format) / 8) * size.y)
      ensures FormatBits(format) == 0 ==> image.buffer == []
    {
      var bits := FormatBits(format);
      image.Create(size.x, size.y, bits);
    }

    /** The size as width and height (float in the source, integral in value). */
    function GetSize(): (size: Int2)
      reads image
      ensures size.x >= 0 && size.y >= 0
    {
      Int2(image.width, image.height)
    }

    /** WriteColor: one pixel write; the colour conversion is not modelled. */
    method WriteColor(xy: Int2, c: Color)
      requires image.Valid()
      modifies image
      ensures image.Valid()
      ensures image.width == old(image.width) && image.height == old(image.height)
      ensures image.bitsPerPixel == old(image.bitsPerPixel)
      ensures image.buffer == WritePixel(old(image.buffer), image.width, image.height,
                                         image.BytesPerPixel(), c, xy.x, xy.y)
    {
      image.SetPixel(c, xy.x, xy.y);
    }

    /** WriteData: the pixel receives the unpacked bytes of the 32-bit value. */
    method WriteData(xy: Int2, data: bv32)
      requires image.Valid()
      modifies image
      ensures image.Valid()
      ensures image.width == old(image.width) && image.height == old(image.height)
      ensures image.bitsPerPixel == old(image.bitsPerPixel)
      ensures image.buffer == WritePixel(old(image.buffer), image.width, image.height,
                                         image.BytesPerPixel(), UnpackFloat(data), xy.x, xy.y)
    {
      image.SetPixel(UnpackFloat(data), xy.x, xy.y);
    }

    /** ClearData: every pixel receives the unpacked bytes of the value. */
    method ClearData(value: bv32)
      requires image.Valid() && image.BytesPerPixel() <= 4
      modifies image
      ensures image.Valid()
      ensures image.width == old(image.width) && image.height == old(image.height)
      ensures image.bitsPerPixel == old(image.bitsPerPixel)
      ensures image.buffer == Repeat(Repeat(Representation(UnpackFloat(value))[..image.BytesPerPixel()],
                                            image.width), image.height)
    {
      image.Clear(Representation(UnpackFloat(value)));
    }

    /** ClearColor: every pixel receives the colour's bytes. */
    method ClearColor(c: Color)
      requires image.Valid() && image.BytesPerPixel() <= 4
      modifies image
      ensures image.Valid()
      ensures image.width == old(image.width) && image.height == old(image.height)
      ensures image.bitsPerPixel == old(image.bitsPerPixel)
      ensures image.buffer == Repeat(Repeat(Representation(c)[..image.BytesPerPixel()],
                                            image.width), image.height)
    {
      image.Clear(Representation(c));
    }

    /**
     * SampleData: the address mode is applied, then the point filter packs
     * the nearest pixel, the linear filter packs the blend of the four
     * taps, and any other filter yields the pattern of 0.0f.
     */
    function SampleData(uv: Float2, mode: AddressMode, filter: SampleFilter, blend: Blend): bv32
      reads image
    {
      var a := AdjustTextureAddress(uv, mode);
      var w, h := image.width, image.height;
      match filter
      case FilterPoint =>
        PackFloat(image.GetPixel(Nearest(a.x, w), Nearest(a.y, h)))
      case FilterLinear =>
        var tx, ty := LinearTaps(a.x, w), LinearTaps(a.y, h);
        PackFloat(blend(image.GetPixel(tx.i0, ty.i0), image.GetPixel(tx.i1, ty.i0),
                        image.GetPixel(tx.i0, ty.i1), image.GetPixel(tx.i1, ty.i1),
                        tx.fraction, ty.fraction))
      case OtherFilter => 0
    }

    /** SampleColor: the sampled value unpacked. */
    function SampleColor(uv: Float2, mode: AddressMode, filter: SampleFilter, blend: Blend): (c: Color)
      reads image
      ensures filter == OtherFilter ==> c == Color(0, 0, 0, 0)
      ensures filter == FilterPoint ==>
        var a := AdjustTextureAddress(uv, mode);
        c == image.GetPixel(Nearest(a.x, image.width), Nearest(a.y, image.height))
    {
      var d := SampleData(uv, mode, filter, blend);
      var a := AdjustTextureAddress(uv, mode);
      UnpackPack(image.GetPixel(Nearest(a.x, image.width), Nearest(a.y, image.height)));
      UnpackFloat(d)
    }
  }

  // ---------------------------------------------------------------------
  // Properties of the texture operations.
  // ---------------------------------------------------------------------

  /**
   * Point sampling reads a pixel inside a nonempty image for every address
   * mode except wrap with a negative coordinate.
   */
  lemma PointSampleInImage(uv: Float2, mode: AddressMode, w: nat, h: nat)
    requires w >= 1 && h >= 1
    requires mode == Wrap ==> uv.x >= 0.0 && uv.y >= 0.0
    ensures var a := AdjustTextureAddress(uv, mode);
            InImage(w, h, Nearest(a.x, w), Nearest(a.y, h))
  {
    var a := AdjustTextureAddress(uv, mode);
    NearestInRange(a.x, w);
    NearestInRange(a.y, h);
  }

  /**
   * A value written with WriteData to a 32-bit image reads back, packed,
   * as the same 32-bit pattern.
   */
  lemma WriteDataReadsBack(buf: seq<bv8>, w: nat, h: nat, data: bv32, x: nat, y: nat)
    requires |buf| == w * 4 * h && InImage(w, h, x, y)
    ensures PackFloat(ReadPixel(WritePixel(buf, w, h, 4, UnpackFloat(data), x, y), w, h, 4, x, y)) == data
  {
    ReadAfterWrite(buf, w, h, 4, UnpackFloat(data), x, y);
    PackUnpack(data);
  }

  /** After ClearColor on a 32-bit image every pixel reads as the colour. */
  lemma ClearColorReadsBack(c: Color, w: nat, h: nat, x: nat, y: nat)
    requires InImage(w, h, x, y)
    ensures ReadPixel(Repeat(Repeat(Representation(c), w), h), w, h, 4, x, y) == c
  {
    var bytes := Representation(c);
    ClearedPixel(bytes, w, h, x, y);
    var buf := Repeat(Repeat(bytes, w), h);
    var o := PixelOffset(w, 4, x, y);
    assert buf[o .. o + 4][0] == buf[o] && buf[o .. o + 4][3] == buf[o + 3];
    assert buf[o .. o + 4][1] == buf[o + 1] && buf[o .. o + 4][2] == buf[o + 2];
  }
}
