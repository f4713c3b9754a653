/** Image byte handling (engine/crates/impact_io/src/image.rs): choosing a
    decoder from the leading magic bytes, the pixel format a decoded PNG or
    JPEG image ends up in, and the loops that expand or strip channels.
    Decoding itself and the floating-point colour formulas are parameters. */
module ImageIO {
  import opened Wrappers

  type Byte = bv8

  /** `PixelFormat`. */
  datatype PixelFormat = Rgba8 | Luma8

  /** `ImageMetadata`. */
  datatype ImageMetadata = ImageMetadata(width: nat, height: nat, pixelFormat: PixelFormat)

  /** `Image`: metadata and raw pixel bytes. */
  datatype Image = Image(meta: ImageMetadata, data: seq<Byte>)

  /** Bytes per pixel of each format. */
  function BytesPerPixel(format: PixelFormat): nat
  {
    match format
    case Rgba8 => 4
    case Luma8 => 1
  }

  /** The pixel bytes fill exactly `width * height` pixels. */
  predicate WellSized(image: Image)
  {
    |image.data| == image.meta.width * image.meta.height * BytesPerPixel(image.meta.pixelFormat)
  }

  /** `dimensions`: for a well-sized image, width times height pixels
      account for all the bytes. */
  function Dimensions(image: Image): (r: (nat, nat))
    ensures WellSized(image) ==> r.0 * r.1 * BytesPerPixel(image.meta.pixelFormat) == |image.data|
  {
    (image.meta.width, image.meta.height)
  }

  /** `has_color`: only RGBA images carry colour, and they are the images
      with more than one byte per pixel. */
  function HasColor(image: Image): (b: bool)
    ensures b <==> BytesPerPixel(image.meta.pixelFormat) > 1
  {
    image.meta.pixelFormat.Rgba8?
  }

  /** The eight-byte PNG signature. */
  const PNG_MAGIC_BYTES: seq<Byte> := [0x89, 0x50, 0x4E, 0x47, 0x0D, 0x0A, 0x1A, 0x0A]

  /** The three-byte JPEG signature. */
  const JPEG_MAGIC_BYTES: seq<Byte> := [0xFF, 0xD8, 0xFF]

  const UNSUPPORTED_FORMAT: string := "Unsupported image format or corrupted image data"

  /** Encoded image formats the loader recognises. */
  datatype ImageFormat = Png | Jpeg

  predicate StartsWith(bytes: seq<Byte>, prefix: seq<Byte>)
  {
    |prefix| <= |bytes| && bytes[..|prefix|] == prefix
  }

  /** The dispatch of `load_image_from_bytes` and
      `read_image_metadata_from_bytes`: PNG when the bytes start with the PNG
      signature, JPEG when they start with the JPEG signature, an error for
      anything else. No byte string starts with both signatures, so the
      order of the tests does not matter. */
  function DetectFormat(bytes: seq<Byte>): (r: Result<ImageFormat, string>)
    ensures r == Ok(Png) <==> StartsWith(bytes, PNG_MAGIC_BYTES)
    ensures r == Ok(Jpeg) <==> StartsWith(bytes, JPEG_MAGIC_BYTES)
    ensures r.Err? <==> !StartsWith(bytes, PNG_MAGIC_BYTES) && !StartsWith(bytes, JPEG_MAGIC_BYTES)
    ensures r.Err? ==> r.error == UNSUPPORTED_FORMAT
  {
    assert StartsWith(bytes, PNG_MAGIC_BYTES) ==> bytes[0] == bytes[..8][0] == 0x89;
    assert StartsWith(bytes, JPEG_MAGIC_BYTES) ==> bytes[0] == bytes[..3][0] == 0xFF;
    if StartsWith(bytes, PNG_MAGIC_BYTES) then Ok(Png)
    else if StartsWith(bytes, JPEG_MAGIC_BYTES) then Ok(Jpeg)
    else Err(UNSUPPORTED_FORMAT)
  }

  /** Each luma byte becomes an opaque grey RGBA pixel. */
  function LumaToRgba(d: seq<Byte>): (r: seq<Byte>)
    ensures |r| == 4 * |d|
  {
    if d == [] then []
    else
      var l := d[|d| - 1];
      LumaToRgba(d[..|d| - 1]) + [l, l, l, 255]
  }

  /** Each RGB triple gains an opaque alpha byte. */
  function RgbToRgba(d: seq<Byte>): (r: seq<Byte>)
    requires |d| % 3 == 0
    ensures |r| == 4 * (|d| / 3)
  {
    if d == [] then []
    else RgbToRgba(d[..|d| - 3]) + d[|d| - 3..] + [255]
  }

  /** Each RGBA pixel becomes one luma byte from its colour channels. */
  function RgbaToLuma(d: seq<Byte>, lumaOf: (Byte, Byte, Byte) -> Byte): (r: seq<Byte>)
    requires |d| % 4 == 0
    ensures |r| == |d| / 4
  {
    if d == [] then []
    else
      var n := |d| - 4;
      RgbaToLuma(d[..n], lumaOf) + [lumaOf(d[n], d[n + 1], d[n + 2])]
  }

  /** Each luma-alpha pair keeps its luma byte. */
  function LumaAlphaToLuma(d: seq<Byte>): (r: seq<Byte>)
    requires |d| % 2 == 0
    ensures |r| == |d| / 2
  {
    if d == [] then []
    else LumaAlphaToLuma(d[..|d| - 2]) + [d[|d| - 2]]
  }

  /** Each YCbCr triple becomes an opaque RGBA pixel. */
  function YCbCrToRgba(d: seq<Byte>, toRgb: (Byte, Byte, Byte) -> (Byte, Byte, Byte)): (r: seq<Byte>)
    requires |d| % 3 == 0
    ensures |r| == 4 * (|d| / 3)
  {
    if d == [] then []
    else
      var n := |d| - 3;
      var (red, green, blue) := toRgb(d[n], d[n + 1], d[n + 2]);
      YCbCrToRgba(d[..n], toRgb) + [red, green, blue, 255]
  }

  /** Pixel `k` of the expanded luma data is `[l, l, l, 255]` for the `k`-th
      luma byte `l`. */
  lemma {:induction false} LumaToRgbaPixels(d: seq<Byte>, k: nat)
    requires k < |d|
    ensures LumaToRgba(d)[4 * k..4 * k + 4] == [d[k], d[k], d[k], 255]
    decreases |d|
  {
    var init := d[..|d| - 1];
    if k < |init| {
      LumaToRgbaPixels(init, k);
      assert LumaToRgba(d)[4 * k..4 * k + 4] == LumaToRgba(init)[4 * k..4 * k + 4];
    }
  }

  /** Pixel `k` of the RGBA data is the `k`-th RGB triple followed by 255;
      `n` is the number of pixels. */
  lemma {:induction false} RgbToRgbaPixels(d: seq<Byte>, n: nat, k: nat)
    requires |d| == 3 * n && k < n
    ensures RgbToRgba(d)[4 * k..4 * k + 4] == d[3 * k..3 * k + 3] + [255]
    decreases n
  {
    var init := d[..|d| - 3];
    var last := d[|d| - 3..] + [255];
    assert |init| == 3 * (n - 1) && |init| % 3 == 0;
    var prev := RgbToRgba(init);
    assert |prev| == 4 * (n - 1) by {
      assert |init| / 3 == n - 1;
    }
    var r := RgbToRgba(d);
    assert r == prev + last by {
      assert d != [];
    }
    if k < n - 1 {
      RgbToRgbaPixels(init, n - 1, k);
      assert 4 * k + 4 <= |prev|;
      assert r[4 * k..4 * k + 4] == prev[4 * k..4 * k + 4];
      assert init[3 * k..3 * k + 3] == d[3 * k..3 * k + 3];
    } else {
      assert 4 * k == |prev| && 3 * k == |d| - 3;
      assert r[4 * k..4 * k + 4] == last;
    }
  }

  /** Luma-alpha data built from lumas `l` and alphas `a` strips back to
      `l`: the conversion ignores alpha. */
  lemma {:induction false} LumaAlphaToLumaKeepsLuma(l: seq<Byte>, a: seq<Byte>)
    requires |l| == |a|
    ensures |Interleave(l, a)| % 2 == 0 && LumaAlphaToLuma(Interleave(l, a)) == l
    decreases |l|
  {
    if l != [] {
      var n := |l| - 1;
      LumaAlphaToLumaKeepsLuma(l[..n], a[..n]);
      var d := Interleave(l, a);
      assert d[..|d| - 2] == Interleave(l[..n], a[..n]);
      assert l == l[..n] + [l[n]];
    }
  }

  /** Pairs `[l[k], a[k]]` in order. */
  function Interleave(l: seq<Byte>, a: seq<Byte>): (d: seq<Byte>)
    requires |l| == |a|
    ensures |d| == 2 * |l|
  {
    if l == [] then [] else Interleave(l[..|l| - 1], a[..|a| - 1]) + [l[|l| - 1], a[|a| - 1]]
  }

  /** `convert_luma_data_to_rgba`. */
  method ConvertLumaDataToRgba(data: seq<Byte>) returns (rgba: seq<Byte>)
    ensures rgba == LumaToRgba(data)
  {
    rgba := [];
    for p := 0 to |data|
      invariant rgba == LumaToRgba(data[..p])
    {
      assert data[..p + 1][..p] == data[..p];
      rgba := rgba + [data[p], data[p], data[p], 255];
    }
    assert data[..|data|] == data;
  }

  /** `convert_rgb_data_to_rgba`: a length that is not a multiple of 3
      panics. */
  method ConvertRgbDataToRgba(data: seq<Byte>) returns (rgba: seq<Byte>)
    requires |data| % 3 == 0
    ensures rgba == RgbToRgba(data)
  {
    rgba := [];
    for c := 0 to |data| / 3
      invariant rgba == RgbToRgba(data[..3 * c])
    {
      var prefix := data[..3 * c + 3];
      assert prefix[..3 * c] == data[..3 * c] && prefix[3 * c..] == data[3 * c..3 * c + 3];
      rgba := rgba + [data[3 * c], data[3 * c + 1], data[3 * c + 2], 255];
    }
    assert data[..3 * (|data| / 3)] == data;
  }

  /** `convert_rgba_data_to_luma`, with the floating-point `rgb_to_luma` as
      `lumaOf`: a length that is not a multiple of 4 panics. */
  method ConvertRgbaDataToLuma(data: seq<Byte>, lumaOf: (Byte, Byte, Byte) -> Byte) returns (luma: seq<Byte>)
    requires |data| % 4 == 0
    ensures luma == RgbaToLuma(data, lumaOf)
  {
    luma := [];
    for c := 0 to |data| / 4
      invariant luma == RgbaToLuma(data[..4 * c], lumaOf)
    {
      var prefix := data[..4 * c + 4];
      assert prefix[..4 * c] == data[..4 * c];
      luma := luma + [lumaOf(data[4 * c], data[4 * c + 1], data[4 * c + 2])];
    }
    assert data[..4 * (|data| / 4)] == data;
  }

  /** `convert_luma_alpha_data_to_luma`: an odd length panics. */
  method ConvertLumaAlphaDataToLuma(data: seq<Byte>) returns (luma: seq<Byte>)
    requires |data| % 2 == 0
    ensures luma == LumaAlphaToLuma(data)
  {
    luma := [];
    for c := 0 to |data| / 2
      invariant luma == LumaAlphaToLuma(data[..2 * c])
    {
      var prefix := data[..2 * c + 2];
      assert prefix[..2 * c] == data[..2 * c];
      luma := luma + [data[2 * c]];
    }
    assert data[..2 * (|data| / 2)] == data;
  }

  /** `convert_ycbcr_data_to_rgba`, with the floating-point `ycbcr_to_rgb`
      as `toRgb`: a length that is not a multiple of 3 panics. */
  method ConvertYCbCrDataToRgba(data: seq<Byte>, toRgb: (Byte, Byte, Byte) -> (Byte, Byte, Byte))
    returns (rgba: seq<Byte>)
    requires |data| % 3 == 0
    ensures rgba == YCbCrToRgba(data, toRgb)
  {
    rgba := [];
    for c := 0 to |data| / 3
      invariant rgba == YCbCrToRgba(data[..3 * c], toRgb)
    {
      var prefix := data[..3 * c + 3];
      assert prefix[..3 * c] == data[..3 * c];
      var (red, green, blue) := toRgb(data[3 * c], data[3 * c + 1], data[3 * c + 2]);
      rgba := rgba + [red, green, blue, 255];
    }
    assert data[..3 * (|data| / 3)] == data;
  }

  /** `into_rgba8`: RGBA data is returned as it is, luma data expanded; a
      well-sized image yields four bytes per pixel either way. */
  method IntoRgba8(image: Image) returns (data: seq<Byte>)
    ensures image.meta.pixelFormat == Rgba8 ==> data == image.data
    ensures image.meta.pixelFormat == Luma8 ==> data == LumaToRgba(image.data)
    ensures WellSized(image) ==> |data| == 4 * (image.meta.width * image.meta.height)
  {
    match image.meta.pixelFormat
    case Rgba8 => data := image.data;
    case Luma8 => data := ConvertLumaDataToRgba(image.data);
  }

  /** `into_luma8`: luma data is returned as it is, RGBA data reduced to one
      byte per pixel (its length must be a multiple of 4); a well-sized image
      yields one byte per pixel either way. */
  method IntoLuma8(image: Image, lumaOf: (Byte, Byte, Byte) -> Byte) returns (data: seq<Byte>)
    requires image.meta.pixelFormat == Rgba8 ==> |image.data| % 4 == 0
    ensures image.meta.pixelFormat == Luma8 ==> data == image.data
    ensures image.meta.pixelFormat == Rgba8 ==> data == RgbaToLuma(image.data, lumaOf)
    ensures WellSized(image) ==> |data| == image.meta.width * image.meta.height
  {
    match image.meta.pixelFormat
    case Luma8 => data := image.data;
    case Rgba8 => data := ConvertRgbaDataToLuma(image.data, lumaOf);
  }

  /** PNG colour types. */
  datatype PngColorType = Grayscale | Rgb | Indexed | GrayscaleAlpha | Rgba

  /** Bytes per pixel of a PNG colour type as decoded (`Indexed` is never
      converted). */
  function PngChannels(c: PngColorType): nat
  {
    match c
    case Grayscale => 1
    case Rgb => 3
    case Indexed => 1
    case GrayscaleAlpha => 2
    case Rgba => 4
  }

  /** The pixel format `read_png_metadata_from_reader` reports for a colour
      type: colour types become RGBA, grey types luma, indexed is an
      error. */
  function PngPixelFormat(c: PngColorType): (r: Result<PixelFormat, string>)
    ensures r.Err? <==> c == Indexed
    ensures r.Ok? ==> (r.value == Rgba8 <==> c == Rgb || c == Rgba)
  {
    match c
    case Rgb => Ok(Rgba8)
    case Rgba => Ok(Rgba8)
    case Grayscale => Ok(Luma8)
    case GrayscaleAlpha => Ok(Luma8)
    case Indexed => Err("Unsupported PNG color type: Indexed")
  }

  /** The pixel conversion of `load_png_from_reader` for a decoded frame:
      the format matches what the metadata reader reports, and a frame of
      `n` whole pixels yields `n` pixels of that format. */
  method ConvertPngFrame(c: PngColorType, buf: seq<Byte>) returns (r: Result<(seq<Byte>, PixelFormat), string>)
    requires |buf| % PngChannels(c) == 0
    ensures r.Ok? <==> PngPixelFormat(c).Ok?
    ensures r.Ok? ==> r.value.1 == PngPixelFormat(c).value
    ensures r.Ok? ==> |r.value.0| == BytesPerPixel(r.value.1) * (|buf| / PngChannels(c))
  {
    match c
    case Rgb =>
      var rgba := ConvertRgbDataToRgba(buf);
      r := Ok((rgba, Rgba8));
    case Rgba =>
      r := Ok((buf, Rgba8));
    case Grayscale =>
      r := Ok((buf, Luma8));
    case GrayscaleAlpha =>
      var luma := ConvertLumaAlphaDataToLuma(buf);
      r := Ok((luma, Luma8));
    case Indexed =>
      r := Err("Unsupported PNG color type: Indexed");
  }

  /** JPEG output colour spaces; the decoder's other spaces are `Other`. */
  datatype JpegColorSpace = RGB | RGBA | YCbCr | Luma | LumaA | Other

  function JpegChannels(c: JpegColorSpace): nat
  {
    match c
    case RGB => 3
    case RGBA => 4
    case YCbCr => 3
    case Luma => 1
    case LumaA => 2
    case Other => 1
  }

  /** The pixel format `read_jpeg_metadata_from_bytes` reports. */
  function JpegPixelFormat(c: JpegColorSpace): (r: Result<PixelFormat, string>)
    ensures r.Err? <==> c == Other
    ensures r.Ok? ==> (r.value == Luma8 <==> c == Luma || c == LumaA)
  {
    match c
    case RGB => Ok(Rgba8)
    case RGBA => Ok(Rgba8)
    case YCbCr => Ok(Rgba8)
    case Luma => Ok(Luma8)
    case LumaA => Ok(Luma8)
    case Other => Err("Unsupported JPEG colorspace")
  }

  /** The pixel conversion of `load_jpeg_from_bytes`: the format agrees with
      the metadata reader and the pixel count is kept. */
  method ConvertJpegPixels(c: JpegColorSpace, pixels: seq<Byte>, toRgb: (Byte, Byte, Byte) -> (Byte, Byte, Byte))
    returns (r: Result<(seq<Byte>, PixelFormat), string>)
    requires |pixels| % JpegChannels(c) == 0
    ensures r.Ok? <==> JpegPixelFormat(c).Ok?
    ensures r.Ok? ==> r.value.1 == JpegPixelFormat(c).value
    ensures r.Ok? ==> |r.value.0| == BytesPerPixel(r.value.1) * (|pixels| / JpegChannels(c))
  {
    match c
    case RGB =>
      var rgba := ConvertRgbDataToRgba(pixels);
      r := Ok((rgba, Rgba8));
    case RGBA =>
      r := Ok((pixels, Rgba8));
    case YCbCr =>
      var rgba := ConvertYCbCrDataToRgba(pixels, toRgb);
      r := Ok((rgba, Rgba8));
    case Luma =>
      r := Ok((pixels, Luma8));
    case LumaA =>
      var luma := ConvertLumaAlphaDataToLuma(pixels);
      r := Ok((luma, Luma8));
    case Other =>
      r := Err("Unsupported JPEG colorspace");
  }
}
