/**
 * The image compression pipeline of `process.rs`: format and animation detection, the
 * choice between re-encoding and passing bytes through, the lossy PNG pre-quantisation, and
 * the batch commands `compress_images`, `save_files` and `get_file_sizes`.
 *
 * The codec library (format sniffing, GIF frame decoding, pixel decoding, the PNG / JPEG /
 * WebP / generic encoders), the gif2webp sidecar and the file system are parameters
 * (`Codecs`, `Host`); everything the backend itself decides is modelled.
 */
module Process {
  import opened Wrappers
  import Sorting

  type Byte = x: int | 0 <= x < 256
  type Bytes = seq<Byte>

  /** Output mode chosen by the caller for a whole batch. */
  datatype Mode = OriginalFormat | Webp

  datatype PngCompressionMode = Lossy | Lossless

  datatype PngOptimizationLevel = Best | Default | Fast

  /** The formats `image::ImageFormat` can report. */
  datatype ImageFormat =
    | Png | Jpeg | Gif | WebP | Pnm | Tiff | Tga | Dds | Bmp | Ico | Hdr | OpenExr
    | Farbfeld | Avif | Qoi | Pcx

  datatype DetectedKind = Static(format: ImageFormat) | Animated(format: ImageFormat)

  /** Pixel layouts of a decoded `DynamicImage`. */
  datatype ColorType = L8 | La8 | Rgb8 | Rgba8 | L16 | La16 | Rgb16 | Rgba16 | Rgb32F | Rgba32F

  predicate HasAlpha(c: ColorType) {
    c == La8 || c == Rgba8 || c == La16 || c == Rgba16 || c == Rgba32F
  }

  /** One pixel of the `to_rgba8()` buffer. */
  datatype Pixel = Pixel(r: Byte, g: Byte, b: Byte, a: Byte)

  /** A decoded image: its original layout and its RGBA8 view. */
  datatype Image = Image(color: ColorType, width: nat, height: nat, rgba: seq<Pixel>)

  function Min(a: int, b: int): int { if a <= b then a else b }

  // ---------- Lossy PNG pre-quantisation ----------

  /**
   * `quantize_channel`: rounds a channel to the nearest multiple of `step` (halves round up)
   * and caps it at 255; steps of 0 and 1 leave the value alone.
   */
  function QuantizeChannel(value: Byte, step: Byte): (r: Byte)
    ensures step <= 1 ==> r == value
    ensures step > 1 ==> r % step == 0 || r == 255
    ensures step > 1 ==> r - value <= step / 2 && value - r <= step / 2
  {
    if step <= 1 then value
    else
      var rounded := ((value + step / 2) / step) * step;
      RoundNearest(value, step);
      Min(rounded, 255)
  }

  /** The multiple of `step` nearest to `value`, halves rounding up, is within half a step of it. */
  lemma RoundNearest(value: nat, step: nat)
    requires step > 1
    ensures var m := ((value + step / 2) / step) * step;
      m % step == 0 && m - value <= step / 2 && value - m <= step / 2
  {
    var h := step / 2;
    var q := (value + h) / step;
    DivBounds(value + h, step);
    MultipleMod(q, step);
    assert step - h <= h + 1;
  }

  lemma DivBounds(n: nat, d: nat)
    requires d > 0
    ensures (n / d) * d <= n < (n / d) * d + d
  {
  }

  lemma MultipleMod(q: nat, d: nat)
    requires d > 0
    ensures (q * d) % d == 0
  {
    DivModUnique(q * d, d, q, 0);
  }

  /** Euclidean division is unique: `n == k * d + m` with `0 <= m < d` fixes `n / d` and `n % d`. */
  lemma DivModUnique(n: nat, d: nat, k: nat, m: nat)
    requires d > 0 && m < d && n == k * d + m
    ensures n / d == k && n % d == m
  {
    var q := n / d;
    DivBounds(n, d);
    if q < k {
      assert (q + 1) * d == q * d + d;
      MulMonotone(q + 1, k, d);
    } else if q > k {
      assert (k + 1) * d == k * d + d;
      MulMonotone(k + 1, q, d);
    }
  }

  /** A brighter channel never quantises to a darker value than a dimmer one. */
  lemma QuantizeMonotone(v1: Byte, v2: Byte, step: Byte)
    requires v1 <= v2
    ensures QuantizeChannel(v1, step) <= QuantizeChannel(v2, step)
  {
    if step > 1 {
      RoundedMonotone(v1, v2, step);
    }
  }

  lemma RoundedMonotone(v1: nat, v2: nat, step: nat)
    requires v1 <= v2 && step > 0
    ensures ((v1 + step / 2) / step) * step <= ((v2 + step / 2) / step) * step
  {
    DivMonotone(v1 + step / 2, v2 + step / 2, step);
    MulMonotone((v1 + step / 2) / step, (v2 + step / 2) / step, step);
  }

  lemma DivMonotone(a: nat, b: nat, d: nat)
    requires d > 0 && a <= b
    ensures a / d <= b / d
  {
    DivBounds(a, d);
    DivBounds(b, d);
    if a / d > b / d {
      MulMonotone(b / d + 1, a / d, d);
    }
  }

  lemma MulMonotone(x: nat, y: nat, d: nat)
    requires x <= y
    ensures x * d <= y * d
  {
  }

  /** Quantising an already quantised channel changes nothing. */
  lemma QuantizeIdempotent(v: Byte, step: Byte)
    ensures QuantizeChannel(QuantizeChannel(v, step), step) == QuantizeChannel(v, step)
  {
    if step > 1 {
      var r := QuantizeChannel(v, step);
      var h := step / 2;
      if r == 255 {
        // the cap was hit (or 255 is itself a multiple): quantising 255 hits it again
        RoundedMonotone(v, 255, step);
      } else {
        var k := r / step;
        assert r == k * step;
        assert (r + h) / step == k by { DivOfMultiplePlus(k, h, step); }
      }
    }
  }

  lemma DivOfMultiplePlus(k: nat, h: nat, d: nat)
    requires h < d
    ensures (k * d + h) / d == k
  {
    DivModUnique(k * d + h, d, k, h);
  }

  /** The step table of `encode_png`: lower quality, coarser step. */
  function LossyStep(quality: Byte): (step: Byte)
    ensures step in {1, 2, 4, 8, 16, 32, 48}
    ensures step == 1 <==> quality > 95
  {
    if quality <= 10 then 48
    else if quality <= 25 then 32
    else if quality <= 45 then 16
    else if quality <= 65 then 8
    else if quality <= 85 then 4
    else if quality <= 95 then 2
    else 1
  }

  /** The step never grows as quality rises. */
  lemma LossyStepNonIncreasing(q1: Byte, q2: Byte)
    requires q1 <= q2
    ensures LossyStep(q2) <= LossyStep(q1)
  {
  }

  /** Quantises the colour channels of one pixel; alpha is kept. */
  function QuantizePixel(p: Pixel, step: Byte): Pixel {
    p.(r := QuantizeChannel(p.r, step), g := QuantizeChannel(p.g, step), b := QuantizeChannel(p.b, step))
  }

  /**
   * The RGBA buffer `encode_png` hands to the PNG encoder: in Lossy mode with a step above 1
   * every colour channel is quantised; otherwise the pixels are unchanged.
   */
  function PngPixels(pixels: seq<Pixel>, quality: Byte, mode: PngCompressionMode): (r: seq<Pixel>)
    ensures |r| == |pixels|
    ensures mode == Lossless || quality > 95 ==> r == pixels
    ensures forall i :: 0 <= i < |r| ==> r[i].a == pixels[i].a
    ensures mode == Lossy ==> forall i :: 0 <= i < |r| ==>
      ChannelNear(r[i].r, pixels[i].r, LossyStep(quality)) &&
      ChannelNear(r[i].g, pixels[i].g, LossyStep(quality)) &&
      ChannelNear(r[i].b, pixels[i].b, LossyStep(quality))
  {
    if mode == Lossy && LossyStep(quality) > 1 then
      seq(|pixels|, i requires 0 <= i < |pixels| => QuantizePixel(pixels[i], LossyStep(quality)))
    else pixels
  }

  /** `out` is a quantisation of `v` with `step`: a multiple of it (or 255), at most half a step off. */
  predicate ChannelNear(out: Byte, v: Byte, step: Byte) {
    (step <= 1 ==> out == v) &&
    (step > 1 ==> (out % step == 0 || out == 255) && out - v <= step / 2 && v - out <= step / 2)
  }

  /** The pixel loop of `encode_png`, in place on the RGBA buffer. */
  method QuantizeForPng(rgba: array<Pixel>, quality: Byte, mode: PngCompressionMode)
    modifies rgba
    ensures rgba[..] == PngPixels(old(rgba[..]), quality, mode)
  {
    if mode == Lossy {
      var step := LossyStep(quality);
      if step > 1 {
        var i := 0;
        while i < rgba.Length
          invariant 0 <= i <= rgba.Length
          invariant forall k :: 0 <= k < i ==> rgba[k] == QuantizePixel(old(rgba[k]), step)
          invariant forall k :: i <= k < rgba.Length ==> rgba[k] == old(rgba[k])
        {
          var p := rgba[i];
          rgba[i] := p.(r := QuantizeChannel(p.r, step), g := QuantizeChannel(p.g, step),
                        b := QuantizeChannel(p.b, step));
          i := i + 1;
        }
      }
    }
  }

  // ---------- Format detection ----------

  /** The foreign codec library and the gif2webp sidecar. */
  datatype Codecs = Codecs(
    guessFormat: Bytes -> Result<ImageFormat, string>,   // image::guess_format
    gifSecondFrame: Bytes -> Result<bool, string>,       // GifDecoder::new, then a second frame?
    decode: Bytes -> Result<Image, string>,              // ImageReader ... decode()
    writePng: (seq<Pixel>, nat, nat, PngCompression) -> Result<Bytes, string>,
    writeJpeg: (Image, JpegInput, Byte) -> Result<Bytes, string>,
    writeWebp: (Image, WebpLayout, Byte) -> Bytes,       // the webp crate's encode cannot fail
    writeGeneric: (Image, ImageFormat) -> Result<Bytes, string>,
    gif2webp: (Bytes, Byte) -> Result<Bytes, string>)

  /** The four bytes "ANIM" start at `i`. */
  predicate AnimAt(b: Bytes, i: nat)
    requires i + 4 <= |b|
  {
    b[i] == 0x41 && b[i + 1] == 0x4E && b[i + 2] == 0x49 && b[i + 3] == 0x4D
  }

  /** `bytes.windows(4).any(|w| w == b"ANIM")`, scanning left to right. */
  function HasAnimChunk(b: Bytes): bool
    decreases |b|
  {
    |b| >= 4 && (AnimAt(b, 0) || HasAnimChunk(b[1..]))
  }

  /** The scan finds "ANIM" exactly when some 4-byte window of the input is "ANIM". */
  lemma {:induction false} HasAnimChunkIff(b: Bytes)
    ensures HasAnimChunk(b) <==> exists i :: 0 <= i && i + 4 <= |b| && AnimAt(b, i)
    decreases |b|
  {
    if |b| >= 4 {
      HasAnimChunkIff(b[1..]);
      if exists i :: 0 <= i && i + 4 <= |b| && AnimAt(b, i) {
        var i :| 0 <= i && i + 4 <= |b| && AnimAt(b, i);
        if i > 0 {
          assert AnimAt(b[1..], i - 1);
        }
      }
      if exists i :: 0 <= i && i + 4 <= |b| - 1 && AnimAt(b[1..], i) {
        var i :| 0 <= i && i + 4 <= |b| - 1 && AnimAt(b[1..], i);
        assert AnimAt(b, i + 1);
      }
    }
  }

  /**
   * `detect_format_and_kind`: the container comes from the byte signature; a GIF is animated
   * when a second frame exists, a WebP when the bytes contain "ANIM"; every other format is
   * static.
   */
  function DetectKind(c: Codecs, bytes: Bytes): (r: Result<DetectedKind, string>)
    ensures r.Err? <==>
      c.guessFormat(bytes).Err? || (c.guessFormat(bytes) == Ok(Gif) && c.gifSecondFrame(bytes).Err?)
    ensures r.Ok? ==> c.guessFormat(bytes) == Ok(r.value.format)
    ensures c.guessFormat(bytes) == Ok(Gif) && c.gifSecondFrame(bytes).Ok? ==>
      r == Ok(if c.gifSecondFrame(bytes).value then Animated(Gif) else Static(Gif))
    ensures c.guessFormat(bytes).Ok? && c.guessFormat(bytes).value !in {Gif, WebP} ==>
      r == Ok(Static(c.guessFormat(bytes).value))
    ensures r.Ok? && r.value.Animated? ==> r.value.format == Gif || r.value.format == WebP
    ensures c.guessFormat(bytes) == Ok(WebP) ==>
      (r == Ok(Animated(WebP)) <==> exists i :: 0 <= i && i + 4 <= |bytes| && AnimAt(bytes, i))
  {
    HasAnimChunkIff(bytes);
    match c.guessFormat(bytes)
    case Err(e) => Err("guess format: " + e)
    case Ok(Gif) =>
      (match c.gifSecondFrame(bytes)
       case Err(e) => Err("gif decode: " + e)
       case Ok(second) => Ok(if second then Animated(Gif) else Static(Gif)))
    case Ok(WebP) => Ok(if HasAnimChunk(bytes) then Animated(WebP) else Static(WebP))
    case Ok(other) => Ok(Static(other))
  }

  // ---------- Encoding decisions ----------

  /** The png crate's compression levels. */
  datatype PngCompression = CompressionBest | CompressionDefault | CompressionFast

  function PngCompressionFor(o: PngOptimizationLevel): PngCompression {
    match o
    case Best => CompressionBest
    case Default => CompressionDefault
    case Fast => CompressionFast
  }

  /** Which buffer `encode_jpeg` writes: 8-bit grey and RGB as they are, anything else flattened to RGB. */
  datatype JpegInput = JpegLuma8 | JpegRgb8 | JpegFlattenedRgb8

  function JpegInputFor(c: ColorType): (j: JpegInput)
    ensures j == JpegFlattenedRgb8 <==> c != L8 && c != Rgb8
  {
    if c == L8 then JpegLuma8 else if c == Rgb8 then JpegRgb8 else JpegFlattenedRgb8
  }

  datatype WebpLayout = LayoutRgba | LayoutRgb

  /** `encode_webp_static` keeps an alpha channel exactly when the image has one. */
  function WebpLayoutFor(c: ColorType): (l: WebpLayout)
    ensures l == LayoutRgba <==> HasAlpha(c)
  {
    if HasAlpha(c) then LayoutRgba else LayoutRgb
  }

  /** The static encoders of `process.rs`. */
  datatype Encoder =
    | PngEncoder(quality: Byte, pngMode: PngCompressionMode, optimization: PngOptimizationLevel)
    | JpegEncoder(quality: Byte)
    | WebpEncoder(quality: Byte)
    | GenericEncoder(format: ImageFormat)
  {
    /** The container format the encoder writes. */
    function Target(): ImageFormat {
      match this
      case PngEncoder(_, _, _) => Png
      case JpegEncoder(_) => Jpeg
      case WebpEncoder(_) => WebP
      case GenericEncoder(f) => f
    }
  }

  /** `encode_to_format`: the encoder that writes `fmt` again. */
  function EncoderFor(fmt: ImageFormat, quality: Byte, pngMode: PngCompressionMode,
                      pngOpt: PngOptimizationLevel): (e: Encoder)
    ensures e.Target() == fmt
    ensures fmt == Png ==> e == PngEncoder(quality, pngMode, pngOpt)
    ensures fmt == Jpeg ==> e == JpegEncoder(quality)
    ensures fmt == WebP ==> e == WebpEncoder(quality)
  {
    match fmt
    case Png => PngEncoder(quality, pngMode, pngOpt)
    case Jpeg => JpegEncoder(quality)
    case WebP => WebpEncoder(quality)
    case _ => GenericEncoder(fmt)
  }

  /** What `process_one` / `process_data` do with an input of a given kind. */
  datatype Plan = Reencode(encoder: Encoder) | GifToWebp(quality: Byte) | PassThrough

  /**
   * The `(kind, mode)` match: static inputs are decoded and re-encoded (as WebP in WebP mode,
   * in their own format otherwise); an animated GIF in WebP mode goes to gif2webp; every other
   * animated input is written out unchanged.
   */
  function PlanFor(kind: DetectedKind, mode: Mode, quality: Byte, pngMode: PngCompressionMode,
                   pngOpt: PngOptimizationLevel): (p: Plan)
    ensures p.Reencode? <==> kind.Static?
    ensures p.GifToWebp? <==> kind == Animated(Gif) && mode == Webp
    ensures p.PassThrough? <==> kind.Animated? && (mode == OriginalFormat || kind.format != Gif)
    ensures p.Reencode? ==> p.encoder.Target() == (if mode == Webp then WebP else kind.format)
    ensures p.Reencode? && mode == Webp ==> p.encoder == WebpEncoder(quality)
    ensures p.GifToWebp? ==> p.quality == quality
  {
    match (kind, mode)
    case (Static(fmt), OriginalFormat) => Reencode(EncoderFor(fmt, quality, pngMode, pngOpt))
    case (Static(_), Webp) => Reencode(WebpEncoder(quality))
    case (Animated(_), OriginalFormat) => PassThrough
    case (Animated(fmt), Webp) => if fmt == Gif then GifToWebp(quality) else PassThrough
  }

  /** Runs one encoder on a decoded image (`encode_png`, `encode_jpeg`, `encode_webp_static`, `write_to`). */
  function Encode(c: Codecs, img: Image, e: Encoder): Result<Bytes, string> {
    match e
    case PngEncoder(q, m, o) =>
      c.writePng(PngPixels(img.rgba, q, m), img.width, img.height, PngCompressionFor(o))
    case JpegEncoder(q) => c.writeJpeg(img, JpegInputFor(img.color), q)
    case WebpEncoder(q) => Ok(c.writeWebp(img, WebpLayoutFor(img.color), q))
    case GenericEncoder(f) => c.writeGeneric(img, f)
  }

  /** The bytes written to the output file for an input of the given kind. */
  function Transcode(c: Codecs, kind: DetectedKind, bytes: Bytes, quality: Byte, mode: Mode,
                     pngMode: PngCompressionMode, pngOpt: PngOptimizationLevel): Result<Bytes, string> {
    match PlanFor(kind, mode, quality, pngMode, pngOpt)
    case PassThrough => Ok(bytes)
    case GifToWebp(q) => c.gif2webp(bytes, q)
    case Reencode(e) =>
      match c.decode(bytes)
      case Err(m) => Err("decode: " + m)
      case Ok(img) => Encode(c, img, e)
  }

  /** Animated inputs other than a GIF bound for WebP come out byte for byte. */
  lemma AnimatedPassThrough(c: Codecs, kind: DetectedKind, bytes: Bytes, quality: Byte, mode: Mode,
                            pngMode: PngCompressionMode, pngOpt: PngOptimizationLevel)
    requires kind.Animated? && (mode == OriginalFormat || kind.format != Gif)
    ensures Transcode(c, kind, bytes, quality, mode, pngMode, pngOpt) == Ok(bytes)
  {
  }

  /**
   * A static input in WebP mode always goes through the WebP encoder; in original-format mode
   * through the encoder for its own format. Lossless PNG keeps every pixel.
   */
  lemma StaticReencode(c: Codecs, fmt: ImageFormat, bytes: Bytes, quality: Byte, mode: Mode,
                       pngMode: PngCompressionMode, pngOpt: PngOptimizationLevel, img: Image)
    requires c.decode(bytes) == Ok(img)
    ensures mode == Webp ==>
      Transcode(c, Static(fmt), bytes, quality, mode, pngMode, pngOpt)
        == Ok(c.writeWebp(img, WebpLayoutFor(img.color), quality))
    ensures mode == OriginalFormat ==>
      Transcode(c, Static(fmt), bytes, quality, mode, pngMode, pngOpt)
        == Encode(c, img, EncoderFor(fmt, quality, pngMode, pngOpt))
    ensures mode == OriginalFormat && fmt == Png && pngMode == Lossless ==>
      Transcode(c, Static(fmt), bytes, quality, mode, pngMode, pngOpt)
        == c.writePng(img.rgba, img.width, img.height, PngCompressionFor(pngOpt))
  {
  }

  // ---------- Orchestrator ----------

  /** The file system as `process_one` uses it. */
  datatype Host = Host(
    read: string -> Result<Bytes, string>,                // read_all_bytes
    tempFile: (string, string) -> Result<string, string>,  // ensure_app_temp_dir + tempfile_in(prefix), per item
    keep: (string, Bytes) -> Result<string, string>)      // write_all + into_temp_path().keep()

  /**
   * `process_one`: read, detect, create the output temp file, transcode, keep the file.
   * Any failure along the way is an error for this path only.
   */
  function ProcessOne(c: Codecs, h: Host, path: string, quality: Byte, mode: Mode,
                      pngMode: PngCompressionMode, pngOpt: PngOptimizationLevel): (r: Result<string, string>)
    ensures r.Ok? <==>
      h.read(path).Ok? && DetectKind(c, h.read(path).value).Ok? && h.tempFile("yana_", path).Ok?
      && Transcode(c, DetectKind(c, h.read(path).value).value, h.read(path).value,
                   quality, mode, pngMode, pngOpt).Ok?
      && h.keep(h.tempFile("yana_", path).value,
                Transcode(c, DetectKind(c, h.read(path).value).value, h.read(path).value,
                          quality, mode, pngMode, pngOpt).value).Ok?
    ensures (h.read(path).Ok? && DetectKind(c, h.read(path).value).Ok? && h.tempFile("yana_", path).Ok?
             && Transcode(c, DetectKind(c, h.read(path).value).value, h.read(path).value,
                          quality, mode, pngMode, pngOpt).Ok?) ==>
      r == h.keep(h.tempFile("yana_", path).value,
                  Transcode(c, DetectKind(c, h.read(path).value).value, h.read(path).value,
                            quality, mode, pngMode, pngOpt).value)
  {
    var bytes :- h.read(path);
    var kind :- DetectKind(c, bytes);
    var tmp :- h.tempFile("yana_", path);
    var out :- Transcode(c, kind, bytes, quality, mode, pngMode, pngOpt);
    h.keep(tmp, out)
  }

  /** `process_data`: the same pipeline over an in-memory buffer. */
  function ProcessData(c: Codecs, h: Host, data: Bytes, id: string, quality: Byte, mode: Mode,
                       pngMode: PngCompressionMode, pngOpt: PngOptimizationLevel): (r: Result<string, string>)
    ensures r.Ok? <==>
      DetectKind(c, data).Ok? && h.tempFile("yana_clipboard_", id).Ok?
      && Transcode(c, DetectKind(c, data).value, data, quality, mode, pngMode, pngOpt).Ok?
      && h.keep(h.tempFile("yana_clipboard_", id).value,
                Transcode(c, DetectKind(c, data).value, data, quality, mode, pngMode, pngOpt).value).Ok?
    ensures (DetectKind(c, data).Ok? && h.tempFile("yana_clipboard_", id).Ok?
             && Transcode(c, DetectKind(c, data).value, data, quality, mode, pngMode, pngOpt).Ok?) ==>
      r == h.keep(h.tempFile("yana_clipboard_", id).value,
                  Transcode(c, DetectKind(c, data).value, data, quality, mode, pngMode, pngOpt).value)
  {
    var kind :- DetectKind(c, data);
    var tmp :- h.tempFile("yana_clipboard_", id);
    var out :- Transcode(c, kind, data, quality, mode, pngMode, pngOpt);
    h.keep(tmp, out)
  }

  /** `compress_image_data`: clamps the quality and processes the buffer. */
  function CompressImageData(c: Codecs, h: Host, data: Bytes, id: string, quality: Byte, mode: Mode,
                             pngMode: PngCompressionMode, pngOpt: PngOptimizationLevel): Result<string, string>
  {
    ProcessData(c, h, data, id, if quality <= 100 then quality else 100, mode, pngMode, pngOpt)
  }

  /** A quality above 100 behaves as 100; up to 100 it is passed through unchanged. */
  lemma CompressImageDataClamp(c: Codecs, h: Host, data: Bytes, id: string, quality: Byte, mode: Mode,
                               pngMode: PngCompressionMode, pngOpt: PngOptimizationLevel)
    ensures quality >= 100 ==>
      CompressImageData(c, h, data, id, quality, mode, pngMode, pngOpt)
        == CompressImageData(c, h, data, id, 100, mode, pngMode, pngOpt)
    ensures quality <= 100 ==>
      CompressImageData(c, h, data, id, quality, mode, pngMode, pngOpt)
        == ProcessData(c, h, data, id, quality, mode, pngMode, pngOpt)
  {
  }

  /**
   * An animated input that needs no transcoding is written out byte for byte: the kept file
   * receives exactly the bytes that were read.
   */
  lemma ProcessOneKeepsAnimatedBytes(c: Codecs, h: Host, path: string, quality: Byte, mode: Mode,
                                     pngMode: PngCompressionMode, pngOpt: PngOptimizationLevel)
    requires h.read(path).Ok? && h.tempFile("yana_", path).Ok?
    requires DetectKind(c, h.read(path).value).Ok? && DetectKind(c, h.read(path).value).value.Animated?
    requires mode == OriginalFormat || DetectKind(c, h.read(path).value).value.format != Gif
    ensures ProcessOne(c, h, path, quality, mode, pngMode, pngOpt)
      == h.keep(h.tempFile("yana_", path).value, h.read(path).value)
  {
    AnimatedPassThrough(c, DetectKind(c, h.read(path).value).value, h.read(path).value,
                        quality, mode, pngMode, pngOpt);
  }

  /** The produced path, or the input path when processing failed. */
  function OrOriginal(r: Result<string, string>, path: string): string {
    if r.Ok? then r.value else path
  }

  /**
   * `compress_images`: the quality is clamped to 100, each path is tagged with its index and
   * processed, a failed item falls back to its own path, and the pairs are sorted by index.
   * The output has one entry per input, in input order.
   */
  method CompressImages(c: Codecs, h: Host, paths: seq<string>, quality: Byte, mode: Mode,
                        pngMode: PngCompressionMode, pngOpt: PngOptimizationLevel)
    returns (out: seq<string>)
    ensures |out| == |paths|
    ensures forall i :: 0 <= i < |paths| ==>
      out[i] == OrOriginal(ProcessOne(c, h, paths[i], Min(quality, 100), mode, pngMode, pngOpt), paths[i])
  {
    var q: Byte := if quality <= 100 then quality else 100;
    var v := Tagged(paths, p => OrOriginal(ProcessOne(c, h, p, q, mode, pngMode, pngOpt), p));
    ghost var collected := v[..];
    var byIndex := (x: (nat, string), y: (nat, string)) => x.0 <= y.0;
    assert Sorting.SortedBy(collected, byIndex);
    Sorting.SortedIsFixpoint(collected, byIndex);
    Sorting.SortInPlace(v, byIndex);
    out := seq(v.Length, k requires 0 <= k < v.Length reads v => v[k].1);
  }

  /** The per-item map of `compress_images`: each path's outcome, tagged with its index. */
  method Tagged(paths: seq<string>, outcome: string -> string) returns (v: array<(nat, string)>)
    ensures fresh(v) && v.Length == |paths|
    ensures forall k :: 0 <= k < |paths| ==> v[k] == (k, outcome(paths[k]))
  {
    v := new (nat, string)[|paths|];
    for i := 0 to |paths|
      invariant forall k :: 0 <= k < i ==> v[k] == (k, outcome(paths[k]))
    {
      v[i] := (i, outcome(paths[i]));
    }
  }

  /** The copy attempts `save_files` makes, pair by pair. */
  function Pairs(sources: seq<string>, dests: seq<string>): (ps: seq<(string, string)>)
    requires |sources| == |dests|
    ensures |ps| == |sources|
    ensures forall i :: 0 <= i < |ps| ==> ps[i] == (sources[i], dests[i])
  {
    seq(|sources|, i requires 0 <= i < |sources| => (sources[i], dests[i]))
  }

  /** How many of the copies succeed. */
  function Copied(ps: seq<(string, string)>, copy: (string, string) -> bool): nat {
    if |ps| == 0 then 0
    else Copied(ps[..|ps| - 1], copy) + (if copy(ps[|ps| - 1].0, ps[|ps| - 1].1) then 1 else 0)
  }

  /** At most every pair is copied, and all of them exactly when every copy succeeds. */
  lemma {:induction false} CopiedBound(ps: seq<(string, string)>, copy: (string, string) -> bool)
    ensures Copied(ps, copy) <= |ps|
    ensures Copied(ps, copy) == |ps| <==> forall i :: 0 <= i < |ps| ==> copy(ps[i].0, ps[i].1)
    decreases |ps|
  {
    if |ps| > 0 {
      var u := ps[..|ps| - 1];
      CopiedBound(u, copy);
      if forall i :: 0 <= i < |ps| ==> copy(ps[i].0, ps[i].1) {
        assert forall i :: 0 <= i < |u| ==> copy(u[i].0, u[i].1) by {
          forall i | 0 <= i < |u| ensures copy(u[i].0, u[i].1) {
            assert u[i] == ps[i];
          }
        }
      }
      if Copied(ps, copy) == |ps| {
        forall i | 0 <= i < |ps| ensures copy(ps[i].0, ps[i].1) {
          if i < |u| {
            assert u[i] == ps[i];
          }
        }
      }
    }
  }

  /**
   * `save_files`: rejects mismatched lists before copying anything; otherwise tries every
   * pair in order and returns how many copies succeeded. `attempts` lists the copies tried.
   */
  method SaveFiles(sources: seq<string>, dests: seq<string>, copy: (string, string) -> bool)
    returns (r: Result<nat, string>, attempts: seq<(string, string)>)
    ensures |sources| != |dests| ==> r.Err? && attempts == []
    ensures |sources| == |dests| ==> r.Ok? && attempts == Pairs(sources, dests)
    ensures r.Ok? ==> r.value == Copied(attempts, copy) && r.value <= |sources|
  {
    attempts := [];
    if |sources| != |dests| {
      return Err("sources/dests length mismatch"), attempts;
    }
    var ok := 0;
    var i := 0;
    while i < |sources|
      invariant 0 <= i <= |sources|
      invariant attempts == Pairs(sources, dests)[..i]
      invariant ok == Copied(attempts, copy)
    {
      var src, dst := sources[i], dests[i];
      if copy(src, dst) {
        ok := ok + 1;
      }
      assert (attempts + [(src, dst)])[..i] == attempts;
      attempts := attempts + [(src, dst)];
      i := i + 1;
    }
    assert attempts == Pairs(sources, dests);
    CopiedBound(attempts, copy);
    r := Ok(ok);
  }

  /** `get_file_sizes`: one size per path, in order; a path whose metadata fails reports 0. */
  function FileSizes(paths: seq<string>, metadataLen: string -> Result<nat, string>): (sizes: seq<nat>)
    ensures |sizes| == |paths|
    ensures forall i :: 0 <= i < |paths| ==>
      (metadataLen(paths[i]).Ok? ==> sizes[i] == metadataLen(paths[i]).value) &&
      (metadataLen(paths[i]).Err? ==> sizes[i] == 0)
  {
    seq(|paths|, i requires 0 <= i < |paths| =>
      match metadataLen(paths[i])
      case Ok(n) => n
      case Err(_) => 0)
  }
}
