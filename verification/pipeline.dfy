/** `process`: the linear pipeline from the input file to the saved result.

    The filesystem and Pillow's codec are abstract. A `FileSystem` says which
    paths are regular files (and what decoding each yields), which directories
    exist and which could be created. A `Codec` bundles the library behaviour
    whose details are not modelled: EXIF orientation normalisation, resampling,
    the partial-alpha blend of `paste`, and whether the encoder accepts a result.
    Every side effect is recorded in order in the run's effect log, so "nothing
    is decoded before validation" and "a failed run saves nothing" are
    statements about that log; a failing save can still leave behind the
    directory made for it.
 */
module Pipeline {
  import opened Raster
  import opened Formats
  import opened Transform
  import opened Composite

  /** A path as `process` sees it: its text, its parent directory and the
      extension pathlib reports for it (empty when there is none). */
  datatype FilePath = FilePath(name: string, parent: string, suffix: string)

  /** What decoding a regular file gives: an image already converted to RGBA,
      or bytes Pillow cannot identify. */
  datatype Content = Picture(pixels: Image<Rgba>) | Unreadable

  datatype FileSystem = FileSystem(
    files: map<string, Content>,   // regular files
    dirs: set<string>,             // existing directories
    creatable: set<string>)        // directories `mkdir(parents=True)` would succeed on

  datatype Codec = Codec(
    exifTranspose: Image<Rgba> -> Image<Rgba>,
    resample: (Image<Rgba>, nat, nat, nat, nat) -> Rgba,   // (source, width, height, x, y)
    blend: Rgba -> Rgb,                                    // paste onto white, 0 < alpha < 255
    encodes: (string, Output) -> bool)                     // save to this suffix succeeds

  /** The final image: RGBA, or RGB after flattening. */
  datatype Output = RgbaImage(rgba: Image<Rgba>) | RgbImage(rgb: Image<Rgb>)

  datatype Effect =
    | Opened(path: string)
    | MadeDirs(dir: string)
    | Saved(path: string, image: Output)

  /** The effects of one call in the order they happened, and its outcome. */
  datatype Run = Run(effects: seq<Effect>, result: Result<()>)

  /** The overlay's location, `ASSETS_DIR` joined with `SPEECH_BUBBLE_FILENAME`. */
  const SpeechBubblePath: string := "assets/speech_bubble.png"

  /** `Image.open` followed by `load`: a missing file raises, an unidentifiable one fails to decode. */
  function Open(fs: FileSystem, path: string): (r: Result<Image<Rgba>>)
    ensures r.Ok? <==> path in fs.files && fs.files[path].Picture?
    ensures r.Ok? ==> r.value == fs.files[path].pixels
    ensures path !in fs.files ==> r == Err(FileNotFound(path))
    ensures path in fs.files && fs.files[path].Unreadable? ==> r == Err(DecodeError(path))
  {
    if path !in fs.files then Err(FileNotFound(path))
    else match fs.files[path]
      case Picture(img) => Ok(img)
      case Unreadable => Err(DecodeError(path))
  }

  /** `resize(size)`: only the output size is modelled; each pixel is the resampler's. */
  function Resize(codec: Codec, img: Image<Rgba>, w: nat, h: nat): (r: Image<Rgba>)
    ensures r.width == w && r.height == h
    ensures forall x: nat, y: nat :: x < w && y < h ==> At(r, x, y) == codec.resample(img, w, h, x, y)
  {
    Tabulate(w, h, (x: nat, y: nat) => codec.resample(img, w, h, x, y))
  }

  /** The overlay after it has been resized to the normalised base and transformed. */
  function Overlay(codec: Codec, base: Image<Rgba>, bubble: Image<Rgba>, mirror: bool, orientation: int): (r: Image<Rgba>)
    ensures r.width == OutWidth(TurnOf(orientation), base.width, base.height)
    ensures r.height == OutHeight(TurnOf(orientation), base.width, base.height)
  {
    TransformImage(Resize(codec, bubble, base.width, base.height), mirror, orientation)
  }

  /** The pixel work of `process`: EXIF normalisation of the input, resize and
      transform of the overlay, wrapped subtraction, and the flatten decided by the
      output suffix. */
  function Render(codec: Codec, original: Image<Rgba>, bubble: Image<Rgba>,
                  mirror: bool, orientation: int, outSuffix: string): (r: Output)
    ensures r.RgbImage? <==> outSuffix == ".jpg" || outSuffix == ".jpeg" || outSuffix == "bmp"
  {
    var base := codec.exifTranspose(original);
    var composite := SubtractCommon(base, Overlay(codec, base, bubble, mirror, orientation));
    if ShouldFlatten(outSuffix) then RgbImage(Flatten(composite, codec.blend)) else RgbaImage(composite)
  }

  /** Unless the overlay is turned a quarter and the base is not square, the
      composite covers the whole normalised base, and each of its pixels is the
      wrapped difference of the base pixel and the transformed overlay pixel. */
  lemma RenderCoversBase(codec: Codec, original: Image<Rgba>, bubble: Image<Rgba>,
                         mirror: bool, orientation: int, outSuffix: string)
    requires !ShouldFlatten(outSuffix)
    requires var base := codec.exifTranspose(original);
             !SwapsSides(TurnOf(orientation)) || base.width == base.height
    ensures var base := codec.exifTranspose(original);
            var overlay := Overlay(codec, base, bubble, mirror, orientation);
            var r := Render(codec, original, bubble, mirror, orientation, outSuffix);
            && r.RgbaImage?
            && SameSize(r.rgba, base)
            && SameSize(overlay, base)
            && r.rgba == SubtractModulo(base, overlay)
  {
    var base := codec.exifTranspose(original);
    var overlay := Overlay(codec, base, bubble, mirror, orientation);
    SubtractCommonSameSize(base, overlay);
  }

  /** For an output suffix that does not trigger flattening, the result stays RGBA
      and is the composite itself: it spans the common area of the normalised base
      and the overlay, and each pixel is their wrapped difference, alpha included.
      This covers the cropped case of a quarter turn on a non-square base. */
  lemma RenderUnflattened(codec: Codec, original: Image<Rgba>, bubble: Image<Rgba>,
                          mirror: bool, orientation: int, outSuffix: string)
    requires !ShouldFlatten(outSuffix)
    ensures var base := codec.exifTranspose(original);
            var overlay := Overlay(codec, base, bubble, mirror, orientation);
            var r := Render(codec, original, bubble, mirror, orientation, outSuffix);
            && r.RgbaImage?
            && r.rgba.width == Min(base.width, overlay.width)
            && r.rgba.height == Min(base.height, overlay.height)
            && (forall x: nat, y: nat :: x < r.rgba.width && y < r.rgba.height ==>
                  At(r.rgba, x, y) == SubPixel(At(base, x, y), At(overlay, x, y)))
  {
  }

  /** For an output suffix that triggers flattening, the result is the RGB flatten of
      the composite: it spans the common area of the normalised base and the
      overlay, is white wherever the wrapped difference has alpha 0, and keeps the
      difference's colour wherever its alpha is 255. */
  lemma RenderFlattened(codec: Codec, original: Image<Rgba>, bubble: Image<Rgba>,
                        mirror: bool, orientation: int, outSuffix: string)
    requires ShouldFlatten(outSuffix)
    ensures var base := codec.exifTranspose(original);
            var overlay := Overlay(codec, base, bubble, mirror, orientation);
            var r := Render(codec, original, bubble, mirror, orientation, outSuffix);
            && r.RgbImage?
            && r.rgb.width == Min(base.width, overlay.width)
            && r.rgb.height == Min(base.height, overlay.height)
            && (forall x: nat, y: nat :: x < r.rgb.width && y < r.rgb.height ==>
                  var d := SubPixel(At(base, x, y), At(overlay, x, y));
                  (d.a == 0 ==> At(r.rgb, x, y) == White) &&
                  (d.a == 255 ==> At(r.rgb, x, y) == Rgb(d.r, d.g, d.b)))
  {
    var base := codec.exifTranspose(original);
    var overlay := Overlay(codec, base, bubble, mirror, orientation);
    var composite := SubtractCommon(base, overlay);
    var r := Render(codec, original, bubble, mirror, orientation, outSuffix);
    assert r == RgbImage(Flatten(composite, codec.blend));
    forall x: nat, y: nat | x < r.rgb.width && y < r.rgb.height
      ensures var d := SubPixel(At(base, x, y), At(overlay, x, y));
              (d.a == 0 ==> At(r.rgb, x, y) == White) &&
              (d.a == 255 ==> At(r.rgb, x, y) == Rgb(d.r, d.g, d.b))
    {
      assert At(composite, x, y) == SubPixel(At(base, x, y), At(overlay, x, y));
    }
  }

  /** The end-to-end example, for any size: a base of one colour `p` and an overlay
      the resampler renders as one colour `q`, untransformed, gives `p - q` per
      channel everywhere as RGBA, and solid white as JPEG when that difference has
      zero alpha. */
  lemma UniformEndToEnd(codec: Codec, original: Image<Rgba>, bubble: Image<Rgba>, p: Rgba, q: Rgba)
    requires codec.exifTranspose(original) == original
    requires Uniform(original, p)
    requires forall x: nat, y: nat :: x < original.width && y < original.height ==>
               codec.resample(bubble, original.width, original.height, x, y) == q
    ensures var r := Render(codec, original, bubble, false, 1, ".png");
            r.RgbaImage? && SameSize(r.rgba, original) && Uniform(r.rgba, SubPixel(p, q))
    ensures SubPixel(p, q).a == 0 ==>
              var r := Render(codec, original, bubble, false, 1, ".jpg");
              r.RgbImage? && SameSize(r.rgb, original) && Uniform(r.rgb, White)
  {
    var overlay := Overlay(codec, original, bubble, false, 1);
    assert overlay == Resize(codec, bubble, original.width, original.height);
    SubtractCommonSameSize(original, overlay);
  }

  /** Red (255, 0, 0, 255) minus blue (0, 0, 255, 255) is (255, 0, 1, 0). */
  lemma RedMinusBlue(codec: Codec, original: Image<Rgba>, bubble: Image<Rgba>)
    requires codec.exifTranspose(original) == original
    requires Uniform(original, Rgba(255, 0, 0, 255))
    requires forall x: nat, y: nat :: x < original.width && y < original.height ==>
               codec.resample(bubble, original.width, original.height, x, y) == Rgba(0, 0, 255, 255)
    ensures var r := Render(codec, original, bubble, false, 1, ".png");
            r.RgbaImage? && Uniform(r.rgba, Rgba(255, 0, 1, 0))
    ensures var r := Render(codec, original, bubble, false, 1, ".jpg");
            r.RgbImage? && Uniform(r.rgb, Rgb(255, 255, 255))
  {
    UniformEndToEnd(codec, original, bubble, Rgba(255, 0, 0, 255), Rgba(0, 0, 255, 255));
    WrapExamples();
  }

  /** `process`: is-file check, input suffix, output suffix, decode of the input,
      decode of the overlay, pixel work, mkdir of the parent when it is missing, save. */
  function Process(fs: FileSystem, codec: Codec, input: FilePath, output: FilePath,
                   mirror: bool, orientation: int, asset: string := SpeechBubblePath): (run: Run)
    // Validation comes first and touches nothing; its errors win in this order.
    ensures input.name !in fs.files ==> run == Run([], Err(FileNotFound(input.name)))
    ensures input.name in fs.files && !Supported(input.suffix) ==>
              run == Run([], Err(UnsupportedFormat(input.suffix, SupportedFormats)))
    ensures input.name in fs.files && Supported(input.suffix) && !Supported(output.suffix) ==>
              run == Run([], Err(UnsupportedFormat(output.suffix, SupportedFormats)))
    // Any effect at all means validation passed, and the input is opened first.
    ensures run.effects != [] ==>
              input.name in fs.files && Supported(input.suffix) && Supported(output.suffix) &&
              run.effects[0] == Opened(input.name)
    // A failed run saves nothing; only a failing save can leave behind the directory
    // made for it. On success there is exactly one save, as the last effect.
    ensures run.result.Err? ==> forall i :: 0 <= i < |run.effects| ==> !run.effects[i].Saved?
    ensures run.result.Err? && !run.result.error.EncodeError? ==>
              forall i :: 0 <= i < |run.effects| ==> run.effects[i].Opened?
    ensures run.result.Ok? ==>
              && |run.effects| >= 3
              && run.effects[|run.effects| - 1].Saved?
              && run.effects[|run.effects| - 1].path == output.name
              && (forall i :: 0 <= i < |run.effects| - 1 ==> !run.effects[i].Saved?)
    // On success the output's parent directory exists before the save.
    ensures run.result.Ok? ==>
              output.parent in fs.dirs || MadeDirs(output.parent) in run.effects[..|run.effects| - 1]
  {
    if input.name !in fs.files then Run([], Err(FileNotFound(input.name)))
    else if CheckFileFormat(input.suffix, SupportedFormats).Err? then
      Run([], CheckFileFormat(input.suffix, SupportedFormats))
    else if CheckFileFormat(output.suffix, SupportedFormats).Err? then
      Run([], CheckFileFormat(output.suffix, SupportedFormats))
    else
      var started := [Opened(input.name)];
      match Open(fs, input.name)
      case Err(e) => Run(started, Err(e))
      case Ok(original) =>
        var loaded := started + [Opened(asset)];
        match Open(fs, asset)
        case Err(e) => Run(loaded, Err(e))
        case Ok(bubble) =>
          var result := Render(codec, original, bubble, mirror, orientation, output.suffix);
          if output.parent !in fs.dirs && output.parent !in fs.creatable then
            Run(loaded, Err(DirectoryError(output.parent)))
          else
            var ready := if output.parent in fs.dirs then loaded else loaded + [MadeDirs(output.parent)];
            if !codec.encodes(output.suffix, result) then Run(ready, Err(EncodeError(output.name)))
            else Run(ready + [Saved(output.name, result)], Ok(()))
  }

  /** The input file is decoded before the overlay, so an unreadable input is
      reported even when the overlay is missing too. */
  lemma UnreadableInputWins(fs: FileSystem, codec: Codec, input: FilePath, output: FilePath,
                            mirror: bool, orientation: int, asset: string)
    requires input.name in fs.files && fs.files[input.name].Unreadable?
    requires Supported(input.suffix) && Supported(output.suffix)
    ensures Process(fs, codec, input, output, mirror, orientation, asset)
            == Run([Opened(input.name)], Err(DecodeError(input.name)))
  {
  }

  /** `process` succeeds exactly when every stage can: the input is a readable
      image with an allowed suffix, the output suffix is allowed, the overlay
      decodes, the output's parent exists or can be created, and the encoder
      accepts the result; what it saves is then the rendered image. */
  lemma ProcessSucceedsIff(fs: FileSystem, codec: Codec, input: FilePath, output: FilePath,
                           mirror: bool, orientation: int, asset: string)
    ensures var run := Process(fs, codec, input, output, mirror, orientation, asset);
            run.result.Ok? <==>
              && input.name in fs.files && fs.files[input.name].Picture?
              && Supported(input.suffix) && Supported(output.suffix)
              && asset in fs.files && fs.files[asset].Picture?
              && (output.parent in fs.dirs || output.parent in fs.creatable)
              && codec.encodes(output.suffix,
                   Render(codec, fs.files[input.name].pixels, fs.files[asset].pixels,
                          mirror, orientation, output.suffix))
    ensures var run := Process(fs, codec, input, output, mirror, orientation, asset);
            run.result.Ok? ==>
              run.effects[|run.effects| - 1]
              == Saved(output.name, Render(codec, fs.files[input.name].pixels, fs.files[asset].pixels,
                                           mirror, orientation, output.suffix))
  {
  }
}
