# speech-bubble-it, modelled in Dafny

`speech_bubble_it.py` puts a fixed speech-bubble graphic on a user's image. Its
`process` function:

1. checks that the input is a regular file;
2. checks the input and the output extension against `SUPPORTED_FORMATS`;
3. decodes the input (converted to RGBA) and the bubble asset;
4. normalises the input's EXIF orientation;
5. resizes the bubble to the input's size;
6. mirrors and/or rotates the bubble (`transform_image`);
7. subtracts the bubble from the input channel by channel, modulo 256 (`ImageChops.subtract_modulo`);
8. flattens onto white for some output suffixes;
9. creates the output's parent directory when it is missing, and saves.

The model treats an image as a rectangular grid of 8-bit RGBA (or RGB) pixels.
Every Pillow operation that the program relies on for its meaning gets a pure
function: the flip, the three transposes, the wrapped subtraction and the flatten.
Pillow behaviour that the program does not pin down is an uninterpreted parameter
(`Pipeline.Codec`): EXIF normalisation, resampling, the partial-alpha blend of
`paste`, and whether the encoder accepts a result. The filesystem is a value
(`Pipeline.FileSystem`). `Pipeline.Process` returns the outcome together with a
log of its effects (files opened, directories made, files saved). That log is
where error order and "a failed run saves nothing" are stated.

Files:

- `raster.dfy` (module `Raster`): the pixel types, the image type, and the extensionality lemma.
- `formats.dfy` (module `Formats`): the error type and the allowlist check.
- `transform.dfy` (module `Transform`): the flip, the rotations, `transform_image`, a closed-form reference for all eight mirror/rotation combinations, and the algebra of the transposes.
- `composite.dfy` (module `Composite`): the wrapped subtraction, the flatten decision, and the flatten itself.
- `pipeline.dfy` (module `Pipeline`): decoding, resizing, the pixel pipeline and `process`.

Behaviour of the code worth knowing:

- The flatten trigger is the tuple `(".jpg", ".jpeg", "bmp")`. Its third entry has no dot, so a `.bmp` output is never flattened, although the program's own comment (speech_bubble_it.py:91) counts BMP among the formats without transparency. `Composite.FlattensOnlyJpeg` proves that only `.jpg` and `.jpeg` flatten; the model keeps the code's behaviour.
- `process` checks that the input file exists before it checks any extension. A missing input with a bad extension therefore reports `FileNotFound`.
- `transform_image` accepts any integer `orientation`. Values other than 2, 3 and 4 rotate nothing. They are not rejected.
- A quarter turn is applied after the resize, so for a non-square input the overlay no longer matches the base's size. Pillow's channel operations then work on the common top-left area of the two images. `Composite.SubtractCommon` models this. When the sizes agree it is exactly `SubtractModulo` (`Composite.SubtractCommonSameSize`).

## Model

| member | source | states |
|---|---|---|
| `Formats.CheckFileFormat` | speech_bubble_it.py:24-32 | passes exactly when the suffix is in the given allowlist; otherwise fails with an error that names the suffix and the allowlist |
| `Formats.SupportedExactly` | speech_bubble_it.py:13-21 | the allowlist accepts exactly `.png .jpg .jpeg .gif .bmp .webp .tiff`, compared as exact strings |
| `Formats.SupportedAreDotted` | speech_bubble_it.py:13-21 | every accepted suffix starts with a dot and has at least one character after it |
| `Formats.RejectedExamples` | speech_bubble_it.py:29-32 | `.JPG`, `.tif` and the empty suffix are rejected (case-sensitive, no aliases), with the suffix named in the error |
| `Transform.FlipLeftRight` | speech_bubble_it.py:51-52 | `FLIP_LEFT_RIGHT` keeps the size; the output pixel at (x, y) is the input pixel at (w-1-x, y) |
| `Transform.Rotate90` | speech_bubble_it.py:56 | `ROTATE_90` swaps width and height and turns a quarter counter-clockwise: out(x, y) = in(w-1-y, x) |
| `Transform.Rotate180` | speech_bubble_it.py:57 | `ROTATE_180` keeps the size: out(x, y) = in(w-1-x, h-1-y) |
| `Transform.Rotate270` | speech_bubble_it.py:58 | `ROTATE_270` swaps width and height and turns a quarter clockwise: out(x, y) = in(y, h-1-x) |
| `Transform.TransformImage` | speech_bubble_it.py:46-60 | a flip and orientation 1 or 3 keep width and height; orientations 2 and 4 swap them |
| `Transform.OriginTargetBijection` | speech_bubble_it.py:51-58 | for each of the eight mirror/rotation combinations, the source-position map and the destination-position map are inverse bijections |
| `Transform.TransformPixelOrigin` | speech_bubble_it.py:51-58 | each output pixel of `transform_image` is the input pixel at the closed-form source position, mirror applied first |
| `Transform.TransformMatchesReference` | speech_bubble_it.py:46-60 | `transform_image` only moves pixels: every output pixel is the input pixel at its source position, and every input pixel reappears at its destination |
| `Transform.NoRotationCases` | speech_bubble_it.py:54-60 | `TurnOf` maps an orientation outside 2-4 to no rotation, since the `match` has no wildcard case: without mirror the image is returned unchanged, with mirror it is only flipped |
| `Transform.FlipInvolution` | speech_bubble_it.py:52 | flipping twice gives back the image |
| `Transform.QuarterTurnsInverse` | speech_bubble_it.py:56-58 | `ROTATE_90` and `ROTATE_270` undo each other |
| `Transform.TwoQuartersMakeHalf` | speech_bubble_it.py:56-58 | two quarter turns in the same direction make `ROTATE_180` |
| `Transform.HalfTurnInvolution` | speech_bubble_it.py:57 | two half turns give back the image |
| `Transform.FlipCommutesWithHalfTurn` | speech_bubble_it.py:51-57 | mirror then half turn equals half turn then mirror |
| `Transform.FlipConjugatesQuarterTurn` | speech_bubble_it.py:51-58 | mirror then a quarter turn one way equals a quarter turn the other way then mirror |
| `Transform.MirrorComesFirst` | speech_bubble_it.py:51-58 | mirror-then-rotate is not rotate-then-mirror: a 2 x 1 image with orientation 2 tells them apart |
| `Composite.SubMod` | speech_bubble_it.py:89 | one channel of `subtract_modulo`: `a - b` when `a >= b`, and `256 + a - b` (wrapping, not clamping) otherwise |
| `Composite.SubModInverse` | speech_bubble_it.py:89 | adding `b` modulo 256 undoes subtracting it, in both orders |
| `Composite.SubtractModulo` | speech_bubble_it.py:89 | for equal-size RGBA images, same size, and each pixel is the channel-wise wrapped difference, alpha included |
| `Composite.SubtractModuloInverse` | speech_bubble_it.py:89 | adding the overlay back modulo 256 restores the base image exactly, so the composite loses no information |
| `Composite.UniformSubtract` | speech_bubble_it.py:89 | a uniform base minus a uniform overlay is uniform, with the per-pixel difference |
| `Composite.WrapExamples` | speech_bubble_it.py:89 | 10 - 20 gives 246; opaque red minus opaque blue gives (255, 0, 1, 0) |
| `Composite.SubtractCommon` | speech_bubble_it.py:89 | for operands of any sizes, the result spans the common top-left area, and each pixel is the wrapped difference |
| `Composite.SubtractCommonSameSize` | speech_bubble_it.py:84-89 | when base and overlay have one size, nothing is cropped |
| `Composite.FlattensOnlyJpeg` | speech_bubble_it.py:92 | the flatten decision `ShouldFlatten` (membership in the program's tuple): among dot-prefixed suffixes exactly `.jpg` and `.jpeg` flatten; `.bmp` does not |
| `Composite.FlattenPixel` | speech_bubble_it.py:93-95 | a pixel with alpha 0 becomes white; a pixel with alpha 255 keeps its red, green and blue |
| `Composite.Flatten` | speech_bubble_it.py:93-96 | the RGB result has the composite's size, is white where alpha is 0, and keeps the composite's colour where alpha is 255 |
| `Composite.TransparentFlattensWhite` | speech_bubble_it.py:93-96 | a fully transparent composite flattens to solid white |
| `Composite.FlattenIgnoresBlendAtEndpoints` | speech_bubble_it.py:93-95 | when every alpha is 0 or 255, the flatten does not depend on the partial-alpha blend |
| `Pipeline.Open` | speech_bubble_it.py:35-43 | a missing file fails with `FileNotFound`, an unidentifiable one with `DecodeError`, and an image decodes to its pixels |
| `Pipeline.Resize` | speech_bubble_it.py:84 | the resized overlay has exactly the requested size, whatever its own size was |
| `Pipeline.Overlay` | speech_bubble_it.py:84-87 | the overlay is sized to the EXIF-normalised base, then transformed: base size for orientations other than 2 and 4, swapped for 2 and 4 |
| `Pipeline.Render` | speech_bubble_it.py:82-96 | the result is RGB (flattened) exactly when the output suffix is `.jpg`, `.jpeg` or the bare `bmp` |
| `Pipeline.RenderUnflattened` | speech_bubble_it.py:84-92 | for a suffix that does not flatten (`.png`, `.gif`, `.bmp`, `.webp`, `.tiff`) the result stays RGBA, spans the common top-left area of base and overlay (cropped after a quarter turn on a non-square base), and each pixel is the wrapped difference, alpha included |
| `Pipeline.RenderFlattened` | speech_bubble_it.py:89-96 | for a flattening suffix the RGB result spans the common area of base and overlay, is white where the wrapped difference has alpha 0, and keeps the difference's colour where its alpha is 255 |
| `Pipeline.RenderCoversBase` | speech_bubble_it.py:82-89 | without a quarter turn on a non-square base, the unflattened result has the normalised base's size and is its wrapped difference with the overlay |
| `Pipeline.UniformEndToEnd` | speech_bubble_it.py:74-96 | on a one-colour base p with no EXIF rotation, an overlay that resizes to one colour q, untransformed, gives p - q everywhere as PNG, and solid white as JPEG when that difference has alpha 0 |
| `Pipeline.RedMinusBlue` | speech_bubble_it.py:89-96 | on an opaque red base with no EXIF rotation, an overlay that resizes to opaque blue gives (255, 0, 1, 0) everywhere as PNG, and solid white as JPEG |
| `Pipeline.Process` | speech_bubble_it.py:63-101 | error order is missing input, then input suffix, then output suffix, and each touches nothing; any effect starts with opening the input; a failed run saves nothing, and only a failing save can leave behind the directory made for it; success saves once, last, after the parent directory exists |
| `Pipeline.UnreadableInputWins` | speech_bubble_it.py:74-79 | an unreadable input fails with `DecodeError` after opening only the input, before the overlay is read |
| `Pipeline.ProcessSucceedsIff` | speech_bubble_it.py:63-101 | `process` succeeds exactly when every stage can, and the saved image is then the rendered one |

## Left out

- Command-line parsing and logging (`main`, speech_bubble_it.py:105-131) are not modelled. Neither is the log line with the resolved output path (speech_bubble_it.py:102). Both are I/O with no effect on the result.
- `Path.suffix` and `Path.parent` are not computed. A `FilePath` carries them as given strings, because pathlib's splitting rules are library behaviour.
- `ImageOps.exif_transpose` is the uninterpreted `Codec.exifTranspose`. Its library semantics are not part of this model.
- Resampling in `resize` is floating-point filter arithmetic. `Codec.resample` gives each pixel, and only the output size is modelled.
- `Composite.Flatten`: the blend for alpha strictly between 0 and 255 is left to `Codec.blend`, because Pillow's rounding in `paste` is not part of this model. Only the alpha 0 and alpha 255 endpoints are stated.
- `Composite.SubtractModulo`: requires operands of equal size. Unequal sizes arise for non-square inputs with orientation 2 or 4. `Composite.SubtractCommon` handles them by using the common top-left area, which follows Pillow's channel operations rather than anything in the program's own code.
- Colour modes: decoding yields RGBA directly, which folds in the input's `convert("RGBA")`. The asset is taken to be RGBA as well. An asset in another mode would make Pillow reject the subtraction, and that case is not modelled.
- Encoding and writing are the uninterpreted `Codec.encodes`. A failing save becomes `EncodeError`, and no `Saved` effect is logged for it. A partially written file is not represented.
- `mkdir(parents=True, exist_ok=True)` is one step: it either makes the parent (`FileSystem.creatable`) or fails with `DirectoryError`. The intermediate directories it creates are not tracked.
- The asset location (speech_bubble_it.py:9-10) is the last parameter, `asset`, of `Process`. Its default value is `Pipeline.SpeechBubblePath`, the two constants joined.
- Concurrency, and overwriting a file that already exists, are not modelled. The filesystem after the run is not computed; the effect log describes what was written.
