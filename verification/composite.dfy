/** The pixel arithmetic of `process` after the overlay has been transformed:
    Pillow's `ImageChops.subtract_modulo` and the white-background flatten for
    output formats the tool treats as having no alpha channel.
 */
module Composite {
  import opened Raster

  /* ---------- Subtraction with wrap-around ---------- */

  /** Unsigned 8-bit subtraction: a negative difference wraps to the top of the
      range instead of clamping at zero. */
  function SubMod(a: Byte, b: Byte): (r: Byte)
    ensures a >= b ==> r == a - b
    ensures a < b ==> r == 256 + a - b
  {
    (a - b) % 256
  }

  /** Unsigned 8-bit addition with wrap-around (Pillow's `add_modulo`). */
  function AddMod(a: Byte, b: Byte): (r: Byte)
    ensures a + b < 256 ==> r == a + b
    ensures a + b >= 256 ==> r == a + b - 256
  {
    (a + b) % 256
  }

  /** Every channel is subtracted on its own, alpha included. */
  function SubPixel(p: Rgba, q: Rgba): Rgba {
    Rgba(SubMod(p.r, q.r), SubMod(p.g, q.g), SubMod(p.b, q.b), SubMod(p.a, q.a))
  }

  function AddPixel(p: Rgba, q: Rgba): Rgba {
    Rgba(AddMod(p.r, q.r), AddMod(p.g, q.g), AddMod(p.b, q.b), AddMod(p.a, q.a))
  }

  /** `ImageChops.subtract_modulo` on two RGBA images of equal size. */
  function SubtractModulo(base: Image<Rgba>, overlay: Image<Rgba>): (r: Image<Rgba>)
    requires SameSize(base, overlay)
    ensures SameSize(r, base)
    ensures forall x: nat, y: nat :: x < r.width && y < r.height ==>
              At(r, x, y) == SubPixel(At(base, x, y), At(overlay, x, y))
  {
    Tabulate(base.width, base.height,
             (x: nat, y: nat) requires x < base.width && y < base.height =>
               SubPixel(At(base, x, y), At(overlay, x, y)))
  }

  function AddModulo(base: Image<Rgba>, overlay: Image<Rgba>): (r: Image<Rgba>)
    requires SameSize(base, overlay)
    ensures SameSize(r, base)
    ensures forall x: nat, y: nat :: x < r.width && y < r.height ==>
              At(r, x, y) == AddPixel(At(base, x, y), At(overlay, x, y))
  {
    Tabulate(base.width, base.height,
             (x: nat, y: nat) requires x < base.width && y < base.height =>
               AddPixel(At(base, x, y), At(overlay, x, y)))
  }

  /** Adding the channel back undoes the wrapped subtraction, for every pair of values. */
  lemma SubModInverse(a: Byte, b: Byte)
    ensures AddMod(SubMod(a, b), b) == a
    ensures SubMod(AddMod(a, b), b) == a
  {
  }

  /** Subtracting an overlay loses no information: adding the same overlay back
      restores the base image exactly. */
  lemma SubtractModuloInverse(base: Image<Rgba>, overlay: Image<Rgba>)
    requires SameSize(base, overlay)
    ensures AddModulo(SubtractModulo(base, overlay), overlay) == base
  {
    var d := SubtractModulo(base, overlay);
    var back := AddModulo(d, overlay);
    forall x: nat, y: nat | x < base.width && y < base.height
      ensures At(back, x, y) == At(base, x, y)
    {
      var p, q := At(base, x, y), At(overlay, x, y);
      SubModInverse(p.r, q.r);
      SubModInverse(p.g, q.g);
      SubModInverse(p.b, q.b);
      SubModInverse(p.a, q.a);
    }
    Extensionality(back, base);
  }

  /** Subtracting a uniform overlay from a uniform base gives a uniform result. */
  lemma UniformSubtract(base: Image<Rgba>, overlay: Image<Rgba>, p: Rgba, q: Rgba)
    requires SameSize(base, overlay)
    requires Uniform(base, p) && Uniform(overlay, q)
    ensures Uniform(SubtractModulo(base, overlay), SubPixel(p, q))
  {
  }

  /** The worked example: 10 - 20 wraps to 246, and opaque red minus opaque blue
      is (255, 0, 1, 0): the blue channel wraps and the alpha cancels out. */
  lemma WrapExamples()
    ensures SubMod(10, 20) == 246
    ensures SubPixel(Rgba(255, 0, 0, 255), Rgba(0, 0, 255, 255)) == Rgba(255, 0, 1, 0)
  {
  }

  /* ---------- Images of different sizes ---------- */

  /** The top-left `w` x `h` part of `img`. */
  function Crop<T>(img: Image<T>, w: nat, h: nat): (r: Image<T>)
    requires w <= img.width && h <= img.height
    ensures r.width == w && r.height == h
    ensures forall x: nat, y: nat :: x < w && y < h ==> At(r, x, y) == At(img, x, y)
  {
    Grid(w, h, seq(h, y requires 0 <= y < h => img.rows[y][..w]))
  }

  lemma CropAllIsIdentity<T>(img: Image<T>)
    ensures Crop(img, img.width, img.height) == img
  {
    Extensionality(Crop(img, img.width, img.height), img);
  }

  function Min(a: nat, b: nat): nat {
    if a < b then a else b
  }

  /** `subtract_modulo` on operands of any sizes: Pillow's channel operations
      work on the common top-left area of their two operands. */
  function SubtractCommon(base: Image<Rgba>, overlay: Image<Rgba>): (r: Image<Rgba>)
    ensures r.width == Min(base.width, overlay.width)
    ensures r.height == Min(base.height, overlay.height)
    ensures forall x: nat, y: nat :: x < r.width && y < r.height ==>
              At(r, x, y) == SubPixel(At(base, x, y), At(overlay, x, y))
  {
    var w, h := Min(base.width, overlay.width), Min(base.height, overlay.height);
    SubtractModulo(Crop(base, w, h), Crop(overlay, w, h))
  }

  /** For operands of one size nothing is cropped. */
  lemma SubtractCommonSameSize(base: Image<Rgba>, overlay: Image<Rgba>)
    requires SameSize(base, overlay)
    ensures SubtractCommon(base, overlay) == SubtractModulo(base, overlay)
  {
    CropAllIsIdentity(base);
    CropAllIsIdentity(overlay);
  }

  /* ---------- Flattening onto white ---------- */

  /** The program's tuple of output suffixes that trigger flattening; its third
      entry lacks the leading dot. */
  const FlattenSuffixes: seq<string> := [".jpg", ".jpeg", "bmp"]

  predicate ShouldFlatten(suffix: string) {
    suffix in FlattenSuffixes
  }

  /** For every dot-prefixed suffix, flattening happens exactly for `.jpg` and
      `.jpeg`; in particular `.bmp` output keeps its alpha channel. */
  lemma FlattensOnlyJpeg(suffix: string)
    requires |suffix| > 0 && suffix[0] == '.'
    ensures ShouldFlatten(suffix) <==> suffix == ".jpg" || suffix == ".jpeg"
    ensures !ShouldFlatten(".bmp")
  {
    assert "bmp"[0] == 'b';
  }

  const White: Rgb := Rgb(255, 255, 255)

  /** One pixel of `bg.paste(result, mask=alpha)` on a white background. Pillow's
      blend for alpha strictly between 0 and 255 is left to `blend`. */
  function FlattenPixel(p: Rgba, blend: Rgba -> Rgb): (q: Rgb)
    ensures p.a == 0 ==> q == White
    ensures p.a == 255 ==> q == Rgb(p.r, p.g, p.b)
  {
    if p.a == 0 then White
    else if p.a == 255 then Rgb(p.r, p.g, p.b)
    else blend(p)
  }

  /** The white RGB background of `Image.new("RGB", size, "WHITE")` with the
      composite pasted on it through the composite's own alpha channel. */
  function Flatten(img: Image<Rgba>, blend: Rgba -> Rgb): (r: Image<Rgb>)
    ensures SameSize(r, img)
    ensures forall x: nat, y: nat :: x < r.width && y < r.height && At(img, x, y).a == 0 ==>
              At(r, x, y) == White
    ensures forall x: nat, y: nat :: x < r.width && y < r.height && At(img, x, y).a == 255 ==>
              var p := At(img, x, y); At(r, x, y) == Rgb(p.r, p.g, p.b)
  {
    Tabulate(img.width, img.height,
             (x: nat, y: nat) requires x < img.width && y < img.height =>
               FlattenPixel(At(img, x, y), blend))
  }

  /** A composite that is fully transparent everywhere flattens to solid white,
      whatever the blend does with partial alpha. */
  lemma TransparentFlattensWhite(img: Image<Rgba>, blend: Rgba -> Rgb)
    requires forall x: nat, y: nat :: x < img.width && y < img.height ==> At(img, x, y).a == 0
    ensures Flatten(img, blend) == Tabulate(img.width, img.height, (x: nat, y: nat) => White)
  {
    Extensionality(Flatten(img, blend), Tabulate(img.width, img.height, (x: nat, y: nat) => White));
  }

  /** When no pixel has partial alpha, the blend is never consulted. */
  lemma FlattenIgnoresBlendAtEndpoints(img: Image<Rgba>, blend1: Rgba -> Rgb, blend2: Rgba -> Rgb)
    requires forall x: nat, y: nat :: x < img.width && y < img.height ==>
               At(img, x, y).a == 0 || At(img, x, y).a == 255
    ensures Flatten(img, blend1) == Flatten(img, blend2)
  {
    Extensionality(Flatten(img, blend1), Flatten(img, blend2));
  }
}
