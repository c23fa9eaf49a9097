/** Raster images as abstract RGBA (or RGB) grids.

    A pixel at column `x` and row `y` is `rows[y][x]`; `(0, 0)` is the top-left
    corner, as in Pillow. Channel values are 8-bit.
 */
module Raster {

  /** One 8-bit channel value. */
  type Byte = x: int | 0 <= x < 256

  /** A pixel of Pillow's "RGBA" mode. */
  datatype Rgba = Rgba(r: Byte, g: Byte, b: Byte, a: Byte)

  /** A pixel of Pillow's "RGB" mode. */
  datatype Rgb = Rgb(r: Byte, g: Byte, b: Byte)

  /** A grid of pixels together with its declared size. */
  datatype Grid<T> = Grid(width: nat, height: nat, rows: seq<seq<T>>) {
    /** There are `height` rows and every one of them holds `width` pixels. */
    predicate Rectangular() {
      |rows| == height && forall y :: 0 <= y < |rows| ==> |rows[y]| == width
    }
  }

  /** An image: a grid whose rows agree with its size. Zero sizes are allowed. */
  type Image<T> = g: Grid<T> | g.Rectangular() witness Grid(0, 0, [])

  /** Pixel at column `x`, row `y`. */
  function At<T>(img: Image<T>, x: nat, y: nat): T
    requires x < img.width && y < img.height
  {
    img.rows[y][x]
  }

  predicate SameSize<S, T>(a: Image<S>, b: Image<T>) {
    a.width == b.width && a.height == b.height
  }

  /** Every pixel of `img` is `c`. */
  predicate Uniform<T(==)>(img: Image<T>, c: T) {
    forall x: nat, y: nat :: x < img.width && y < img.height ==> At(img, x, y) == c
  }

  /** The image of size `w` x `h` whose pixel at `(x, y)` is `f(x, y)`. */
  function Tabulate<T>(w: nat, h: nat, f: (nat, nat) --> T): (r: Image<T>)
    requires forall x: nat, y: nat :: x < w && y < h ==> f.requires(x, y)
    ensures r.width == w && r.height == h
    ensures forall x: nat, y: nat :: x < w && y < h ==> At(r, x, y) == f(x, y)
  {
    Grid(w, h, seq(h, y requires 0 <= y < h => seq(w, x requires 0 <= x < w => f(x, y))))
  }

  /** Two images of the same size with the same pixel everywhere are equal. */
  lemma Extensionality<T>(a: Image<T>, b: Image<T>)
    requires SameSize(a, b)
    requires forall x: nat, y: nat :: x < a.width && y < a.height ==> At(a, x, y) == At(b, x, y)
    ensures a == b
  {
    forall y | 0 <= y < a.height
      ensures a.rows[y] == b.rows[y]
    {
      forall x | 0 <= x < a.width
        ensures a.rows[y][x] == b.rows[y][x]
      {
        assert At(a, x, y) == At(b, x, y);
      }
    }
  }
}
