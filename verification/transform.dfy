/** The overlay transform of `transform_image`: an optional left-right mirror
    followed by at most one of Pillow's fixed transposes.

    Pillow's `ROTATE_90` turns the image a quarter counter-clockwise and
    `ROTATE_270` a quarter clockwise; both swap width and height.
 */
module Transform {
  import opened Raster

  /** The rotation an `orientation` argument selects. */
  datatype Turn = NoTurn | Quarter | Half | ThreeQuarter

  /** Orientation 2, 3 and 4 select a rotation; 1 and every other value select none,
      because the `match` of `transform_image` has no wildcard case. */
  function TurnOf(orientation: int): Turn {
    match orientation
    case 2 => Quarter
    case 3 => Half
    case 4 => ThreeQuarter
    case _ => NoTurn
  }

  predicate SwapsSides(t: Turn) {
    t == Quarter || t == ThreeQuarter
  }

  /** `Image.FLIP_LEFT_RIGHT`. */
  function FlipLeftRight<T>(img: Image<T>): (r: Image<T>)
    ensures SameSize(r, img)
    ensures forall x: nat, y: nat :: x < r.width && y < r.height ==>
              At(r, x, y) == At(img, img.width - 1 - x, y)
  {
    var w, h := img.width, img.height;
    Grid(w, h, seq(h, y requires 0 <= y < h =>
                 seq(w, x requires 0 <= x < w => img.rows[y][w - 1 - x])))
  }

  /** `Image.ROTATE_90`: a counter-clockwise quarter turn. */
  function Rotate90<T>(img: Image<T>): (r: Image<T>)
    ensures r.width == img.height && r.height == img.width
    ensures forall x: nat, y: nat :: x < r.width && y < r.height ==>
              At(r, x, y) == At(img, img.width - 1 - y, x)
  {
    var w, h := img.width, img.height;
    Grid(h, w, seq(w, y requires 0 <= y < w =>
                 seq(h, x requires 0 <= x < h => img.rows[x][w - 1 - y])))
  }

  /** `Image.ROTATE_180`: a half turn. */
  function Rotate180<T>(img: Image<T>): (r: Image<T>)
    ensures SameSize(r, img)
    ensures forall x: nat, y: nat :: x < r.width && y < r.height ==>
              At(r, x, y) == At(img, img.width - 1 - x, img.height - 1 - y)
  {
    var w, h := img.width, img.height;
    Grid(w, h, seq(h, y requires 0 <= y < h =>
                 seq(w, x requires 0 <= x < w => img.rows[h - 1 - y][w - 1 - x])))
  }

  /** `Image.ROTATE_270`: a clockwise quarter turn. */
  function Rotate270<T>(img: Image<T>): (r: Image<T>)
    ensures r.width == img.height && r.height == img.width
    ensures forall x: nat, y: nat :: x < r.width && y < r.height ==>
              At(r, x, y) == At(img, y, img.height - 1 - x)
  {
    var w, h := img.width, img.height;
    Grid(h, w, seq(w, y requires 0 <= y < w =>
                 seq(h, x requires 0 <= x < h => img.rows[h - 1 - x][y])))
  }

  function Rotate<T>(t: Turn, img: Image<T>): Image<T> {
    match t
    case NoTurn => img
    case Quarter => Rotate90(img)
    case Half => Rotate180(img)
    case ThreeQuarter => Rotate270(img)
  }

  /* ---------- Reference definition: where each output pixel comes from ---------- */

  datatype Coord = Coord(x: nat, y: nat)

  /** Width of the transformed image for an input of size `w` x `h`. */
  function OutWidth(t: Turn, w: nat, h: nat): nat {
    if SwapsSides(t) then h else w
  }

  function OutHeight(t: Turn, w: nat, h: nat): nat {
    if SwapsSides(t) then w else h
  }

  /** For each of the eight mirror/turn combinations, the input position (in a
      `w` x `h` image) of the output pixel at `c`, written in closed form. */
  function Origin(mirror: bool, t: Turn, w: nat, h: nat, c: Coord): (o: Coord)
    requires c.x < OutWidth(t, w, h) && c.y < OutHeight(t, w, h)
    ensures o.x < w && o.y < h
  {
    match (mirror, t)
    case (false, NoTurn) => c
    case (false, Quarter) => Coord(w - 1 - c.y, c.x)
    case (false, Half) => Coord(w - 1 - c.x, h - 1 - c.y)
    case (false, ThreeQuarter) => Coord(c.y, h - 1 - c.x)
    case (true, NoTurn) => Coord(w - 1 - c.x, c.y)
    case (true, Quarter) => Coord(c.y, c.x)
    case (true, Half) => Coord(c.x, h - 1 - c.y)
    case (true, ThreeQuarter) => Coord(w - 1 - c.y, h - 1 - c.x)
  }

  /** The output position of the input pixel at `c`. */
  function Target(mirror: bool, t: Turn, w: nat, h: nat, c: Coord): (o: Coord)
    requires c.x < w && c.y < h
    ensures o.x < OutWidth(t, w, h) && o.y < OutHeight(t, w, h)
  {
    match (mirror, t)
    case (false, NoTurn) => c
    case (false, Quarter) => Coord(c.y, w - 1 - c.x)
    case (false, Half) => Coord(w - 1 - c.x, h - 1 - c.y)
    case (false, ThreeQuarter) => Coord(h - 1 - c.y, c.x)
    case (true, NoTurn) => Coord(w - 1 - c.x, c.y)
    case (true, Quarter) => Coord(c.y, c.x)
    case (true, Half) => Coord(c.x, h - 1 - c.y)
    case (true, ThreeQuarter) => Coord(h - 1 - c.y, w - 1 - c.x)
  }

  /** `Origin` and `Target` are inverse bijections between the input and the
      output positions, so a transform only rearranges pixels. */
  lemma OriginTargetBijection(mirror: bool, t: Turn, w: nat, h: nat)
    ensures forall c: Coord :: c.x < w && c.y < h ==>
              Origin(mirror, t, w, h, Target(mirror, t, w, h, c)) == c
    ensures forall c: Coord :: c.x < OutWidth(t, w, h) && c.y < OutHeight(t, w, h) ==>
              Target(mirror, t, w, h, Origin(mirror, t, w, h, c)) == c
  {
    forall c: Coord | c.x < w && c.y < h
      ensures Origin(mirror, t, w, h, Target(mirror, t, w, h, c)) == c
    {
      match (mirror, t)
      case (false, NoTurn) =>
      case (false, Quarter) =>
      case (false, Half) =>
      case (false, ThreeQuarter) =>
      case (true, NoTurn) =>
      case (true, Quarter) =>
      case (true, Half) =>
      case (true, ThreeQuarter) =>
    }
    forall c: Coord | c.x < OutWidth(t, w, h) && c.y < OutHeight(t, w, h)
      ensures Target(mirror, t, w, h, Origin(mirror, t, w, h, c)) == c
    {
      match (mirror, t)
      case (false, NoTurn) =>
      case (false, Quarter) =>
      case (false, Half) =>
      case (false, ThreeQuarter) =>
      case (true, NoTurn) =>
      case (true, Quarter) =>
      case (true, Half) =>
      case (true, ThreeQuarter) =>
    }
  }

  /** `transform_image`: mirror first (when asked), then the rotation `orientation`
      selects. Orientations 2 and 4 swap the sides; everything else keeps them. */
  function TransformImage<T>(img: Image<T>, mirror: bool, orientation: int): (r: Image<T>)
    ensures r.width == OutWidth(TurnOf(orientation), img.width, img.height)
    ensures r.height == OutHeight(TurnOf(orientation), img.width, img.height)
  {
    var flipped := if mirror then FlipLeftRight(img) else img;
    Rotate(TurnOf(orientation), flipped)
  }

  /** The output pixel at `(x, y)` is the input pixel at its closed-form origin. */
  lemma TransformPixelOrigin<T>(img: Image<T>, mirror: bool, orientation: int, x: nat, y: nat)
    requires x < OutWidth(TurnOf(orientation), img.width, img.height)
    requires y < OutHeight(TurnOf(orientation), img.width, img.height)
    ensures var o := Origin(mirror, TurnOf(orientation), img.width, img.height, Coord(x, y));
            At(TransformImage(img, mirror, orientation), x, y) == At(img, o.x, o.y)
  {
    var r := TransformImage(img, mirror, orientation);
    if mirror {
      var f := FlipLeftRight(img);
      match TurnOf(orientation)
      case NoTurn =>
      case Quarter => assert At(r, x, y) == At(f, img.width - 1 - y, x);
      case Half => assert At(r, x, y) == At(f, img.width - 1 - x, img.height - 1 - y);
      case ThreeQuarter => assert At(r, x, y) == At(f, y, img.height - 1 - x);
    }
  }

  /** `transform_image` agrees with the reference definition everywhere: every
      output pixel is the input pixel at `Origin`, and every input pixel reappears
      at `Target`; no pixel value is changed, only its position. */
  lemma TransformMatchesReference<T>(img: Image<T>, mirror: bool, orientation: int)
    ensures var r := TransformImage(img, mirror, orientation);
            forall x: nat, y: nat :: x < r.width && y < r.height ==>
              var o := Origin(mirror, TurnOf(orientation), img.width, img.height, Coord(x, y));
              At(r, x, y) == At(img, o.x, o.y)
    ensures var r := TransformImage(img, mirror, orientation);
            forall x: nat, y: nat :: x < img.width && y < img.height ==>
              var o := Target(mirror, TurnOf(orientation), img.width, img.height, Coord(x, y));
              At(img, x, y) == At(r, o.x, o.y)
  {
    var t, w, h := TurnOf(orientation), img.width, img.height;
    var r := TransformImage(img, mirror, orientation);
    forall x: nat, y: nat | x < r.width && y < r.height
      ensures var o := Origin(mirror, t, w, h, Coord(x, y)); At(r, x, y) == At(img, o.x, o.y)
    {
      TransformPixelOrigin(img, mirror, orientation, x, y);
    }
    OriginTargetBijection(mirror, t, w, h);
    forall x: nat, y: nat | x < w && y < h
      ensures var o := Target(mirror, t, w, h, Coord(x, y)); At(img, x, y) == At(r, o.x, o.y)
    {
      var o := Target(mirror, t, w, h, Coord(x, y));
      TransformPixelOrigin(img, mirror, orientation, o.x, o.y);
      assert Origin(mirror, t, w, h, o) == Coord(x, y);
    }
  }

  /* ---------- Algebra of the transposes ---------- */

  /** With no mirror and an orientation other than 2, 3 or 4 the image is returned
      unchanged; with a mirror it is only flipped. */
  lemma NoRotationCases<T>(img: Image<T>, orientation: int)
    requires orientation !in {2, 3, 4}
    ensures TransformImage(img, false, orientation) == img
    ensures TransformImage(img, true, orientation) == FlipLeftRight(img)
  {
  }

  lemma FlipInvolution<T>(img: Image<T>)
    ensures FlipLeftRight(FlipLeftRight(img)) == img
  {
    Extensionality(FlipLeftRight(FlipLeftRight(img)), img);
  }

  lemma QuarterTurnsInverse<T>(img: Image<T>)
    ensures Rotate270(Rotate90(img)) == img
    ensures Rotate90(Rotate270(img)) == img
  {
    Extensionality(Rotate270(Rotate90(img)), img);
    Extensionality(Rotate90(Rotate270(img)), img);
  }

  lemma TwoQuartersMakeHalf<T>(img: Image<T>)
    ensures Rotate90(Rotate90(img)) == Rotate180(img)
    ensures Rotate270(Rotate270(img)) == Rotate180(img)
  {
    Extensionality(Rotate90(Rotate90(img)), Rotate180(img));
    Extensionality(Rotate270(Rotate270(img)), Rotate180(img));
  }

  lemma HalfTurnInvolution<T>(img: Image<T>)
    ensures Rotate180(Rotate180(img)) == img
  {
    Extensionality(Rotate180(Rotate180(img)), img);
  }

  /** Mirroring then turning half-way equals turning half-way then mirroring. */
  lemma FlipCommutesWithHalfTurn<T>(img: Image<T>)
    ensures Rotate180(FlipLeftRight(img)) == FlipLeftRight(Rotate180(img))
  {
    Extensionality(Rotate180(FlipLeftRight(img)), FlipLeftRight(Rotate180(img)));
  }

  /** Mirroring then turning a quarter one way equals turning a quarter the
      other way then mirroring. */
  lemma FlipConjugatesQuarterTurn<T>(img: Image<T>)
    ensures Rotate90(FlipLeftRight(img)) == FlipLeftRight(Rotate270(img))
    ensures Rotate270(FlipLeftRight(img)) == FlipLeftRight(Rotate90(img))
  {
    Extensionality(Rotate90(FlipLeftRight(img)), FlipLeftRight(Rotate270(img)));
    Extensionality(Rotate270(FlipLeftRight(img)), FlipLeftRight(Rotate90(img)));
  }

  /** Because the mirror comes first, a mirrored quarter turn is not the same as
      mirroring the turned image: a 2 x 1 image with two distinct pixels shows it. */
  lemma MirrorComesFirst()
    ensures exists img: Image<int> ::
              TransformImage(img, true, 2) != FlipLeftRight(TransformImage(img, false, 2))
  {
    var img: Image<int> := Grid(2, 1, [[0, 1]]);
    var asWritten := Rotate90(FlipLeftRight(img));
    var swapped := FlipLeftRight(Rotate90(img));
    assert At(asWritten, 0, 0) == At(img, 0, 0) == 0;
    assert At(swapped, 0, 0) == At(img, 1, 0) == 1;
    assert TransformImage(img, true, 2) == asWritten;
    assert FlipLeftRight(TransformImage(img, false, 2)) == swapped;
    assert asWritten != swapped;
  }
}
