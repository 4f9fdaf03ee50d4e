/** The raster of a map: pkg/navmap/robotdb.go paints the octets of a file into an
    image bottom row first, and moves path points into the same image. */
module Raster {
  import opened Bytes

  datatype RGBA = RGBA(r: byte, g: byte, b: byte, a: byte)

  const COLOR_WALL := RGBA(105, 207, 254, 255)
  const COLOR_INSIDE := RGBA(33, 115, 187, 255)
  const COLOR_UNKNOWN := RGBA(0, 0, 0, 0)

  /** An image as its rows, top row first. */
  type Image = seq<seq<RGBA>>

  function ColorConvert(b: byte): RGBA {
    if b == 1 then COLOR_WALL
    else if b == 255 then COLOR_INSIDE
    else if b == 0 then COLOR_UNKNOWN
    else RGBA(b, b, b, 255)
  }

  /** The octet that a colour was painted for. */
  function ColorRevert(c: RGBA): byte {
    if c == COLOR_WALL then 1
    else if c == COLOR_INSIDE then 255
    else if c == COLOR_UNKNOWN then 0
    else c.r
  }

  lemma ColorsAreDistinct(b: byte)
    ensures ColorRevert(ColorConvert(b)) == b
  {
  }

  /** Where in a file of `w` columns and `h` rows the octet for image cell (x, y) is. */
  function FileIndex(w: nat, h: nat, x: nat, y: nat): int {
    (h - 1 - y) * w + x
  }

  /** The cell that the file octet at `pos` is painted into. */
  function Column(w: nat, pos: nat): nat
    requires w > 0
  {
    pos % w
  }

  function Row(w: nat, h: nat, pos: nat): int
    requires w > 0
  {
    h - (pos / w + 1)
  }

  lemma QuotientAndRemainder(w: nat, q: int, x: nat)
    requires x < w
    ensures (q * w + x) / w == q && (q * w + x) % w == x
  {
    var n := q * w + x;
    var d := n / w - q;
    assert w * (n / w) + n % w == n;
    assert w * d == x - n % w;
    assert -(w as int) < w * d < w;
    assert d >= 1 ==> w * d >= w;
    assert d <= -1 ==> w * d <= -(w as int);
  }

  lemma IndexBounds(w: nat, h: nat, x: nat, y: nat)
    requires x < w && y < h
    ensures 0 <= FileIndex(w, h, x, y) < w * h
  {
    var q := h - 1 - y;
    assert 0 <= q * w;
    assert (q + 1) * w <= h * w;
  }

  /** The cell of a file octet is in the image, and the octet is found from it. */
  lemma CellOfOctet(w: nat, h: nat, pos: nat)
    requires w > 0 && pos < w * h
    ensures Column(w, pos) < w && 0 <= Row(w, h, pos) < h
    ensures FileIndex(w, h, Column(w, pos), Row(w, h, pos)) == pos
  {
    var q := pos / w;
    assert pos == q * w + pos % w;
    assert q >= h ==> q * w >= h * w;
    assert h - 1 - Row(w, h, pos) == q;
  }

  /** The octet of a cell is in the file, and the cell is found from it. */
  lemma OctetOfCell(w: nat, h: nat, x: nat, y: nat)
    requires x < w && y < h
    ensures 0 <= FileIndex(w, h, x, y) < w * h
    ensures Column(w, FileIndex(w, h, x, y)) == x && Row(w, h, FileIndex(w, h, x, y)) == y
  {
    IndexBounds(w, h, x, y);
    QuotientAndRemainder(w, h - 1 - y, x);
  }

  /** The octets of a file and the cells of the image are in one-to-one correspondence. */
  lemma CellBijection(w: nat, h: nat, x: nat, y: nat, pos: nat)
    requires x < w && y < h && pos < w * h
    ensures 0 <= FileIndex(w, h, x, y) < w * h
    ensures Column(w, pos) < w && 0 <= Row(w, h, pos) < h
    ensures FileIndex(w, h, x, y) == pos <==> Column(w, pos) == x && Row(w, h, pos) == y
    ensures FileIndex(w, h, Column(w, pos), Row(w, h, pos)) == pos
  {
    OctetOfCell(w, h, x, y);
    CellOfOctet(w, h, pos);
  }

  /** The colour of a cell: unpainted when the file holds no octet for it. */
  function CellColor(w: nat, h: nat, pixels: seq<byte>, x: nat, y: nat): RGBA
    requires x < w && y < h
  {
    IndexBounds(w, h, x, y);
    var i := FileIndex(w, h, x, y);
    if i < |pixels| then ColorConvert(pixels[i]) else COLOR_UNKNOWN
  }

  function Painted(w: nat, h: nat, pixels: seq<byte>): (image: Image)
    ensures |image| == h
    ensures forall y :: 0 <= y < h ==> |image[y]| == w
    ensures forall x, y :: 0 <= x < w && 0 <= y < h ==> image[y][x] == CellColor(w, h, pixels, x, y)
  {
    seq(h, y requires 0 <= y < h => seq(w, x requires 0 <= x < w => CellColor(w, h, pixels, x, y)))
  }

  /** A short payload is painted as if NULs filled it up. */
  function FillUp(pixels: seq<byte>, n: nat): (r: seq<byte>)
    ensures |r| == if |pixels| < n then n else |pixels|
  {
    pixels + seq(if |pixels| < n then n - |pixels| else 0, i => 0)
  }

  lemma ShortPayload(w: nat, h: nat, pixels: seq<byte>)
    ensures Painted(w, h, pixels) == Painted(w, h, FillUp(pixels, w * h))
  {
    var a, b := Painted(w, h, pixels), Painted(w, h, FillUp(pixels, w * h));
    forall y | 0 <= y < h ensures a[y] == b[y] {
      forall x | 0 <= x < w ensures a[y][x] == b[y][x] {
        IndexBounds(w, h, x, y);
      }
    }
  }

  /** The octets that a painted image shows, in file order. */
  function Unpainted(w: nat, h: nat, image: Image): (pixels: seq<byte>)
    requires |image| == h && forall y :: 0 <= y < h ==> |image[y]| == w
    ensures |pixels| == w * h
  {
    seq(w * h, pos requires 0 <= pos < w * h =>
      assert w > 0;
      CellBijection(w, h, 0, h - 1, pos);
      ColorRevert(image[Row(w, h, pos)][Column(w, pos)]))
  }

  /** The raster can be recovered: unpainting gives the payload back, filled up. */
  lemma UnpaintedOfPainted(w: nat, h: nat, pixels: seq<byte>)
    requires |pixels| <= w * h
    ensures Unpainted(w, h, Painted(w, h, pixels)) == FillUp(pixels, w * h)
  {
    var image := Painted(w, h, pixels);
    forall pos | 0 <= pos < w * h
      ensures Unpainted(w, h, image)[pos] == FillUp(pixels, w * h)[pos]
    {
      CellBijection(w, h, 0, h - 1, pos);
      ColorsAreDistinct(FillUp(pixels, w * h)[pos]);
    }
  }

  /** Two payloads paint the same image exactly when they agree up to trailing fill. */
  lemma SameImage(w: nat, h: nat, a: seq<byte>, b: seq<byte>)
    requires |a| <= w * h && |b| <= w * h
    ensures Painted(w, h, a) == Painted(w, h, b) <==> FillUp(a, w * h) == FillUp(b, w * h)
  {
    UnpaintedOfPainted(w, h, a);
    UnpaintedOfPainted(w, h, b);
    ShortPayload(w, h, a);
    ShortPayload(w, h, b);
  }

  /** One more octet changes the colour of its own cell only. */
  lemma OneMoreOctet(w: nat, h: nat, pixels: seq<byte>, pos: nat, x: nat, y: nat)
    requires x < w && y < h && pos < |pixels| <= w * h
    ensures CellColor(w, h, pixels[..pos + 1], x, y)
         == if Column(w, pos) == x && Row(w, h, pos) == y then ColorConvert(pixels[pos])
            else CellColor(w, h, pixels[..pos], x, y)
  {
    CellBijection(w, h, x, y, pos);
  }

  ghost predicate Shows(image: array2<RGBA>, pixels: seq<byte>)
    reads image
  {
    forall x, y :: 0 <= x < image.Length0 && 0 <= y < image.Length1 ==>
      image[x, y] == CellColor(image.Length0, image.Length1, pixels, x, y)
  }

  /** Paints one octet. A cell outside of the image is passed over. */
  method PaintOctet(image: array2<RGBA>, pixels: seq<byte>, pos: nat)
    requires pos < |pixels| <= image.Length0 * image.Length1
    requires Shows(image, pixels[..pos])
    modifies image
    ensures Shows(image, pixels[..pos + 1])
  {
    var w, h := image.Length0, image.Length1;
    assert w > 0;
    var x, y := Column(w, pos), Row(w, h, pos);
    forall i, j | 0 <= i < w && 0 <= j < h
      ensures CellColor(w, h, pixels[..pos + 1], i, j)
           == if x == i && y == j then ColorConvert(pixels[pos]) else CellColor(w, h, pixels[..pos], i, j)
    {
      OneMoreOctet(w, h, pixels, pos, i, j);
    }
    if 0 <= x < w && 0 <= y < h {
      image[x, y] := ColorConvert(pixels[pos]);
    }
  }

  lemma BlankShowsNothing(image: array2<RGBA>)
    requires forall x, y :: 0 <= x < image.Length0 && 0 <= y < image.Length1 ==> image[x, y] == COLOR_UNKNOWN
    ensures Shows(image, [])
  {
    forall x, y | 0 <= x < image.Length0 && 0 <= y < image.Length1
      ensures CellColor(image.Length0, image.Length1, [], x, y) == COLOR_UNKNOWN
    {
      IndexBounds(image.Length0, image.Length1, x, y);
    }
  }

  /** Paints a payload into a fresh image, octet by octet. */
  method Paint(w: nat, h: nat, pixels: seq<byte>) returns (image: array2<RGBA>)
    requires |pixels| <= w * h
    ensures fresh(image) && image.Length0 == w && image.Length1 == h
    ensures Shows(image, pixels)
  {
    image := new RGBA[w, h]((x, y) => COLOR_UNKNOWN);
    BlankShowsNothing(image);
    assert pixels[..0] == [];
    for pos := 0 to |pixels|
      invariant Shows(image, pixels[..pos])
    {
      PaintOctet(image, pixels, pos);
    }
    assert pixels[..|pixels|] == pixels;
  }

  /** The image as a value. */
  method Snapshot(image: array2<RGBA>, ghost pixels: seq<byte>) returns (r: Image)
    requires Shows(image, pixels)
    ensures r == Painted(image.Length0, image.Length1, pixels)
  {
    r := [];
    ghost var all := Painted(image.Length0, image.Length1, pixels);
    for y := 0 to image.Length1
      invariant r == all[..y]
    {
      var row: seq<RGBA> := [];
      for x := 0 to image.Length0
        invariant row == all[y][..x]
      {
        assert all[y][x] == image[x, y];
        row := row + [image[x, y]];
      }
      assert all[y][..image.Length0] == all[y];
      r := r + [row];
    }
  }

  datatype Map = Map(top: uint32, left: uint32, height: uint32, width: uint32, image: Image)

  datatype Position = Position(x: real, y: real)

  /** A point of a path or a charger, in the coordinates of the image. */
  function PositionInMap(m: Map, x: uint32, y: uint32): Position {
    Position(x as real * 0.02 - m.left as real, m.height as real - y as real * 0.02 + m.top as real)
  }

  predicate InsideCell(p: Position, column: int, row: int) {
    column as real < p.x < (column + 1) as real && row as real < p.y < (row + 1) as real
  }

  /** The flip of the raster and the coordinate transform agree: a point is strictly
      inside map cell (c, r), counted from the corner (left, top), exactly when it is
      sent strictly inside the image cell that file octet r * width + c is painted in. */
  lemma FlipAgrees(m: Map, pixels: seq<byte>, c: nat, r: nat, x: uint32, y: uint32)
    requires c < m.width && r < m.height
    requires m.image == Painted(m.width, m.height, pixels) && |pixels| == m.width * m.height
    ensures var pos := r * m.width + c;
            && 0 <= pos < |pixels|
            && Column(m.width, pos) == c && Row(m.width, m.height, pos) == m.height - 1 - r
            && m.image[m.height - 1 - r][c] == ColorConvert(pixels[pos])
    ensures InsideCell(Position(x as real * 0.02 - m.left as real, y as real * 0.02 - m.top as real), c, r)
       <==> InsideCell(PositionInMap(m, x, y), c, m.height - 1 - r)
  {
    IndexBounds(m.width, m.height, c, m.height - 1 - r);
    assert FileIndex(m.width, m.height, c, m.height - 1 - r) == r * m.width + c;
    QuotientAndRemainder(m.width, r, c);
  }
}
