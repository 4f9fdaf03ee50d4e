/** The map of pkg/navmap/navmap.go: an image is recoloured in place while the smallest
    box around its used pixels is found, and the part inside that box is published. */
module Crop {
  import opened Options
  import opened Bytes
  import opened Raster

  const GREY := RGBA(125, 125, 125, 255)
  const WHITE := RGBA(255, 255, 255, 255)
  const BLACK := RGBA(0, 0, 0, 255)

  function Recolor(c: RGBA): RGBA {
    if c == GREY then COLOR_UNKNOWN
    else if c == WHITE then COLOR_INSIDE
    else if c == BLACK then COLOR_WALL
    else c
  }

  /** The colours: grey becomes transparent, white the colour of the inside and black that
      of walls; all others stay. */
  lemma RecoloredExactly(r: byte, g: byte, b: byte, a: byte)
    ensures Recolor(RGBA(r, g, b, a))
         == if r == g == b == 125 && a == 255 then RGBA(0, 0, 0, 0)
            else if r == g == b == a == 255 then RGBA(33, 115, 187, 255)
            else if r == g == b == 0 && a == 255 then RGBA(105, 207, 254, 255)
            else RGBA(r, g, b, a)
  {
  }

  predicate Rectangular(img: Image, w: nat) {
    forall j :: 0 <= j < |img| ==> |img[j]| == w
  }

  /** Pixel (i, j) of the image is part of the map. */
  predicate Used(img: Image, w: nat, i: int, j: int)
    requires Rectangular(img, w)
  {
    0 <= i < w && 0 <= j < |img| && img[j][i] != GREY
  }

  /** Pixel (i, j) is used and comes before (x, y) when the image is read row by row. */
  predicate Seen(img: Image, w: nat, x: int, y: int, i: int, j: int)
    requires Rectangular(img, w)
  {
    Used(img, w, i, j) && (j < y || (j == y && i < x))
  }

  datatype Box = Box(minX: nat, minY: nat, maxX: nat, maxY: nat)

  ghost predicate SeenInColumn(img: Image, w: nat, x: int, y: int, i: int)
    requires Rectangular(img, w)
  {
    exists j :: Seen(img, w, x, y, i, j)
  }

  ghost predicate SeenInRow(img: Image, w: nat, x: int, y: int, j: int)
    requires Rectangular(img, w)
  {
    exists i :: Seen(img, w, x, y, i, j)
  }

  /** The box holds every pixel seen before (x, y). */
  predicate Encloses(b: Box, i: int, j: int) {
    b.minX <= i <= b.maxX && b.minY <= j <= b.maxY
  }

  ghost predicate Attained(img: Image, w: nat, x: int, y: int, b: Box)
    requires Rectangular(img, w)
  {
    && SeenInColumn(img, w, x, y, b.minX) && SeenInColumn(img, w, x, y, b.maxX)
    && SeenInRow(img, w, x, y, b.minY) && SeenInRow(img, w, x, y, b.maxY)
  }

  /** The smallest box around the pixels seen before (x, y), or the inside-out one when
      there is none. */
  ghost predicate Tight(img: Image, w: nat, x: int, y: int, b: Box)
    requires Rectangular(img, w)
  {
    && (forall i, j :: Seen(img, w, x, y, i, j) ==> Encloses(b, i, j))
    && (b == Box(w, |img|, 0, 0) || Attained(img, w, x, y, b))
  }

  /** The box that the scan of the whole image ends with. */
  ghost predicate Extremes(img: Image, w: nat, b: Box)
    requires Rectangular(img, w)
  {
    Tight(img, w, 0, |img|, b)
  }

  function Stretch(b: Box, x: nat, y: nat): Box {
    Box(if b.minX > x then x else b.minX, if b.minY > y then y else b.minY,
        if b.maxX < x then x else b.maxX, if b.maxY < y then y else b.maxY)
  }

  /** What was seen before is still seen later. */
  lemma AttainedLater(img: Image, w: nat, x: int, y: int, x': int, y': int, b: Box)
    requires Rectangular(img, w) && Attained(img, w, x, y, b)
    requires forall i, j :: Seen(img, w, x, y, i, j) ==> Seen(img, w, x', y', i, j)
    ensures Attained(img, w, x', y', b)
  {
    var j0 :| Seen(img, w, x, y, b.minX, j0);
    var j1 :| Seen(img, w, x, y, b.maxX, j1);
    var i0 :| Seen(img, w, x, y, i0, b.minY);
    var i1 :| Seen(img, w, x, y, i1, b.maxY);
    assert Seen(img, w, x', y', b.minX, j0) && Seen(img, w, x', y', b.maxX, j1);
    assert Seen(img, w, x', y', i0, b.minY) && Seen(img, w, x', y', i1, b.maxY);
  }

  lemma StretchStaysTight(img: Image, w: nat, x: nat, y: nat, b: Box)
    requires Rectangular(img, w) && x < w && y < |img|
    requires Tight(img, w, x, y, b)
    ensures Tight(img, w, x + 1, y, if Used(img, w, x, y) then Stretch(b, x, y) else b)
  {
    if b != Box(w, |img|, 0, 0) {
      AttainedLater(img, w, x, y, x + 1, y, b);
    }
    if Used(img, w, x, y) {
      assert Seen(img, w, x + 1, y, x, y);
    }
    var b' := if Used(img, w, x, y) then Stretch(b, x, y) else b;
    forall i, j | Seen(img, w, x + 1, y, i, j)
      ensures Encloses(b', i, j)
    {
      assert Seen(img, w, x, y, i, j) || (i == x && j == y);
    }
  }

  lemma NextRow(img: Image, w: nat, y: nat, b: Box)
    requires Rectangular(img, w) && y < |img| && Tight(img, w, w, y, b)
    ensures Tight(img, w, 0, y + 1, b)
  {
    if b != Box(w, |img|, 0, 0) {
      AttainedLater(img, w, w, y, 0, y + 1, b);
    }
    forall i, j | Seen(img, w, 0, y + 1, i, j)
      ensures Encloses(b, i, j)
    {
      assert Seen(img, w, w, y, i, j);
    }
  }

  ghost predicate Holds(image: array2<RGBA>, img: Image)
    reads image
  {
    && image.Length1 == |img| && Rectangular(img, image.Length0)
    && forall i, j :: 0 <= i < image.Length0 && 0 <= j < image.Length1 ==> image[i, j] == img[j][i]
  }

  /** The image with every pixel before (x, y) recoloured. */
  ghost predicate HoldsRecolored(image: array2<RGBA>, img: Image, x: int, y: int)
    reads image
  {
    && image.Length1 == |img| && Rectangular(img, image.Length0)
    && forall i, j :: 0 <= i < image.Length0 && 0 <= j < image.Length1 ==>
         image[i, j] == if j < y || (j == y && i < x) then Recolor(img[j][i]) else img[j][i]
  }

  /** Recolours the pixel (x, y) and returns the box that also counts it. The colour
      0xfafafa has a branch of its own in the program that does the same as the last one. */
  method Visit(image: array2<RGBA>, ghost img: Image, x: nat, y: nat, b: Box) returns (b': Box)
    requires x < image.Length0 && y < image.Length1
    requires HoldsRecolored(image, img, x, y)
    requires Tight(img, image.Length0, x, y, b)
    modifies image
    ensures HoldsRecolored(image, img, x + 1, y)
    ensures Tight(img, image.Length0, x + 1, y, b')
  {
    StretchStaysTight(img, image.Length0, x, y, b);
    b' := b;
    if image[x, y] == GREY {
      image[x, y] := COLOR_UNKNOWN;
    } else {
      if image[x, y] == WHITE {
        image[x, y] := COLOR_INSIDE;
      } else if image[x, y] == BLACK {
        image[x, y] := COLOR_WALL;
      }
      b' := Stretch(b, x, y);
    }
  }

  /** The scan: recolours the whole image in place and finds the box of its used pixels. */
  method Scan(image: array2<RGBA>, ghost img: Image) returns (b: Box)
    requires Holds(image, img)
    modifies image
    ensures Rectangular(img, image.Length0) && Extremes(img, image.Length0, b)
    ensures HoldsRecolored(image, img, 0, image.Length1)
  {
    b := Box(image.Length0, image.Length1, 0, 0);
    for y := 0 to image.Length1
      invariant HoldsRecolored(image, img, 0, y) && Tight(img, image.Length0, 0, y, b)
    {
      for x := 0 to image.Length0
        invariant HoldsRecolored(image, img, x, y) && Tight(img, image.Length0, x, y, b)
      {
        b := Visit(image, img, x, y, b);
      }
      NextRow(img, image.Length0, y, b);
    }
  }

  // ----- what the box is

  lemma EdgesInside(img: Image, w: nat, b: Box, c: Box)
    requires Rectangular(img, w) && Attained(img, w, 0, |img|, b) && Extremes(img, w, c)
    ensures c.minX <= b.minX && b.maxX <= c.maxX && c.minY <= b.minY && b.maxY <= c.maxY
  {
    var j0 :| Seen(img, w, 0, |img|, b.minX, j0);
    var j1 :| Seen(img, w, 0, |img|, b.maxX, j1);
    var i0 :| Seen(img, w, 0, |img|, i0, b.minY);
    var i1 :| Seen(img, w, 0, |img|, i1, b.maxY);
  }

  lemma NotInsideOut(img: Image, w: nat, b: Box)
    requires Rectangular(img, w) && Attained(img, w, 0, |img|, b)
    ensures b.minX < w && !Extremes(img, w, Box(w, |img|, 0, 0))
  {
    var j0 :| Seen(img, w, 0, |img|, b.minX, j0);
    assert !Encloses(Box(w, |img|, 0, 0), b.minX, j0);
  }

  /** The scan's result depends on nothing but the used pixels: there is one such box. */
  lemma OneBox(img: Image, w: nat, b: Box, c: Box)
    requires Rectangular(img, w) && Extremes(img, w, b) && Extremes(img, w, c)
    ensures b == c
  {
    if b != Box(w, |img|, 0, 0) && c != Box(w, |img|, 0, 0) {
      EdgesInside(img, w, b, c);
      EdgesInside(img, w, c, b);
    } else if b != Box(w, |img|, 0, 0) {
      NotInsideOut(img, w, b);
    } else if c != b {
      NotInsideOut(img, w, c);
    }
  }

  /** The pixel counts for the map: it is not opaque grey. */
  predicate Counts(img: Image, w: nat, i: int, j: int)
    requires Rectangular(img, w)
  {
    0 <= i < w && 0 <= j < |img| && img[j][i] != RGBA(125, 125, 125, 255)
  }

  ghost predicate CountsInColumn(img: Image, w: nat, i: int)
    requires Rectangular(img, w)
  {
    exists j :: Counts(img, w, i, j)
  }

  ghost predicate CountsInRow(img: Image, w: nat, j: int)
    requires Rectangular(img, w)
  {
    exists i :: Counts(img, w, i, j)
  }

  lemma SidesCount(img: Image, w: nat, b: Box)
    requires Rectangular(img, w)
    ensures Attained(img, w, 0, |img|, b)
       <==> && CountsInColumn(img, w, b.minX) && CountsInColumn(img, w, b.maxX)
            && CountsInRow(img, w, b.minY) && CountsInRow(img, w, b.maxY)
  {
    forall x ensures SeenInColumn(img, w, 0, |img|, x) <==> CountsInColumn(img, w, x) {
      if j :| Seen(img, w, 0, |img|, x, j) { assert Counts(img, w, x, j); }
      if j :| Counts(img, w, x, j) { assert Seen(img, w, 0, |img|, x, j); }
    }
    forall y ensures SeenInRow(img, w, 0, |img|, y) <==> CountsInRow(img, w, y) {
      if i :| Seen(img, w, 0, |img|, i, y) { assert Counts(img, w, i, y); }
      if i :| Counts(img, w, i, y) { assert Seen(img, w, 0, |img|, i, y); }
    }
  }

  /** The box of an image with pixels that count: it holds them all, and there are some on
      each of its sides. */
  lemma BoxExactly(img: Image, w: nat, b: Box, i: int, j: int)
    requires Rectangular(img, w) && Counts(img, w, i, j)
    ensures Extremes(img, w, b)
       <==> && (forall x, y :: Counts(img, w, x, y) ==> b.minX <= x <= b.maxX && b.minY <= y <= b.maxY)
            && CountsInColumn(img, w, b.minX) && CountsInColumn(img, w, b.maxX)
            && CountsInRow(img, w, b.minY) && CountsInRow(img, w, b.maxY)
  {
    assert forall x, y :: Counts(img, w, x, y) <==> Seen(img, w, 0, |img|, x, y);
    assert Seen(img, w, 0, |img|, i, j) && !Encloses(Box(w, |img|, 0, 0), i, j);
    SidesCount(img, w, b);
  }

  /** An image without such a pixel has the inside-out box. */
  lemma NoBox(img: Image, w: nat, b: Box)
    requires Rectangular(img, w) && forall x, y :: !Counts(img, w, x, y)
    ensures Extremes(img, w, b) <==> b == Box(w, |img|, 0, 0)
  {
    assert forall x, y :: Seen(img, w, 0, |img|, x, y) ==> Counts(img, w, x, y);
  }

  // ----- the published part

  /** The published part is half open: it ends before column maxX and before row maxY. */
  predicate InCrop(b: Box, i: int, j: int) {
    b.minX <= i < b.maxX && b.minY <= j < b.maxY
  }

  ghost predicate TwoColumns(img: Image, w: nat)
    requires Rectangular(img, w)
  {
    exists i, j, i', j' :: Used(img, w, i, j) && Used(img, w, i', j') && i != i'
  }

  ghost predicate TwoRows(img: Image, w: nat)
    requires Rectangular(img, w)
  {
    exists i, j, i', j' :: Used(img, w, i, j) && Used(img, w, i', j') && j != j'
  }

  lemma UsedEdges(img: Image, w: nat, b: Box)
    requires Rectangular(img, w) && Attained(img, w, 0, |img|, b)
    ensures exists j0, j1 :: Used(img, w, b.minX, j0) && Used(img, w, b.maxX, j1)
    ensures exists i0, i1 :: Used(img, w, i0, b.minY) && Used(img, w, i1, b.maxY)
  {
    var j0 :| Seen(img, w, 0, |img|, b.minX, j0);
    var j1 :| Seen(img, w, 0, |img|, b.maxX, j1);
    var i0 :| Seen(img, w, 0, |img|, i0, b.minY);
    var i1 :| Seen(img, w, 0, |img|, i1, b.maxY);
    assert Used(img, w, b.minX, j0) && Used(img, w, b.maxX, j1);
    assert Used(img, w, i0, b.minY) && Used(img, w, i1, b.maxY);
  }

  /** The published part is not empty exactly when the used pixels lie neither in one
      column nor in one row. */
  lemma NonEmptyExactly(img: Image, w: nat, b: Box)
    requires Rectangular(img, w) && Extremes(img, w, b)
    ensures b.minX < b.maxX && b.minY < b.maxY <==> TwoColumns(img, w) && TwoRows(img, w)
  {
    if b != Box(w, |img|, 0, 0) {
      UsedEdges(img, w, b);
    }
    if TwoColumns(img, w) && TwoRows(img, w) {
      var i, j, i', j' :| Used(img, w, i, j) && Used(img, w, i', j') && i != i';
      assert Seen(img, w, 0, |img|, i, j) && Seen(img, w, 0, |img|, i', j');
      var k, l, k', l' :| Used(img, w, k, l) && Used(img, w, k', l') && l != l';
      assert Seen(img, w, 0, |img|, k, l) && Seen(img, w, 0, |img|, k', l');
    }
  }

  /** A used pixel is published exactly when it is neither in the last used column nor in
      the last used row. */
  lemma PublishedExactly(img: Image, w: nat, b: Box, i: int, j: int)
    requires Rectangular(img, w) && Extremes(img, w, b) && Used(img, w, i, j)
    ensures InCrop(b, i, j) <==> i != b.maxX && j != b.maxY
  {
    assert Seen(img, w, 0, |img|, i, j);
  }

  /** So whenever any pixel is used, some used pixel is not published. */
  lemma SomeUsedPixelIsLost(img: Image, w: nat, b: Box, i: int, j: int)
    requires Rectangular(img, w) && Extremes(img, w, b) && Used(img, w, i, j)
    ensures exists k, l :: Used(img, w, k, l) && !InCrop(b, k, l)
  {
    assert Seen(img, w, 0, |img|, i, j);
    assert b != Box(w, |img|, 0, 0);
    UsedEdges(img, w, b);
    var j0, j1 :| Used(img, w, b.minX, j0) && Used(img, w, b.maxX, j1);
    assert !InCrop(b, b.maxX, j1);
  }

  datatype Published = Published(left: nat, top: nat, width: nat, height: nat, data: Image)

  /** The data are the recoloured pixels of the given part of the image. */
  predicate ShowsPart(img: Image, w: nat, p: Published)
    requires Rectangular(img, w)
  {
    && p.left + p.width <= w && p.top + p.height <= |img|
    && |p.data| == p.height
    && (forall j :: 0 <= j < p.height ==> |p.data[j]| == p.width)
    && forall i, j :: 0 <= i < p.width && 0 <= j < p.height ==> p.data[j][i] == Recolor(img[p.top + j][p.left + i])
  }

  method CropRow(image: array2<RGBA>, y: nat, minX: nat, maxX: nat) returns (row: seq<RGBA>)
    requires y < image.Length1 && minX <= maxX <= image.Length0
    ensures |row| == maxX - minX && forall i :: 0 <= i < |row| ==> row[i] == image[minX + i, y]
  {
    row := [];
    for x := minX to maxX
      invariant |row| == x - minX && forall i :: 0 <= i < |row| ==> row[i] == image[minX + i, y]
    {
      row := row + [image[x, y]];
    }
  }

  /** The part of a recoloured image inside a box. */
  method CropPart(image: array2<RGBA>, ghost img: Image, b: Box) returns (p: Published)
    requires HoldsRecolored(image, img, 0, image.Length1)
    requires b.minX <= b.maxX <= image.Length0 && b.minY <= b.maxY <= image.Length1
    ensures ShowsPart(img, image.Length0, p)
    ensures b == Box(p.left, p.top, p.left + p.width, p.top + p.height)
  {
    var data: Image := [];
    for y := b.minY to b.maxY
      invariant |data| == y - b.minY
      invariant forall j :: 0 <= j < |data| ==> |data[j]| == b.maxX - b.minX
      invariant forall i, j :: 0 <= i < b.maxX - b.minX && 0 <= j < |data| ==>
                  data[j][i] == Recolor(img[b.minY + j][b.minX + i])
    {
      var row := CropRow(image, y, b.minX, b.maxX);
      data := data + [row];
    }
    p := Published(b.minX, b.minY, b.maxX - b.minX, b.maxY - b.minY, data);
  }

  /** Recolours an image and publishes the part with used pixels. It fails exactly when
      these lie in one column or in one row, because an empty image cannot be encoded. */
  method NewMap(image: array2<RGBA>, ghost img: Image) returns (r: Option<Published>)
    requires Holds(image, img)
    modifies image
    ensures HoldsRecolored(image, img, 0, image.Length1)
    ensures r.Some? <==> TwoColumns(img, image.Length0) && TwoRows(img, image.Length0)
    ensures r.Some? ==> ShowsPart(img, image.Length0, r.value)
    ensures r.Some? ==> Extremes(img, image.Length0, Box(r.value.left, r.value.top,
                                                         r.value.left + r.value.width, r.value.top + r.value.height))
  {
    var b := Scan(image, img);
    NonEmptyExactly(img, image.Length0, b);
    if b.minX >= b.maxX || b.minY >= b.maxY {
      return None;
    }
    UsedEdges(img, image.Length0, b);
    var p := CropPart(image, img, b);
    r := Some(p);
  }
}
