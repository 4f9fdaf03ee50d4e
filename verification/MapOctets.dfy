/** What the map files of pkg/navmap/robotdb.go hold, octet by octet: where each number of a
    block is, how many points and pixels follow, and what a file that is read leads to. */
module MapOctets {
  import opened Bytes
  import opened Options
  import opened Raster
  import opened MapFile
  import opened MapConvert

  /** The numbers in the two and in the four octets from `i` on. */
  function Two(s: seq<byte>, i: nat): nat
    requires i + 2 <= |s|
  {
    s[i] + 0x100 * (s[i + 1] as int)
  }

  function Four(s: seq<byte>, i: nat): nat
    requires i + 4 <= |s|
  {
    s[i] + 0x100 * (s[i + 1] as int) + 0x1_0000 * (s[i + 2] as int) + 0x100_0000 * (s[i + 3] as int)
  }

  lemma Numbers2(s: Bytes2)
    ensures U16(s) == Two(s, 0)
  {
    ReadNumbers(s, [0, 0, 0, 0]);
    OctetOrder(U16(s), 0);
  }

  lemma FourDigits(m: uint32)
    ensures m == m % 0x100 + 0x100 * (m / 0x100 % 0x100) + 0x1_0000 * (m / 0x1_0000 % 0x100)
              + 0x100_0000 * (m / 0x100_0000)
  {
    var a := m / 0x100;
    var b := a / 0x100;
    assert b == m / 0x1_0000 && b / 0x100 == m / 0x100_0000;
    assert m == m % 0x100 + 0x100 * a;
    assert a == a % 0x100 + 0x100 * b;
    assert b == b % 0x100 + 0x100 * (b / 0x100);
  }

  lemma Numbers4(s: Bytes4)
    ensures U32(s) == Four(s, 0)
  {
    ReadNumbers([0, 0], s);
    OctetOrder(0, U32(s));
    FourDigits(U32(s));
  }

  lemma TwoAt(s: seq<byte>, i: nat)
    requires i + 2 <= |s|
    ensures U16(s[i..i + 2]) == Two(s, i)
  {
    Numbers2(s[i..i + 2]);
  }

  lemma FourAt(s: seq<byte>, i: nat)
    requires i + 4 <= |s|
    ensures U32(s[i..i + 4]) == Four(s, i)
  {
    Numbers4(s[i..i + 4]);
  }

  // ----- the payloads

  /** A charger takes eight octets. */
  lemma ChargerOctets(s: seq<byte>)
    ensures ParseCharger(s).Parsed? <==> |s| >= 8
    ensures |s| >= 8 ==> ParseCharger(s) == Parsed(Charger(Four(s, 0), Four(s, 4)), s[8..])
    ensures |s| < 8 ==> ParseCharger(s) == Failed(if s == [] then Eof else UnexpectedEof)
  {
    if |s| >= 8 {
      assert s[..8][..4] == s[0..4] && s[..8][4..] == s[4..8];
      FourAt(s, 0);
      FourAt(s, 4);
    }
  }

  /** How many pixels are read: as many as the 32-bit product of the sides says, or all that
      are left. */
  function PixelCount(s: seq<byte>): nat
    requires |s| >= 16
  {
    var n := Four(s, 8) * Four(s, 12) % 0x1_0000_0000;
    if n <= |s| - 16 then n else |s| - 16
  }

  lemma HeaderSlices(s: seq<byte>)
    requires |s| >= 16
    ensures s[..16][..4] == s[0..4] && s[..16][4..8] == s[4..8]
    ensures s[..16][8..12] == s[8..12] && s[..16][12..] == s[12..16]
  {
  }

  lemma PictureNumbers(s: seq<byte>)
    requires |s| >= 16
    ensures U32(s[..16][..4]) == Four(s, 0) && U32(s[..16][4..8]) == Four(s, 4)
    ensures U32(s[..16][8..12]) == Four(s, 8) && U32(s[..16][12..]) == Four(s, 12)
  {
    HeaderSlices(s);
    FourAt(s, 0);
    FourAt(s, 4);
    FourAt(s, 8);
    FourAt(s, 12);
  }

  /** The fields of a picture, in the order top, left, height, width, and its pixels. */
  lemma PictureOctets(s: seq<byte>)
    ensures ParsePicture(s)
         == if |s| < 16 then Failed(if s == [] then Eof else UnexpectedEof)
            else if Four(s, 8) == 0 || Four(s, 12) == 0 then Failed(EmptyImage)
            else
              var end := 16 + PixelCount(s);
              Parsed(Picture(Four(s, 0), Four(s, 4), Four(s, 8), Four(s, 12), s[16..end]), s[end..])
  {
    if |s| >= 16 {
      PictureNumbers(s);
      var n := PixelCount(s);
      assert s[16..][..n] == s[16..16 + n] && s[16..][n..] == s[16 + n..];
    }
  }

  /** How many points follow a path header: one less than it says. On a machine with 32-bit
      integers a length from 2^31 on is negative. */
  function PointCount(platform: Platform, s: seq<byte>): nat
    requires |s| >= 4
  {
    if Four(s, 0) == 0 || (platform == Int32 && Four(s, 0) >= 0x8000_0000) then 0 else Four(s, 0) - 1
  }

  function PointAt(s: seq<byte>, i: nat): Point
    requires 4 * i + 4 <= |s|
  {
    Point(Two(s, 4 * i), Two(s, 4 * i + 2))
  }

  lemma FirstPoint(s: seq<byte>)
    requires |s| >= 4
    ensures Point(U16(s[..4][..2]), U16(s[..4][2..])) == PointAt(s, 0)
  {
    assert s[..4][..2] == s[0..2] && s[..4][2..] == s[2..4];
    TwoAt(s, 0);
    TwoAt(s, 2);
  }

  lemma {:induction false} PointsFit(s: seq<byte>, count: nat)
    ensures ParsePoints(s, count).Parsed? <==> 4 * count <= |s|
    ensures ParsePoints(s, count).Parsed? ==>
              |ParsePoints(s, count).value| == count && ParsePoints(s, count).rest == s[4 * count..]
    decreases count
  {
    if count > 0 && |s| >= 4 {
      PointsFit(s[4..], count - 1);
      assert 4 * count <= |s| ==> s[4..][4 * (count - 1)..] == s[4 * count..];
    }
  }

  lemma PointsFromFirst(s: seq<byte>, count: nat)
    requires ParsePoints(s, count).Parsed? && count > 0
    ensures |s| >= 4 && ParsePoints(s[4..], count - 1).Parsed?
    ensures ParsePoints(s, count).value == [PointAt(s, 0)] + ParsePoints(s[4..], count - 1).value
  {
    FirstPoint(s);
  }

  lemma PointOfRest(s: seq<byte>, i: nat)
    requires i > 0 && 4 * i + 4 <= |s|
    ensures PointAt(s[4..], i - 1) == PointAt(s, i)
  {
  }

  /** `count` points are read where there are octets for them, each as x and then y. */
  lemma {:induction false} PointsOctets(s: seq<byte>, count: nat, i: nat)
    requires ParsePoints(s, count).Parsed? && i < count && 4 * count <= |s|
    ensures i < |ParsePoints(s, count).value| && ParsePoints(s, count).value[i] == PointAt(s, i)
    decreases count
  {
    PointsFromFirst(s, count);
    if i > 0 {
      PointsOctets(s[4..], count - 1, i - 1);
      PointOfRest(s, i);
    }
  }

  lemma PathNumbers(s: seq<byte>)
    requires |s| >= 16
    ensures U32(s[..16][..4]) == Four(s, 0) && U32(s[..16][4..8]) == Four(s, 4)
    ensures U32(s[..16][8..12]) == Four(s, 8) && U16(s[..16][12..14]) == Two(s, 12) && U16(s[..16][14..]) == Two(s, 14)
  {
    HeaderSlices(s);
    FourAt(s, 0);
    FourAt(s, 4);
    FourAt(s, 8);
    assert s[..16][12..14] == s[12..14] && s[..16][14..] == s[14..16];
    TwoAt(s, 12);
    TwoAt(s, 14);
  }

  /** A path is read exactly when there are octets for its header and its points; it has that
      many points, and its fields. */
  lemma PathOctets(platform: Platform, s: seq<byte>)
    ensures ParsePath(platform, s).Parsed? <==> |s| >= 16 && 16 + 4 * PointCount(platform, s) <= |s|
    ensures ParsePath(platform, s).Parsed? ==>
              var p, n := ParsePath(platform, s).value, PointCount(platform, s);
              && p.Path? && |p.points| == n && ParsePath(platform, s).rest == s[16 + 4 * n..]
              && p.pointLength == Four(s, 0) && p.pointSize == Four(s, 4) && p.angle == Four(s, 8)
              && p.imageWidth == Two(s, 12) && p.imageHeight == Two(s, 14)
  {
    if |s| >= 16 {
      PathNumbers(s);
      var n := PointCount(platform, s);
      PointsFit(s[16..], n);
      assert 16 + 4 * n <= |s| ==> s[16..][4 * n..] == s[16 + 4 * n..];
    }
  }

  /** The coordinates of each point of a path. */
  lemma PathPoint(platform: Platform, s: seq<byte>, i: nat)
    requires ParsePath(platform, s).Parsed? && i < |ParsePath(platform, s).value.points|
    ensures 20 + 4 * i <= |s|
    ensures ParsePath(platform, s).value.points[i] == Point(Two(s, 16 + 4 * i), Two(s, 18 + 4 * i))
  {
    PathOctets(platform, s);
    PathNumbers(s);
    var n := PointCount(platform, s);
    PointsFit(s[16..], n);
    PointsOctets(s[16..], n, i);
  }

  // ----- the blocks

  function PayloadAt(platform: Platform, s: seq<byte>): Parse<Payload>
    requires |s| >= 8
  {
    if Two(s, 0) == 1 then ParseCharger(s[8..])
    else if Two(s, 0) == 2 then ParsePicture(s[8..])
    else if Two(s, 0) == 3 then ParsePath(platform, s[8..])
    else
      var end := if Four(s, 4) <= |s| - 8 then 8 + Four(s, 4) else |s|;
      Parsed(Unknown(s[8..end]), s[end..])
  }

  lemma BlockNumbers(s: seq<byte>)
    requires |s| >= 8
    ensures U16(s[..8][..2]) == Two(s, 0) && s[..8][2..4] == s[2..4] && U32(s[..8][4..]) == Four(s, 4)
  {
    assert s[..8][..2] == s[0..2] && s[..8][4..] == s[4..8];
    TwoAt(s, 0);
    FourAt(s, 4);
  }

  /** A block has its type in its first two octets and its size in the last four of eight.
      Type 1 is a charger, 2 a picture and 3 a path; another one is passed over by its size. */
  lemma BlockOctets(platform: Platform, s: seq<byte>)
    ensures ParseBlock(platform, s)
         == if |s| < 8 then Failed(if s == [] then Eof else UnexpectedEof)
            else
              var p := PayloadAt(platform, s);
              if p.Failed? then Failed(p.error)
              else Parsed(Block(Two(s, 0), s[2..4], Four(s, 4), p.value), p.rest)
  {
    if |s| >= 8 {
      BlockNumbers(s);
      var n := UpTo(s[8..], Four(s, 4));
      assert s[8..][..n] == s[8..8 + n] && s[8..][n..] == s[8 + n..];
    }
  }

  // ----- the file

  predicate NoPicture(blocks: seq<Block>) {
    forall i :: 0 <= i < |blocks| ==> !blocks[i].payload.Picture?
  }

  lemma {:induction false} NoPictureExactly(blocks: seq<Block>)
    ensures NoPicture(blocks) <==> LastOf(blocks, 2).None?
  {
    if blocks != [] {
      NoPictureExactly(blocks[..|blocks| - 1]);
    }
  }

  /** A file without 20 octets is an error and changes nothing; what is in them does not
      matter, and the blocks follow. */
  lemma FileOctets(platform: Platform, before: Status, data: seq<byte>)
    ensures |data| < 20 ==>
              Converted(platform, before, data) == Conversion(before, Some(if data == [] then Eof else UnexpectedEof))
    ensures |data| >= 20 ==>
              var c := ParseAll(platform, data[20..]);
              (Converted(platform, before, data).error == if c.error.Some? then c.error
                                                          else if before.chart.None? && NoPicture(c.blocks)
                                                          then Some(NoMapFound) else None)
  {
    if |data| >= 20 {
      NoPictureExactly(ParseAll(platform, data[20..]).blocks);
    }
  }

  /** The block at `i` is the last one with this kind of payload. */
  predicate LastPicture(blocks: seq<Block>, i: nat) {
    i < |blocks| && blocks[i].payload.Picture? && forall j :: i < j < |blocks| ==> !blocks[j].payload.Picture?
  }

  predicate LastPath(blocks: seq<Block>, i: nat) {
    i < |blocks| && blocks[i].payload.Path? && forall j :: i < j < |blocks| ==> !blocks[j].payload.Path?
  }

  predicate LastCharger(blocks: seq<Block>, i: nat) {
    i < |blocks| && blocks[i].payload.Charger? && forall j :: i < j < |blocks| ==> !blocks[j].payload.Charger?
  }

  lemma {:induction false} LastIsFound(blocks: seq<Block>, i: nat)
    ensures LastPicture(blocks, i) ==> LastOf(blocks, 2) == Some(blocks[i].payload)
    ensures LastPath(blocks, i) ==> LastOf(blocks, 3) == Some(blocks[i].payload)
    ensures LastCharger(blocks, i) ==> LastOf(blocks, 1) == Some(blocks[i].payload)
  {
    if blocks != [] && i < |blocks| - 1 {
      LastIsFound(blocks[..|blocks| - 1], i);
    }
  }

  /** A point in the coordinates of an image. */
  function Placed(left: int, top: int, height: int, x: int, y: int): Position {
    Position(x as real * 0.02 - left as real, height as real - y as real * 0.02 + top as real)
  }

  /** The map of a file that is read is its last picture, with the fields and the raster of
      that one. */
  lemma ConvertedMap(platform: Platform, before: Status, head: seq<byte>, blocks: seq<Block>, i: nat)
    requires |head| == 20 && Grammatical(platform, blocks) && LastPicture(blocks, i)
    ensures var r, p := Converted(platform, before, head + PrintAll(blocks)), blocks[i].payload;
            && r.error == None && r.status.chart.Some?
            && r.status.chart.value == Map(p.top, p.left, p.height, p.width, Painted(p.width, p.height, p.pixels))
  {
    ConvertOfPrint(platform, before, head, blocks);
    LastIsFound(blocks, i);
  }

  lemma OutcomePath(before: Status, blocks: seq<Block>, i: nat, j: nat)
    requires LastPicture(blocks, i) && LastPath(blocks, j)
    ensures var m, points := blocks[i].payload, blocks[j].payload.points;
            var path := Outcome(before, blocks).status.path;
            |path| == |points| &&
            forall n :: 0 <= n < |points| ==> path[n] == Placed(m.left, m.top, m.height, points[n].x, points[n].y)
  {
    LastIsFound(blocks, i);
    LastIsFound(blocks, j);
  }

  lemma OutcomeCharger(before: Status, blocks: seq<Block>, i: nat, k: nat)
    requires LastPicture(blocks, i) && LastCharger(blocks, k)
    ensures var m, c := blocks[i].payload, blocks[k].payload;
            Outcome(before, blocks).status.charger == Placed(m.left, m.top, m.height, c.x, c.y)
  {
    LastIsFound(blocks, i);
    LastIsFound(blocks, k);
  }

  /** Its path is the last one, point by point in the coordinates of that map. */
  lemma ConvertedPath(platform: Platform, before: Status, head: seq<byte>, blocks: seq<Block>, i: nat, j: nat)
    requires |head| == 20 && Grammatical(platform, blocks) && LastPicture(blocks, i) && LastPath(blocks, j)
    ensures var m, points := blocks[i].payload, blocks[j].payload.points;
            var path := Converted(platform, before, head + PrintAll(blocks)).status.path;
            |path| == |points| &&
            forall n :: 0 <= n < |points| ==> path[n] == Placed(m.left, m.top, m.height, points[n].x, points[n].y)
  {
    ConvertOfPrint(platform, before, head, blocks);
    OutcomePath(before, blocks, i, j);
  }

  /** Its charger is the last one. */
  lemma ConvertedCharger(platform: Platform, before: Status, head: seq<byte>, blocks: seq<Block>, i: nat, k: nat)
    requires |head| == 20 && Grammatical(platform, blocks) && LastPicture(blocks, i) && LastCharger(blocks, k)
    ensures var m, c := blocks[i].payload, blocks[k].payload;
            var charger := Converted(platform, before, head + PrintAll(blocks)).status.charger;
            charger == Placed(m.left, m.top, m.height, c.x, c.y)
  {
    ConvertOfPrint(platform, before, head, blocks);
    OutcomeCharger(before, blocks, i, k);
  }

  lemma {:induction false} NoneOfKind(blocks: seq<Block>, kind: nat)
    requires kind == 1 || kind == 3
    ensures LastOf(blocks, kind).Some? ==> exists n :: 0 <= n < |blocks| && KindOf(blocks[n].payload) == kind
  {
    if blocks != [] {
      NoneOfKind(blocks[..|blocks| - 1], kind);
      if LastOf(blocks[..|blocks| - 1], kind).Some? {
        var n :| 0 <= n < |blocks| - 1 && KindOf(blocks[..|blocks| - 1][n].payload) == kind;
        assert KindOf(blocks[n].payload) == kind;
      }
    }
  }

  predicate NoPath(blocks: seq<Block>) {
    forall n :: 0 <= n < |blocks| ==> !blocks[n].payload.Path?
  }

  predicate NoCharger(blocks: seq<Block>) {
    forall n :: 0 <= n < |blocks| ==> !blocks[n].payload.Charger?
  }

  lemma OutcomeKeeps(before: Status, blocks: seq<Block>)
    ensures NoPath(blocks) ==> Outcome(before, blocks).status.path == before.path
    ensures NoCharger(blocks) ==> Outcome(before, blocks).status.charger == before.charger
    ensures NoPicture(blocks) ==> Outcome(before, blocks).status.chart == before.chart
  {
    NoneOfKind(blocks, 1);
    NoneOfKind(blocks, 3);
    NoPictureExactly(blocks);
  }

  /** What is not in the file stays as it was before. */
  lemma ConvertedKeeps(platform: Platform, before: Status, head: seq<byte>, blocks: seq<Block>)
    requires |head| == 20 && Grammatical(platform, blocks)
    ensures var status := Converted(platform, before, head + PrintAll(blocks)).status;
            && (NoPath(blocks) ==> status.path == before.path)
            && (NoCharger(blocks) ==> status.charger == before.charger)
            && (NoPicture(blocks) ==> status.chart == before.chart)
  {
    ConvertOfPrint(platform, before, head, blocks);
    OutcomeKeeps(before, blocks);
  }

  // ----- the colours

  /** The colour that each octet of a raster is painted in, the bottom row first. */
  lemma PixelColor(w: nat, h: nat, pixels: seq<byte>, x: nat, y: nat)
    requires x < w && y < h
    ensures 0 <= (h - 1 - y) * w + x
    ensures var i, image := (h - 1 - y) * w + x, Painted(w, h, pixels);
            image[y][x] == if i >= |pixels| || pixels[i] == 0 then RGBA(0, 0, 0, 0)
                           else if pixels[i] == 1 then RGBA(105, 207, 254, 255)
                           else if pixels[i] == 255 then RGBA(33, 115, 187, 255)
                           else RGBA(pixels[i], pixels[i], pixels[i], 255)
  {
    IndexBounds(w, h, x, y);
  }
}
