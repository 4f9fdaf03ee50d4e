/** The binary map files of pkg/navmap/robotdb.go: a header of 20 octets and then
    blocks with a type each. The grammar is `Grammatical` with `PrintAll`; `ParseAll`
    reads it. */
module MapFile {
  import opened Bytes
  import opened Options
  import opened Raster

  /** The size of the machine integer that path lengths are converted to. */
  datatype Platform = Int32 | Int64

  datatype ConvertError = Eof | UnexpectedEof | EmptyImage | NoMapFound

  datatype Parse<+T> = Parsed(value: T, rest: seq<byte>) | Failed(error: ConvertError)

  datatype Point = Point(x: uint16, y: uint16)

  datatype Payload =
    | Charger(x: uint32, y: uint32)
    | Picture(top: uint32, left: uint32, height: uint32, width: uint32, pixels: seq<byte>)
    | Path(pointLength: uint32, pointSize: uint32, angle: uint32, imageWidth: uint16, imageHeight: uint16,
           points: seq<Point>)
    | Unknown(octets: seq<byte>)

  datatype Block = Block(kind: uint16, tag: Bytes2, size: uint32, payload: Payload)

  const FILE_HEADER_SIZE := 20

  function U16(s: Bytes2): uint16 {
    RangeValues();
    FromLE(s)
  }

  function U32(s: Bytes4): uint32 {
    RangeValues();
    FromLE(s)
  }

  lemma PrintedNumbers(n: uint16, m: uint32)
    ensures U16(LE(n, 2)) == n && U32(LE(m, 4)) == m
  {
    RangeValues();
    FromLEOfLE(n, 2);
    FromLEOfLE(m, 4);
  }

  lemma ReadNumbers(s: Bytes2, t: Bytes4)
    ensures LE(U16(s), 2) == s && LE(U32(t), 4) == t
  {
    LEOfFromLE(s);
    LEOfFromLE(t);
  }

  /** A read of exactly `n` octets. */
  function Fixed(s: seq<byte>, n: nat): (r: Parse<seq<byte>>)
    ensures r.Parsed? <==> n <= |s|
    ensures r.Parsed? ==> |r.value| == n && s == r.value + r.rest
  {
    if n <= |s| then Parsed(s[..n], s[n..]) else Failed(if s == [] then Eof else UnexpectedEof)
  }

  lemma FixedOfAppend(s: seq<byte>, rest: seq<byte>)
    ensures Fixed(s + rest, |s|) == Parsed(s, rest)
  {
  }

  /** The octets of a copy that stops at the end of the input. */
  function UpTo(s: seq<byte>, n: nat): nat {
    if n <= |s| then n else |s|
  }

  /** The number of points that a path header announces: the first of its points is
      not in the file, and the length is converted to a signed machine integer. */
  function NumPoints(platform: Platform, pointLength: uint32): nat {
    if platform == Int32 && pointLength >= 0x8000_0000 then 0
    else if pointLength == 0 then 0
    else pointLength - 1
  }

  function ParsePoints(s: seq<byte>, count: nat): Parse<seq<Point>>
    decreases count
  {
    if count == 0 then Parsed([], s)
    else
      match Fixed(s, 4)
      case Failed(e) => Failed(e)
      case Parsed(head, rest) =>
        match ParsePoints(rest, count - 1)
        case Failed(e) => Failed(e)
        case Parsed(points, rest) => Parsed([Point(U16(head[..2]), U16(head[2..]))] + points, rest)
  }

  function ParseCharger(s: seq<byte>): Parse<Payload> {
    match Fixed(s, 8)
    case Failed(e) => Failed(e)
    case Parsed(h, rest) => Parsed(Charger(U32(h[..4]), U32(h[4..])), rest)
  }

  /** The number of octets of a raster: a 32-bit product. */
  function RasterSize(height: uint32, width: uint32): uint32 {
    height * width % 0x1_0000_0000
  }

  function ParsePicture(s: seq<byte>): Parse<Payload> {
    match Fixed(s, 16)
    case Failed(e) => Failed(e)
    case Parsed(h, rest) =>
      var height, width := U32(h[8..12]), U32(h[12..]);
      var n := UpTo(rest, RasterSize(height, width));
      if height == 0 || width == 0 then Failed(EmptyImage)
      else Parsed(Picture(U32(h[..4]), U32(h[4..8]), height, width, rest[..n]), rest[n..])
  }

  function ParsePath(platform: Platform, s: seq<byte>): Parse<Payload> {
    match Fixed(s, 16)
    case Failed(e) => Failed(e)
    case Parsed(h, rest) =>
      var length := U32(h[..4]);
      match ParsePoints(rest, NumPoints(platform, length))
      case Failed(e) => Failed(e)
      case Parsed(points, rest) =>
        Parsed(Path(length, U32(h[4..8]), U32(h[8..12]), U16(h[12..14]), U16(h[14..]), points), rest)
  }

  function ParseUnknown(s: seq<byte>, size: uint32): Parse<Payload> {
    var n := UpTo(s, size);
    Parsed(Unknown(s[..n]), s[n..])
  }

  function ParsePayload(platform: Platform, kind: uint16, size: uint32, s: seq<byte>): Parse<Payload> {
    if kind == 1 then ParseCharger(s)
    else if kind == 2 then ParsePicture(s)
    else if kind == 3 then ParsePath(platform, s)
    else ParseUnknown(s, size)
  }

  function ParseBlock(platform: Platform, s: seq<byte>): Parse<Block> {
    match Fixed(s, 8)
    case Failed(e) => Failed(e)
    case Parsed(h, rest) =>
      match ParsePayload(platform, U16(h[..2]), U32(h[4..]), rest)
      case Failed(e) => Failed(e)
      case Parsed(payload, rest) => Parsed(Block(U16(h[..2]), h[2..4], U32(h[4..]), payload), rest)
  }

  function PrintPoints(points: seq<Point>): seq<byte> {
    if points == [] then [] else LE(points[0].x, 2) + LE(points[0].y, 2) + PrintPoints(points[1..])
  }

  function PrintPictureHeader(top: uint32, left: uint32, height: uint32, width: uint32): seq<byte> {
    LE(top, 4) + LE(left, 4) + LE(height, 4) + LE(width, 4)
  }

  function PrintPathHeader(length: uint32, size: uint32, angle: uint32, width: uint16, height: uint16): seq<byte> {
    LE(length, 4) + LE(size, 4) + LE(angle, 4) + LE(width, 2) + LE(height, 2)
  }

  function PrintPayload(p: Payload): seq<byte> {
    match p
    case Charger(x, y) => LE(x, 4) + LE(y, 4)
    case Picture(top, left, height, width, pixels) =>
      PrintPictureHeader(top, left, height, width) + pixels
    case Path(length, size, angle, width, height, points) =>
      PrintPathHeader(length, size, angle, width, height) + PrintPoints(points)
    case Unknown(octets) => octets
  }

  function PrintBlock(b: Block): (s: seq<byte>)
    ensures |s| >= 8
  {
    (LE(b.kind, 2) + b.tag + LE(b.size, 4)) + PrintPayload(b.payload)
  }

  function PrintAll(blocks: seq<Block>): seq<byte> {
    if blocks == [] then [] else PrintBlock(blocks[0]) + PrintAll(blocks[1..])
  }

  /** What a block may be. The payload of a picture or of an unknown block is cut
      short only by the end of the file, so only in the last block. The size field
      means something in unknown blocks alone. */
  predicate WellFormed(platform: Platform, b: Block, last: bool) {
    match b.payload
    case Charger(_, _) => b.kind == 1
    case Picture(_, _, height, width, pixels) =>
      && b.kind == 2 && height > 0 && width > 0
      && (|pixels| == RasterSize(height, width) || (last && |pixels| < RasterSize(height, width)))
    case Path(length, _, _, _, _, points) => b.kind == 3 && |points| == NumPoints(platform, length)
    case Unknown(octets) =>
      && b.kind != 1 && b.kind != 2 && b.kind != 3
      && (|octets| == b.size || (last && |octets| < b.size))
  }

  predicate Grammatical(platform: Platform, blocks: seq<Block>) {
    forall i :: 0 <= i < |blocks| ==> WellFormed(platform, blocks[i], i == |blocks| - 1)
  }

  /** The blocks of a file up to its end or to the first error. */
  datatype Contents = Contents(blocks: seq<Block>, error: Option<ConvertError>)

  // ----- what is parsed is what would print as the input

  lemma PrintOfReadPoint(head: Bytes4)
    ensures LE(U16(head[..2]), 2) + LE(U16(head[2..]), 2) == head
  {
    ReadNumbers(head[..2], head);
    ReadNumbers(head[2..], head);
  }

  lemma {:induction false} PrintOfParsePoints(s: seq<byte>, count: nat)
    requires ParsePoints(s, count).Parsed?
    ensures var r := ParsePoints(s, count); |r.value| == count && s == PrintPoints(r.value) + r.rest
    decreases count
  {
    if count > 0 {
      var head, rest := Fixed(s, 4).value, Fixed(s, 4).rest;
      PrintOfParsePoints(rest, count - 1);
      var more := ParsePoints(rest, count - 1);
      PrintOfReadPoint(head);
      var p := Point(U16(head[..2]), U16(head[2..]));
      assert ([p] + more.value)[1..] == more.value;
      assert head + (PrintPoints(more.value) + more.rest) == (head + PrintPoints(more.value)) + more.rest;
    }
  }

  lemma PrintOfParseCharger(s: seq<byte>)
    requires ParseCharger(s).Parsed?
    ensures s == PrintPayload(ParseCharger(s).value) + ParseCharger(s).rest
  {
    var h := Fixed(s, 8).value;
    ReadNumbers([0, 0], h[..4]);
    ReadNumbers([0, 0], h[4..]);
    assert h == h[..4] + h[4..];
  }

  lemma PrintOfReadPictureHeader(h: seq<byte>)
    requires |h| == 16
    ensures PrintPictureHeader(U32(h[..4]), U32(h[4..8]), U32(h[8..12]), U32(h[12..])) == h
  {
    ReadNumbers([0, 0], h[..4]);
    ReadNumbers([0, 0], h[4..8]);
    ReadNumbers([0, 0], h[8..12]);
    ReadNumbers([0, 0], h[12..]);
    assert h[..4] + h[4..8] == h[..8];
    assert h[..8] + h[8..12] == h[..12];
    assert h[..12] + h[12..] == h;
  }

  lemma PrintOfParsePicture(s: seq<byte>)
    requires ParsePicture(s).Parsed?
    ensures s == PrintPayload(ParsePicture(s).value) + ParsePicture(s).rest
  {
    var h, rest := Fixed(s, 16).value, Fixed(s, 16).rest;
    PrintOfReadPictureHeader(h);
    var p := ParsePicture(s);
    assert rest == p.value.pixels + p.rest;
  }

  lemma PrintOfReadPathHeader(h: seq<byte>)
    requires |h| == 16
    ensures PrintPathHeader(U32(h[..4]), U32(h[4..8]), U32(h[8..12]), U16(h[12..14]), U16(h[14..])) == h
  {
    ReadNumbers(h[12..14], h[..4]);
    ReadNumbers(h[14..], h[4..8]);
    ReadNumbers([0, 0], h[8..12]);
    assert h[..4] + h[4..8] == h[..8];
    assert h[..8] + h[8..12] == h[..12];
    assert h[..12] + h[12..14] == h[..14];
    assert h[..14] + h[14..] == h;
  }

  lemma PrintOfParsePath(platform: Platform, s: seq<byte>)
    requires ParsePath(platform, s).Parsed?
    ensures s == PrintPayload(ParsePath(platform, s).value) + ParsePath(platform, s).rest
    ensures |ParsePath(platform, s).value.points| == NumPoints(platform, ParsePath(platform, s).value.pointLength)
  {
    var h, rest := Fixed(s, 16).value, Fixed(s, 16).rest;
    PrintOfReadPathHeader(h);
    PrintOfParsePoints(rest, NumPoints(platform, U32(h[..4])));
    var points := ParsePoints(rest, NumPoints(platform, U32(h[..4])));
    assert h + (PrintPoints(points.value) + points.rest) == (h + PrintPoints(points.value)) + points.rest;
  }

  lemma PrintOfParsePayload(platform: Platform, kind: uint16, size: uint32, s: seq<byte>)
    requires ParsePayload(platform, kind, size, s).Parsed?
    ensures s == PrintPayload(ParsePayload(platform, kind, size, s).value)
                 + ParsePayload(platform, kind, size, s).rest
  {
    if kind == 1 {
      PrintOfParseCharger(s);
    } else if kind == 2 {
      PrintOfParsePicture(s);
    } else if kind == 3 {
      PrintOfParsePath(platform, s);
    }
  }

  lemma PrintOfReadBlockHeader(h: seq<byte>)
    requires |h| == 8
    ensures LE(U16(h[..2]), 2) + h[2..4] + LE(U32(h[4..]), 4) == h
  {
    ReadNumbers(h[..2], h[4..]);
  }

  lemma PrintOfParseBlock(platform: Platform, s: seq<byte>)
    requires ParseBlock(platform, s).Parsed?
    ensures s == PrintBlock(ParseBlock(platform, s).value) + ParseBlock(platform, s).rest
  {
    var h, rest := Fixed(s, 8).value, Fixed(s, 8).rest;
    PrintOfReadBlockHeader(h);
    PrintOfParsePayload(platform, U16(h[..2]), U32(h[4..]), rest);
    var p := ParsePayload(platform, U16(h[..2]), U32(h[4..]), rest);
    assert h + (PrintPayload(p.value) + p.rest) == (h + PrintPayload(p.value)) + p.rest;
  }

  lemma BlockConsumes(platform: Platform, s: seq<byte>)
    ensures ParseBlock(platform, s).Parsed? ==> |ParseBlock(platform, s).rest| + 8 <= |s|
  {
    if ParseBlock(platform, s).Parsed? {
      PrintOfParseBlock(platform, s);
    }
  }

  function ParseAll(platform: Platform, s: seq<byte>): Contents
    decreases |s|
  {
    if s == [] then Contents([], None)
    else
      BlockConsumes(platform, s);
      match ParseBlock(platform, s)
      case Failed(e) => Contents([], Some(e))
      case Parsed(b, rest) =>
        var more := ParseAll(platform, rest);
        Contents([b] + more.blocks, more.error)
  }

  lemma ParsedBlockWellFormed(platform: Platform, s: seq<byte>)
    requires ParseBlock(platform, s).Parsed?
    ensures WellFormed(platform, ParseBlock(platform, s).value, ParseBlock(platform, s).rest == [])
  {
    var h, rest := Fixed(s, 8).value, Fixed(s, 8).rest;
    if U16(h[..2]) == 3 {
      PrintOfParsePath(platform, rest);
    }
  }

  // ----- what is printed is what is parsed

  lemma {:induction false} ParsePointsOfPrint(points: seq<Point>, rest: seq<byte>)
    ensures ParsePoints(PrintPoints(points) + rest, |points|) == Parsed(points, rest)
  {
    if points != [] {
      var head := LE(points[0].x, 2) + LE(points[0].y, 2);
      assert PrintPoints(points) + rest == head + (PrintPoints(points[1..]) + rest);
      FixedOfAppend(head, PrintPoints(points[1..]) + rest);
      assert head[..2] == LE(points[0].x, 2) && head[2..] == LE(points[0].y, 2);
      PrintedNumbers(points[0].x, 0);
      PrintedNumbers(points[0].y, 0);
      ParsePointsOfPrint(points[1..], rest);
      assert [points[0]] + points[1..] == points;
    } else {
      assert PrintPoints(points) + rest == rest;
    }
  }

  lemma ParseChargerOfPrint(x: uint32, y: uint32, rest: seq<byte>)
    ensures ParseCharger(PrintPayload(Charger(x, y)) + rest) == Parsed(Charger(x, y), rest)
  {
    var h := LE(x, 4) + LE(y, 4);
    FixedOfAppend(h, rest);
    assert h[..4] == LE(x, 4) && h[4..] == LE(y, 4);
    PrintedNumbers(0, x);
    PrintedNumbers(0, y);
  }

  lemma ParsePictureOfPrint(p: Payload, rest: seq<byte>)
    requires p.Picture? && p.height > 0 && p.width > 0
    requires |p.pixels| == RasterSize(p.height, p.width)
          || (rest == [] && |p.pixels| < RasterSize(p.height, p.width))
    ensures ParsePicture(PrintPayload(p) + rest) == Parsed(p, rest)
  {
    var h := PrintPictureHeader(p.top, p.left, p.height, p.width);
    assert PrintPayload(p) + rest == h + (p.pixels + rest);
    FixedOfAppend(h, p.pixels + rest);
    assert h[..4] == LE(p.top, 4) && h[4..8] == LE(p.left, 4)
        && h[8..12] == LE(p.height, 4) && h[12..] == LE(p.width, 4);
    PrintedNumbers(0, p.top);
    PrintedNumbers(0, p.left);
    PrintedNumbers(0, p.height);
    PrintedNumbers(0, p.width);
    assert (p.pixels + rest)[..|p.pixels|] == p.pixels && (p.pixels + rest)[|p.pixels|..] == rest;
  }

  lemma ParsePathOfPrint(platform: Platform, p: Payload, rest: seq<byte>)
    requires p.Path? && |p.points| == NumPoints(platform, p.pointLength)
    ensures ParsePath(platform, PrintPayload(p) + rest) == Parsed(p, rest)
  {
    var h := PrintPathHeader(p.pointLength, p.pointSize, p.angle, p.imageWidth, p.imageHeight);
    assert PrintPayload(p) + rest == h + (PrintPoints(p.points) + rest);
    FixedOfAppend(h, PrintPoints(p.points) + rest);
    assert h[..4] == LE(p.pointLength, 4) && h[4..8] == LE(p.pointSize, 4) && h[8..12] == LE(p.angle, 4)
        && h[12..14] == LE(p.imageWidth, 2) && h[14..] == LE(p.imageHeight, 2);
    PrintedNumbers(p.imageWidth, p.pointLength);
    PrintedNumbers(p.imageHeight, p.pointSize);
    PrintedNumbers(0, p.angle);
    ParsePointsOfPrint(p.points, rest);
  }

  lemma ParseBlockOfPrint(platform: Platform, b: Block, rest: seq<byte>)
    requires WellFormed(platform, b, rest == [])
    ensures ParseBlock(platform, PrintBlock(b) + rest) == Parsed(b, rest)
  {
    var h := LE(b.kind, 2) + b.tag + LE(b.size, 4);
    var payload := PrintPayload(b.payload);
    assert PrintBlock(b) + rest == h + (payload + rest);
    FixedOfAppend(h, payload + rest);
    assert h[..2] == LE(b.kind, 2) && h[2..4] == b.tag && h[4..] == LE(b.size, 4);
    PrintedNumbers(b.kind, b.size);
    match b.payload
    case Charger(x, y) => ParseChargerOfPrint(x, y, rest);
    case Picture(_, _, _, _, _) => ParsePictureOfPrint(b.payload, rest);
    case Path(_, _, _, _, _, _) => ParsePathOfPrint(platform, b.payload, rest);
    case Unknown(octets) =>
      assert (octets + rest)[..|octets|] == octets && (octets + rest)[|octets|..] == rest;
  }

  lemma GrammaticalTail(platform: Platform, blocks: seq<Block>)
    requires Grammatical(platform, blocks) && blocks != []
    ensures Grammatical(platform, blocks[1..])
    ensures WellFormed(platform, blocks[0], blocks[1..] == [])
  {
    var more := blocks[1..];
    forall i | 0 <= i < |more| ensures WellFormed(platform, more[i], i == |more| - 1) {
      assert more[i] == blocks[i + 1];
    }
  }

  lemma {:induction false} ParseAllOfPrint(platform: Platform, blocks: seq<Block>)
    requires Grammatical(platform, blocks)
    ensures ParseAll(platform, PrintAll(blocks)) == Contents(blocks, None)
    decreases |blocks|
  {
    if blocks != [] {
      var more := blocks[1..];
      GrammaticalTail(platform, blocks);
      ParseAllOfPrint(platform, more);
      assert PrintAll(more) == [] <==> more == [];
      assert PrintAll(blocks) == PrintBlock(blocks[0]) + PrintAll(more);
      ParseBlockOfPrint(platform, blocks[0], PrintAll(more));
      assert blocks == [blocks[0]] + more;
    }
  }

  lemma {:induction false} PrintOfParseAll(platform: Platform, s: seq<byte>)
    requires ParseAll(platform, s).error == None
    ensures var blocks := ParseAll(platform, s).blocks;
            Grammatical(platform, blocks) && s == PrintAll(blocks)
    decreases |s|
  {
    if s != [] {
      BlockConsumes(platform, s);
      PrintOfParseBlock(platform, s);
      ParsedBlockWellFormed(platform, s);
      var r := ParseBlock(platform, s);
      PrintOfParseAll(platform, r.rest);
      var blocks, more := ParseAll(platform, s).blocks, ParseAll(platform, r.rest).blocks;
      assert blocks[1..] == more && (more == [] <==> r.rest == []);
      forall i | 0 <= i < |blocks| ensures WellFormed(platform, blocks[i], i == |blocks| - 1) {
        assert i > 0 ==> blocks[i] == more[i - 1];
      }
    }
  }

  /** The reader accepts exactly the printed forms of grammatical block lists, and
      reads each of them back as the list it came from. */
  lemma ParsesExactlyTheGrammar(platform: Platform, s: seq<byte>, blocks: seq<Block>)
    ensures ParseAll(platform, s) == Contents(blocks, None)
       <==> Grammatical(platform, blocks) && s == PrintAll(blocks)
  {
    if ParseAll(platform, s) == Contents(blocks, None) {
      PrintOfParseAll(platform, s);
    }
    if Grammatical(platform, blocks) {
      ParseAllOfPrint(platform, blocks);
    }
  }
}
