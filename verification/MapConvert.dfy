/** ConvertMap of pkg/navmap/robotdb.go: a map file is read into the status of a
    cleaning. `Converted` says on values what the method does. */
module MapConvert {
  import opened Bytes
  import opened Options
  import opened Raster
  import opened MapFile

  datatype Status = Status(chart: Option<Map>, path: seq<Position>, charger: Position)

  function KindOf(p: Payload): nat {
    match p
    case Charger(_, _) => 1
    case Picture(_, _, _, _, _) => 2
    case Path(_, _, _, _, _, _) => 3
    case Unknown(_) => 0
  }

  /** The payloads of one kind, in file order. */
  function Payloads(blocks: seq<Block>, kind: nat): seq<Payload> {
    if blocks == [] then []
    else
      var p := blocks[|blocks| - 1].payload;
      Payloads(blocks[..|blocks| - 1], kind) + if KindOf(p) == kind then [p] else []
  }

  function LastOf(blocks: seq<Block>, kind: nat): (r: Option<Payload>)
    ensures r.Some? ==> KindOf(r.value) == kind
  {
    if blocks == [] then None
    else if KindOf(blocks[|blocks| - 1].payload) == kind then Some(blocks[|blocks| - 1].payload)
    else LastOf(blocks[..|blocks| - 1], kind)
  }

  function MapOf(p: Payload): Map
    requires p.Picture?
  {
    Map(p.top, p.left, p.height, p.width, Painted(p.width, p.height, p.pixels))
  }

  /** The map after these blocks: that of the last picture, or the one from before. */
  function MapAfter(before: Option<Map>, blocks: seq<Block>): Option<Map> {
    match LastOf(blocks, 2)
    case None => before
    case Some(p) => Some(MapOf(p))
  }

  function PlacedPath(m: Map, points: seq<Point>): (r: seq<Position>)
    ensures |r| == |points|
  {
    seq(|points|, i requires 0 <= i < |points| => PositionInMap(m, points[i].x, points[i].y))
  }

  /** The status once all blocks are read: positions are placed in the final map. */
  function Finished(before: Status, blocks: seq<Block>): Status
    requires MapAfter(before.chart, blocks).Some?
  {
    var m := MapAfter(before.chart, blocks).value;
    Status(Some(m),
           match LastOf(blocks, 3) { case None => before.path case Some(p) => PlacedPath(m, p.points) },
           match LastOf(blocks, 1) { case None => before.charger case Some(p) => PositionInMap(m, p.x, p.y) })
  }

  datatype Conversion = Conversion(status: Status, error: Option<ConvertError>)

  /** How the conversion of a file with these blocks ends. */
  function Outcome(before: Status, blocks: seq<Block>): Conversion {
    if MapAfter(before.chart, blocks).Some? then Conversion(Finished(before, blocks), None)
    else Conversion(before, Some(NoMapFound))
  }

  function Converted(platform: Platform, before: Status, data: seq<byte>): Conversion {
    match Fixed(data, FILE_HEADER_SIZE)
    case Failed(e) => Conversion(before, Some(e))
    case Parsed(_, rest) =>
      var c := ParseAll(platform, rest);
      var m := MapAfter(before.chart, c.blocks);
      if c.error.Some? then Conversion(before.(chart := m), c.error)
      else Outcome(before, c.blocks)
  }

  /** Files are read back: whatever the 20 octets of the header are, a file that was
      printed from blocks is consumed to its end and yields the last map, and the last
      path and the last charger placed in it. */
  lemma ConvertOfPrint(platform: Platform, before: Status, head: seq<byte>, blocks: seq<Block>)
    requires |head| == FILE_HEADER_SIZE && Grammatical(platform, blocks)
    ensures Converted(platform, before, head + PrintAll(blocks)) == Outcome(before, blocks)
  {
    FixedOfAppend(head, PrintAll(blocks));
    ParseAllOfPrint(platform, blocks);
  }

  /** Nothing else is accepted: a conversion without error has read a printed file. */
  lemma AcceptedIsPrinted(platform: Platform, before: Status, data: seq<byte>) returns (blocks: seq<Block>)
    requires Converted(platform, before, data).error == None
    ensures |data| >= FILE_HEADER_SIZE && Grammatical(platform, blocks)
    ensures data == data[..FILE_HEADER_SIZE] + PrintAll(blocks)
    ensures MapAfter(before.chart, blocks).Some?
  {
    var rest := data[FILE_HEADER_SIZE..];
    blocks := ParseAll(platform, rest).blocks;
    PrintOfParseAll(platform, rest);
  }

  lemma {:induction false} LastOfPayloads(blocks: seq<Block>, kind: nat)
    ensures var ps := Payloads(blocks, kind);
            LastOf(blocks, kind) == if ps == [] then None else Some(ps[|ps| - 1])
  {
    if blocks != [] {
      LastOfPayloads(blocks[..|blocks| - 1], kind);
    }
  }

  lemma SameLast(blocks: seq<Block>, blocks': seq<Block>, kind: nat)
    requires Payloads(blocks, kind) == Payloads(blocks', kind)
    ensures LastOf(blocks, kind) == LastOf(blocks', kind)
  {
    LastOfPayloads(blocks, kind);
    LastOfPayloads(blocks', kind);
  }

  lemma SameOutcome(before: Status, blocks: seq<Block>, blocks': seq<Block>)
    requires forall k :: 1 <= k <= 3 ==> Payloads(blocks, k) == Payloads(blocks', k)
    ensures Outcome(before, blocks) == Outcome(before, blocks')
  {
    SameLast(blocks, blocks', 1);
    SameLast(blocks, blocks', 2);
    SameLast(blocks, blocks', 3);
  }

  /** Block order does not matter, as long as it is kept within each of the three
      known kinds: neither do unknown blocks, block tags, size fields or the header. */
  lemma OrderDoesNotMatter(platform: Platform, before: Status, head: seq<byte>, blocks: seq<Block>,
                           head': seq<byte>, blocks': seq<Block>)
    requires |head| == |head'| == FILE_HEADER_SIZE
    requires Grammatical(platform, blocks) && Grammatical(platform, blocks')
    requires forall k :: 1 <= k <= 3 ==> Payloads(blocks, k) == Payloads(blocks', k)
    ensures Converted(platform, before, head + PrintAll(blocks))
         == Converted(platform, before, head' + PrintAll(blocks'))
  {
    ConvertOfPrint(platform, before, head, blocks);
    ConvertOfPrint(platform, before, head', blocks');
    SameOutcome(before, blocks, blocks');
  }

  /** An octet stream that is consumed from the front. */
  class Reader {
    var unread: seq<byte>

    constructor (data: seq<byte>)
      ensures unread == data
    {
      unread := data;
    }

    /** Reads exactly `n` octets. Falling short consumes the rest. */
    method ReadFixed(n: nat) returns (s: seq<byte>, error: Option<ConvertError>)
      modifies this
      ensures var f := Fixed(old(unread), n);
              if f.Failed? then error == Some(f.error) && unread == []
              else error == None && s == f.value && unread == f.rest
    {
      if n <= |unread| {
        s, error := unread[..n], None;
        unread := unread[n..];
      } else {
        s, error := [], Some(if unread == [] then Eof else UnexpectedEof);
        unread := [];
      }
    }

    /** Copies up to `n` octets. The end of the input is not an error here. */
    method Copy(n: nat) returns (s: seq<byte>)
      modifies this
      ensures var k := UpTo(old(unread), n); s == old(unread)[..k] && unread == old(unread)[k..]
    {
      var k := UpTo(unread, n);
      s := unread[..k];
      unread := unread[k..];
    }
  }

  /** What remains to be read of a path after some of its points. */
  ghost function Prepended(done: seq<Point>, r: Parse<seq<Point>>): Parse<seq<Point>> {
    match r
    case Failed(e) => Failed(e)
    case Parsed(more, rest) => Parsed(done + more, rest)
  }

  lemma Regroup<T>(done: seq<T>, x: T, more: seq<T>)
    ensures done + ([x] + more) == (done + [x]) + more
  {
  }

  lemma ParsePointsStep(s: seq<byte>, done: seq<Point>, count: nat)
    requires count > 0
    ensures var f := Fixed(s, 4);
            if f.Failed? then ParsePoints(s, count) == Failed(f.error)
            else Prepended(done, ParsePoints(s, count))
                 == Prepended(done + [Point(U16(f.value[..2]), U16(f.value[2..]))], ParsePoints(f.rest, count - 1))
  {
    var f := Fixed(s, 4);
    if f.Parsed? && ParsePoints(f.rest, count - 1).Parsed? {
      Regroup(done, Point(U16(f.value[..2]), U16(f.value[2..])), ParsePoints(f.rest, count - 1).value);
    }
  }

  /** Reads the payload of a path block. */
  method ReadPath(platform: Platform, r: Reader) returns (path: seq<Point>, error: Option<ConvertError>)
    modifies r
    ensures var p := ParsePath(platform, old(r.unread));
            if p.Failed? then error == Some(p.error)
            else error == None && path == p.value.points && r.unread == p.rest
  {
    var h, headerError := r.ReadFixed(16);
    if headerError.Some? {
      return [], headerError;
    }
    var n := NumPoints(platform, U32(h[..4]));
    ghost var start := r.unread;
    path := [];
    error := None;
    assert Prepended([], ParsePoints(start, n)) == ParsePoints(start, n) by {
      assert ParsePoints(start, n).Parsed? ==> [] + ParsePoints(start, n).value == ParsePoints(start, n).value;
    }
    for i := 0 to n
      invariant |path| == i
      invariant ParsePoints(start, n) == Prepended(path, ParsePoints(r.unread, n - i))
    {
      ghost var now := r.unread;
      ParsePointsStep(now, path, n - i);
      var pos, pointError := r.ReadFixed(4);
      if pointError.Some? {
        return [], pointError;
      }
      path := path + [Point(U16(pos[..2]), U16(pos[2..]))];
    }
    assert path + [] == path;
  }

  lemma RasterFits(height: uint32, width: uint32)
    ensures RasterSize(height, width) <= width * height
  {
    assert height * width >= 0;
  }

  /** Reads the payload of a picture block and paints it. */
  method DrawMap(r: Reader) returns (m: Option<Map>, error: Option<ConvertError>)
    modifies r
    ensures var p := ParsePicture(old(r.unread));
            if p.Failed? then error == Some(p.error) && m == None
            else error == None && m == Some(MapOf(p.value)) && r.unread == p.rest
  {
    var h, headerError := r.ReadFixed(16);
    if headerError.Some? {
      return None, headerError;
    }
    var top, left, height, width := U32(h[..4]), U32(h[4..8]), U32(h[8..12]), U32(h[12..]);
    var pixels := r.Copy(RasterSize(height, width));
    RasterFits(height, width);
    var image := Paint(width, height, pixels);
    var data := Snapshot(image, pixels);
    if height == 0 || width == 0 {
      return None, Some(EmptyImage);
    }
    return Some(Map(top, left, height, width, data)), None;
  }

  class Cleaning {
    var chart: Option<Map>
    var path: seq<Position>
    var charger: Position

    constructor (status: Status)
      ensures View() == status
    {
      chart, path, charger := status.chart, status.path, status.charger;
    }

    ghost function View(): Status
      reads this
    {
      Status(chart, path, charger)
    }
  }

  /** Reading one block more, on contents: the rest of the file is read from `rest`. */
  lemma ContentsStep(platform: Platform, s: seq<byte>, done: seq<Block>)
    requires s != []
    ensures var p := ParseBlock(platform, s);
            if p.Failed? then ParseAll(platform, s) == Contents([], Some(p.error))
            else
              && |p.rest| + 8 <= |s|
              && ParseAll(platform, s).error == ParseAll(platform, p.rest).error
              && done + ParseAll(platform, s).blocks == (done + [p.value]) + ParseAll(platform, p.rest).blocks
  {
    BlockConsumes(platform, s);
    var p := ParseBlock(platform, s);
    if p.Parsed? {
      Regroup(done, p.value, ParseAll(platform, p.rest).blocks);
    }
  }

  lemma LastOfSnoc(done: seq<Block>, b: Block, kind: nat)
    ensures LastOf(done + [b], kind) == if KindOf(b.payload) == kind then Some(b.payload) else LastOf(done, kind)
  {
    assert (done + [b])[..|done|] == done;
  }

  ghost function PathSoFar(done: seq<Block>): Option<seq<Point>> {
    match LastOf(done, 3)
    case None => None
    case Some(p) => Some(p.points)
  }

  ghost function ChargerSoFar(done: seq<Block>): Option<(uint32, uint32)> {
    match LastOf(done, 1)
    case None => None
    case Some(p) => Some((p.x, p.y))
  }

  /** What the block loop has read of a file that starts with `start`. */
  ghost predicate ReadSoFar(platform: Platform, start: seq<byte>, done: seq<Block>, unread: seq<byte>) {
    var all, more := ParseAll(platform, start), ParseAll(platform, unread);
    all.blocks == done + more.blocks && all.error == more.error
  }

  /** Reads the payload of a charger block. */
  method ReadCharger(r: Reader) returns (ch: (uint32, uint32), error: Option<ConvertError>)
    modifies r
    ensures var p := ParseCharger(old(r.unread));
            if p.Failed? then error == Some(p.error)
            else error == None && ch == (p.value.x, p.value.y) && r.unread == p.rest
  {
    var s, e := r.ReadFixed(8);
    error := e;
    ch := if e.None? then (U32(s[..4]), U32(s[4..])) else (0, 0);
  }

  /** Reads one block into the cleaning or into the pending charger or path. */
  method ReadBlock(platform: Platform, r: Reader, cleaning: Cleaning,
                   charger: Option<(uint32, uint32)>, path: Option<seq<Point>>)
    returns (charger': Option<(uint32, uint32)>, path': Option<seq<Point>>, error: Option<ConvertError>)
    requires r.unread != []
    modifies r, cleaning`chart
    ensures var p := ParseBlock(platform, old(r.unread));
            if p.Failed? then error == Some(p.error) && cleaning.chart == old(cleaning.chart)
            else
              && error == None && r.unread == p.rest
              && var b := p.value.payload;
              && charger' == (if b.Charger? then Some((b.x, b.y)) else charger)
              && path' == (if b.Path? then Some(b.points) else path)
              && cleaning.chart == (if b.Picture? then Some(MapOf(b)) else old(cleaning.chart))
  {
    charger', path', error := charger, path, None;
    var h, headerError := r.ReadFixed(8);
    if headerError.Some? {
      error := headerError;
      return;
    }
    var kind := U16(h[..2]);
    if kind == 1 {
      var ch, e := ReadCharger(r);
      charger', error := if e.None? then Some(ch) else charger, e;
    } else if kind == 2 {
      var m, e := DrawMap(r);
      error := e;
      if e.None? {
        cleaning.chart := m;
      }
    } else if kind == 3 {
      var p, e := ReadPath(platform, r);
      path', error := if e.None? then Some(p) else path, e;
    } else {
      var _ := r.Copy(U32(h[4..]));
    }
  }

  method Place(m: Map, points: seq<Point>) returns (r: seq<Position>)
    ensures r == PlacedPath(m, points)
  {
    r := [];
    for i := 0 to |points|
      invariant r == PlacedPath(m, points)[..i]
    {
      r := r + [PositionInMap(m, points[i].x, points[i].y)];
    }
  }

  /** Places the pending path and charger in the final map. */
  method FinishCleaning(cleaning: Cleaning, charger: Option<(uint32, uint32)>, path: Option<seq<Point>>,
                        ghost before: Status, ghost blocks: seq<Block>)
    returns (error: Option<ConvertError>)
    requires charger == ChargerSoFar(blocks) && path == PathSoFar(blocks)
    requires cleaning.View() == before.(chart := MapAfter(before.chart, blocks))
    modifies cleaning
    ensures Conversion(cleaning.View(), error) == Outcome(before, blocks)
  {
    if cleaning.chart.None? {
      return Some(NoMapFound);
    }
    if path.Some? {
      cleaning.path := Place(cleaning.chart.value, path.value);
    }
    if charger.Some? {
      cleaning.charger := PositionInMap(cleaning.chart.value, charger.value.0, charger.value.1);
    }
    return None;
  }

  /** Reads blocks to the end of the file or to the first error. Every block takes
      at least eight octets, so the octets that are left unread run out. */
  method ReadBlocks(platform: Platform, r: Reader, cleaning: Cleaning)
    returns (charger: Option<(uint32, uint32)>, path: Option<seq<Point>>, error: Option<ConvertError>)
    modifies r, cleaning`chart
    ensures var c := ParseAll(platform, old(r.unread));
            && error == c.error
            && cleaning.chart == MapAfter(old(cleaning.chart), c.blocks)
            && (error.None? ==> r.unread == [] && charger == ChargerSoFar(c.blocks) && path == PathSoFar(c.blocks))
  {
    charger, path, error := None, None, None;
    ghost var start, chart := r.unread, cleaning.chart;
    ghost var done: seq<Block> := [];
    assert [] + ParseAll(platform, start).blocks == ParseAll(platform, start).blocks;
    while r.unread != []
      invariant ReadSoFar(platform, start, done, r.unread)
      invariant charger == ChargerSoFar(done) && path == PathSoFar(done)
      invariant cleaning.chart == MapAfter(chart, done) && error.None?
      decreases |r.unread|
    {
      ghost var now := r.unread;
      ContentsStep(platform, now, done);
      charger, path, error := ReadBlock(platform, r, cleaning, charger, path);
      if error.Some? {
        assert done + [] == done;
        return;
      }
      ghost var b := ParseBlock(platform, now).value;
      LastOfSnoc(done, b, 1);
      LastOfSnoc(done, b, 2);
      LastOfSnoc(done, b, 3);
      done := done + [b];
    }
    assert done + [] == done;
  }

  /** Reads a map file into the status of a cleaning. */
  method ConvertMap(platform: Platform, r: Reader, cleaning: Cleaning) returns (error: Option<ConvertError>)
    modifies r, cleaning
    ensures Conversion(cleaning.View(), error) == Converted(platform, old(cleaning.View()), old(r.unread))
    ensures error.Some? ==> cleaning.path == old(cleaning.path) && cleaning.charger == old(cleaning.charger)
    ensures error.None? ==> r.unread == []
  {
    ghost var before := cleaning.View();
    var _, headerError := r.ReadFixed(FILE_HEADER_SIZE);
    if headerError.Some? {
      return headerError;
    }
    ghost var blocks := ParseAll(platform, r.unread).blocks;
    var charger, path, blockError := ReadBlocks(platform, r, cleaning);
    if blockError.Some? {
      return blockError;
    }
    error := FinishCleaning(cleaning, charger, path, before, blocks);
  }
}
