/** The log watcher of pkg/navmap/navmap.go: it keeps the path of the robot as the
    estimates in a log that is read line by line, starting over at every reset. */
module SlamLog {
  import opened Options

  /** How the program reads numbers and makes positions of them: library code and
      rounding of floating-point numbers, which any functions may stand for. */
  datatype Numbers<!F, !P> = Numbers(
    float: string -> Option<F>,
    isInt: string -> bool,
    zero: F,
    position: (F, F) -> P)

  datatype Line<P> = Estimate(position: P) | Reset | Other

  // ----- one line

  function TrimNewlines(s: string): string {
    if s != [] && s[|s| - 1] == '\n' then TrimNewlines(s[..|s| - 1]) else s
  }

  /** The parts of a string between single spaces, at least one. */
  function Split(s: string): (parts: seq<string>)
    ensures |parts| >= 1
  {
    if s == [] then [""]
    else
      var parts := Split(s[..|s| - 1]);
      var c := s[|s| - 1];
      if c == ' ' then parts + [""] else parts[..|parts| - 1] + [parts[|parts| - 1] + [c]]
  }

  function Join(parts: seq<string>): string
    requires |parts| >= 1
  {
    if |parts| == 1 then parts[0] else Join(parts[..|parts| - 1]) + " " + parts[|parts| - 1]
  }

  lemma JoinOneMore(parts: seq<string>)
    requires |parts| >= 1
    ensures Join(parts + [""]) == Join(parts) + " "
  {
    assert (parts + [""])[..|parts|] == parts;
  }

  lemma JoinLonger(parts: seq<string>, c: char)
    requires |parts| >= 1
    ensures Join(parts[..|parts| - 1] + [parts[|parts| - 1] + [c]]) == Join(parts) + [c]
  {
    var longer := parts[..|parts| - 1] + [parts[|parts| - 1] + [c]];
    assert longer[..|parts| - 1] == parts[..|parts| - 1];
  }

  predicate NoSpaces(parts: seq<string>) {
    forall k :: 0 <= k < |parts| ==> ' ' !in parts[k]
  }

  lemma SplitMore(s: string, c: char)
    ensures Split(s + [c]) == if c == ' ' then Split(s) + [""]
                              else Split(s)[..|Split(s)| - 1] + [Split(s)[|Split(s)| - 1] + [c]]
  {
    assert (s + [c])[..|s|] == s;
  }

  lemma JoinMore(s: string, c: char)
    requires Join(Split(s)) == s
    ensures Join(Split(s + [c])) == s + [c]
  {
    SplitMore(s, c);
    if c == ' ' {
      JoinOneMore(Split(s));
    } else {
      JoinLonger(Split(s), c);
    }
  }

  lemma SameString(s: string, init: string, c: char)
    requires s != [] && init == s[..|s| - 1] && c == s[|s| - 1]
    ensures s == init + [c]
  {
  }

  lemma {:induction false} JoinOfSplit(s: string)
    ensures Join(Split(s)) == s
  {
    if s != [] {
      var init, c := s[..|s| - 1], s[|s| - 1];
      JoinOfSplit(init);
      JoinMore(init, c);
      SameString(s, init, c);
    }
  }

  lemma {:induction false} PartsHaveNoSpaces(s: string)
    ensures NoSpaces(Split(s))
  {
    if s != [] {
      PartsHaveNoSpaces(s[..|s| - 1]);
    }
  }

  /** Splitting a string with one more part at its end. */
  lemma {:induction false} SplitPart(s: string, part: string)
    requires ' ' !in part
    ensures Split(s + " " + part) == Split(s) + [part]
    decreases |part|
  {
    if part == [] {
      SplitMore(s, ' ');
      assert s + " " + part == s + " ";
    } else {
      var init, c := part[..|part| - 1], part[|part| - 1];
      SplitPart(s, init);
      SplitMore(s + " " + init, c);
      assert s + " " + part == s + " " + init + [c];
      assert (Split(s) + [init])[..|Split(s)|] == Split(s);
      assert init + [c] == part;
    }
  }

  lemma {:induction false} SplitOnePart(part: string)
    requires ' ' !in part
    ensures Split(part) == [part]
  {
    if part != [] {
      var init := part[..|part| - 1];
      SplitOnePart(init);
      assert [init][..0] == [] && init + [part[|part| - 1]] == part;
    }
  }

  lemma {:induction false} SplitOfJoin(parts: seq<string>)
    requires parts != [] && NoSpaces(parts)
    ensures Split(Join(parts)) == parts
  {
    if |parts| == 1 {
      SplitOnePart(parts[0]);
    } else {
      SplitOfJoin(parts[..|parts| - 1]);
      SplitPart(Join(parts[..|parts| - 1]), parts[|parts| - 1]);
    }
  }

  /** The parts of a string are the only ones without spaces that make it up when they are
      joined by single spaces. */
  lemma SplitExactly(s: string, parts: seq<string>)
    requires parts != []
    ensures parts == Split(s) <==> NoSpaces(parts) && Join(parts) == s
  {
    JoinOfSplit(s);
    PartsHaveNoSpaces(s);
    if NoSpaces(parts) {
      SplitOfJoin(parts);
    }
  }

  /** A line of the log, or nothing where the parser gives up. A short estimate has the
      coordinates zero. */
  function Parse<F, P>(num: Numbers<F, P>, text: string): Option<Line<P>> {
    var parts := Split(TrimNewlines(text));
    if |parts| < 2 then None
    else if parts[1] == "estimate" then
      if |parts| < 5 then Some(Estimate(num.position(num.zero, num.zero)))
      else
        var x, y := num.float(parts[2]), num.float(parts[3]);
        if x.None? || y.None? || num.float(parts[4]).None? then None
        else Some(Estimate(num.position(x.value, y.value)))
    else if parts[1] == "set_pose" then
      if |parts| >= 5 && (num.float(parts[2]).None? || num.float(parts[3]).None? || num.float(parts[4]).None?) then None
      else Some(Other)
    else if parts[1] == "load" && |parts| >= 3 && !num.isInt(parts[2]) then None
    else if parts[1] == "reset" then Some(Reset)
    else Some(Other)
  }

  /** All newlines are taken from the end of a line, and nothing else. */
  lemma {:induction false} TrimmedNewlines(s: string)
    ensures TrimNewlines(s + "\n") == TrimNewlines(s)
    ensures TrimNewlines(s) <= s && forall k :: |TrimNewlines(s)| <= k < |s| ==> s[k] == '\n'
    ensures TrimNewlines(s) == [] || TrimNewlines(s)[|TrimNewlines(s)| - 1] != '\n'
  {
    assert (s + "\n")[..|s|] == s;
    if s != [] && s[|s| - 1] == '\n' {
      TrimmedNewlines(s[..|s| - 1]);
    }
  }

  /** The parts of a line that does not end with a newline. */
  predicate LineOf(parts: seq<string>) {
    && parts != [] && NoSpaces(parts)
    && (parts[|parts| - 1] == [] || parts[|parts| - 1][|parts[|parts| - 1]| - 1] != '\n')
  }

  lemma PartsOfLine(parts: seq<string>)
    requires LineOf(parts)
    ensures Split(TrimNewlines(Join(parts))) == parts
  {
    SplitOfJoin(parts);
    TrimmedNewlines(Join(parts));
    var last := parts[|parts| - 1];
    assert last != [] ==> Join(parts)[|Join(parts)| - 1] == last[|last| - 1];
  }

  /** The second part of a line is its command. An estimate has x, y and an angle in the
      next three parts, and is given up when one of them is no number; with fewer parts it is
      an estimate of the origin. */
  lemma ParseEstimate<F, P>(num: Numbers<F, P>, parts: seq<string>)
    requires LineOf(parts) && |parts| >= 2 && parts[1] == "estimate"
    ensures Parse(num, Join(parts))
         == if |parts| < 5 then Some(Estimate(num.position(num.zero, num.zero)))
            else if num.float(parts[2]).None? || num.float(parts[3]).None? || num.float(parts[4]).None? then None
            else Some(Estimate(num.position(num.float(parts[2]).value, num.float(parts[3]).value)))
  {
    PartsOfLine(parts);
  }

  /** A line with another command is a reset exactly when that is the command. */
  lemma ParseReset<F, P>(num: Numbers<F, P>, parts: seq<string>)
    requires LineOf(parts) && |parts| >= 2 && parts[1] != "estimate"
    ensures Parse(num, Join(parts)) == Some(Reset) <==> parts[1] == "reset"
  {
    PartsOfLine(parts);
  }

  /** The lines that are given up: those without a command, poses and estimates with a part
      among the next three that is no number, and loads with one that is no integer. */
  lemma GivenUpExactly<F, P>(num: Numbers<F, P>, parts: seq<string>)
    requires LineOf(parts)
    ensures Parse(num, Join(parts)).None?
       <==> || |parts| < 2
            || (|parts| >= 5 && parts[1] in {"estimate", "set_pose"}
                && (num.float(parts[2]).None? || num.float(parts[3]).None? || num.float(parts[4]).None?))
            || (|parts| >= 3 && parts[1] == "load" && !num.isInt(parts[2]))
  {
    PartsOfLine(parts);
  }

  // ----- in exact numbers

  datatype Pixel = Pixel(x: real, y: real)

  /** Positions in a map of 1024 by 1024 pixels, 20 of them to a metre, over the reals. */
  function Reals(float: string -> Option<real>, isInt: string -> bool): Numbers<real, Pixel> {
    Numbers(float, isInt, 0.0, (x: real, y: real) => Pixel(x * 20.0 + 512.0, 1024.0 - (y * 20.0 + 512.0)))
  }

  /** The origin is the middle of the map, x is to the right and y is up. */
  lemma FromMiddle(float: string -> Option<real>, isInt: string -> bool, x: real, y: real)
    ensures Reals(float, isInt).position(x, y) == Pixel(512.0 + 20.0 * x, 512.0 - 20.0 * y)
  {
  }

  // ----- the whole log

  /** What one line does to the positions. */
  function Handle<P(==)>(positions: seq<P>, line: Line<P>): seq<P> {
    match line
    case Estimate(p) => if positions != [] && positions[|positions| - 1] == p then positions else positions + [p]
    case Reset => []
    case Other => positions
  }

  function HandleAll<P(==)>(positions: seq<P>, lines: seq<Line<P>>): seq<P> {
    if lines == [] then positions
    else Handle(HandleAll(positions, lines[..|lines| - 1]), lines[|lines| - 1])
  }

  /** Handling a log in two chunks gives the same as handling it at once. */
  lemma {:induction false} ChunksDoNotMatter<P>(positions: seq<P>, a: seq<Line<P>>, b: seq<Line<P>>)
    ensures HandleAll(positions, a + b) == HandleAll(HandleAll(positions, a), b)
  {
    if b == [] {
      assert a + b == a;
    } else {
      assert (a + b)[..|a + b| - 1] == a + b[..|b| - 1];
      ChunksDoNotMatter(positions, a, b[..|b| - 1]);
    }
  }

  function Concat<T>(chunks: seq<seq<T>>): seq<T> {
    if chunks == [] then [] else Concat(chunks[..|chunks| - 1]) + chunks[|chunks| - 1]
  }

  function HandleChunks<P(==)>(positions: seq<P>, chunks: seq<seq<Line<P>>>): seq<P> {
    if chunks == [] then positions
    else HandleAll(HandleChunks(positions, chunks[..|chunks| - 1]), chunks[|chunks| - 1])
  }

  /** So does handling it in any number of chunks. */
  lemma {:induction false} AnyChunks<P>(positions: seq<P>, chunks: seq<seq<Line<P>>>)
    ensures HandleChunks(positions, chunks) == HandleAll(positions, Concat(chunks))
  {
    if chunks != [] {
      AnyChunks(positions, chunks[..|chunks| - 1]);
      ChunksDoNotMatter(positions, Concat(chunks[..|chunks| - 1]), chunks[|chunks| - 1]);
    }
  }

  // ----- what the positions are

  /** How many lines there are up to the last reset, with it. */
  function LastReset<P>(lines: seq<Line<P>>): (n: nat)
    ensures n <= |lines|
    ensures n > 0 ==> lines[n - 1].Reset?
    ensures forall k :: n <= k < |lines| ==> !lines[k].Reset?
  {
    if lines == [] then 0
    else if lines[|lines| - 1].Reset? then |lines|
    else LastReset(lines[..|lines| - 1])
  }

  function Estimates<P>(lines: seq<Line<P>>): seq<P> {
    if lines == [] then []
    else
      var line := lines[|lines| - 1];
      Estimates(lines[..|lines| - 1]) + if line.Estimate? then [line.position] else []
  }

  /** A sequence without its repetitions. */
  function StutterFree<P(==)>(s: seq<P>): seq<P> {
    if |s| <= 1 then s
    else StutterFree(s[..|s| - 1]) + if s[|s| - 1] == s[|s| - 2] then [] else [s[|s| - 1]]
  }

  lemma {:induction false} LastIsKept<P>(s: seq<P>)
    requires s != []
    ensures StutterFree(s) != [] && StutterFree(s)[|StutterFree(s)| - 1] == s[|s| - 1]
  {
    if |s| > 1 {
      LastIsKept(s[..|s| - 1]);
    }
  }

  /** Where the element at `i` ends up: each element is found there, the first at the
      start, and the next one there too or one further, exactly as it is equal or not. */
  function Place<P(==)>(s: seq<P>, i: nat): nat
    requires i < |s|
  {
    if i == 0 then 0 else Place(s, i - 1) + if s[i] == s[i - 1] then 0 else 1
  }

  lemma {:induction false} PlaceOfPrefix<P>(s: seq<P>, t: seq<P>, i: nat)
    requires i < |s| && s <= t
    ensures Place(s, i) == Place(t, i)
  {
    if i > 0 {
      PlaceOfPrefix(s, t, i - 1);
    }
  }

  lemma {:induction false} StutterFreeLength<P>(s: seq<P>)
    requires s != []
    ensures |StutterFree(s)| == Place(s, |s| - 1) + 1
  {
    if |s| > 1 {
      StutterFreeLength(s[..|s| - 1]);
      PlaceOfPrefix(s[..|s| - 1], s, |s| - 2);
    }
  }

  lemma {:induction false} PlacedThere<P>(s: seq<P>, i: nat)
    requires i < |s|
    ensures Place(s, i) < |StutterFree(s)| && StutterFree(s)[Place(s, i)] == s[i]
  {
    StutterFreeLength(s);
    LastIsKept(s);
    if i < |s| - 1 {
      PlacedThere(s[..|s| - 1], i);
      PlaceOfPrefix(s[..|s| - 1], s, i);
    }
  }

  /** No two neighbours of the result are equal. */
  lemma {:induction false} NoStutter<P>(s: seq<P>, k: nat)
    requires k + 1 < |StutterFree(s)|
    ensures StutterFree(s)[k] != StutterFree(s)[k + 1]
  {
    if |s| > 1 {
      LastIsKept(s[..|s| - 1]);
      if k + 1 < |StutterFree(s[..|s| - 1])| {
        NoStutter(s[..|s| - 1], k);
      }
    }
  }

  lemma OneMoreElement<P>(s: seq<P>, p: P)
    requires s != []
    ensures StutterFree(s + [p]) == StutterFree(s) + if p == s[|s| - 1] then [] else [p]
  {
    var t := s + [p];
    assert t[..|t| - 1] == s;
  }

  lemma HandleEstimate<P>(s: seq<P>, p: P)
    ensures Handle(StutterFree(s), Estimate(p)) == StutterFree(s + [p])
  {
    if s == [] {
      assert s + [p] == [p];
    } else {
      LastIsKept(s);
      OneMoreElement(s, p);
    }
  }

  /** The positions are the estimates since the last reset without repetitions. */
  lemma {:induction false} PositionsSinceReset<P>(lines: seq<Line<P>>)
    ensures HandleAll([], lines) == StutterFree(Estimates(lines[LastReset(lines)..]))
  {
    if lines != [] {
      var init, line := lines[..|lines| - 1], lines[|lines| - 1];
      PositionsSinceReset(init);
      if line.Reset? {
        assert lines[|lines|..] == [];
      } else {
        var since := lines[LastReset(lines)..];
        var before := init[LastReset(init)..];
        assert since == before + [line];
        assert since[..|since| - 1] == before;
        if line.Estimate? {
          HandleEstimate(Estimates(before), line.position);
          assert Estimates(since) == Estimates(before) + [line.position];
        } else {
          assert Estimates(since) == Estimates(before);
        }
      }
    }
  }

  // ----- the watcher

  /** The lines before the first one that does not parse. */
  function Parsed<F, P>(num: Numbers<F, P>, texts: seq<string>): (lines: seq<Line<P>>)
    ensures |lines| <= |texts|
  {
    if texts == [] then []
    else
      var before := Parsed(num, texts[..|texts| - 1]);
      var line := Parse(num, texts[|texts| - 1]);
      if |before| == |texts| - 1 && line.Some? then before + [line.value] else before
  }

  lemma {:induction false} ParsedExactly<F, P>(num: Numbers<F, P>, texts: seq<string>, k: nat)
    requires k < |texts|
    ensures k < |Parsed(num, texts)| <==> forall j :: 0 <= j <= k ==> Parse(num, texts[j]).Some?
    ensures k < |Parsed(num, texts)| ==> Parse(num, texts[k]) == Some(Parsed(num, texts)[k])
  {
    if k < |texts| - 1 {
      ParsedExactly(num, texts[..|texts| - 1], k);
    } else if k > 0 {
      ParsedExactly(num, texts[..|texts| - 1], k - 1);
    }
  }

  lemma {:induction false} StoppedAt<F, P>(num: Numbers<F, P>, texts: seq<string>, i: nat)
    requires i < |texts| && |Parsed(num, texts[..i])| == i && Parse(num, texts[i]).None?
    ensures |Parsed(num, texts)| < |texts| && Parsed(num, texts) == Parsed(num, texts[..i])
  {
    if i < |texts| - 1 {
      assert texts[..|texts| - 1][..i] == texts[..i];
      StoppedAt(num, texts[..|texts| - 1], i);
    }
  }

  class Watcher<!F, !P(==)> {
    var positions: seq<P>

    constructor ()
      ensures positions == []
    {
      positions := [];
    }

    method PositionsEmpty()
      modifies this
      ensures positions == []
    {
      positions := [];
    }

    method PositionsAppend(pos: P)
      modifies this
      ensures positions == Handle(old(positions), Estimate(pos))
    {
      if |positions| > 0 {
        var lastPos := positions[|positions| - 1];
        if lastPos == pos {
          return;
        }
      }
      positions := positions + [pos];
    }

    /** Follows a log. The program stops with a null dereference at the first line that
        does not parse: `crashed` tells whether it does. */
    method Watch(num: Numbers<F, P>, texts: seq<string>) returns (crashed: bool)
      modifies this
      ensures crashed <==> |Parsed(num, texts)| < |texts|
      ensures positions == HandleAll(old(positions), Parsed(num, texts))
    {
      for i := 0 to |texts|
        invariant |Parsed(num, texts[..i])| == i
        invariant positions == HandleAll(old(positions), Parsed(num, texts[..i]))
      {
        var line := Parse(num, texts[i]);
        assert texts[..i + 1][..i] == texts[..i];
        if line.None? {
          StoppedAt(num, texts, i);
          return true;
        }
        ghost var before, after := Parsed(num, texts[..i]), Parsed(num, texts[..i + 1]);
        assert after[..i] == before;
        match line.value
        case Estimate(p) => PositionsAppend(p);
        case Reset => PositionsEmpty();
        case Other =>
      }
      assert texts[..|texts|] == texts;
      return false;
    }
  }
}
