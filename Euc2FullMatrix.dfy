/**
  The EUC_2D to FULL_MATRIX converter: a parser that reads NAME, DIMENSION
  and the coordinate section of a TSPLIB file up to the first EOF line, an
  n-by-n distance table over the parsed points, and a writer that lays the
  table out in TSPLIB's explicit FULL_MATRIX format.

  `toInt` and `toFloat` stand for Python's `int` and `float` on a header value
  or a token; `dist` stands for the rounded Euclidean distance of two points.
  All three are parameters.
 */
module Euc2FullMatrix {
  import opened Text
  import opened Tsplib

  const NameKey := "NAME"
  const DimensionKey := "DIMENSION"

  datatype Point = Point(x: real, y: real)

  type IntParser = string -> int
  type FloatParser = string -> real
  type Distance = (Point, Point) -> nat

  /** What the parser returns: name, declared dimension and the points. */
  datatype Parsed = Parsed(name: string, dimension: int, coords: seq<Point>)

  /** The parser's variables between two lines. */
  datatype ParserState = ParserState(name: string, dimension: int, coords: seq<Point>, inCoords: bool)

  const Initial := ParserState("", 0, [], false)

  /** The value of a `KEY: value` line: the text after its last colon, stripped. */
  function HeaderValue(s: string): string {
    Strip(AfterLast(s, ':'))
  }

  function PointOf(parts: seq<string>, toFloat: FloatParser): Point
    requires |parts| == 3
  {
    Point(toFloat(parts[1]), toFloat(parts[2]))
  }

  /** The coordinate check every line but a section line goes through: in
      coordinate mode a three-token line adds its point. */
  function Collect(st: ParserState, s: string, toFloat: FloatParser): ParserState
  {
    if st.inCoords && |Tokens(s)| == 3 then st.(coords := st.coords + [PointOf(Tokens(s), toFloat)])
    else st
  }

  /** The header fields a line sets: NAME or DIMENSION. */
  function Header(st: ParserState, s: string, toInt: IntParser): ParserState
  {
    if StartsWith(s, NameKey) then st.(name := HeaderValue(s))
    else if StartsWith(s, DimensionKey) then st.(dimension := toInt(HeaderValue(s)))
    else st
  }

  /** One line that is not EOF: a section line only switches on coordinate
      mode; any other line sets its header field, then goes through the
      coordinate check. */
  function Step(st: ParserState, line: string, toInt: IntParser, toFloat: FloatParser): ParserState
  {
    var s := Strip(line);
    if !StartsWith(s, NameKey) && !StartsWith(s, DimensionKey) && StartsWith(s, NodeCoordSection)
    then st.(inCoords := true)
    else Collect(Header(st, s, toInt), s, toFloat)
  }

  /** The parser's variables after reading `lines`, none of them EOF. */
  function ParseLines(lines: seq<string>, toInt: IntParser, toFloat: FloatParser): ParserState
  {
    if lines == [] then Initial
    else Step(ParseLines(lines[..|lines| - 1], toInt, toFloat), lines[|lines| - 1], toInt, toFloat)
  }

  /** The index of the first line whose stripped text is exactly EOF, or the
      number of lines when there is none. */
  function FirstEof(lines: seq<string>): (e: nat)
    ensures e <= |lines|
    ensures forall k | 0 <= k < e :: Strip(lines[k]) != Eof
    ensures e < |lines| ==> Strip(lines[e]) == Eof
  {
    if lines == [] then 0
    else if Strip(lines[0]) == Eof then 0
    else 1 + FirstEof(lines[1..])
  }

  /** The parse of a whole file: the lines before the first EOF. */
  function Parse(lines: seq<string>, toInt: IntParser, toFloat: FloatParser): Parsed
  {
    var st := ParseLines(lines[..FirstEof(lines)], toInt, toFloat);
    Parsed(st.name, st.dimension, st.coords)
  }

  lemma ParseLinesStep(lines: seq<string>, i: nat, toInt: IntParser, toFloat: FloatParser)
    requires i < |lines|
    ensures ParseLines(lines[..i + 1], toInt, toFloat) ==
            Step(ParseLines(lines[..i], toInt, toFloat), lines[i], toInt, toFloat)
  {
    var pre := lines[..i + 1];
    assert pre[..|pre| - 1] == lines[..i];
  }

  /** A line starting with NODE_COORD_SECTION starts with neither NAME nor
      DIMENSION, so the parser reaches its section branch. */
  lemma SectionKeyExclusive(s: string)
    ensures StartsWith(s, NodeCoordSection) ==> !StartsWith(s, NameKey) && !StartsWith(s, DimensionKey)
  {
    ExclusivePrefixes(s, NodeCoordSection, NameKey, 1);
    ExclusivePrefixes(s, NodeCoordSection, DimensionKey, 0);
  }

  /** `parse_euc2d_tsp` over the lines of a file. */
  method ParseEuc2dTsp(lines: seq<string>, toInt: IntParser, toFloat: FloatParser)
    returns (name: string, dimension: int, coords: seq<Point>)
    ensures Parsed(name, dimension, coords) == Parse(lines, toInt, toFloat)
  {
    name := "";
    dimension := 0;
    coords := [];
    var inCoords := false;
    var i := 0;
    while i < |lines|
      invariant i <= FirstEof(lines)
      invariant ParserState(name, dimension, coords, inCoords) == ParseLines(lines[..i], toInt, toFloat)
    {
      ParseLinesStep(lines, i, toInt, toFloat);
      StepCases(ParserState(name, dimension, coords, inCoords), lines[i], toInt, toFloat);
      var line := Strip(lines[i]);
      BeforeFirstEof(lines, i);
      if StartsWith(line, NameKey) {
        name := Strip(AfterLast(line, ':'));
      } else if StartsWith(line, DimensionKey) {
        dimension := toInt(Strip(AfterLast(line, ':')));
      } else if StartsWith(line, NodeCoordSection) {
        inCoords := true;
        i := i + 1;
        continue;
      } else if line == Eof {
        break;
      }
      if inCoords {
        var parts := Tokens(line);
        if |parts| == 3 {
          coords := coords + [Point(toFloat(parts[1]), toFloat(parts[2]))];
        }
      }
      i := i + 1;
    }
  }

  /** Step in the order the parser tests a line: NAME, DIMENSION, then the
      section keyword. */
  lemma StepCases(st: ParserState, line: string, toInt: IntParser, toFloat: FloatParser)
    ensures var s := Strip(line);
            Step(st, line, toInt, toFloat) ==
              if StartsWith(s, NameKey) then Collect(st.(name := HeaderValue(s)), s, toFloat)
              else if StartsWith(s, DimensionKey) then Collect(st.(dimension := toInt(HeaderValue(s))), s, toFloat)
              else if StartsWith(s, NodeCoordSection) then st.(inCoords := true)
              else Collect(st, s, toFloat)
  {
    SectionKeyExclusive(Strip(line));
  }

  /** Scanning at `i`, no later than the first EOF: a line other than EOF
      keeps the scan before or at it, and an EOF line is the first one. */
  lemma BeforeFirstEof(lines: seq<string>, i: nat)
    requires i < |lines| && i <= FirstEof(lines)
    ensures Strip(lines[i]) != Eof ==> i + 1 <= FirstEof(lines)
    ensures Strip(lines[i]) == Eof ==> i == FirstEof(lines)
  {
  }

  // ---------------------------------------------------------------- parser properties

  /** Once EOF is read, later lines change nothing: the parse of the whole
      file is the parse of the lines before any EOF line. */
  lemma ParseIgnoresAfterEof(lines: seq<string>, k: nat, toInt: IntParser, toFloat: FloatParser)
    requires k < |lines| && Strip(lines[k]) == Eof
    ensures Parse(lines, toInt, toFloat) == Parse(lines[..k], toInt, toFloat)
  {
    var e := FirstEof(lines);
    var pre := lines[..k];
    assert forall j | 0 <= j < k :: pre[j] == lines[j];
    var e' := FirstEof(pre);
    assert e' == e;
    assert pre[..e] == lines[..e];
  }

  /** Coordinate mode is on exactly when a section line has been read. */
  lemma {:induction false} InCoordsIsSectionSeen(lines: seq<string>, toInt: IntParser, toFloat: FloatParser)
    ensures ParseLines(lines, toInt, toFloat).inCoords == SectionSeen(lines)
  {
    if lines != [] {
      InCoordsIsSectionSeen(lines[..|lines| - 1], toInt, toFloat);
      SectionKeyExclusive(Strip(lines[|lines| - 1]));
    }
  }

  /** The line at `k` adds a point: coordinate mode is on, it is not a
      section line, and it has three tokens. */
  predicate Contributes(lines: seq<string>, k: nat)
    requires k < |lines|
  {
    SectionSeen(lines[..k]) && !IsSectionLine(lines[k]) && |Tokens(Strip(lines[k]))| == 3
  }

  /** For each line, whether it adds a point. */
  function Contributions(lines: seq<string>): (cs: seq<bool>)
    ensures |cs| == |lines|
  {
    if lines == [] then [] else Contributions(lines[..|lines| - 1]) + [Contributes(lines, |lines| - 1)]
  }

  function CountTrue(bs: seq<bool>): (n: nat)
    ensures n <= |bs|
  {
    if bs == [] then 0 else CountTrue(bs[..|bs| - 1]) + if bs[|bs| - 1] then 1 else 0
  }

  /** The number of lines of `lines` that add a point. */
  function ContribCount(lines: seq<string>): nat {
    CountTrue(Contributions(lines))
  }

  lemma CountTrueStep(bs: seq<bool>, b: bool)
    ensures CountTrue(bs + [b]) == CountTrue(bs) + if b then 1 else 0
  {
    assert (bs + [b])[..|bs|] == bs;
  }

  /** A true flag comes strictly before every later flag's count. */
  lemma {:induction false} CountTrueGrows(bs: seq<bool>, i: nat, j: nat)
    requires i < j <= |bs| && bs[i]
    ensures CountTrue(bs[..i]) < CountTrue(bs[..j])
  {
    var pre := bs[..j];
    assert pre[..|pre| - 1] == bs[..j - 1];
    if i < j - 1 {
      CountTrueGrows(bs, i, j - 1);
    }
  }

  lemma {:induction false} ContributionsOfPrefix(lines: seq<string>, k: nat)
    requires k <= |lines|
    ensures Contributions(lines[..k]) == Contributions(lines)[..k]
  {
    if k < |lines| {
      var init := lines[..|lines| - 1];
      assert init[..k] == lines[..k];
      ContributionsOfPrefix(init, k);
    } else {
      assert lines[..k] == lines;
    }
  }

  lemma {:induction false} ContributionAt(lines: seq<string>, k: nat)
    requires k < |lines|
    ensures Contributions(lines)[k] == Contributes(lines, k)
  {
    var init := lines[..|lines| - 1];
    if k < |lines| - 1 {
      assert init[..k] == lines[..k];
      ContributionAt(init, k);
    }
  }

  lemma {:induction false} ParseLinesCoordsCount(lines: seq<string>, toInt: IntParser, toFloat: FloatParser)
    ensures |ParseLines(lines, toInt, toFloat).coords| == ContribCount(lines)
  {
    if lines != [] {
      var init := lines[..|lines| - 1];
      ParseLinesCoordsCount(init, toInt, toFloat);
      InCoordsIsSectionSeen(init, toInt, toFloat);
      SectionKeyExclusive(Strip(lines[|lines| - 1]));
      CountTrueStep(Contributions(init), Contributes(lines, |lines| - 1));
    }
  }

  lemma {:induction false} ParseLinesCoordsAt(lines: seq<string>, k: nat, toInt: IntParser, toFloat: FloatParser)
    requires k < |lines| && Contributes(lines, k)
    ensures ContribCount(lines[..k]) < |ParseLines(lines, toInt, toFloat).coords|
    ensures ParseLines(lines, toInt, toFloat).coords[ContribCount(lines[..k])] ==
            PointOf(Tokens(Strip(lines[k])), toFloat)
  {
    var init := lines[..|lines| - 1];
    ParseLinesCoordsCount(init, toInt, toFloat);
    InCoordsIsSectionSeen(init, toInt, toFloat);
    SectionKeyExclusive(Strip(lines[|lines| - 1]));
    CountTrueStep(Contributions(init), Contributes(lines, |lines| - 1));
    if k < |lines| - 1 {
      assert init[..k] == lines[..k];
      ParseLinesCoordsAt(init, k, toInt, toFloat);
    }
  }

  /** The parsed points are exactly those of the contributing lines before
      EOF, one per line and in line order: there are as many as such lines,
      and the line at `k` supplies the point at the index that counts the
      contributing lines before it. */
  lemma CoordsOfLines(lines: seq<string>, k: nat, toInt: IntParser, toFloat: FloatParser)
    requires k < FirstEof(lines) && Contributes(lines, k)
    ensures |Parse(lines, toInt, toFloat).coords| == ContribCount(lines[..FirstEof(lines)])
    ensures ContribCount(lines[..k]) < |Parse(lines, toInt, toFloat).coords|
    ensures Parse(lines, toInt, toFloat).coords[ContribCount(lines[..k])] ==
            PointOf(Tokens(Strip(lines[k])), toFloat)
  {
    var pre := lines[..FirstEof(lines)];
    assert pre[..k] == lines[..k];
    ParseLinesCoordsCount(pre, toInt, toFloat);
    ParseLinesCoordsAt(pre, k, toInt, toFloat);
  }

  /** One point per contributing line before EOF, for every file. */
  lemma CoordsCount(lines: seq<string>, toInt: IntParser, toFloat: FloatParser)
    ensures |Parse(lines, toInt, toFloat).coords| == ContribCount(lines[..FirstEof(lines)])
  {
    ParseLinesCoordsCount(lines[..FirstEof(lines)], toInt, toFloat);
  }

  /** Point indices follow line order. */
  lemma ContribCountGrows(lines: seq<string>, i: nat, j: nat)
    requires i < j <= |lines| && Contributes(lines, i)
    ensures ContribCount(lines[..i]) < ContribCount(lines[..j])
  {
    ContributionAt(lines, i);
    ContributionsOfPrefix(lines, i);
    ContributionsOfPrefix(lines, j);
    var cs := Contributions(lines);
    assert cs[..j][..i] == cs[..i];
    CountTrueGrows(cs[..j], i, j);
    assert cs[..j][..j] == cs[..j];
  }

  /** Without a section line before EOF, no point is parsed. */
  lemma NoCoordsWithoutSection(lines: seq<string>, toInt: IntParser, toFloat: FloatParser)
    requires !SectionSeen(lines[..FirstEof(lines)])
    ensures Parse(lines, toInt, toFloat).coords == []
  {
    var pre := lines[..FirstEof(lines)];
    InCoordsIsSectionSeen(pre, toInt, toFloat);
    NoContribWithoutSection(pre);
    ParseLinesCoordsCount(pre, toInt, toFloat);
  }

  lemma {:induction false} NoContribWithoutSection(lines: seq<string>)
    requires !SectionSeen(lines)
    ensures ContribCount(lines) == 0
  {
    if lines != [] {
      var init := lines[..|lines| - 1];
      NoContribWithoutSection(init);
      CountTrueStep(Contributions(init), Contributes(lines, |lines| - 1));
    }
  }

  /** A NAME line sets the name; no other line changes it. */
  lemma StepName(st: ParserState, line: string, toInt: IntParser, toFloat: FloatParser)
    ensures Step(st, line, toInt, toFloat).name ==
            if StartsWith(Strip(line), NameKey) then HeaderValue(Strip(line)) else st.name
  {
    var s := Strip(line);
    var h := Header(st, s, toInt);
    assert h.name == if StartsWith(s, NameKey) then HeaderValue(s) else st.name;
    assert Collect(h, s, toFloat).name == h.name;
  }

  lemma {:induction false} ParseLinesName(lines: seq<string>, k: nat, toInt: IntParser, toFloat: FloatParser)
    requires k < |lines| && StartsWith(Strip(lines[k]), NameKey)
    requires forall j | k < j < |lines| :: !StartsWith(Strip(lines[j]), NameKey)
    ensures ParseLines(lines, toInt, toFloat).name == HeaderValue(Strip(lines[k]))
  {
    var init := lines[..|lines| - 1];
    StepName(ParseLines(init, toInt, toFloat), lines[|lines| - 1], toInt, toFloat);
    if k < |lines| - 1 {
      assert forall j | k < j < |init| :: init[j] == lines[j];
      ParseLinesName(init, k, toInt, toFloat);
    }
  }

  /** The name is the value of the last NAME line before EOF. */
  lemma NameIsLastNameLine(lines: seq<string>, k: nat, toInt: IntParser, toFloat: FloatParser)
    requires k < FirstEof(lines) && StartsWith(Strip(lines[k]), NameKey)
    requires forall j | k < j < FirstEof(lines) :: !StartsWith(Strip(lines[j]), NameKey)
    ensures Parse(lines, toInt, toFloat).name == HeaderValue(Strip(lines[k]))
  {
    var pre := lines[..FirstEof(lines)];
    assert forall j | 0 <= j < |pre| :: pre[j] == lines[j];
    ParseLinesName(pre, k, toInt, toFloat);
  }

  lemma {:induction false} ParseLinesNoName(lines: seq<string>, toInt: IntParser, toFloat: FloatParser)
    requires forall j | 0 <= j < |lines| :: !StartsWith(Strip(lines[j]), NameKey)
    ensures ParseLines(lines, toInt, toFloat).name == ""
  {
    if lines != [] {
      var init := lines[..|lines| - 1];
      assert forall j | 0 <= j < |init| :: init[j] == lines[j];
      ParseLinesNoName(init, toInt, toFloat);
      StepName(ParseLines(init, toInt, toFloat), lines[|lines| - 1], toInt, toFloat);
    }
  }

  /** Without a NAME line before EOF, the name is empty. */
  lemma NameDefaultsToEmpty(lines: seq<string>, toInt: IntParser, toFloat: FloatParser)
    requires forall j | 0 <= j < FirstEof(lines) :: !StartsWith(Strip(lines[j]), NameKey)
    ensures Parse(lines, toInt, toFloat).name == ""
  {
    var pre := lines[..FirstEof(lines)];
    assert forall j | 0 <= j < |pre| :: pre[j] == lines[j];
    ParseLinesNoName(pre, toInt, toFloat);
  }

  /** A DIMENSION line sets the dimension; no other line changes it. */
  lemma StepDimension(st: ParserState, line: string, toInt: IntParser, toFloat: FloatParser)
    ensures Step(st, line, toInt, toFloat).dimension ==
            if StartsWith(Strip(line), DimensionKey) then toInt(HeaderValue(Strip(line))) else st.dimension
  {
    ExclusivePrefixes(Strip(line), NameKey, DimensionKey, 0);
  }

  lemma {:induction false} ParseLinesDimension(lines: seq<string>, k: nat, toInt: IntParser, toFloat: FloatParser)
    requires k < |lines| && StartsWith(Strip(lines[k]), DimensionKey)
    requires forall j | k < j < |lines| :: !StartsWith(Strip(lines[j]), DimensionKey)
    ensures ParseLines(lines, toInt, toFloat).dimension == toInt(HeaderValue(Strip(lines[k])))
  {
    var init := lines[..|lines| - 1];
    StepDimension(ParseLines(init, toInt, toFloat), lines[|lines| - 1], toInt, toFloat);
    if k < |lines| - 1 {
      assert forall j | k < j < |init| :: init[j] == lines[j];
      ParseLinesDimension(init, k, toInt, toFloat);
    }
  }

  /** The dimension is the value of the last DIMENSION line before EOF, as
      read by `toInt`. */
  lemma DimensionIsLastDimensionLine(lines: seq<string>, k: nat, toInt: IntParser, toFloat: FloatParser)
    requires k < FirstEof(lines) && StartsWith(Strip(lines[k]), DimensionKey)
    requires forall j | k < j < FirstEof(lines) :: !StartsWith(Strip(lines[j]), DimensionKey)
    ensures Parse(lines, toInt, toFloat).dimension == toInt(HeaderValue(Strip(lines[k])))
  {
    var pre := lines[..FirstEof(lines)];
    assert forall j | 0 <= j < |pre| :: pre[j] == lines[j];
    ParseLinesDimension(pre, k, toInt, toFloat);
  }

  lemma {:induction false} ParseLinesNoDimension(lines: seq<string>, toInt: IntParser, toFloat: FloatParser)
    requires forall j | 0 <= j < |lines| :: !StartsWith(Strip(lines[j]), DimensionKey)
    ensures ParseLines(lines, toInt, toFloat).dimension == 0
  {
    if lines != [] {
      var init := lines[..|lines| - 1];
      assert forall j | 0 <= j < |init| :: init[j] == lines[j];
      ParseLinesNoDimension(init, toInt, toFloat);
      StepDimension(ParseLines(init, toInt, toFloat), lines[|lines| - 1], toInt, toFloat);
    }
  }

  /** Without a DIMENSION line before EOF, the dimension is 0. */
  lemma DimensionDefaultsToZero(lines: seq<string>, toInt: IntParser, toFloat: FloatParser)
    requires forall j | 0 <= j < FirstEof(lines) :: !StartsWith(Strip(lines[j]), DimensionKey)
    ensures Parse(lines, toInt, toFloat).dimension == 0
  {
    var pre := lines[..FirstEof(lines)];
    assert forall j | 0 <= j < |pre| :: pre[j] == lines[j];
    ParseLinesNoDimension(pre, toInt, toFloat);
  }

  /** Two parser states that agree on everything but the dimension. */
  predicate SameButDimension(st: ParserState, st': ParserState) {
    st.name == st'.name && st.coords == st'.coords && st.inCoords == st'.inCoords
  }

  lemma StepIgnoresInt(st: ParserState, st': ParserState, line: string, toInt: IntParser, toInt': IntParser, toFloat: FloatParser)
    requires SameButDimension(st, st')
    ensures SameButDimension(Step(st, line, toInt, toFloat), Step(st', line, toInt', toFloat))
  {
  }

  lemma {:induction false} ParseLinesIgnoresInt(lines: seq<string>, toInt: IntParser, toInt': IntParser, toFloat: FloatParser)
    ensures SameButDimension(ParseLines(lines, toInt, toFloat), ParseLines(lines, toInt', toFloat))
  {
    if lines != [] {
      var init := lines[..|lines| - 1];
      ParseLinesIgnoresInt(init, toInt, toInt', toFloat);
      StepIgnoresInt(ParseLines(init, toInt, toFloat), ParseLines(init, toInt', toFloat), lines[|lines| - 1], toInt, toInt', toFloat);
    }
  }

  // ---------------------------------------------------------------- distance matrix

  /** The table of `dist` over every ordered pair of points. */
  function DistanceMatrix(coords: seq<Point>, dist: Distance): (m: seq<seq<nat>>)
    ensures |m| == |coords|
    ensures forall i | 0 <= i < |m| :: |m[i]| == |coords|
  {
    seq(|coords|, i requires 0 <= i < |coords| => DistanceRow(coords, dist, i))
  }

  function DistanceRow(coords: seq<Point>, dist: Distance, i: nat): seq<nat>
    requires i < |coords|
  {
    seq(|coords|, j requires 0 <= j < |coords| => dist(coords[i], coords[j]))
  }

  /** `compute_distance_matrix`: an n-by-n table of zeros filled cell by cell. */
  method ComputeDistanceMatrix(coords: seq<Point>, dist: Distance) returns (matrix: seq<seq<nat>>)
    ensures matrix == DistanceMatrix(coords, dist)
  {
    var n := |coords|;
    matrix := seq(n, _ => seq(n, _ => 0));
    for i := 0 to n
      invariant |matrix| == n
      invariant forall r | 0 <= r < n :: |matrix[r]| == n
      invariant forall r | 0 <= r < i :: matrix[r] == DistanceRow(coords, dist, r)
    {
      for j := 0 to n
        invariant |matrix| == n
        invariant forall r | 0 <= r < n :: |matrix[r]| == n
        invariant forall r | 0 <= r < i :: matrix[r] == DistanceRow(coords, dist, r)
        invariant forall c | 0 <= c < j :: matrix[i][c] == dist(coords[i], coords[c])
      {
        var xi, yi := coords[i].x, coords[i].y;
        var xj, yj := coords[j].x, coords[j].y;
        var row: seq<nat> := matrix[i];
        row := row[j := dist(Point(xi, yi), Point(xj, yj))];
        matrix := matrix[i := row];
      }
      assert matrix[i] == DistanceRow(coords, dist, i);
    }
  }

  /** With a symmetric distance, the table is symmetric. */
  lemma MatrixSymmetric(coords: seq<Point>, dist: Distance)
    requires forall p, q :: dist(p, q) == dist(q, p)
    ensures var m := DistanceMatrix(coords, dist);
            forall i, j | 0 <= i < |m| && 0 <= j < |m| :: m[i][j] == m[j][i]
  {
  }

  /** With a distance that is zero from a point to itself, the diagonal is zero. */
  lemma MatrixZeroDiagonal(coords: seq<Point>, dist: Distance)
    requires forall p :: dist(p, p) == 0
    ensures var m := DistanceMatrix(coords, dist);
            forall i | 0 <= i < |m| :: m[i][i] == 0
  {
  }

  /** An entry depends only on the two points it relates. */
  lemma EntryDependsOnEndpoints(c: seq<Point>, c': seq<Point>, dist: Distance, i: nat, j: nat, k: nat, l: nat)
    requires i < |c| && j < |c| && k < |c'| && l < |c'|
    requires c[i] == c'[k] && c[j] == c'[l]
    ensures DistanceMatrix(c, dist)[i][j] == DistanceMatrix(c', dist)[k][l]
  {
  }

  // ---------------------------------------------------------------- writer

  function HeaderLines(name: string, n: nat): seq<string>
  {
    [ "NAME: " + name + "_fullmatrix",
      "TYPE: TSP",
      "COMMENT: Converted from EUC_2D to FULL_MATRIX",
      "DIMENSION: " + NatToString(n),
      "EDGE_WEIGHT_TYPE: EXPLICIT",
      "EDGE_WEIGHT_FORMAT: FULL_MATRIX",
      "EDGE_WEIGHT_SECTION" ]
  }

  /** A value right-aligned in a field of at least three characters. */
  function Field(v: nat): string {
    PadLeft(NatToString(v), 3)
  }

  /** The fields of a row, in order. */
  function Fields(row: seq<nat>): seq<string>
  {
    if row == [] then [] else [Field(row[0])] + Fields(row[1..])
  }

  /** A row: one space, then the fields joined by single spaces. */
  function RowLine(row: seq<nat>): string {
    " " + Join(Fields(row), " ")
  }

  function RowLines(matrix: seq<seq<nat>>): seq<string> {
    seq(|matrix|, i requires 0 <= i < |matrix| => RowLine(matrix[i]))
  }

  /** The lines of the FULL_MATRIX file. */
  function FullMatrixLines(name: string, matrix: seq<seq<nat>>): seq<string> {
    HeaderLines(name, |matrix|) + RowLines(matrix) + [Eof]
  }

  /** `write_full_matrix_tsp`, giving the lines written instead of writing
      them. */
  method WriteFullMatrixTsp(name: string, matrix: seq<seq<nat>>) returns (out: seq<string>)
    ensures out == FullMatrixLines(name, matrix)
  {
    out := [];
    out := out + ["NAME: " + name + "_fullmatrix"];
    out := out + ["TYPE: TSP"];
    out := out + ["COMMENT: Converted from EUC_2D to FULL_MATRIX"];
    out := out + ["DIMENSION: " + NatToString(|matrix|)];
    out := out + ["EDGE_WEIGHT_TYPE: EXPLICIT"];
    out := out + ["EDGE_WEIGHT_FORMAT: FULL_MATRIX"];
    out := out + ["EDGE_WEIGHT_SECTION"];
    for i := 0 to |matrix|
      invariant out == HeaderLines(name, |matrix|) + RowLines(matrix[..i])
    {
      var line := Join(Fields(matrix[i]), " ");
      out := out + [" " + line];
      assert RowLines(matrix[..i + 1]) == RowLines(matrix[..i]) + [RowLine(matrix[i])];
    }
    assert matrix[..|matrix|] == matrix;
    out := out + [Eof];
  }

  /** The file is the seven header lines, the rows and EOF: 8 + n lines in
      all. */
  lemma FullMatrixLayout(name: string, matrix: seq<seq<nat>>)
    ensures |FullMatrixLines(name, matrix)| == 8 + |matrix|
    ensures FullMatrixLines(name, matrix)[..7] == HeaderLines(name, |matrix|)
    ensures FullMatrixLines(name, matrix)[7 + |matrix|] == Eof
  {
    ConcatLayout(HeaderLines(name, |matrix|), RowLines(matrix), Eof);
  }

  /** Row `i` of the table is line 7 + i of the file: one line per row, in
      row order. */
  lemma FullMatrixRows(name: string, matrix: seq<seq<nat>>)
    ensures forall i | 0 <= i < |matrix| ::
              7 + i < |FullMatrixLines(name, matrix)| && FullMatrixLines(name, matrix)[7 + i] == RowLine(matrix[i])
  {
    ConcatLayout(HeaderLines(name, |matrix|), RowLines(matrix), Eof);
  }

  lemma ConcatLayout<T>(h: seq<T>, rows: seq<T>, last: T)
    ensures var out := h + rows + [last];
            && |out| == |h| + |rows| + 1
            && out[..|h|] == h
            && (forall i | 0 <= i < |rows| :: out[|h| + i] == rows[i])
            && out[|h| + |rows|] == last
  {
    var out := h + rows + [last];
    assert out[..|h|] == h;
  }

  /** The header names the instance after the input, declares the number of
      rows as its dimension, and announces an explicit full matrix. */
  lemma HeaderFields(name: string, n: nat)
    ensures var h := HeaderLines(name, n);
            && |h| == 7
            && h[0] == "NAME: " + name + "_fullmatrix"
            && h[1] == "TYPE: TSP"
            && h[2] == "COMMENT: Converted from EUC_2D to FULL_MATRIX"
            && h[3] == "DIMENSION: " + NatToString(n)
            && h[4] == "EDGE_WEIGHT_TYPE: EXPLICIT"
            && h[5] == "EDGE_WEIGHT_FORMAT: FULL_MATRIX"
            && h[6] == "EDGE_WEIGHT_SECTION"
  {
  }

  /** The decimal numerals of a row, in order. */
  function Numerals(row: seq<nat>): (ns: seq<string>)
    ensures |ns| == |row|
    ensures forall j | 0 <= j < |row| :: ns[j] == NatToString(row[j])
  {
    if row == [] then [] else [NatToString(row[0])] + Numerals(row[1..])
  }

  /** A field is blanks followed by the numeral, which is one word. */
  lemma FieldParts(v: nat)
    ensures Field(v) == Padding(NatToString(v), 3) + NatToString(v)
    ensures IsWord(NatToString(v))
  {
    var d := NatToString(v);
    assert forall i | 0 <= i < |d| :: '0' <= d[i] <= '9';
  }

  /** A row line is its first field after one blank, then the line of the
      remaining fields. */
  lemma RowLineCons(row: seq<nat>)
    requires |row| > 1
    ensures RowLine(row) == " " + (Field(row[0]) + " " + Join(Fields(row[1..]), " "))
  {
    var fs := Fields(row[1..]);
    assert Fields(row) == [Field(row[0])] + fs;
    JoinCons(Field(row[0]), fs, " ");
  }

  /** The remaining fields of a row line after the first. */
  function RestOfRow(row: seq<nat>): string
    requires row != []
  {
    if |row| == 1 then [] else RowLine(row[1..])
  }

  /** A row line is blanks, the first numeral, and the rest of the row. */
  lemma RowLineParts(row: seq<nat>)
    requires row != []
    ensures RowLine(row) == (" " + Padding(NatToString(row[0]), 3)) + NatToString(row[0]) + RestOfRow(row)
    ensures IsWord(NatToString(row[0]))
  {
    var pad, d := Padding(NatToString(row[0]), 3), NatToString(row[0]);
    FieldParts(row[0]);
    if |row| == 1 {
      assert Fields(row) == [Field(row[0])];
      Regroup(pad, d, [], " ");
    } else {
      var j := Join(Fields(row[1..]), " ");
      RowLineCons(row);
      Regroup(pad, d, j, " ");
    }
  }

  /** Regrouping of the concatenations a row line is built from. */
  lemma Regroup(pad: string, d: string, j: string, sep: string)
    ensures sep + (pad + d) + [] == (sep + pad) + d + []
    ensures sep + ((pad + d) + sep + j) == (sep + pad) + d + (sep + j)
  {
  }

  /** The first token of a row line is the first numeral. */
  lemma RowTokensHead(row: seq<nat>)
    requires row != []
    ensures Tokens(RowLine(row)) == [NatToString(row[0])] + Tokens(RestOfRow(row))
  {
    RowLineParts(row);
    var rest := RestOfRow(row);
    assert rest == [] || rest[0] == ' ';
    TokensOfSpacedWord(" " + Padding(NatToString(row[0]), 3), NatToString(row[0]), rest);
  }

  /** Splitting a row line on whitespace gives the numerals of the row. */
  lemma {:induction false} RowTokens(row: seq<nat>)
    ensures Tokens(RowLine(row)) == Numerals(row)
  {
    if row == [] {
      assert RowLine(row) == " " + [];
      TrimLeftSpaces(" ", []);
    } else {
      RowTokensHead(row);
      if |row| == 1 {
        assert Tokens([]) == [];
      } else {
        RowTokens(row[1..]);
      }
    }
  }

  /** A row line read back by splitting on whitespace and reading each
      numeral gives the row. */
  lemma RowLineReadsBack(row: seq<nat>)
    ensures |Tokens(RowLine(row))| == |row|
    ensures forall j | 0 <= j < |row| ::
              IsDigits(Tokens(RowLine(row))[j]) && DecimalValue(Tokens(RowLine(row))[j]) == row[j]
  {
    RowTokens(row);
    forall j | 0 <= j < |row|
      ensures DecimalValue(NatToString(row[j])) == row[j]
    {
      DecimalRoundTrip(row[j]);
    }
  }

  // ---------------------------------------------------------------- conversion

  /** The lines written for one input file. */
  function FullMatrixOutput(lines: seq<string>, toInt: IntParser, toFloat: FloatParser, dist: Distance): seq<string>
  {
    var p := Parse(lines, toInt, toFloat);
    FullMatrixLines(p.name, DistanceMatrix(p.coords, dist))
  }

  /** `convert_euc2d_to_full_matrix`: the output file's name within the
      output folder, and its lines. */
  method ConvertEuc2dToFullMatrix(lines: seq<string>, toInt: IntParser, toFloat: FloatParser, dist: Distance)
    returns (fileName: string, output: seq<string>)
    ensures fileName == Parse(lines, toInt, toFloat).name + "_euc2fullmatrix.tsp"
    ensures output == FullMatrixOutput(lines, toInt, toFloat, dist)
  {
    var name, dimension, coords := ParseEuc2dTsp(lines, toInt, toFloat);
    var matrix := ComputeDistanceMatrix(coords, dist);
    fileName := name + "_euc2fullmatrix.tsp";
    output := WriteFullMatrixTsp(name, matrix);
  }

  /** The declared DIMENSION is never used: the output is the same whatever
      value it is read as. */
  lemma DeclaredDimensionUnused(lines: seq<string>, toInt: IntParser, toInt': IntParser, toFloat: FloatParser, dist: Distance)
    ensures FullMatrixOutput(lines, toInt, toFloat, dist) == FullMatrixOutput(lines, toInt', toFloat, dist)
  {
    ParseLinesIgnoresInt(lines[..FirstEof(lines)], toInt, toInt', toFloat);
  }

  /** A DIMENSION line written for `n` reads back as `n`. */
  lemma DimensionLineReadsBack(n: nat)
    ensures IsDigits(HeaderValue("DIMENSION: " + NatToString(n)))
    ensures DecimalValue(HeaderValue("DIMENSION: " + NatToString(n))) == n
  {
    var d := NatToString(n);
    assert ':' !in " " + d by {
      assert forall i | 0 <= i < |" " + d| :: (" " + d)[i] == ' ' || '0' <= (" " + d)[i] <= '9';
    }
    assert "DIMENSION: " + d == "DIMENSION" + [':'] + (" " + d);
    AfterLastSeparator("DIMENSION", ':', " " + d);
    assert IsWord(d) by {
      assert forall i | 0 <= i < |d| :: '0' <= d[i] <= '9';
    }
    StripOfWordAfterSpaces(" ", d);
    DecimalRoundTrip(n);
  }

  /** The DIMENSION line of the output reads back as the number of points
      parsed, which is also the number of rows written. */
  lemma DimensionReadsBack(lines: seq<string>, toInt: IntParser, toFloat: FloatParser, dist: Distance)
    ensures var out := FullMatrixOutput(lines, toInt, toFloat, dist);
            && |out| == 8 + |Parse(lines, toInt, toFloat).coords|
            && IsDigits(HeaderValue(out[3]))
            && DecimalValue(HeaderValue(out[3])) == |Parse(lines, toInt, toFloat).coords|
  {
    var p := Parse(lines, toInt, toFloat);
    var m := DistanceMatrix(p.coords, dist);
    FullMatrixLayout(p.name, m);
    HeaderFields(p.name, |m|);
    var out := FullMatrixOutput(lines, toInt, toFloat, dist);
    assert out[3] == out[..7][3];
    DimensionLineReadsBack(|p.coords|);
  }
}
