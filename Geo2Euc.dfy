/**
  The GEO to EUC_2D converter: a single pass over the stripped lines of a
  TSPLIB file that drops DISPLAY_DATA_TYPE lines, rewrites the GEO edge-weight
  type to EUC_2D (or gives up on any other type), passes NODE_COORD_SECTION
  through and switches on coordinate mode, projects every three-token line in
  coordinate mode, and appends EOF when no emitted line is EOF.

  `toFloat` stands for Python's `float` on a token and `project` for the
  planar projection with its six-digit formatting; both are parameters.
 */
module Geo2Euc {
  import opened Text
  import opened Tsplib

  datatype Option<T> = None | Some(value: T)

  const DisplayDataTypeKey := "DISPLAY_DATA_TYPE:"
  const EdgeWeightTypeKey := "EDGE_WEIGHT_TYPE:"
  const EucWeightTypeLine := "EDGE_WEIGHT_TYPE: EUC_2D"
  const Geo := "GEO"

  type FloatParser = string -> real
  type Projection = (real, real) -> (string, string)

  /** What one stripped input line contributes to the output. */
  datatype Action = Drop | Abort | Emit(text: string)

  /** The outcome for one file: the name and text written, or nothing at all
      because its edge-weight type is not GEO. */
  datatype Conversion = NotApplicable | Converted(name: string, text: string)

  /** An EDGE_WEIGHT_TYPE line declaring a type other than GEO. */
  predicate IsForeignWeightType(s: string) {
    StartsWith(s, EdgeWeightTypeKey) && Strip(AfterLast(s, ':')) != Geo
  }

  /** A stripped line that starts with none of the three keys the converter
      looks for. */
  predicate IsOrdinaryLine(s: string) {
    !StartsWith(s, DisplayDataTypeKey) && !StartsWith(s, EdgeWeightTypeKey) &&
    !StartsWith(s, NodeCoordSection)
  }

  /** `node x y` for the tokens `node lat lon`. */
  function CoordLine(parts: seq<string>, toFloat: FloatParser, project: Projection): string
    requires |parts| == 3
  {
    var xy := project(toFloat(parts[1]), toFloat(parts[2]));
    parts[0] + " " + xy.0 + " " + xy.1
  }

  /** The treatment of one line, given whether coordinate mode is on. */
  function Classify(line: string, coordMode: bool, toFloat: FloatParser, project: Projection): (r: Action)
    ensures r.Drop? <==> StartsWith(Strip(line), DisplayDataTypeKey)
    ensures r.Abort? <==> IsForeignWeightType(Strip(line))
    ensures r.Emit? ==> !StartsWith(r.text, DisplayDataTypeKey)
    ensures r.Emit? && StartsWith(Strip(line), EdgeWeightTypeKey) ==> r.text == EucWeightTypeLine
    ensures StartsWith(Strip(line), NodeCoordSection) ==> r == Emit(Strip(line))
    ensures IsOrdinaryLine(Strip(line)) && !(coordMode && |Tokens(Strip(line))| == 3) ==>
              r == Emit(Strip(line))
    ensures IsOrdinaryLine(Strip(line)) && coordMode && |Tokens(Strip(line))| == 3 ==>
              r == Emit(CoordLine(Tokens(Strip(line)), toFloat, project))
  {
    var s := Strip(line);
    ExclusivePrefixes(s, DisplayDataTypeKey, EdgeWeightTypeKey, 0);
    ExclusivePrefixes(s, DisplayDataTypeKey, NodeCoordSection, 0);
    ExclusivePrefixes(EucWeightTypeLine, EdgeWeightTypeKey, DisplayDataTypeKey, 0);
    if StartsWith(s, DisplayDataTypeKey) then Drop
    else if StartsWith(s, EdgeWeightTypeKey) then
      if Strip(AfterLast(s, ':')) != Geo then Abort else Emit(EucWeightTypeLine)
    else if StartsWith(s, NodeCoordSection) then Emit(s)
    else if coordMode && |Tokens(s)| == 3 then
      var xy := project(toFloat(Tokens(s)[1]), toFloat(Tokens(s)[2]));
      FirstTokenIsPrefix(s);
      KeyBeforeSpace(s, Tokens(s)[0], xy.0 + " " + xy.1, DisplayDataTypeKey);
      assert Tokens(s)[0] + " " + xy.0 + " " + xy.1 == Tokens(s)[0] + " " + (xy.0 + " " + xy.1);
      Emit(CoordLine(Tokens(s), toFloat, project))
    else Emit(s)
  }

  /** The action of every line, each classified with the coordinate mode
      left by the lines before it. */
  function Actions(lines: seq<string>, toFloat: FloatParser, project: Projection): (acts: seq<Action>)
    ensures |acts| == |lines|
  {
    if lines == [] then []
    else
      var init := lines[..|lines| - 1];
      Actions(init, toFloat, project) + [Classify(lines[|lines| - 1], SectionSeen(init), toFloat, project)]
  }

  /** The lines collected from a run of actions, or None once one aborts. */
  function Collected(acts: seq<Action>): Option<seq<string>>
  {
    if acts == [] then Some([]) else Next(Collected(acts[..|acts| - 1]), acts[|acts| - 1])
  }

  /** The collected lines after one more line's action. */
  function Next(collected: Option<seq<string>>, action: Action): Option<seq<string>>
  {
    match collected
    case None => None
    case Some(prev) =>
      match action
      case Drop => Some(prev)
      case Abort => None
      case Emit(t) => Some(prev + [t])
  }

  /** The lines collected before the EOF check, or None when a line aborts. */
  function Rewritten(lines: seq<string>, toFloat: FloatParser, project: Projection): Option<seq<string>>
  {
    Collected(Actions(lines, toFloat, project))
  }

  lemma CollectedStep(acts: seq<Action>, a: Action)
    ensures Collected(acts + [a]) == Next(Collected(acts), a)
  {
    assert (acts + [a])[..|acts|] == acts;
  }

  lemma ActionsStep(lines: seq<string>, i: nat, toFloat: FloatParser, project: Projection)
    requires i < |lines|
    ensures Actions(lines[..i + 1], toFloat, project) ==
            Actions(lines[..i], toFloat, project) + [Classify(lines[i], SectionSeen(lines[..i]), toFloat, project)]
    ensures SectionSeen(lines[..i + 1]) == (SectionSeen(lines[..i]) || IsSectionLine(lines[i]))
  {
    var pre := lines[..i + 1];
    assert pre[..|pre| - 1] == lines[..i];
    assert pre[|pre| - 1] == lines[i];
  }

  /** The action at `k` is the line's classification under the coordinate
      mode the earlier lines leave. */
  lemma {:induction false} ActionAt(lines: seq<string>, k: nat, toFloat: FloatParser, project: Projection)
    requires k < |lines|
    ensures Actions(lines, toFloat, project)[k] == Classify(lines[k], SectionSeen(lines[..k]), toFloat, project)
  {
    var init := lines[..|lines| - 1];
    if k < |lines| - 1 {
      assert init[..k] == lines[..k];
      ActionAt(init, k, toFloat, project);
    }
  }

  /** The actions of a prefix are a prefix of the actions. */
  lemma {:induction false} ActionsOfPrefix(lines: seq<string>, k: nat, toFloat: FloatParser, project: Projection)
    requires k <= |lines|
    ensures Actions(lines[..k], toFloat, project) == Actions(lines, toFloat, project)[..k]
  {
    if k < |lines| {
      var init := lines[..|lines| - 1];
      assert init[..k] == lines[..k];
      ActionsOfPrefix(init, k, toFloat, project);
      var acts := Actions(init, toFloat, project);
      assert Actions(lines, toFloat, project) == acts + [Classify(lines[|lines| - 1], SectionSeen(init), toFloat, project)];
      assert (acts + [Classify(lines[|lines| - 1], SectionSeen(init), toFloat, project)])[..k] == acts[..k];
    } else {
      assert lines[..k] == lines;
    }
  }

  /** The number of actions that emit a line. */
  function EmitCount(acts: seq<Action>): (n: nat)
    ensures n <= |acts|
  {
    if acts == [] then 0
    else EmitCount(acts[..|acts| - 1]) + if acts[|acts| - 1].Emit? then 1 else 0
  }

  /** The output lines: the collected ones, with EOF appended when none of
      them is EOF. */
  function FixedLines(lines: seq<string>, toFloat: FloatParser, project: Projection): Option<seq<string>>
  {
    match Rewritten(lines, toFloat, project)
    case None => None
    case Some(out) => Some(if Eof in out then out else out + [Eof])
  }

  /** A file name with every `.tsp` replaced by `suffix`.
      A `.tsp` name gets the new suffix; a name without `.tsp` is kept. */
  function Renamed(name: string, suffix: string): (r: string)
    ensures EndsWith(name, ".tsp") ==> EndsWith(r, suffix)
    ensures !Contains(name, ".tsp") ==> r == name
  {
    var r := ReplaceAll(name, ".tsp", suffix);
    assert EndsWith(name, ".tsp") ==> EndsWith(r, suffix) by {
      if EndsWith(name, ".tsp") {
        ReplaceAllKeepsSuffix(name, suffix);
      }
    }
    assert !Contains(name, ".tsp") ==> r == name by {
      if !Contains(name, ".tsp") {
        ReplaceAllAbsent(name, ".tsp", suffix);
      }
    }
    r
  }

  /** The name of the written file: every `.tsp` replaced by `_geo2euc.tsp`. */
  function OutputName(basename: string): string {
    Renamed(basename, "_geo2euc.tsp")
  }

  /** The whole conversion of one file. */
  function Convert(basename: string, lines: seq<string>, toFloat: FloatParser, project: Projection): Conversion
  {
    match FixedLines(lines, toFloat, project)
    case None => NotApplicable
    case Some(r) => Converted(OutputName(basename), Join(r, "\n") + "\n")
  }

  /** The line-rewriting loop of the converter. `basename` is the base name
      of the input path; the output folder is not modelled. */
  method FixTspFile(basename: string, lines: seq<string>, toFloat: FloatParser, project: Projection)
    returns (r: Conversion)
    ensures r == Convert(basename, lines, toFloat, project)
  {
    var fixedLines: seq<string> := [];
    var nodeSection := false;
    for i := 0 to |lines|
      invariant Rewritten(lines[..i], toFloat, project) == Some(fixedLines)
      invariant nodeSection == SectionSeen(lines[..i])
    {
      ActionsStep(lines, i, toFloat, project);
      CollectedStep(Actions(lines[..i], toFloat, project), Classify(lines[i], nodeSection, toFloat, project));
      var line := Strip(lines[i]);
      if StartsWith(line, DisplayDataTypeKey) {
        assert Classify(lines[i], nodeSection, toFloat, project) == Drop;
        ExclusivePrefixes(line, DisplayDataTypeKey, NodeCoordSection, 0);
        continue;
      }
      if StartsWith(line, EdgeWeightTypeKey) {
        ExclusivePrefixes(line, EdgeWeightTypeKey, NodeCoordSection, 0);
        var edgeWeightType := Strip(AfterLast(line, ':'));
        if edgeWeightType != Geo {
          assert Classify(lines[i], nodeSection, toFloat, project) == Abort;
          ActionsOfPrefix(lines, i + 1, toFloat, project);
          AbortIsFinal(Actions(lines, toFloat, project), i + 1);
          return NotApplicable;
        }
        assert Classify(lines[i], nodeSection, toFloat, project) == Emit(EucWeightTypeLine);
        fixedLines := fixedLines + [EucWeightTypeLine];
        continue;
      }
      if StartsWith(line, NodeCoordSection) {
        assert Classify(lines[i], nodeSection, toFloat, project) == Emit(line);
        nodeSection := true;
        fixedLines := fixedLines + [line];
        continue;
      }
      assert IsOrdinaryLine(line) && !IsSectionLine(lines[i]);
      if nodeSection {
        var parts := Tokens(line);
        if |parts| == 3 {
          assert Classify(lines[i], nodeSection, toFloat, project) == Emit(CoordLine(parts, toFloat, project));
          var xy := project(toFloat(parts[1]), toFloat(parts[2]));
          fixedLines := fixedLines + [parts[0] + " " + xy.0 + " " + xy.1];
          continue;
        }
      }
      assert Classify(lines[i], nodeSection, toFloat, project) == Emit(line);
      fixedLines := fixedLines + [line];
    }
    assert lines[..|lines|] == lines;
    if Eof !in fixedLines {
      fixedLines := fixedLines + [Eof];
    }
    var fixedFilename := ReplaceAll(basename, ".tsp", "_geo2euc.tsp");
    r := Converted(fixedFilename, Join(fixedLines, "\n") + "\n");
  }

  // ---------------------------------------------------------------- properties of the fold

  /** Once an action aborts, the whole run does. */
  lemma {:induction false} AbortIsFinal(acts: seq<Action>, i: nat)
    requires i <= |acts|
    requires Collected(acts[..i]).None?
    ensures Collected(acts).None?
  {
    if i < |acts| {
      var init := acts[..|acts| - 1];
      assert init[..i] == acts[..i];
      AbortIsFinal(init, i);
    } else {
      assert acts[..i] == acts;
    }
  }

  /** A run collects nothing exactly when one of its actions aborts. */
  lemma {:induction false} CollectedNoneIff(acts: seq<Action>)
    ensures Collected(acts).None? <==> exists k | 0 <= k < |acts| :: acts[k].Abort?
  {
    if acts != [] {
      var init := acts[..|acts| - 1];
      CollectedNoneIff(init);
      if Collected(init).None? {
        var k :| 0 <= k < |init| && init[k].Abort?;
        assert acts[k] == init[k];
      }
      if exists k | 0 <= k < |acts| :: acts[k].Abort? {
        var k :| 0 <= k < |acts| && acts[k].Abort?;
        if k < |init| {
          assert init[k] == acts[k];
        }
      }
    }
  }

  /** One collected line per emitting action, and no more. */
  lemma {:induction false} CollectedLength(acts: seq<Action>)
    requires Collected(acts).Some?
    ensures |Collected(acts).value| == EmitCount(acts)
  {
    if acts != [] {
      CollectedLength(acts[..|acts| - 1]);
    }
  }

  /** An emitting action puts its text at the position given by the number
      of emitting actions before it. */
  lemma {:induction false} CollectedAt(acts: seq<Action>, k: nat)
    requires Collected(acts).Some?
    requires k < |acts| && acts[k].Emit?
    ensures EmitCount(acts[..k]) < |Collected(acts).value|
    ensures Collected(acts).value[EmitCount(acts[..k])] == acts[k].text
  {
    var init := acts[..|acts| - 1];
    if k == |acts| - 1 {
      CollectedLength(init);
    } else {
      assert init[..k] == acts[..k];
      CollectedAt(init, k);
    }
  }

  /** Every collected line is the text of some emitting action. */
  lemma {:induction false} CollectedFrom(acts: seq<Action>)
    requires Collected(acts).Some?
    ensures forall j | 0 <= j < |Collected(acts).value| ::
              exists k | 0 <= k < |acts| :: acts[k] == Emit(Collected(acts).value[j])
  {
    if acts != [] {
      var init := acts[..|acts| - 1];
      CollectedFrom(init);
      var out := Collected(acts).value;
      forall j | 0 <= j < |out|
        ensures exists k | 0 <= k < |acts| :: acts[k] == Emit(out[j])
      {
        if j < |Collected(init).value| {
          var k :| 0 <= k < |init| && init[k] == Emit(Collected(init).value[j]);
          assert acts[k] == init[k];
        } else {
          assert acts[|acts| - 1] == Emit(out[j]);
        }
      }
    }
  }

  /** Output positions follow input order: an emitting action comes strictly
      before every later action's output position. */
  lemma {:induction false} EmitCountGrows(acts: seq<Action>, i: nat, j: nat)
    requires i < j <= |acts| && acts[i].Emit?
    ensures EmitCount(acts[..i]) < EmitCount(acts[..j])
  {
    var pre := acts[..j];
    assert pre[..|pre| - 1] == acts[..j - 1];
    if i < j - 1 {
      EmitCountGrows(acts, i, j - 1);
    }
  }

  // ---------------------------------------------------------------- properties of the conversion

  /** The file produces no output exactly when some line declares an edge
      weight type other than GEO. */
  lemma NotApplicableIff(lines: seq<string>, toFloat: FloatParser, project: Projection)
    ensures Rewritten(lines, toFloat, project).None? <==>
            exists k | 0 <= k < |lines| :: IsForeignWeightType(Strip(lines[k]))
  {
    var acts := Actions(lines, toFloat, project);
    CollectedNoneIff(acts);
    forall k | 0 <= k < |lines|
      ensures acts[k].Abort? <==> IsForeignWeightType(Strip(lines[k]))
    {
      ActionAt(lines, k, toFloat, project);
    }
  }

  /** At most one output line per input line. */
  lemma RewrittenLength(lines: seq<string>, toFloat: FloatParser, project: Projection)
    requires Rewritten(lines, toFloat, project).Some?
    ensures |Rewritten(lines, toFloat, project).value| == EmitCount(Actions(lines, toFloat, project)) <= |lines|
  {
    CollectedLength(Actions(lines, toFloat, project));
  }

  /** An input line that emits `t` puts `t` at the output position given by
      the number of emitting lines before it. */
  lemma EmittedAt(lines: seq<string>, k: nat, toFloat: FloatParser, project: Projection)
    requires Rewritten(lines, toFloat, project).Some?
    requires k < |lines|
    requires Classify(lines[k], SectionSeen(lines[..k]), toFloat, project).Emit?
    ensures EmitCount(Actions(lines[..k], toFloat, project)) < |Rewritten(lines, toFloat, project).value|
    ensures Rewritten(lines, toFloat, project).value[EmitCount(Actions(lines[..k], toFloat, project))] ==
            Classify(lines[k], SectionSeen(lines[..k]), toFloat, project).text
  {
    ActionAt(lines, k, toFloat, project);
    ActionsOfPrefix(lines, k, toFloat, project);
    CollectedAt(Actions(lines, toFloat, project), k);
  }

  /** No collected line starts with DISPLAY_DATA_TYPE:. */
  lemma RewrittenHasNoDisplayLine(lines: seq<string>, toFloat: FloatParser, project: Projection)
    requires Rewritten(lines, toFloat, project).Some?
    ensures forall j | 0 <= j < |Rewritten(lines, toFloat, project).value| ::
              !StartsWith(Rewritten(lines, toFloat, project).value[j], DisplayDataTypeKey)
  {
    var acts := Actions(lines, toFloat, project);
    var out := Collected(acts).value;
    CollectedFrom(acts);
    forall j | 0 <= j < |out|
      ensures !StartsWith(out[j], DisplayDataTypeKey)
    {
      var k :| 0 <= k < |acts| && acts[k] == Emit(out[j]);
      ActionAt(lines, k, toFloat, project);
    }
  }

  /** No output line starts with DISPLAY_DATA_TYPE:. */
  lemma NoDisplayLine(lines: seq<string>, toFloat: FloatParser, project: Projection)
    requires FixedLines(lines, toFloat, project).Some?
    ensures forall j | 0 <= j < |FixedLines(lines, toFloat, project).value| ::
              !StartsWith(FixedLines(lines, toFloat, project).value[j], DisplayDataTypeKey)
  {
    RewrittenHasNoDisplayLine(lines, toFloat, project);
  }

  /** The output contains EOF; it is the collected lines, followed by one
      appended EOF exactly when none of them is EOF, so it has at most one
      line more than the input. */
  lemma EofTerminated(lines: seq<string>, toFloat: FloatParser, project: Projection)
    requires FixedLines(lines, toFloat, project).Some?
    ensures var out := Rewritten(lines, toFloat, project).value;
            var r := FixedLines(lines, toFloat, project).value;
            && Eof in r
            && (Eof in out ==> r == out)
            && (Eof !in out ==> r == out + [Eof])
            && |r| <= |lines| + 1
  {
    RewrittenLength(lines, toFloat, project);
  }

  /** An input whose own EOF line is reached gets no EOF appended. */
  lemma InputEofKept(lines: seq<string>, k: nat, toFloat: FloatParser, project: Projection)
    requires FixedLines(lines, toFloat, project).Some?
    requires k < |lines| && Strip(lines[k]) == Eof
    ensures FixedLines(lines, toFloat, project).value == Rewritten(lines, toFloat, project).value
  {
    EofIsOneToken();
    assert IsOrdinaryLine(Strip(lines[k]));
    assert Classify(lines[k], SectionSeen(lines[..k]), toFloat, project) == Emit(Eof);
    EmittedAt(lines, k, toFloat, project);
  }

  /** Coordinate mode, once on, stays on: every later ordinary line with
      three tokens is projected, and every other ordinary line is emitted as
      stripped. */
  lemma CoordinateModeLine(lines: seq<string>, i: nat, k: nat, toFloat: FloatParser, project: Projection)
    requires i <= k < |lines|
    requires SectionSeen(lines[..i])
    requires IsOrdinaryLine(Strip(lines[k]))
    ensures var s := Strip(lines[k]);
            Classify(lines[k], SectionSeen(lines[..k]), toFloat, project) ==
            if |Tokens(s)| == 3 then Emit(CoordLine(Tokens(s), toFloat, project)) else Emit(s)
  {
    SectionSeenStays(lines, i, k);
  }

  /** Before any NODE_COORD_SECTION line, every line that is neither dropped
      nor an edge-weight type line is emitted as stripped. */
  lemma HeaderLineKept(lines: seq<string>, k: nat, toFloat: FloatParser, project: Projection)
    requires k < |lines|
    requires forall j | 0 <= j < k :: !IsSectionLine(lines[j])
    requires !StartsWith(Strip(lines[k]), DisplayDataTypeKey)
    requires !StartsWith(Strip(lines[k]), EdgeWeightTypeKey)
    ensures Classify(lines[k], SectionSeen(lines[..k]), toFloat, project) == Emit(Strip(lines[k]))
  {
    SectionSeenIff(lines[..k]);
    assert forall j | 0 <= j < k :: lines[..k][j] == lines[j];
  }

  /** The written text reads back as the output lines. */
  lemma WrittenTextReadsBack(basename: string, lines: seq<string>, toFloat: FloatParser, project: Projection)
    requires FixedLines(lines, toFloat, project).Some?
    requires forall k | 0 <= k < |FixedLines(lines, toFloat, project).value| ::
               '\n' !in FixedLines(lines, toFloat, project).value[k]
    ensures Convert(basename, lines, toFloat, project).Converted?
    ensures ReadLines(Convert(basename, lines, toFloat, project).text) ==
            FixedLines(lines, toFloat, project).value
  {
    EofTerminated(lines, toFloat, project);
    ReadLinesOfJoined(FixedLines(lines, toFloat, project).value);
  }

  // ---------------------------------------------------------------- skip check

  /** The name the batch driver checks for before converting a file: every
      `.tsp` replaced by `_fixed.tsp`. */
  function SkipName(filename: string): string {
    Renamed(filename, "_fixed.tsp")
  }

  /** The driver skips a file when its skip name is already in the output
      folder. */
  predicate Skips(filename: string, folder: set<string>) {
    SkipName(filename) in folder
  }

  lemma {:induction false} ReplaceAllKeepsSuffix(s: string, rep: string)
    requires EndsWith(s, ".tsp")
    ensures EndsWith(ReplaceAll(s, ".tsp", rep), rep)
    decreases |s|
  {
    var tail := ReplaceAll(s[|s| - 4..], ".tsp", rep);
    if s[..4] == ".tsp" {
      if |s| == 4 {
        assert ReplaceAll(s, ".tsp", rep) == rep + ReplaceAll([], ".tsp", rep);
      } else {
        TspSuffixAfterTsp(s);
        ReplaceAllKeepsSuffix(s[4..], rep);
        assert ReplaceAll(s, ".tsp", rep) == rep + ReplaceAll(s[4..], ".tsp", rep);
        EndsWithAppend(rep, ReplaceAll(s[4..], ".tsp", rep), rep);
      }
    } else {
      assert s[..4] != s[|s| - 4..];
      assert EndsWith(s[1..], ".tsp") by {
        assert s[1..][|s| - 5..] == s[|s| - 4..];
      }
      ReplaceAllKeepsSuffix(s[1..], rep);
      assert ReplaceAll(s, ".tsp", rep) == [s[0]] + ReplaceAll(s[1..], ".tsp", rep);
      EndsWithAppend([s[0]], ReplaceAll(s[1..], ".tsp", rep), rep);
    }
  }

  /** `.tsp` does not overlap itself, so a longer name that starts and ends
      with it still ends with it after the first four characters. */
  lemma TspSuffixAfterTsp(s: string)
    requires |s| > 4 && s[..4] == ".tsp" && EndsWith(s, ".tsp")
    ensures EndsWith(s[4..], ".tsp")
  {
    assert s[|s| - 4] == s[|s| - 4..][0] == '.';
    assert forall i | 1 <= i < 4 :: s[i] == s[..4][i] != '.';
    assert s[4..][|s| - 8..] == s[|s| - 4..];
  }

  /** For a name ending in `.tsp`, the skip name and every name this tool
      writes differ, so the skip check never recognises a converted file. */
  lemma SkipNameNeverWritten(f: string, g: string)
    requires EndsWith(f, ".tsp") && EndsWith(g, ".tsp")
    ensures SkipName(f) != OutputName(g)
  {
    var a, b := SkipName(f), OutputName(g);
    if |a| == |b| {
      EndsWithAt(a, "_fixed.tsp", 0);
      EndsWithAt(b, "_geo2euc.tsp", 2);
      assert a[|a| - 10] != b[|b| - 10];
    }
  }

  /** After a run that converted the `.tsp` files `processed`, a second run
      skips none of them (nor any other `.tsp` file). */
  lemma SkipCheckNeverFires(processed: set<string>, f: string)
    requires forall g | g in processed :: EndsWith(g, ".tsp")
    requires EndsWith(f, ".tsp")
    ensures !Skips(f, set g | g in processed :: OutputName(g))
  {
    forall g | g in processed
      ensures SkipName(f) != OutputName(g)
    {
      SkipNameNeverWritten(f, g);
    }
  }

  /** The skip check as evidently intended: it looks for the name that the
      conversion writes. */
  predicate CorrectedSkips(filename: string, folder: set<string>) {
    OutputName(filename) in folder
  }

  /** With the intended check, a second run skips every file converted by
      the first. */
  lemma CorrectedSkipCheckFires(processed: set<string>, f: string)
    requires f in processed
    ensures CorrectedSkips(f, set g | g in processed :: OutputName(g))
  {
  }
}
