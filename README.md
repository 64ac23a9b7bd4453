# TSPLIB converters: GEO to EUC_2D, and EUC_2D to FULL_MATRIX

This project models two small converters for travelling-salesman instances
in the TSPLIB 95 text format and proves properties of the model in Dafny.

- **GEO to EUC_2D** (`fix_tsp_file` in `benchmark/geo2euc_converter.py`)
  makes one pass over the stripped lines of an instance. It drops
  `DISPLAY_DATA_TYPE:` lines. It rewrites a `GEO` edge-weight type to
  `EDGE_WEIGHT_TYPE: EUC_2D`, and gives up on the file, writing nothing,
  when the declared type is anything else. `NODE_COORD_SECTION` passes
  through and switches on coordinate mode. In coordinate mode every
  three-token line `node lat lon` becomes `node x y`, where `(x, y)` is the
  planar projection of the point. Any other line passes through stripped.
  `EOF` is appended when no emitted line is `EOF`. The output file is named
  by replacing every `.tsp` in the input's base name with `_geo2euc.tsp`.
  The batch driver's "already converted" check is modelled as a pure
  function of the file name.
- **EUC_2D to FULL_MATRIX** (`benchmark/euc2fullmatrix_converter.py`) has
  three steps:
  - It parses `NAME`, `DIMENSION` and the coordinate section up to the
    first `EOF` line.
  - It fills an n-by-n table of rounded distances between the parsed
    points.
  - It writes the table in TSPLIB's explicit `FULL_MATRIX` layout: seven
    header lines, one right-aligned row per point, then `EOF`.

Layout:

- `Text.dfy` holds the string operations the converters use: Python's
  `strip`, `split()`, `split(":")[-1]`, `replace`, `"\n".join` with line
  reading, `str` of a natural number and right alignment in a field.
- `Tsplib.dfy` holds the shared keywords and the coordinate-mode flag.
- `Geo2Euc.dfy` and `Euc2FullMatrix.dfy` model the two converters.

Each loop of the modelled functions is a Dafny method, proved equal to a
specification function. The generator expression that formats a row is the
recursive function `Fields`.

- The two line loops, `FixTspFile` and `ParseEuc2dTsp`, are proved equal to
  folds over the prefix of the input read so far. Lemmas then describe
  those folds line by line.
- `ComputeDistanceMatrix` is proved equal to a sequence comprehension,
  `DistanceMatrix`.
- `WriteFullMatrixTsp` is proved equal to a concatenation of header, row
  and `EOF` lines, `FullMatrixLines`. So is `ConvertEuc2dToFullMatrix`, by
  way of `FullMatrixOutput`.

Some computations are abstracted as function parameters:

- Python's `float` and `int` on a token: `toFloat`, `toInt`.
- The trigonometric projection `geo_to_euclidean`, with its six-digit
  formatting: `project`, which returns two strings.
- The rounded Euclidean distance: `dist`, which yields a natural number.

Whitespace is space, tab, line feed, carriage return, vertical tab and
form feed. Python's `str.isspace` also counts the ASCII separators
U+001C to U+001F and the non-ASCII Unicode spaces; see "## Left out".

Two details of the code the model keeps:

- The output name replaces every `.tsp` in the base name, not only a final
  one.
- In the FULL_MATRIX parser, a `NAME` or `DIMENSION` line is also checked
  as a coordinate line (`benchmark/euc2fullmatrix_converter.py:15-29`).

## Model

| member | source | states |
|---|---|---|
| Geo2Euc.Classify | benchmark/geo2euc_converter.py:20-45 | A stripped line is dropped exactly when it starts with `DISPLAY_DATA_TYPE:`. It aborts the file exactly when it is an `EDGE_WEIGHT_TYPE:` line whose value after the last colon, stripped, is not `GEO`. A kept edge-weight line becomes `EDGE_WEIGHT_TYPE: EUC_2D`. A section line is kept as stripped. In coordinate mode an ordinary three-token line becomes `node x y` with the projected point. Every other ordinary line is kept as stripped. No emitted text starts with `DISPLAY_DATA_TYPE:`. |
| Geo2Euc.FixTspFile | benchmark/geo2euc_converter.py:12-54 | The loop, with its early return and its conditional `EOF`, gives exactly the conversion the line fold specifies: nothing when a line aborts, and otherwise the output name and the joined text. |
| Geo2Euc.ActionAt | benchmark/geo2euc_converter.py:19-45 | Line `k` is treated under the coordinate mode left by lines `0..k-1`, that is, whether one of them is a section line. |
| Geo2Euc.NotApplicableIff | benchmark/geo2euc_converter.py:25-28 | The file produces no output if and only if some stripped line starts with `EDGE_WEIGHT_TYPE:` and declares a type other than `GEO`. |
| Geo2Euc.CollectedNoneIff | benchmark/geo2euc_converter.py:19-45 | A run of line actions produces nothing if and only if one of the actions aborts. |
| Geo2Euc.AbortIsFinal | benchmark/geo2euc_converter.py:27-28 | Once a prefix of the lines has aborted, the whole file aborts, whatever follows. |
| Geo2Euc.RewrittenLength | benchmark/geo2euc_converter.py:19-45 | Before the `EOF` check, the output has one line per emitting input line, and so at most as many lines as the input. |
| Geo2Euc.CollectedAt | benchmark/geo2euc_converter.py:19-45 | An emitting action puts its text at the output position that counts the emitting actions before it. |
| Geo2Euc.EmittedAt | benchmark/geo2euc_converter.py:19-45 | An input line that emits text puts that text at the output position that counts the emitting lines before it. |
| Geo2Euc.EmitCountGrows | benchmark/geo2euc_converter.py:19-45 | Output positions follow input order: an emitting line comes before the output of every later line. |
| Geo2Euc.RewrittenHasNoDisplayLine | benchmark/geo2euc_converter.py:22-23 | No line collected by the pass starts with `DISPLAY_DATA_TYPE:`. |
| Geo2Euc.NoDisplayLine | benchmark/geo2euc_converter.py:22-48 | No output line, including the appended `EOF`, starts with `DISPLAY_DATA_TYPE:`. |
| Geo2Euc.EofTerminated | benchmark/geo2euc_converter.py:47-48 | The output contains `EOF`. It equals the collected lines when one of them is `EOF`. Otherwise it is those lines plus one `EOF`. It has at most one line more than the input. |
| Geo2Euc.InputEofKept | benchmark/geo2euc_converter.py:45-48 | If the input has a line that strips to `EOF`, no `EOF` is appended. |
| Geo2Euc.CoordinateModeLine | benchmark/geo2euc_converter.py:32-45 | Once a section line has been read, coordinate mode stays on. Every later ordinary three-token line is projected, and every other ordinary line is kept as stripped. |
| Geo2Euc.HeaderLineKept | benchmark/geo2euc_converter.py:32-45 | Before the first section line, a line that is neither a `DISPLAY_DATA_TYPE:` line nor an `EDGE_WEIGHT_TYPE:` line is emitted equal to its stripped text. |
| Geo2Euc.WrittenTextReadsBack | benchmark/geo2euc_converter.py:53-54 | The written text, the lines joined by newlines plus a final newline, reads back as exactly the output lines. |
| Geo2Euc.CoordLine | benchmark/geo2euc_converter.py:40-42 | Definition: `f"{node} {x} {y}"` with `(x, y)` the projection of the floats of the second and third tokens. `Classify` states when it is emitted. |
| Geo2Euc.Rewritten | benchmark/geo2euc_converter.py:16-45 | Definition: the `fixed_lines` list before the `EOF` check, or nothing when a line aborts. `NotApplicableIff`, `RewrittenLength`, `EmittedAt` and `RewrittenHasNoDisplayLine` state its properties. |
| Geo2Euc.FixedLines | benchmark/geo2euc_converter.py:47-48 | Definition: the collected lines, with `EOF` appended when none of them is `EOF`, or nothing when the file aborts. `EofTerminated` and `NoDisplayLine` state its properties. |
| Geo2Euc.Convert | benchmark/geo2euc_converter.py:47-54 | Definition: the whole conversion of one file. The result is nothing when the file aborts, and otherwise the output name and the lines joined by newlines with a final newline. `FixTspFile` is proved equal to it. |
| Geo2Euc.Renamed | benchmark/geo2euc_converter.py:50 | `name.replace(".tsp", suffix)`: the name of a `.tsp` file ends in `suffix`, and a name that does not contain `.tsp` is left unchanged. |
| Geo2Euc.OutputName | benchmark/geo2euc_converter.py:50 | Definition: `Renamed` with `_geo2euc.tsp`, so a `.tsp` file's output name ends in `_geo2euc.tsp`. |
| Geo2Euc.SkipName | benchmark/geo2euc_converter.py:65 | Definition: `Renamed` with `_fixed.tsp`, so a `.tsp` file's skip name ends in `_fixed.tsp`. |
| Geo2Euc.Skips | benchmark/geo2euc_converter.py:65-70 | Definition: the driver skips a file when its skip name is among the names in the output folder. `SkipCheckNeverFires` states its property. |
| Geo2Euc.ReplaceAllKeepsSuffix | benchmark/geo2euc_converter.py:50 | Replacing every `.tsp` in a name ending in `.tsp` gives a name ending in the replacement. |
| Geo2Euc.SkipNameNeverWritten | benchmark/geo2euc_converter.py:65 | For names ending in `.tsp`, the `_fixed.tsp` name the skip check looks for never equals an `_geo2euc.tsp` name the conversion writes. |
| Geo2Euc.SkipCheckNeverFires | benchmark/geo2euc_converter.py:63-70 | After a run has written the outputs of any set of `.tsp` files, the skip check skips no `.tsp` file. |
| Geo2Euc.CorrectedSkipCheckFires | benchmark/geo2euc_converter.py:63-70 | With the skip check looking for the name the conversion writes, every file converted before is skipped. |
| Tsplib.SectionSeenIff | benchmark/geo2euc_converter.py:32-33 | The coordinate-mode flag is on after a run of lines if and only if one of them, stripped, starts with `NODE_COORD_SECTION`. |
| Tsplib.SectionSeenStays | benchmark/geo2euc_converter.py:33 | Once on, the coordinate-mode flag stays on for every longer prefix. |
| Euc2FullMatrix.ParseEuc2dTsp | benchmark/euc2fullmatrix_converter.py:4-31 | The loop, with its `NAME`, `DIMENSION` and section branches, its fall-through to the coordinate check and its `break` at `EOF`, returns exactly the fold of its lines before the first `EOF` line. |
| Euc2FullMatrix.FirstEof | benchmark/euc2fullmatrix_converter.py:22-23 | The index where parsing stops: no earlier line strips to `EOF`, and the line there, if any, does. |
| Euc2FullMatrix.ParseIgnoresAfterEof | benchmark/euc2fullmatrix_converter.py:22-23 | Lines after any `EOF` line change neither the name, nor the dimension, nor the points. |
| Euc2FullMatrix.InCoordsIsSectionSeen | benchmark/euc2fullmatrix_converter.py:19-21 | Coordinate mode is on if and only if a line starting with `NODE_COORD_SECTION` has been read. |
| Euc2FullMatrix.CoordsCount | benchmark/euc2fullmatrix_converter.py:19-29 | For every file, there are exactly as many points as contributing lines before `EOF`. |
| Euc2FullMatrix.CoordsOfLines | benchmark/euc2fullmatrix_converter.py:19-29 | The points are one per contributing line before `EOF`. A contributing line is a three-token line after a section line that is not itself one. The line at `k` gives the point at the index counting the contributing lines before it. That point is its second and third tokens, and its node id is dropped. |
| Euc2FullMatrix.ContribCountGrows | benchmark/euc2fullmatrix_converter.py:25-29 | Points keep the order of their lines. |
| Euc2FullMatrix.NoCoordsWithoutSection | benchmark/euc2fullmatrix_converter.py:19-29 | Without a section line before `EOF`, no point is parsed. |
| Euc2FullMatrix.NameIsLastNameLine | benchmark/euc2fullmatrix_converter.py:15-16 | The name is the value after the last colon, stripped, of the last line before `EOF` that starts with `NAME`. |
| Euc2FullMatrix.NameDefaultsToEmpty | benchmark/euc2fullmatrix_converter.py:8-16 | Without a `NAME` line before `EOF`, the name is empty. |
| Euc2FullMatrix.HeaderValue | benchmark/euc2fullmatrix_converter.py:16-18 | Definition: `split(":")[-1].strip()`, the value of a `NAME` or `DIMENSION` line. `DimensionLineReadsBack` shows a written `DIMENSION` line reads back through it. |
| Euc2FullMatrix.Step | benchmark/euc2fullmatrix_converter.py:14-29 | Definition: one line other than `EOF`. A section line, one that starts with neither `NAME` nor `DIMENSION`, only switches on coordinate mode. Any other line first sets `name` or `dimension`, then goes through the coordinate check. `StepName` and `StepDimension` state what it does to the header fields. |
| Euc2FullMatrix.ParseLines | benchmark/euc2fullmatrix_converter.py:8-29 | Definition: the parser's variables, starting from `""`, `0`, no points and coordinate mode off, after `Step` over each line in order. |
| Euc2FullMatrix.Parse | benchmark/euc2fullmatrix_converter.py:4-31 | Definition: the name, dimension and points after the lines before the first `EOF` line. The lemmas below state its fields. |
| Euc2FullMatrix.StepName | benchmark/euc2fullmatrix_converter.py:15-16 | A line starting with `NAME` sets the name to its value. No other line changes the name. |
| Euc2FullMatrix.StepDimension | benchmark/euc2fullmatrix_converter.py:17-18 | A line starting with `DIMENSION` sets the dimension to `toInt` of its value. No other line changes the dimension. |
| Euc2FullMatrix.DimensionIsLastDimensionLine | benchmark/euc2fullmatrix_converter.py:17-18 | The dimension is `toInt` of the value after the last colon, stripped, of the last line before `EOF` that starts with `DIMENSION`. |
| Euc2FullMatrix.DimensionDefaultsToZero | benchmark/euc2fullmatrix_converter.py:9-18 | Without a `DIMENSION` line before `EOF`, the dimension is `0`. |
| Euc2FullMatrix.ParseLinesIgnoresInt | benchmark/euc2fullmatrix_converter.py:17-18 | The value `DIMENSION` is read as changes neither the name, nor the points, nor coordinate mode. |
| Euc2FullMatrix.DistanceMatrix | benchmark/euc2fullmatrix_converter.py:33-35 | The table has exactly n rows, each of length n, where n is the number of points. |
| Euc2FullMatrix.ComputeDistanceMatrix | benchmark/euc2fullmatrix_converter.py:33-42 | Filling a zero table cell by cell leaves entry `[i][j]` equal to `dist(coords[i], coords[j])` for every pair. |
| Euc2FullMatrix.MatrixSymmetric | benchmark/euc2fullmatrix_converter.py:36-41 | With a symmetric distance, `m[i][j] == m[j][i]`. |
| Euc2FullMatrix.MatrixZeroDiagonal | benchmark/euc2fullmatrix_converter.py:36-41 | With a distance that is zero from a point to itself, `m[i][i] == 0`. |
| Euc2FullMatrix.EntryDependsOnEndpoints | benchmark/euc2fullmatrix_converter.py:38-41 | An entry depends only on the two points it relates: equal endpoints give equal entries, across any two point lists. |
| Euc2FullMatrix.WriteFullMatrixTsp | benchmark/euc2fullmatrix_converter.py:44-56 | The lines written are the seven header lines, one row line per matrix row in order, then `EOF`. |
| Euc2FullMatrix.HeaderLines | benchmark/euc2fullmatrix_converter.py:46-52 | Definition: the seven header lines, in order. `HeaderFields` states all seven. |
| Euc2FullMatrix.Field | benchmark/euc2fullmatrix_converter.py:54 | Definition: `f"{val:3}"`, the numeral of a value right-aligned in a field of at least three characters. `FieldParts` and `Text.PadLeft` state its shape. |
| Euc2FullMatrix.RowLine | benchmark/euc2fullmatrix_converter.py:54-55 | Definition: a single space, then the row's fields joined by single spaces. `RowTokens` and `RowLineReadsBack` state what it reads back as. |
| Euc2FullMatrix.FullMatrixLines | benchmark/euc2fullmatrix_converter.py:46-56 | Definition: the header lines, one row line per row, then `EOF`. `FullMatrixLayout` and `FullMatrixRows` state its layout. |
| Euc2FullMatrix.FullMatrixLayout | benchmark/euc2fullmatrix_converter.py:46-56 | The file has 8 + n lines. The first seven are the header, and the last is `EOF`. |
| Euc2FullMatrix.FullMatrixRows | benchmark/euc2fullmatrix_converter.py:53-55 | Line 7 + i of the file is the row line of matrix row `i`. |
| Euc2FullMatrix.HeaderFields | benchmark/euc2fullmatrix_converter.py:46-52 | The header has seven lines. It names the instance `<name>_fullmatrix`, then gives `TYPE: TSP` and `COMMENT: Converted from EUC_2D to FULL_MATRIX`. It declares the number of rows as `DIMENSION`, then `EXPLICIT`, `FULL_MATRIX` and `EDGE_WEIGHT_SECTION`. |
| Text.PadLeft | benchmark/euc2fullmatrix_converter.py:54 | A right-aligned field has length the larger of `width` and the length of `s`, ends with `s`, and is blank before it. |
| Euc2FullMatrix.FieldParts | benchmark/euc2fullmatrix_converter.py:54 | A field of a row is blanks followed by the decimal numeral of the value, and the numeral is one word. |
| Euc2FullMatrix.RowTokens | benchmark/euc2fullmatrix_converter.py:54-55 | Splitting a row line on whitespace gives the decimal numerals of the row, in order. |
| Euc2FullMatrix.RowLineReadsBack | benchmark/euc2fullmatrix_converter.py:54-55 | A row line has one token per value, and token `j` is a numeral whose value is `row[j]`. |
| Euc2FullMatrix.ConvertEuc2dToFullMatrix | benchmark/euc2fullmatrix_converter.py:58-66 | The output file is named `<parsed name>_euc2fullmatrix.tsp`. Its lines are the full-matrix layout of the distance table of the parsed points. |
| Euc2FullMatrix.DeclaredDimensionUnused | benchmark/euc2fullmatrix_converter.py:63-66 | The output does not depend on how the declared `DIMENSION` is read. |
| Euc2FullMatrix.DimensionLineReadsBack | benchmark/euc2fullmatrix_converter.py:49 | The `DIMENSION: n` line reads back, by the parser's own rule, as the numeral of `n`. |
| Euc2FullMatrix.DimensionReadsBack | benchmark/euc2fullmatrix_converter.py:49 | The output's `DIMENSION` line reads back as the number of points parsed. That is also its number of rows, and the file has 8 + n lines. |
| Text.Strip | benchmark/geo2euc_converter.py:20 | `str.strip()` over the modelled whitespace set: the result is no longer than its input, and neither starts nor ends with whitespace. `StripIsInfix` states that it is the infix left after removing whitespace margins. |
| Text.StripIsInfix | benchmark/geo2euc_converter.py:20 | The stripped line is the infix of the line between a whitespace prefix and a whitespace suffix. |
| Text.TrimLeftMargin | benchmark/euc2fullmatrix_converter.py:14 | Removing leading whitespace leaves a suffix of the line, and everything removed is whitespace. |
| Text.TrimRightMargin | benchmark/euc2fullmatrix_converter.py:14 | Everything that removing trailing whitespace drops is whitespace. |
| Text.StartsWith | benchmark/geo2euc_converter.py:22-32 | Definition: `str.startswith`, the prefix test behind every keyword check of both converters (also `benchmark/euc2fullmatrix_converter.py` lines 15, 17 and 19). |
| Text.Join | benchmark/geo2euc_converter.py:54 | Definition: `sep.join(parts)`, used for `"\n".join` here and for `" ".join` of a row's fields. `JoinCons`, `ReadLinesOfJoined` and `RowTokens` state its properties. |
| Text.Tokens | benchmark/euc2fullmatrix_converter.py:26 | `str.split()` over the modelled whitespace set: every token is a non-empty run without whitespace. `TokensOfSpacedWord` and `TokensOfWord` give the tokens of concrete texts. |
| Text.AfterLast | benchmark/euc2fullmatrix_converter.py:16 | `split(":")[-1]`: the result is a suffix of the input that contains no colon, and it is preceded by a colon whenever it is not the whole input. |
| Text.ReplaceAll | benchmark/geo2euc_converter.py:50 | Definition: `str.replace`, which replaces non-overlapping occurrences from left to right. `ReplaceAllAbsent` and `Geo2Euc.ReplaceAllKeepsSuffix` state its properties. |
| Text.NatToString | benchmark/euc2fullmatrix_converter.py:49 | `str` of a natural number: a non-empty string of decimal digits. `DecimalRoundTrip` shows it reads back as the number. |
| Text.ReadLinesOfJoined | benchmark/geo2euc_converter.py:54 | A non-empty list of lines without newlines, joined by newlines with a final newline, read back as the same lines. |
| Text.DecimalRoundTrip | benchmark/euc2fullmatrix_converter.py:49 | The decimal numeral of `n` reads back as `n`. |
| Text.AfterLastSeparator | benchmark/euc2fullmatrix_converter.py:16 | The text after the last colon of `a + ":" + b`, where `b` has no colon, is `b`. |
| Text.ReplaceAllAbsent | benchmark/geo2euc_converter.py:50 | A name that does not contain `.tsp` is left unchanged by the replacement. |

## Left out

- File I/O is not modelled: `open`, `readlines`, `write`, `os.path.join`, `os.makedirs`, `os.path.exists` and `os.listdir`. Input is the list of lines that `readlines` returns. Output is the text or the list of lines written. The output folders and hard-coded paths are not modelled.
- The module-level batch loops of both scripts and their `print` progress messages are not modelled. Only the skip-name check of `process_tsp_files` is modelled, as a pure function of the file name and the set of names in the output folder.
- `geo_to_euclidean` (`benchmark/geo2euc_converter.py:4-10`) is trigonometric floating-point work with six-digit formatting. It is the parameter `project`.
- `math.sqrt` and Python's `round` (`benchmark/euc2fullmatrix_converter.py:40-41`) are not modelled; `dist` stands for them. Its symmetry and zero diagonal are stated as hypotheses of the lemmas that need them.
- Geo2Euc.FixTspFile: `float` on a non-numeric coordinate token raises an error in the source, which ends the run with no file written. `toFloat` is total, so this failure path is not modelled.
- Euc2FullMatrix.ParseEuc2dTsp: `int` on a malformed `DIMENSION` value and `float` on a non-numeric coordinate token raise errors in the source. `toInt` and `toFloat` are total, so these failure paths are not modelled.
- Text.Strip: Python's `strip` and `split()` use `str.isspace`. That also counts the ASCII separators U+001C to U+001F and non-ASCII spaces such as U+0085, U+00A0 and U+2028. The model's set is only space, tab, line feed, carriage return, vertical tab and form feed. So `"EOF\x1c"` strips to `EOF` in Python but not in the model. `Text.Tokens` differs from `split()` in the same way.
- Python's universal-newline reading (`\r` and `\r\n` as line ends) happens before the lines reach the converters and is not modelled.
- Geo2Euc.WrittenTextReadsBack: requires that no output line contains a newline. Stripped input lines satisfy this, but the strings `project` returns are abstract.

## Findings

| source | as written | input that shows it | evidently intended | confidence | as-written member | corrected member |
|---|---|---|---|---|---|---|
| benchmark/geo2euc_converter.py:65 | The driver skips a file when `<name>_fixed.tsp` exists in the output folder. The conversion writes `<name>_geo2euc.tsp` (line 50), so the check never finds an earlier output. | Any `x.tsp` converted once: the second run looks for `x_fixed.tsp`, but the folder holds `x_geo2euc.tsp`, so `x.tsp` is converted again. | The check looks for the name the conversion writes, so converted files are skipped. | not executed | Geo2Euc.SkipCheckNeverFires | Geo2Euc.CorrectedSkipCheckFires |
