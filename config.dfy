/**
 * Config: the configuration file reader.
 *
 * One pass over the lines, in one of two states (outside a `[dimension]` block, or
 * inside the block being built), fills the scalar settings `path`, `name_format` and
 * `plot_by`, the list of dimensions and the list of `grid_r_c` lines. A fixed
 * sequence of checks follows, each raising ConfigException, and then the grid is
 * sized from the largest row and column indices and filled cell by cell.
 *
 * `ParseSpec` states the whole constructor as functions over the lines; `Parse` is the
 * constructor's loops, proved to compute exactly `ParseSpec`. The lemmas at the end
 * state what the format means.
 */
module Config {
  import opened Wrappers
  import opened JavaString
  import opened Dimensions

  /** The grid cell marking where the selector panel goes. */
  const SETTINGS: string := "${settings}"

  const PATH_FORM: string := "Path config option must be of the form \"path = ...\""
  const NAME_FORMAT_FORM: string := "Name format config option must be of the form \"name_format = ...\""
  const PLOT_BY_FORM: string := "Plot by field config option must be of the form \"plot_by = ...\""
  /** The grid messages share their opening; the two index messages extend the form message. */
  const GRID_FORM: string := "Grid config options must be of the form " + "\"grid_x_y = ...\""
  const GRID_ROW_FORM: string := GRID_FORM + ", where x is a valid integer for the row number "
  const GRID_COL_FORM: string := GRID_FORM + ", where y is a valid integer for the column number "
  const NO_PATH: string := "You must provide a value for path in the config"
  const NO_NAME_FORMAT: string := "You must provide a value for name_format in the config"
  const NO_PLOT_BY: string := "You must provide a value for plot_by in the config"
  const NO_DIMENSIONS: string := "You must provide at least one dimension"
  const NO_GRID: string := "You must define at least one row and one column to display data in!"
  const ARRAY_INDEX: string := "ArrayIndexOutOfBoundsException"

  function NoPlotDimension(plotByField: string): string
  {
    "You have stated the field " + plotByField + " to plot by, but this is not defined as a dimension"
  }

  /** gridLayout: `None` is a cell no `grid_` line assigned (Java null). */
  type Grid = seq<seq<Option<string>>>

  predicate IsRect(g: Grid, rows: nat, cols: nat)
  {
    |g| == rows && forall r :: 0 <= r < rows ==> |g[r]| == cols
  }

  /**
   * A constructed Config. The getters getPath, getNameFormat, getPlotByField,
   * getPlotByFieldIndex, getDimensions and getGridLayout return these fields.
   */
  datatype Config = Config(
    path: string,
    nameFormat: string,
    plotByField: string,
    plotByFieldIndex: nat,
    gridRows: nat,
    gridCols: nat,
    gridLayout: Grid,
    dimensions: seq<Dimension>)
  {
    /** What every Config the constructor returns satisfies. */
    predicate Valid()
    {
      && EndsWith(path, "/")
      && plotByFieldIndex < |dimensions|
      && dimensions[plotByFieldIndex].dimName == plotByField
      && (forall j :: 0 <= j < plotByFieldIndex ==> dimensions[j].dimName != plotByField)
      && 0 < gridRows <= INT_MAX && 0 < gridCols <= INT_MAX
      && IsRect(gridLayout, gridRows, gridCols)
    }

    /**
     * Config.equals: the dimension lists hold the same objects in the same order, the
     * grids hold equal strings (Arrays.deepEquals), and name format and plot-by field
     * agree. `path` and `plotByFieldIndex` take no part. `None` stands for null.
     */
    predicate Equals(other: Option<Config>)
    {
      && other.Some?
      && SameObjects(dimensions, other.value.dimensions)
      && gridLayout == other.value.gridLayout
      && nameFormat == other.value.nameFormat
      && plotByField == other.value.plotByField
    }
  }

  /** List.equals over Dimensions, whose equals is identity. */
  predicate SameObjects(a: seq<Dimension>, b: seq<Dimension>)
  {
    |a| == |b| && forall k :: 0 <= k < |a| ==> a[k].Equals(Some(b[k]))
  }

  /** The three ways the constructor can end. */
  datatype Outcome =
    | Success(config: Config)
    | ConfigException(msg: string)
    | UncheckedFailure(reason: string)

  // ---------------------------------------------------------------------------
  // Recognising a `[name]` line: Pattern "\[(.*)\]" and Matcher.find
  // ---------------------------------------------------------------------------

  /** The first index at or after `k` holding a line terminator, or `|s|`. */
  function RunEnd(s: string, k: nat): (e: nat)
    requires k <= |s|
    ensures k <= e <= |s| && (e < |s| ==> IsLineTerminator(s[e]))
    ensures forall j :: k <= j < e ==> !IsLineTerminator(s[j])
    decreases |s| - k
  {
    if k == |s| || IsLineTerminator(s[k]) then k else RunEnd(s, k + 1)
  }

  /** The last index in [lo, hi) holding `]`, if there is one. */
  function LastClose(s: string, lo: nat, hi: nat): (r: Option<nat>)
    requires lo <= hi <= |s|
    ensures r.Some? ==> lo <= r.value < hi && s[r.value] == ']'
    ensures r.Some? ==> forall j :: r.value < j < hi ==> s[j] != ']'
    ensures r.None? ==> forall j :: lo <= j < hi ==> s[j] != ']'
    decreases hi - lo
  {
    if lo == hi then None
    else if s[hi - 1] == ']' then Some(hi - 1)
    else LastClose(s, lo, hi - 1)
  }

  /**
   * The leftmost match starting at or after `i`: at a `[`, the greedy `(.*)` runs to the
   * next line terminator and backs off to the last `]` before it; with no such `]` the
   * search moves on to the next start position.
   */
  function FindBracketFrom(s: string, i: nat): (r: Option<string>)
    requires i <= |s|
    decreases |s| - i
  {
    if i == |s| then None
    else if s[i] == '[' then
      match LastClose(s, i + 1, RunEnd(s, i + 1))
      case Some(j) => Some(s[i + 1..j])
      case None => FindBracketFrom(s, i + 1)
    else FindBracketFrom(s, i + 1)
  }

  /** `m.find() ? m.group(1) : null` for the dimension-start pattern. */
  function BracketGroup(line: string): Option<string>
  {
    FindBracketFrom(line, 0)
  }

  // ---------------------------------------------------------------------------
  // The line pass
  // ---------------------------------------------------------------------------

  /** The two halves of a `grid_r_c = value` line, as `line.split("=")` gave them. */
  datatype GridLine = GridLine(key: string, contents: string)

  /** The constructor's locals and fields while it reads lines. */
  datatype ParserState = ParserState(
    definingDimension: bool,
    currentDimension: Option<Dimension>,
    nextRef: nat,
    path: Option<string>,
    nameFormat: Option<string>,
    plotByField: Option<string>,
    dimensions: seq<Dimension>,
    gridConfigLines: seq<GridLine>)

  /** An open block always has a dimension being built. */
  predicate WellFormed(st: ParserState)
  {
    st.definingDimension ==> st.currentDimension.Some?
  }

  function InitialState(firstRef: nat): ParserState
  {
    ParserState(false, None, firstRef, None, None, None, [], [])
  }

  /** The `path` value with a `/` appended unless it already ends in one. */
  function WithSlash(p: string): (r: string)
    ensures EndsWith(r, "/")
    ensures EndsWith(p, "/") ==> r == p
    ensures !EndsWith(p, "/") ==> r == p + "/"
  {
    if EndsWith(p, "/") then p else p + "/"
  }

  /** A block value: the trimmed line, with `.` standing for the empty string. */
  function BlockValue(trimmed: string): string
  {
    if trimmed == "." then "" else trimmed
  }

  /**
   * The four directive tests on the (possibly trimmed) line. The source tests them one
   * after another; their prefixes exclude each other, so at most one applies.
   */
  function Directive(st: ParserState, line: string): (r: Result<ParserState>)
    requires WellFormed(st)
    ensures r.Ok? ==> WellFormed(r.value)
  {
    if StartsWith(line, "path") then
      var parts := Split(line, '=');
      if |parts| != 2 then Err(PATH_FORM)
      else Ok(st.(path := Some(WithSlash(Trim(parts[1]))), definingDimension := false))
    else if StartsWith(line, "name_format") then
      var parts := Split(line, '=');
      if |parts| != 2 then Err(NAME_FORMAT_FORM)
      else Ok(st.(nameFormat := Some(Trim(parts[1])), definingDimension := false))
    else if StartsWith(line, "plot_by") then
      var parts := Split(line, '=');
      if |parts| != 2 then Err(PLOT_BY_FORM)
      else Ok(st.(plotByField := Some(Trim(parts[1])), definingDimension := false))
    else if StartsWith(line, "grid_") then
      var parts := Split(line, '=');
      if |parts| != 2 then Err(GRID_FORM)
      else Ok(st.(gridConfigLines := st.gridConfigLines + [GridLine(parts[0], parts[1])],
                  definingDimension := false))
    else Ok(st)
  }

  /** One iteration of the reading loop. */
  function Step(st: ParserState, line: string): (r: Result<ParserState>)
    requires WellFormed(st)
    ensures r.Ok? ==> WellFormed(r.value)
  {
    if StartsWith(line, "#") || IsBlank(line) then Ok(st)
    else match BracketGroup(line)
      case Some(g) =>
        Ok(st.(definingDimension := true,
               dimensions := if st.definingDimension then st.dimensions + [st.currentDimension.value]
                             else st.dimensions,
               currentDimension := Some(NewDimension(st.nextRef, if g == "." then "" else g, g, [])),
               nextRef := st.nextRef + 1))
      case None =>
        if st.definingDimension && !IsBlank(line) then
          var t := Trim(line);
          Directive(st.(currentDimension := Some(st.currentDimension.value.AddValue(BlockValue(t)))), t)
        else Directive(st, line)
  }

  /** The state after reading `lines`, or the message of the exception raised. */
  function Scan(lines: seq<string>, firstRef: nat): (r: Result<ParserState>)
    ensures r.Ok? ==> WellFormed(r.value)
  {
    if |lines| == 0 then Ok(InitialState(firstRef))
    else match Scan(lines[..|lines| - 1], firstRef)
      case Err(m) => Err(m)
      case Ok(st) => Step(st, lines[|lines| - 1])
  }

  /** The dimension list once end of input has appended a block still open. */
  function ClosedDimensions(st: ParserState): seq<Dimension>
    requires WellFormed(st)
  {
    if st.definingDimension then st.dimensions + [st.currentDimension.value] else st.dimensions
  }

  // ---------------------------------------------------------------------------
  // Validation and the grid
  // ---------------------------------------------------------------------------

  /** The index of the first dimension called `name`. */
  function FirstNamed(dims: seq<Dimension>, name: string): (r: Option<nat>)
    ensures r.Some? ==> r.value < |dims| && dims[r.value].dimName == name
    ensures r.Some? ==> forall j :: 0 <= j < r.value ==> dims[j].dimName != name
    ensures r.None? ==> forall j :: 0 <= j < |dims| ==> dims[j].dimName != name
  {
    if |dims| == 0 then None
    else if dims[0].dimName == name then Some(0)
    else match FirstNamed(dims[1..], name)
      case Some(k) => Some(k + 1)
      case None => None
  }

  /** Row and column of a grid key: `key.split("_")`, then parseInt on parts 1 and 2 (trimmed). */
  function GridIndices(key: string): (r: Result<(Int32, Int32)>)
    ensures r.Err? ==> r.msg in {GRID_FORM, GRID_ROW_FORM + key, GRID_COL_FORM + key}
  {
    var idx := Split(key, '_');
    if |idx| != 3 then Err(GRID_FORM)
    else match ParseInt(idx[1])
      case None => Err(GRID_ROW_FORM + key)
      case Some(row) =>
        match ParseInt(Trim(idx[2]))
        case None => Err(GRID_COL_FORM + key)
        case Some(col) => Ok((row, col))
  }

  function Max(a: int, b: int): int { if a >= b then a else b }

  /** The cell value of a grid line: its right side trimmed, `.` standing for the empty string. */
  function CellContents(l: GridLine): string
  {
    var t := Trim(l.contents);
    if "." == t then "" else t
  }

  /** A grid line once its key is read: row, column and cell value. */
  datatype GridEntry = GridEntry(row: Int32, col: Int32, contents: string)

  /** The grid lines read in order, or the message for the first whose key is malformed. */
  function GridEntries(lines: seq<GridLine>): (r: Result<seq<GridEntry>>)
    ensures r.Ok? ==> |r.value| == |lines|
  {
    if |lines| == 0 then Ok([])
    else match GridEntries(lines[..|lines| - 1])
      case Err(m) => Err(m)
      case Ok(es) =>
        match GridIndices(lines[|lines| - 1].key)
        case Err(m) => Err(m)
        case Ok(rc) =>
          Ok(es + [GridEntry(rc.0, rc.1, CellContents(lines[|lines| - 1]))])
  }

  datatype GridSize = GridSize(rows: Int32, cols: Int32)

  /** `gridRows = Math.max(row + 1, gridRows)`, likewise for columns, with Java's wrapping `+`. */
  function SizeOf(es: seq<GridEntry>): (sz: GridSize)
    ensures sz.rows >= 0 && sz.cols >= 0
  {
    if |es| == 0 then GridSize(0, 0)
    else
      var sz := SizeOf(es[..|es| - 1]);
      var e := es[|es| - 1];
      GridSize(Max(AddInt32(e.row, 1), sz.rows), Max(AddInt32(e.col, 1), sz.cols))
  }

  /** The sizing loop's result: the size, or the message for the first malformed key. */
  function SizeGrid(lines: seq<GridLine>): Result<GridSize>
  {
    match GridEntries(lines)
    case Err(m) => Err(m)
    case Ok(es) => Ok(SizeOf(es))
  }

  function EmptyGrid(rows: nat, cols: nat): (g: Grid)
    ensures IsRect(g, rows, cols)
    ensures forall r, c :: 0 <= r < rows && 0 <= c < cols ==> g[r][c] == None
  {
    seq(rows, _ => seq(cols, _ => None))
  }

  /**
   * `gridLayout[row][col] = contents` for each entry in order; `None` when an entry
   * names a cell outside the array (ArrayIndexOutOfBoundsException).
   */
  function FillGrid(rows: nat, cols: nat, es: seq<GridEntry>): (r: Option<Grid>)
    ensures r.Some? ==> IsRect(r.value, rows, cols)
  {
    if |es| == 0 then Some(EmptyGrid(rows, cols))
    else match FillGrid(rows, cols, es[..|es| - 1])
      case None => None
      case Some(g) =>
        var e := es[|es| - 1];
        if 0 <= e.row < rows && 0 <= e.col < cols
        then Some(g[e.row := g[e.row][e.col := Some(e.contents)]])
        else None
  }

  /** What follows the line pass: the checks in their order, then the grid. */
  function Validate(st: ParserState): Outcome
    requires WellFormed(st)
  {
    var dims := ClosedDimensions(st);
    if st.path.None? then ConfigException(NO_PATH)
    else if st.nameFormat.None? then ConfigException(NO_NAME_FORMAT)
    else if st.plotByField.None? then ConfigException(NO_PLOT_BY)
    else if |dims| == 0 then ConfigException(NO_DIMENSIONS)
    else match FirstNamed(dims, st.plotByField.value)
      case None => ConfigException(NoPlotDimension(st.plotByField.value))
      case Some(index) =>
        BuildGrid(Config(st.path.value, st.nameFormat.value, st.plotByField.value, index, 0, 0, [], dims),
                  st.gridConfigLines)
  }

  /**
   * The grid phase, on the object as the checks leave it (no rows, no columns, no
   * layout yet): size the grid from the queued `grid_` lines, then fill it.
   */
  function BuildGrid(c: Config, lines: seq<GridLine>): Outcome
  {
    match GridEntries(lines)
    case Err(m) => ConfigException(m)
    case Ok(entries) =>
      var sz := SizeOf(entries);
      if sz.rows == 0 || sz.cols == 0 then ConfigException(NO_GRID)
      else match FillGrid(sz.rows as nat, sz.cols as nat, entries)
        case None => UncheckedFailure(ARRAY_INDEX)
        case Some(grid) => Success(c.(gridRows := sz.rows as nat, gridCols := sz.cols as nat, gridLayout := grid))
  }

  /** The whole constructor: the line pass, then the checks and the grid. */
  function ParseSpec(lines: seq<string>, firstRef: nat): Outcome
  {
    match Scan(lines, firstRef)
    case Err(m) => ConfigException(m)
    case Ok(st) => Validate(st)
  }

  // ---------------------------------------------------------------------------
  // The constructor's loops
  // ---------------------------------------------------------------------------

  lemma {:induction false} ScanErrSticky(lines: seq<string>, k: nat, firstRef: nat)
    requires k <= |lines| && Scan(lines[..k], firstRef).Err?
    ensures Scan(lines, firstRef) == Scan(lines[..k], firstRef)
    decreases |lines| - k
  {
    if k < |lines| {
      assert lines[..k + 1][..k] == lines[..k];
      ScanErrSticky(lines, k + 1, firstRef);
    } else {
      assert lines[..k] == lines;
    }
  }

  /** No line starts with two of the four directive keys. */
  lemma {:induction false} DirectivePrefixesExclusive(line: string)
    ensures StartsWith(line, "path") ==> !StartsWith(line, "name_format") && !StartsWith(line, "plot_by") && !StartsWith(line, "grid_")
    ensures StartsWith(line, "name_format") ==> !StartsWith(line, "plot_by") && !StartsWith(line, "grid_")
    ensures StartsWith(line, "plot_by") ==> !StartsWith(line, "grid_")
  {
    if StartsWith(line, "path") { assert line[0] == "path"[0] && line[1] == "path"[1]; }
    if StartsWith(line, "name_format") { assert line[0] == "name_format"[0]; }
    if StartsWith(line, "plot_by") { assert line[0] == "plot_by"[0] && line[1] == "plot_by"[1]; }
    if StartsWith(line, "grid_") { assert line[0] == "grid_"[0]; }
  }

  /** The four directive tests of the reading loop, one after another (Config.java lines 98-167). */
  method ApplyDirectives(st0: ParserState, line: string) returns (r: Result<ParserState>)
    requires WellFormed(st0)
    ensures r == Directive(st0, line)
  {
    DirectivePrefixesExclusive(line);
    var st := st0;
    if StartsWith(line, "path") {
      var pathSplit := Split(line, '=');
      if |pathSplit| != 2 {
        return Err(PATH_FORM);
      }
      var path := Trim(pathSplit[1]);
      if !EndsWith(path, "/") {
        path := path + "/";
      }
      st := st.(path := Some(path), definingDimension := false);
    }
    if StartsWith(line, "name_format") {
      var nfSplit := Split(line, '=');
      if |nfSplit| != 2 {
        return Err(NAME_FORMAT_FORM);
      }
      st := st.(nameFormat := Some(Trim(nfSplit[1])), definingDimension := false);
    }
    if StartsWith(line, "plot_by") {
      var pbSplit := Split(line, '=');
      if |pbSplit| != 2 {
        return Err(PLOT_BY_FORM);
      }
      st := st.(plotByField := Some(Trim(pbSplit[1])), definingDimension := false);
    }
    if StartsWith(line, "grid_") {
      var gridSplit := Split(line, '=');
      if |gridSplit| != 2 {
        return Err(GRID_FORM);
      }
      st := st.(gridConfigLines := st.gridConfigLines + [GridLine(gridSplit[0], gridSplit[1])],
                definingDimension := false);
    }
    return Ok(st);
  }

  /** One iteration of the reading loop (Config.java lines 61-96, then the directives). */
  method ReadLine(st0: ParserState, line0: string) returns (r: Result<ParserState>)
    requires WellFormed(st0)
    ensures r == Step(st0, line0)
  {
    if StartsWith(line0, "#") || IsBlank(line0) {
      assert Step(st0, line0) == Ok(st0);
      return Ok(st0);
    }
    var m := BracketGroup(line0);
    if m.Some? {
      var st := OpenBlock(st0, m.value);
      assert Step(st0, line0) == Ok(st);
      return Ok(st);
    }
    var st, line := BlockLine(st0, line0);
    r := ApplyDirectives(st, line);
  }

  /** A `[name]` line: the open block (if any) is closed and a new one opened. */
  method OpenBlock(st0: ParserState, group: string) returns (st: ParserState)
    requires WellFormed(st0)
    ensures st == st0.(definingDimension := true,
                       dimensions := if st0.definingDimension then st0.dimensions + [st0.currentDimension.value]
                                     else st0.dimensions,
                       currentDimension := Some(NewDimension(st0.nextRef, if group == "." then "" else group, group, [])),
                       nextRef := st0.nextRef + 1)
  {
    st := st0;
    if st.definingDimension {
      st := st.(dimensions := st.dimensions + [st.currentDimension.value]);
    } else {
      st := st.(definingDimension := true);
    }
    var name := group;
    var title := group;
    if "." == name {
      name := "";
    }
    st := st.(currentDimension := Some(NewDimension(st.nextRef, name, title, [])), nextRef := st.nextRef + 1);
  }

  /** Any other line: inside a block it is trimmed and becomes a value of the block. */
  method BlockLine(st0: ParserState, line0: string) returns (st: ParserState, line: string)
    requires WellFormed(st0) && !StartsWith(line0, "#") && !IsBlank(line0) && BracketGroup(line0).None?
    ensures WellFormed(st)
    ensures Directive(st, line) == Step(st0, line0)
  {
    st := st0;
    line := line0;
    if st.definingDimension && !IsBlank(line) {
      line := Trim(line);
      if line == "." {
        st := st.(currentDimension := Some(st.currentDimension.value.AddValue("")));
      } else {
        st := st.(currentDimension := Some(st.currentDimension.value.AddValue(line)));
      }
    }
  }

  /** The reading loop of the constructor (Config.java lines 57-168). */
  method ReadConfigLines(lines: seq<string>, firstRef: nat) returns (r: Result<ParserState>)
    ensures r == Scan(lines, firstRef)
  {
    var st := InitialState(firstRef);
    var i := 0;
    while i < |lines|
      invariant 0 <= i <= |lines|
      invariant Scan(lines[..i], firstRef) == Ok(st)
    {
      assert lines[..i + 1][..i] == lines[..i];
      var next := ReadLine(st, lines[i]);
      i := i + 1;
      if next.Err? {
        ScanErrSticky(lines, i, firstRef);
        return next;
      }
      st := next.value;
    }
    assert lines[..i] == lines;
    return Ok(st);
  }

  lemma {:induction false} GridEntriesErrSticky(lines: seq<GridLine>, k: nat)
    requires k <= |lines| && GridEntries(lines[..k]).Err?
    ensures GridEntries(lines) == GridEntries(lines[..k])
    decreases |lines| - k
  {
    if k < |lines| {
      assert lines[..k + 1][..k] == lines[..k];
      GridEntriesErrSticky(lines, k + 1);
    } else {
      assert lines[..k] == lines;
    }
  }

  lemma {:induction false} FillGridNoneSticky(rows: nat, cols: nat, es: seq<GridEntry>, k: nat)
    requires k <= |es| && FillGrid(rows, cols, es[..k]).None?
    ensures FillGrid(rows, cols, es).None?
    decreases |es| - k
  {
    if k < |es| {
      assert es[..k + 1][..k] == es[..k];
      FillGridNoneSticky(rows, cols, es, k + 1);
    } else {
      assert es[..k] == es;
    }
  }

  /** The search for the plot-by dimension (Config.java lines 193-200). */
  method FindPlotByIndex(dimensions: seq<Dimension>, plotByField: string) returns (plotDimFound: bool, plotByFieldIndex: nat)
    ensures plotDimFound <==> exists j :: 0 <= j < |dimensions| && dimensions[j].dimName == plotByField
    ensures plotDimFound ==> plotByFieldIndex < |dimensions| && dimensions[plotByFieldIndex].dimName == plotByField
    ensures plotDimFound ==> forall j :: 0 <= j < plotByFieldIndex ==> dimensions[j].dimName != plotByField
    ensures plotDimFound == FirstNamed(dimensions, plotByField).Some?
    ensures plotDimFound ==> plotByFieldIndex == FirstNamed(dimensions, plotByField).value
  {
    plotDimFound := false;
    plotByFieldIndex := 0;
    var i := 0;
    while i < |dimensions|
      invariant 0 <= i <= |dimensions|
      invariant forall j :: 0 <= j < i ==> dimensions[j].dimName != plotByField
    {
      if dimensions[i].dimName == plotByField {
        plotDimFound := true;
        plotByFieldIndex := i;
        break;
      }
      i := i + 1;
    }
  }

  /** One more grid line: its key's error, or its entry appended. */
  lemma {:induction false} GridEntriesStep(lines: seq<GridLine>, i: nat, entries: seq<GridEntry>)
    requires i < |lines| && GridEntries(lines[..i]) == Ok(entries)
    ensures GridIndices(lines[i].key).Err? ==>
              GridEntries(lines[..i + 1]) == Err(GridIndices(lines[i].key).msg)
    ensures GridIndices(lines[i].key).Ok? ==>
              var rc := GridIndices(lines[i].key).value;
              GridEntries(lines[..i + 1]) == Ok(entries + [GridEntry(rc.0, rc.1, CellContents(lines[i]))])
  {
    assert lines[..i + 1][..i] == lines[..i];
  }

  /** `key.split("_")` and the two parseInt calls, each failure with its own message. */
  method ReadGridKey(key: string) returns (r: Result<(Int32, Int32)>)
    ensures r == GridIndices(key)
  {
    var gridIndices := Split(key, '_');
    if |gridIndices| != 3 {
      return Err(GRID_FORM);
    }
    var row := ParseInt(gridIndices[1]);
    if row.None? {
      return Err(GRID_ROW_FORM + key);
    }
    var col := ParseInt(Trim(gridIndices[2]));
    if col.None? {
      return Err(GRID_COL_FORM + key);
    }
    return Ok((row.value, col.value));
  }

  /** One pass of the sizing loop: read the key, then widen the grid to hold its cell. */
  method SizeGridLine(gridConfigLine: GridLine, gridRows: Int32, gridCols: Int32) returns (r: Result<GridSize>)
    ensures GridIndices(gridConfigLine.key).Err? ==> r == Err(GridIndices(gridConfigLine.key).msg)
    ensures GridIndices(gridConfigLine.key).Ok? ==>
              var rc := GridIndices(gridConfigLine.key).value;
              r == Ok(GridSize(Max(AddInt32(rc.0, 1), gridRows), Max(AddInt32(rc.1, 1), gridCols)))
  {
    var indices := ReadGridKey(gridConfigLine.key);
    if indices.Err? {
      return Err(indices.msg);
    }
    var (row, col) := indices.value;
    return Ok(GridSize(Max(AddInt32(row, 1), gridRows), Max(AddInt32(col, 1), gridCols)));
  }

  /** The sizing loop over the grid lines (Config.java lines 211-235). */
  method SizeGridLines(gridConfigLines: seq<GridLine>) returns (r: Result<GridSize>)
    ensures r == SizeGrid(gridConfigLines)
  {
    var size := GridSize(0, 0);
    ghost var entries: seq<GridEntry> := [];
    var i := 0;
    while i < |gridConfigLines|
      invariant 0 <= i <= |gridConfigLines|
      invariant GridEntries(gridConfigLines[..i]) == Ok(entries)
      invariant SizeOf(entries) == size
    {
      var step := SizeGridLine(gridConfigLines[i], size.rows, size.cols);
      GridEntriesStep(gridConfigLines, i, entries);
      if step.Err? {
        GridEntriesErrSticky(gridConfigLines, i + 1);
        return step;
      }
      size := step.value;
      ghost var rc := GridIndices(gridConfigLines[i].key).value;
      ghost var e := GridEntry(rc.0, rc.1, CellContents(gridConfigLines[i]));
      assert (entries + [e])[..|entries|] == entries;
      entries := entries + [e];
      i := i + 1;
    }
    assert gridConfigLines[..i] == gridConfigLines;
    return Ok(size);
  }

  /** Each entry is its line's key and trimmed contents. */
  lemma {:induction false} GridEntriesAt(lines: seq<GridLine>, k: nat)
    requires GridEntries(lines).Ok? && k < |lines|
    ensures var e := GridEntries(lines).value[k];
            GridIndices(lines[k].key) == Ok((e.row, e.col)) && e.contents == CellContents(lines[k])
  {
    var n := |lines| - 1;
    assert lines[..n + 1] == lines;
    if k < n {
      GridEntriesAt(lines[..n], k);
    }
  }

  /** The key and the contents of grid line `k`, read again as the filling loop does. */
  method ReadGridLine(gridConfigLines: seq<GridLine>, k: nat, ghost entries: seq<GridEntry>)
    returns (row: Int32, col: Int32, gridContents: string)
    requires GridEntries(gridConfigLines) == Ok(entries) && k < |gridConfigLines|
    ensures row == entries[k].row && col == entries[k].col && gridContents == entries[k].contents
  {
    GridEntriesAt(gridConfigLines, k);
    var indices := ReadGridKey(gridConfigLines[k].key);
    gridContents := Trim(gridConfigLines[k].contents);
    if "." == gridContents {
      gridContents := "";
    }
    row, col := indices.value.0, indices.value.1;
  }

  /** One more entry: the cell it names is overwritten, or the fill fails when it is outside. */
  lemma {:induction false} FillGridStep(rows: nat, cols: nat, es: seq<GridEntry>, i: nat)
    requires i < |es| && FillGrid(rows, cols, es[..i]).Some?
    ensures var e := es[i];
            var g := FillGrid(rows, cols, es[..i]).value;
            FillGrid(rows, cols, es[..i + 1]) ==
              if 0 <= e.row < rows && 0 <= e.col < cols
              then Some(g[e.row := g[e.row][e.col := Some(e.contents)]])
              else None
  {
    assert es[..i + 1][..i] == es[..i];
  }

  /** The array's cells as a value. */
  method Snapshot(a: array2<Option<string>>) returns (g: Grid)
    ensures IsRect(g, a.Length0, a.Length1)
    ensures forall x, y :: 0 <= x < a.Length0 && 0 <= y < a.Length1 ==> g[x][y] == a[x, y]
  {
    g := seq(a.Length0, x requires 0 <= x < a.Length0 reads a =>
           seq(a.Length1, y requires 0 <= y < a.Length1 reads a => a[x, y]));
  }

  /**
   * One pass of the filling loop: read line `i` again and write its cell, or report
   * that the cell lies outside the array; no other cell changes.
   */
  method FillGridLine(gridLayout: array2<Option<string>>, gridConfigLines: seq<GridLine>, i: nat,
                      ghost entries: seq<GridEntry>) returns (inside: bool)
    requires GridEntries(gridConfigLines) == Ok(entries) && i < |gridConfigLines|
    modifies gridLayout
    ensures var e := entries[i];
            inside <==> 0 <= e.row < gridLayout.Length0 && 0 <= e.col < gridLayout.Length1
    ensures var e := entries[i];
            forall x, y :: 0 <= x < gridLayout.Length0 && 0 <= y < gridLayout.Length1 ==>
              gridLayout[x, y] == if inside && x == e.row && y == e.col then Some(e.contents) else old(gridLayout[x, y])
  {
    var row, col, gridContents := ReadGridLine(gridConfigLines, i, entries);
    if !(0 <= row < gridLayout.Length0 && 0 <= col < gridLayout.Length1) {
      return false;
    }
    gridLayout[row, col] := Some(gridContents);
    return true;
  }

  /** The cells of a grid after one cell is replaced. */
  lemma {:induction false} UpdateCell(g: Grid, row: nat, col: nat, v: Option<string>, rows: nat, cols: nat)
    requires IsRect(g, rows, cols) && row < rows && col < cols
    ensures IsRect(g[row := g[row][col := v]], rows, cols)
    ensures forall x, y :: 0 <= x < rows && 0 <= y < cols ==>
              g[row := g[row][col := v]][x][y] == if x == row && y == col then v else g[x][y]
  {
  }

  /** Two rectangular grids of the same shape with the same cells are the same grid. */
  lemma {:induction false} SameCells(g: Grid, h: Grid, rows: nat, cols: nat)
    requires IsRect(g, rows, cols) && IsRect(h, rows, cols)
    requires forall x, y :: 0 <= x < rows && 0 <= y < cols ==> g[x][y] == h[x][y]
    ensures g == h
  {
    assert forall x :: 0 <= x < rows ==> g[x] == h[x];
  }

  /** The filling loop over an array of empty cells: the array ends up as `FillGrid`'s grid. */
  method FillCells(gridLayout: array2<Option<string>>, gridConfigLines: seq<GridLine>, ghost entries: seq<GridEntry>)
    returns (inside: bool)
    requires GridEntries(gridConfigLines) == Ok(entries)
    requires forall x, y :: 0 <= x < gridLayout.Length0 && 0 <= y < gridLayout.Length1 ==>
               gridLayout[x, y] == None
    modifies gridLayout
    ensures inside <==> FillGrid(gridLayout.Length0, gridLayout.Length1, entries).Some?
    ensures inside ==>
              forall x, y :: 0 <= x < gridLayout.Length0 && 0 <= y < gridLayout.Length1 ==>
                gridLayout[x, y] == FillGrid(gridLayout.Length0, gridLayout.Length1, entries).value[x][y]
  {
    ghost var g := EmptyGrid(gridLayout.Length0, gridLayout.Length1);
    var i := 0;
    while i < |gridConfigLines|
      invariant 0 <= i <= |gridConfigLines| == |entries|
      invariant FillGrid(gridLayout.Length0, gridLayout.Length1, entries[..i]) == Some(g)
      invariant IsRect(g, gridLayout.Length0, gridLayout.Length1)
      invariant forall x, y :: 0 <= x < gridLayout.Length0 && 0 <= y < gridLayout.Length1 ==>
                  gridLayout[x, y] == g[x][y]
    {
      inside := FillGridLine(gridLayout, gridConfigLines, i, entries);
      FillGridStep(gridLayout.Length0, gridLayout.Length1, entries, i);
      if !inside {
        FillGridNoneSticky(gridLayout.Length0, gridLayout.Length1, entries, i + 1);
        return false;
      }
      UpdateCell(g, entries[i].row, entries[i].col, Some(entries[i].contents), gridLayout.Length0, gridLayout.Length1);
      g := g[entries[i].row := g[entries[i].row][entries[i].col := Some(entries[i].contents)]];
      i := i + 1;
    }
    assert entries[..i] == entries;
    return true;
  }

  /** `new String[gridRows][gridCols]` and the filling loop (Config.java lines 240-255). */
  method FillGridLayout(gridRows: nat, gridCols: nat, gridConfigLines: seq<GridLine>, ghost entries: seq<GridEntry>)
    returns (r: Option<Grid>)
    requires GridEntries(gridConfigLines) == Ok(entries)
    ensures r == FillGrid(gridRows, gridCols, entries)
  {
    var gridLayout := new Option<string>[gridRows, gridCols]((_, _) => None);
    var inside := FillCells(gridLayout, gridConfigLines, entries);
    if !inside {
      return None;
    }
    var snapshot := Snapshot(gridLayout);
    SameCells(snapshot, FillGrid(gridRows, gridCols, entries).value, gridRows, gridCols);
    return Some(snapshot);
  }

  /** `new Config(file)`: Config.java lines 53-256, on the file's lines. */
  method Parse(lines: seq<string>, firstRef: nat) returns (r: Outcome)
    ensures r == ParseSpec(lines, firstRef)
  {
    var scanned := ReadConfigLines(lines, firstRef);
    if scanned.Err? {
      return ConfigException(scanned.msg);
    }
    var st := scanned.value;
    var dimensions := st.dimensions;
    if st.definingDimension {
      dimensions := dimensions + [st.currentDimension.value];
    }

    if st.path.None? {
      return ConfigException(NO_PATH);
    }
    if st.nameFormat.None? {
      return ConfigException(NO_NAME_FORMAT);
    }
    if st.plotByField.None? {
      return ConfigException(NO_PLOT_BY);
    }
    if |dimensions| == 0 {
      return ConfigException(NO_DIMENSIONS);
    }
    var plotDimFound, plotByFieldIndex := FindPlotByIndex(dimensions, st.plotByField.value);
    if !plotDimFound {
      return ConfigException(NoPlotDimension(st.plotByField.value));
    }

    var size := SizeGridLines(st.gridConfigLines);
    if size.Err? {
      return ConfigException(size.msg);
    }
    var gridRows, gridCols := size.value.rows, size.value.cols;
    if gridRows == 0 || gridCols == 0 {
      return ConfigException(NO_GRID);
    }
    ghost var entries := GridEntries(st.gridConfigLines).value;
    var gridLayout := FillGridLayout(gridRows as nat, gridCols as nat, st.gridConfigLines, entries);
    if gridLayout.None? {
      return UncheckedFailure(ARRAY_INDEX);
    }
    return Success(Config(st.path.value, st.nameFormat.value, st.plotByField.value, plotByFieldIndex,
                          gridRows as nat, gridCols as nat, gridLayout.value, dimensions));
  }
}
