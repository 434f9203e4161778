/**
 * What the checks after the line pass and the grid phase of the Config constructor
 * mean: the order of the checks, the grid size as the largest index plus one (with
 * Java's wrapping `+ 1`), which `grid_` lines end in an array-index failure, which
 * string each cell ends up holding, what a successful parse hands back, and what
 * Config.equals then compares.
 */
module ConfigChecks {
  import opened Wrappers
  import opened JavaString
  import opened Dimensions
  import opened Config
  import opened ConfigProperties

  // ---------------------------------------------------------------------------
  // Grid keys
  // ---------------------------------------------------------------------------

  /** The key a `grid_` line for a cell at row `r` and column `c` is written with. */
  function GridKey(r: nat, c: nat): string
  {
    "grid_" + Decimal(r) + "_" + Decimal(c)
  }

  /** Keys written with non-negative decimal indices read back as those indices. */
  lemma {:induction false} GridKeyRoundTrip(r: nat, c: nat)
    requires r <= INT_MAX && c <= INT_MAX
    ensures GridIndices(GridKey(r, c)) == Ok((r as Int32, c as Int32))
  {
    var cs := Decimal(c);
    GridKeySplit(r, c);
    ParseIntDecimal(r);
    ParseIntDecimal(c);
    DecimalTrimmed(c);
    assert ParseInt(Trim(cs)) == Some(c as Int32);
  }

  /** A written key splits at its two underscores. */
  lemma {:induction false} GridKeySplit(r: nat, c: nat)
    ensures Split(GridKey(r, c), '_') == ["grid", Decimal(r), Decimal(c)]
  {
    var rs, cs := Decimal(r), Decimal(c);
    assert '_' !in rs by { assert forall k :: 0 <= k < |rs| ==> IsDigit(rs[k]); }
    assert '_' !in cs by { assert forall k :: 0 <= k < |cs| ==> IsDigit(cs[k]); }
    assert '_' !in "grid";
    assert GridKey(r, c) == "grid" + ['_'] + rs + ['_'] + cs;
    SplitTriple("grid", rs, cs, '_');
  }

  /** Decimal digits carry no padding for trim to strip. */
  lemma {:induction false} DecimalTrimmed(n: nat)
    ensures Trim(Decimal(n)) == Decimal(n)
  {
    var ds := Decimal(n);
    assert !IsTrimmable(ds[0]) && !IsTrimmable(ds[|ds| - 1]) by {
      assert IsDigit(ds[0]) && IsDigit(ds[|ds| - 1]);
    }
    TrimPadded([], ds, []);
    assert [] + ds + [] == ds;
  }

  /** Every key reads exactly when the sizing pass gets through all grid lines. */
  predicate KeysRead(lines: seq<GridLine>)
  {
    forall k :: 0 <= k < |lines| ==> GridIndices(lines[k].key).Ok?
  }

  /** The keys of a prefix the sizing pass got through all read. */
  lemma {:induction false} EntriesKeysRead(lines: seq<GridLine>)
    requires GridEntries(lines).Ok?
    ensures KeysRead(lines)
  {
    forall k | 0 <= k < |lines| ensures GridIndices(lines[k].key).Ok? {
      GridEntriesAt(lines, k);
    }
  }

  /**
   * The grid lines are read in order and the first whose key does not give a row and
   * a column decides the message.
   */
  lemma {:induction false} GridEntriesFirstError(lines: seq<GridLine>)
    requires GridEntries(lines).Err?
    ensures exists k :: && 0 <= k < |lines| && GridIndices(lines[k].key) == Err(GridEntries(lines).msg)
                        && KeysRead(lines[..k])
  {
    var p := lines[..|lines| - 1];
    if GridEntries(p).Err? {
      GridEntriesFirstError(p);
      var k :| && 0 <= k < |p| && GridIndices(p[k].key) == Err(GridEntries(p).msg) && KeysRead(p[..k]);
      assert p[k] == lines[k] && p[..k] == lines[..k];
    } else {
      EntriesKeysRead(p);
      assert lines[..|p|] == p;
    }
  }

  /** The sizing pass gets through all grid lines exactly when every key reads. */
  lemma {:induction false} GridEntriesOkIff(lines: seq<GridLine>)
    ensures GridEntries(lines).Ok? <==> KeysRead(lines)
  {
    if GridEntries(lines).Ok? {
      EntriesKeysRead(lines);
    } else {
      GridEntriesFirstError(lines);
    }
  }

  // ---------------------------------------------------------------------------
  // Sizing
  // ---------------------------------------------------------------------------

  /**
   * The rows counted are the largest `row + 1` over the entries (0 with none), the
   * columns likewise, each `+ 1` in Java's 32-bit arithmetic.
   */
  lemma {:induction false} SizeOfIsMax(es: seq<GridEntry>)
    ensures forall k :: 0 <= k < |es| ==> AddInt32(es[k].row, 1) <= SizeOf(es).rows
    ensures forall k :: 0 <= k < |es| ==> AddInt32(es[k].col, 1) <= SizeOf(es).cols
    ensures SizeOf(es).rows == 0 || exists k :: 0 <= k < |es| && AddInt32(es[k].row, 1) == SizeOf(es).rows
    ensures SizeOf(es).cols == 0 || exists k :: 0 <= k < |es| && AddInt32(es[k].col, 1) == SizeOf(es).cols
  {
    if |es| > 0 {
      var p := es[..|es| - 1];
      SizeOfIsMax(p);
      assert forall k :: 0 <= k < |p| ==> p[k] == es[k];
      var l := |es| - 1;
      if SizeOf(es).rows != 0 && SizeOf(es).rows != AddInt32(es[l].row, 1) {
        var k :| 0 <= k < |p| && AddInt32(p[k].row, 1) == SizeOf(p).rows;
        assert AddInt32(es[k].row, 1) == SizeOf(es).rows;
      }
      if SizeOf(es).cols != 0 && SizeOf(es).cols != AddInt32(es[l].col, 1) {
        var k :| 0 <= k < |p| && AddInt32(p[k].col, 1) == SizeOf(p).cols;
        assert AddInt32(es[k].col, 1) == SizeOf(es).cols;
      }
    }
  }

  /** A cell the array of the constructor's size can hold. */
  predicate Inside(e: GridEntry, rows: int, cols: int)
  {
    0 <= e.row < rows && 0 <= e.col < cols
  }

  /** Indices for which Java's `+ 1` neither wraps nor points below the array. */
  predicate Indexable(e: GridEntry)
  {
    0 <= e.row < INT_MAX && 0 <= e.col < INT_MAX
  }

  /**
   * An entry fits the array sized from all entries exactly when its indices are
   * non-negative and below INT_MAX: a negative index is counted but not a valid
   * index, and INT_MAX + 1 wraps to INT_MIN, so that row or column is never counted.
   */
  lemma {:induction false} InsideSizedGrid(es: seq<GridEntry>, k: nat)
    requires k < |es|
    ensures Inside(es[k], SizeOf(es).rows, SizeOf(es).cols) <==> Indexable(es[k])
  {
    SizeOfIsMax(es);
  }

  // ---------------------------------------------------------------------------
  // Filling
  // ---------------------------------------------------------------------------

  /** The filling loop stops with an array-index failure exactly when some entry lies outside. */
  lemma {:induction false} FillGridNoneIff(rows: nat, cols: nat, es: seq<GridEntry>)
    ensures FillGrid(rows, cols, es).None? <==> exists k :: 0 <= k < |es| && !Inside(es[k], rows, cols)
  {
    if |es| > 0 {
      var p := es[..|es| - 1];
      FillGridNoneIff(rows, cols, p);
      assert forall k :: 0 <= k < |p| ==> p[k] == es[k];
    }
  }

  /** The value of the last entry for cell (r, c), or `None` when no entry names it. */
  function LastAt(es: seq<GridEntry>, r: int, c: int): (v: Option<string>)
  {
    if |es| == 0 then None
    else if es[|es| - 1].row == r && es[|es| - 1].col == c then Some(es[|es| - 1].contents)
    else LastAt(es[..|es| - 1], r, c)
  }

  /** LastAt means what it says: no entry, or the value of an entry no later entry overrides. */
  lemma {:induction false} LastAtMeans(es: seq<GridEntry>, r: int, c: int)
    ensures LastAt(es, r, c).None? <==> forall k :: 0 <= k < |es| ==> !(es[k].row == r && es[k].col == c)
    ensures LastAt(es, r, c).Some? ==>
              exists k :: && 0 <= k < |es| && es[k].row == r && es[k].col == c
                          && es[k].contents == LastAt(es, r, c).value
                          && forall j :: k < j < |es| ==> !(es[j].row == r && es[j].col == c)
  {
    if |es| > 0 {
      var p := es[..|es| - 1];
      LastAtMeans(p, r, c);
      assert forall k :: 0 <= k < |p| ==> p[k] == es[k];
    }
  }

  /**
   * Every cell of a filled grid holds the value of the last `grid_` line naming it;
   * cells no line names stay `None` (null).
   */
  lemma {:induction false} FillGridCells(rows: nat, cols: nat, es: seq<GridEntry>)
    requires FillGrid(rows, cols, es).Some?
    ensures forall r, c :: 0 <= r < rows && 0 <= c < cols ==> FillGrid(rows, cols, es).value[r][c] == LastAt(es, r, c)
  {
    if |es| > 0 {
      FillGridCells(rows, cols, es[..|es| - 1]);
    }
  }

  /**
   * The grid phase ends in an array-index failure exactly when every key reads, rows
   * and columns are both counted, and some line has a negative or INT_MAX index.
   */
  lemma {:induction false} ArrayIndexFailure(c: Config, lines: seq<GridLine>)
    ensures BuildGrid(c, lines).UncheckedFailure? <==>
              && GridEntries(lines).Ok?
              && SizeOf(GridEntries(lines).value).rows != 0 && SizeOf(GridEntries(lines).value).cols != 0
              && exists k :: 0 <= k < |lines| && !Indexable(GridEntries(lines).value[k])
  {
    if GridEntries(lines).Ok? {
      var es := GridEntries(lines).value;
      var sz := SizeOf(es);
      FillGridNoneIff(sz.rows, sz.cols, es);
      forall k | 0 <= k < |es|
        ensures Inside(es[k], sz.rows, sz.cols) <==> Indexable(es[k])
      {
        InsideSizedGrid(es, k);
      }
    }
  }

  /**
   * With every key readable, the grid phase says there is no grid exactly when no
   * line counts a row (all `row + 1` at most 0) or no line counts a column.
   */
  lemma {:induction false} NoGridIff(c: Config, lines: seq<GridLine>)
    requires GridEntries(lines).Ok?
    ensures var es := GridEntries(lines).value;
            BuildGrid(c, lines) == ConfigException(NO_GRID) <==>
              || (forall k :: 0 <= k < |es| ==> AddInt32(es[k].row, 1) <= 0)
              || (forall k :: 0 <= k < |es| ==> AddInt32(es[k].col, 1) <= 0)
  {
    SizeOfIsMax(GridEntries(lines).value);
  }

  // ---------------------------------------------------------------------------
  // The order of the checks
  // ---------------------------------------------------------------------------

  /**
   * The messages of the grid phase's key checks: the form message itself, or the row or
   * the column message followed by whatever text (the key).
   */
  predicate GridMessage(m: string)
  {
    m == GRID_FORM || StartsWith(m, GRID_ROW_FORM) || StartsWith(m, GRID_COL_FORM)
  }

  lemma {:induction false} GridIndicesMessage(key: string)
    ensures GridIndices(key).Err? ==> GridMessage(GridIndices(key).msg)
  {
    assert (GRID_ROW_FORM + key)[..|GRID_ROW_FORM|] == GRID_ROW_FORM;
    assert (GRID_COL_FORM + key)[..|GRID_COL_FORM|] == GRID_COL_FORM;
  }

  /** Every grid message opens with the form message, so its characters 4 and 40 are fixed. */
  lemma {:induction false} GridMessageShape(m: string)
    requires GridMessage(m)
    ensures |m| > 40 && m[4] == ' ' && m[40] == '"'
  {
    assert GRID_FORM[4] == ' ' && GRID_FORM[40] == '"';
    if m != GRID_FORM {
      var prefix := if StartsWith(m, GRID_ROW_FORM) then GRID_ROW_FORM else GRID_COL_FORM;
      assert prefix[..|GRID_FORM|] == GRID_FORM;
      assert m[..|prefix|] == prefix;
      assert m[4] == prefix[4] && m[40] == prefix[40];
    }
  }

  lemma {:induction false} GridEntriesMessage(lines: seq<GridLine>)
    requires GridEntries(lines).Err?
    ensures GridMessage(GridEntries(lines).msg)
  {
    GridEntriesFirstError(lines);
    var k :| 0 <= k < |lines| && GridIndices(lines[k].key) == Err(GridEntries(lines).msg) && KeysRead(lines[..k]);
    GridIndicesMessage(lines[k].key);
  }

  /** The grid phase raises only key messages and NO_GRID. */
  lemma {:induction false} BuildGridMessage(c: Config, lines: seq<GridLine>)
    ensures BuildGrid(c, lines).ConfigException? ==>
              GridMessage(BuildGrid(c, lines).msg) || BuildGrid(c, lines).msg == NO_GRID
  {
    if GridEntries(lines).Err? {
      GridEntriesMessage(lines);
    }
  }

  /** The validation messages differ from each other and from the grid phase's. */
  lemma {:induction false} MessagesDistinct(plotByField: string, m: string)
    requires GridMessage(m) || m == NO_GRID
    ensures NO_PATH != NO_NAME_FORMAT && NO_PATH != NO_PLOT_BY && NO_PATH != NO_DIMENSIONS
    ensures NO_NAME_FORMAT != NO_PLOT_BY && NO_NAME_FORMAT != NO_DIMENSIONS && NO_PLOT_BY != NO_DIMENSIONS
    ensures var np := NoPlotDimension(plotByField);
            np != NO_PATH && np != NO_NAME_FORMAT && np != NO_PLOT_BY && np != NO_DIMENSIONS
    ensures m !in {NO_PATH, NO_NAME_FORMAT, NO_PLOT_BY, NO_DIMENSIONS, NoPlotDimension(plotByField)}
  {
    var np := NoPlotDimension(plotByField);
    assert |NO_PATH| == 47 && |NO_NAME_FORMAT| == 54 && |NO_PLOT_BY| == 50 && |NO_DIMENSIONS| == 39;
    assert |NO_GRID| == 67 && |np| >= 67;
    assert np[4] == 'h';
    if m == NO_GRID {
      assert NO_GRID[66] == '!' && np[|np| - 1] == 'n';
    } else {
      GridMessageShape(m);
      assert NO_PATH[40] == ' ' && NO_NAME_FORMAT[40] == ' ' && NO_PLOT_BY[40] == 't';
    }
  }

  /*
   * The checks run in a fixed order and each message names the first that fails:
   * missing path, missing name_format, missing plot_by, no dimension, no dimension
   * called plot_by. One lemma per message.
   */

  lemma {:induction false} ValidateNoPath(st: ParserState)
    requires WellFormed(st)
    ensures Validate(st) == ConfigException(NO_PATH) <==> st.path.None?
  {
    ValidateFacts(st);
  }

  lemma {:induction false} ValidateNoNameFormat(st: ParserState)
    requires WellFormed(st)
    ensures Validate(st) == ConfigException(NO_NAME_FORMAT) <==> st.path.Some? && st.nameFormat.None?
  {
    ValidateFacts(st);
  }

  lemma {:induction false} ValidateNoPlotBy(st: ParserState)
    requires WellFormed(st)
    ensures Validate(st) == ConfigException(NO_PLOT_BY) <==>
              st.path.Some? && st.nameFormat.Some? && st.plotByField.None?
  {
    ValidateFacts(st);
  }

  lemma {:induction false} ValidateNoDimensions(st: ParserState)
    requires WellFormed(st)
    ensures Validate(st) == ConfigException(NO_DIMENSIONS) <==>
              st.path.Some? && st.nameFormat.Some? && st.plotByField.Some? && |ClosedDimensions(st)| == 0
  {
    ValidateFacts(st);
  }

  lemma {:induction false} ValidateNoPlotDimension(st: ParserState)
    requires WellFormed(st) && st.plotByField.Some?
    ensures var dims := ClosedDimensions(st);
            Validate(st) == ConfigException(NoPlotDimension(st.plotByField.value)) <==>
              && st.path.Some? && st.nameFormat.Some? && |dims| > 0
              && forall j :: 0 <= j < |dims| ==> dims[j].dimName != st.plotByField.value
  {
    ValidateFacts(st);
  }

  /** The facts the five lemmas above rest on: the outcome per case, and the messages all differ. */
  lemma {:induction false} ValidateFacts(st: ParserState)
    requires WellFormed(st)
    ensures var v := Validate(st);
            var dims := ClosedDimensions(st);
            if st.path.None? then v == ConfigException(NO_PATH)
            else if st.nameFormat.None? then v == ConfigException(NO_NAME_FORMAT)
            else if st.plotByField.None? then v == ConfigException(NO_PLOT_BY)
            else if |dims| == 0 then v == ConfigException(NO_DIMENSIONS)
            else if FirstNamed(dims, st.plotByField.value).None? then v == ConfigException(NoPlotDimension(st.plotByField.value))
            else v.ConfigException? ==>
                   v.msg !in {NO_PATH, NO_NAME_FORMAT, NO_PLOT_BY, NO_DIMENSIONS, NoPlotDimension(st.plotByField.value)}
    ensures NO_PATH != NO_NAME_FORMAT && NO_PATH != NO_PLOT_BY && NO_PATH != NO_DIMENSIONS
    ensures NO_NAME_FORMAT != NO_PLOT_BY && NO_NAME_FORMAT != NO_DIMENSIONS && NO_PLOT_BY != NO_DIMENSIONS
    ensures st.plotByField.Some? ==>
              var np := NoPlotDimension(st.plotByField.value);
              np != NO_PATH && np != NO_NAME_FORMAT && np != NO_PLOT_BY && np != NO_DIMENSIONS
  {
    ValidateCases(st);
    var pb := if st.plotByField.Some? then st.plotByField.value else "";
    var v := Validate(st);
    if v.ConfigException? && (GridMessage(v.msg) || v.msg == NO_GRID) {
      MessagesDistinct(pb, v.msg);
    } else {
      MessagesDistinct(pb, NO_GRID);
    }
  }

  /**
   * Which check fails first decides the outcome; past all of them the grid phase
   * decides, and it raises only key messages and NO_GRID.
   */
  lemma {:induction false} ValidateCases(st: ParserState)
    requires WellFormed(st)
    ensures var v := Validate(st);
            var dims := ClosedDimensions(st);
            if st.path.None? then v == ConfigException(NO_PATH)
            else if st.nameFormat.None? then v == ConfigException(NO_NAME_FORMAT)
            else if st.plotByField.None? then v == ConfigException(NO_PLOT_BY)
            else if |dims| == 0 then v == ConfigException(NO_DIMENSIONS)
            else if FirstNamed(dims, st.plotByField.value).None? then v == ConfigException(NoPlotDimension(st.plotByField.value))
            else v.ConfigException? ==> GridMessage(v.msg) || v.msg == NO_GRID
  {
    var dims := ClosedDimensions(st);
    if st.path.Some? && st.nameFormat.Some? && st.plotByField.Some? && |dims| > 0 {
      var pb := st.plotByField.value;
      if FirstNamed(dims, pb).Some? {
        var c := Config(st.path.value, st.nameFormat.value, pb, FirstNamed(dims, pb).value, 0, 0, [], dims);
        BuildGridMessage(c, st.gridConfigLines);
      }
    }
  }

  /** The line pass raises only the four directive-form messages. */
  lemma {:induction false} ScanMessage(lines: seq<string>, firstRef: nat)
    requires Scan(lines, firstRef).Err?
    ensures Scan(lines, firstRef).msg in {PATH_FORM, NAME_FORMAT_FORM, PLOT_BY_FORM, GRID_FORM}
  {
    var p, l := lines[..|lines| - 1], lines[|lines| - 1];
    if Scan(p, firstRef).Err? {
      ScanMessage(p, firstRef);
    } else {
      var st := Scan(p, firstRef).value;
      if st.definingDimension && BracketGroup(l).None? && !IsSkipped(l) {
        DirectiveFailsIff(st.(currentDimension := Some(st.currentDimension.value.AddValue(BlockValue(Trim(l))))), Trim(l));
      } else if BracketGroup(l).None? && !IsSkipped(l) {
        DirectiveFailsIff(st, l);
      }
    }
  }

  // ---------------------------------------------------------------------------
  // A successful parse
  // ---------------------------------------------------------------------------

  /**
   * A parsed Config is valid, and its dimensions are distinct objects, created in
   * file order, drawn from the `|lines|` numbers after `firstRef`.
   */
  lemma {:induction false} ParseValid(lines: seq<string>, firstRef: nat)
    requires ParseSpec(lines, firstRef).Success?
    ensures ParseSpec(lines, firstRef).config.Valid()
    ensures RefsIncreasingWithin(ParseSpec(lines, firstRef).config.dimensions, firstRef, firstRef + |lines|)
  {
    var st := Scan(lines, firstRef).value;
    ScanInvariants(lines, firstRef);
    ClosedRefs(st, firstRef);
    ValidateSuccess(st);
    var c := ParseSpec(lines, firstRef).config;
    BuildGridSuccess(c.(gridRows := 0, gridCols := 0, gridLayout := []), st.gridConfigLines);
  }

  /** Every cell of the layout holds the last value written to it, `None` if none was. */
  predicate LastWritesWin(c: Config, es: seq<GridEntry>)
  {
    && IsRect(c.gridLayout, c.gridRows, c.gridCols)
    && forall r, col :: 0 <= r < c.gridRows && 0 <= col < c.gridCols ==> c.gridLayout[r][col] == LastAt(es, r, col)
  }

  /**
   * Each cell of a parsed grid holds the trimmed value of the last `grid_` line whose
   * key names it (`.` read as ""), and `None` when no line names it.
   */
  lemma {:induction false} ParseGridCells(lines: seq<string>, firstRef: nat)
    requires ParseSpec(lines, firstRef).Success?
    ensures Scan(lines, firstRef).Ok? && GridEntries(Scan(lines, firstRef).value.gridConfigLines).Ok?
    ensures LastWritesWin(ParseSpec(lines, firstRef).config, GridEntries(Scan(lines, firstRef).value.gridConfigLines).value)
  {
    var st := Scan(lines, firstRef).value;
    ValidateSuccess(st);
    var c := ParseSpec(lines, firstRef).config;
    BuildGridSuccess(c.(gridRows := 0, gridCols := 0, gridLayout := []), st.gridConfigLines);
    FillGridCells(c.gridRows, c.gridCols, GridEntries(st.gridConfigLines).value);
  }

  // ---------------------------------------------------------------------------
  // Config.equals
  // ---------------------------------------------------------------------------

  /**
   * equals is reflexive, symmetric and transitive, false for null, and blind to
   * `path` and `plotByFieldIndex`.
   */
  lemma {:induction false} EqualsProperties(a: Config, b: Config, c: Config, p: string, i: nat)
    ensures a.Equals(Some(a)) && !a.Equals(None)
    ensures a.Equals(Some(b)) ==> b.Equals(Some(a))
    ensures a.Equals(Some(b)) && b.Equals(Some(c)) ==> a.Equals(Some(c))
    ensures a.Equals(Some(a.(path := p, plotByFieldIndex := i)))
  {
  }

  /**
   * Configs read by two constructor calls are never equal, even from the same lines:
   * equals compares the dimension lists by object identity.
   */
  lemma {:induction false} SeparateParsesNeverEqual(lines1: seq<string>, firstRef1: nat, lines2: seq<string>, firstRef2: nat)
    requires ParseSpec(lines1, firstRef1).Success? && ParseSpec(lines2, firstRef2).Success?
    requires firstRef1 + |lines1| <= firstRef2
    ensures !ParseSpec(lines1, firstRef1).config.Equals(Some(ParseSpec(lines2, firstRef2).config))
  {
    ParseValid(lines1, firstRef1);
    ParseValid(lines2, firstRef2);
    var d1, d2 := ParseSpec(lines1, firstRef1).config.dimensions, ParseSpec(lines2, firstRef2).config.dimensions;
    assert d1[0].ref < d2[0].ref;
  }
}
