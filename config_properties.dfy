/**
 * What the configuration format means, stated over `Config.ParseSpec` and the
 * functions it is made of: which lines are ignored, how `[name]` headers are found,
 * how a block collects its values and how a directive loses it, how the checks are
 * ordered, how the grid is sized and filled, and what `equals` compares.
 */
module ConfigProperties {
  import opened Wrappers
  import opened JavaString
  import opened Dimensions
  import opened Config

  // ---------------------------------------------------------------------------
  // Ignored lines
  // ---------------------------------------------------------------------------

  /** A comment (`#` as the very first character) or a line of blanks only. */
  predicate IsSkipped(line: string)
  {
    StartsWith(line, "#") || IsBlank(line)
  }

  /** Reading one more line: the error so far, or one more step. */
  lemma {:induction false} ScanSnoc(lines: seq<string>, line: string, firstRef: nat)
    ensures Scan(lines + [line], firstRef) ==
              match Scan(lines, firstRef)
              case Err(m) => Err(m)
              case Ok(st) => Step(st, line)
  {
    assert (lines + [line])[..|lines|] == lines;
  }

  /** A skipped line may be removed from anywhere in the file without any effect. */
  lemma {:induction false} SkippedLineIgnored(pre: seq<string>, c: string, post: seq<string>, firstRef: nat)
    requires IsSkipped(c)
    ensures Scan(pre + [c] + post, firstRef) == Scan(pre + post, firstRef)
    decreases |post|
  {
    if |post| == 0 {
      assert pre + [c] + post == pre + [c];
      assert pre + post == pre;
      ScanSnoc(pre, c, firstRef);
    } else {
      var p, l := post[..|post| - 1], post[|post| - 1];
      SkippedLineIgnored(pre, c, p, firstRef);
      assert pre + [c] + post == (pre + [c] + p) + [l];
      assert pre + post == (pre + p) + [l];
      ScanSnocSame(pre + [c] + p, pre + p, l, firstRef);
    }
  }

  /** Inputs that read alike still read alike after one more line. */
  lemma {:induction false} ScanSnocSame(xs: seq<string>, ys: seq<string>, line: string, firstRef: nat)
    requires Scan(xs, firstRef) == Scan(ys, firstRef)
    ensures Scan(xs + [line], firstRef) == Scan(ys + [line], firstRef)
  {
    ScanSnoc(xs, line, firstRef);
    ScanSnoc(ys, line, firstRef);
  }

  /** So the constructor's outcome does not depend on comments and blank lines. */
  lemma {:induction false} SkippedLineIgnoredByParse(pre: seq<string>, c: string, post: seq<string>, firstRef: nat)
    requires IsSkipped(c)
    ensures ParseSpec(pre + [c] + post, firstRef) == ParseSpec(pre + post, firstRef)
  {
    SkippedLineIgnored(pre, c, post, firstRef);
  }

  // ---------------------------------------------------------------------------
  // `[name]` headers
  // ---------------------------------------------------------------------------

  predicate NoTerminator(s: string)
  {
    forall k :: 0 <= k < |s| ==> !IsLineTerminator(s[k])
  }

  predicate NoTerminatorIn(s: string, lo: nat, hi: nat)
  {
    forall t :: lo <= t < hi <= |s| ==> !IsLineTerminator(s[t])
  }

  /** A `[` and a later `]` with no line terminator in between. */
  predicate HasBracketPairFrom(s: string, k: nat)
  {
    exists i, j :: k <= i < j < |s| && s[i] == '[' && s[j] == ']' && NoTerminatorIn(s, i + 1, j)
  }

  /** What a found group is: the text between a `[` and a `]` of the line. */
  predicate EnclosedAt(s: string, g: string, i: nat)
  {
    i + |g| + 1 < |s| && s[i] == '[' && s[i + 1..i + 1 + |g|] == g && s[i + 1 + |g|] == ']'
  }

  lemma {:induction false} FindBracketFromIff(s: string, k: nat)
    requires k <= |s|
    ensures FindBracketFrom(s, k).Some? <==> HasBracketPairFrom(s, k)
    ensures FindBracketFrom(s, k).Some? ==>
              var g := FindBracketFrom(s, k).value;
              NoTerminator(g) && exists i :: k <= i && EnclosedAt(s, g, i)
    decreases |s| - k
  {
    if k < |s| {
      FindBracketFromIff(s, k + 1);
      if s[k] == '[' {
        var e := RunEnd(s, k + 1);
        match LastClose(s, k + 1, e)
        case Some(j) =>
          var g := s[k + 1..j];
          assert forall t :: 0 <= t < |g| ==> g[t] == s[k + 1 + t];
          assert EnclosedAt(s, g, k);
          assert HasBracketPairFrom(s, k);
        case None =>
          forall j | k < j < |s| && s[j] == ']'
            ensures !NoTerminatorIn(s, k + 1, j)
          {
            assert e < j;
          }
          NoPairMovesOn(s, k);
      } else {
        NoPairMovesOn(s, k);
      }
    }
  }

  /** A pair from `k` opens at `k` itself or a pair from `k + 1` exists. */
  lemma {:induction false} NoPairMovesOn(s: string, k: nat)
    requires k < |s|
    requires s[k] == '[' ==> forall j :: k < j < |s| && s[j] == ']' ==> !NoTerminatorIn(s, k + 1, j)
    ensures HasBracketPairFrom(s, k) <==> HasBracketPairFrom(s, k + 1)
  {
    if HasBracketPairFrom(s, k) {
      var i, j :| k <= i < j < |s| && s[i] == '[' && s[j] == ']' && NoTerminatorIn(s, i + 1, j);
      assert i != k;
    }
  }

  /**
   * `m.find()` succeeds exactly when some `[` is followed, on the same line, by a `]`;
   * the group is then the text enclosed by one such pair.
   */
  lemma {:induction false} BracketGroupIff(line: string)
    ensures BracketGroup(line).Some? <==> HasBracketPairFrom(line, 0)
    ensures BracketGroup(line).Some? ==>
              NoTerminator(BracketGroup(line).value) && exists i :: EnclosedAt(line, BracketGroup(line).value, i)
  {
    FindBracketFromIff(line, 0);
  }

  lemma {:induction false} FindBracketSkips(s: string, k: nat, i: nat)
    requires k <= i <= |s|
    requires forall t :: k <= t < i ==> s[t] != '['
    ensures FindBracketFrom(s, k) == FindBracketFrom(s, i)
    decreases i - k
  {
    if k < i {
      FindBracketSkips(s, k + 1, i);
    }
  }

  /**
   * The group is greedy and leftmost: after the first `[`, it runs to the last `]` of
   * the line, so `[a]b]` gives `a]b`, and text around the brackets does not matter.
   */
  lemma {:induction false} BracketGroupGreedy(pre: string, x: string, post: string)
    requires '[' !in pre && ']' !in post && NoTerminator(x)
    ensures BracketGroup(pre + "[" + x + "]" + post) == Some(x)
  {
    var s := pre + "[" + x + "]" + post;
    var i := |pre|;
    var j := i + 1 + |x|;
    assert s[i] == '[' && s[j] == ']';
    forall t | 0 <= t < i ensures s[t] != '[' {
      assert s[t] == pre[t];
    }
    FindBracketSkips(s, 0, i);
    var e := RunEnd(s, i + 1);
    forall t | j < t < |s| ensures s[t] != ']' {
      assert s[t] == post[t - j - 1];
    }
    var r := LastClose(s, i + 1, e);
    assert r == Some(j);
    assert s[i + 1..j] == x;
  }

  /** A line with no `[` has no group. */
  lemma {:induction false} NoBracketNoGroup(line: string)
    requires '[' !in line
    ensures BracketGroup(line) == None
  {
    BracketGroupIff(line);
  }

  // ---------------------------------------------------------------------------
  // Blocks
  // ---------------------------------------------------------------------------

  /** A line the four directive tests recognise: only a prefix is compared. */
  predicate IsDirectiveLine(line: string)
  {
    StartsWith(line, "path") || StartsWith(line, "name_format") || StartsWith(line, "plot_by") || StartsWith(line, "grid_")
  }

  /** A line that, read inside a block, is one more value and nothing else. */
  predicate IsValueLine(line: string)
  {
    !IsSkipped(line) && BracketGroup(line).None? && !IsDirectiveLine(Trim(line))
  }

  /** Outside a block, a line that is neither skipped nor a header goes to the directives as it is. */
  lemma {:induction false} StepOutsideBlock(st: ParserState, line: string)
    requires WellFormed(st) && !st.definingDimension
    requires !IsSkipped(line) && BracketGroup(line).None?
    ensures Step(st, line) == Directive(st, line)
  {
  }

  /** Inside a block, such a line is trimmed, stored as a value, then goes to the directives. */
  lemma {:induction false} StepInsideBlock(st: ParserState, line: string)
    requires WellFormed(st) && st.definingDimension
    requires !IsSkipped(line) && BracketGroup(line).None?
    ensures Step(st, line) ==
              Directive(st.(currentDimension := Some(st.currentDimension.value.AddValue(BlockValue(Trim(line))))), Trim(line))
  {
  }

  /** Every line of `vals` is a value line (stated on prefixes, as the lines are read). */
  predicate AllValueLines(vals: seq<string>)
  {
    |vals| == 0 || (AllValueLines(vals[..|vals| - 1]) && IsValueLine(vals[|vals| - 1]))
  }

  /** The values a block stores for its value lines: trimmed, `.` read as the empty string. */
  function BlockValues(vals: seq<string>): (r: seq<string>)
    ensures |r| == |vals|
  {
    seq(|vals|, k requires 0 <= k < |vals| => BlockValue(Trim(vals[k])))
  }

  /** The dimension name a header `[g]` gives: `g` itself, or `""` for `[.]`. */
  function HeaderName(g: string): string
  {
    if g == "." then "" else g
  }

  /** The state once a header `[g]` and the block's value lines `vals` have been read. */
  function AfterBlock(st: ParserState, g: string, vals: seq<string>): ParserState
    requires WellFormed(st)
  {
    st.(definingDimension := true,
        dimensions := ClosedDimensions(st),
        currentDimension := Some(NewDimension(st.nextRef, HeaderName(g), g, BlockValues(vals))),
        nextRef := st.nextRef + 1)
  }

  /** A value line read inside a block only appends its value. */
  lemma {:induction false} ValueLineStep(st: ParserState, line: string)
    requires WellFormed(st) && st.definingDimension && IsValueLine(line)
    ensures Step(st, line) ==
              Ok(st.(currentDimension := Some(st.currentDimension.value.AddValue(BlockValue(Trim(line))))))
  {
    StepInsideBlock(st, line);
    DirectiveFailsIff(st.(currentDimension := Some(st.currentDimension.value.AddValue(BlockValue(Trim(line))))), Trim(line));
  }

  /**
   * A header starts a new dimension named after its group (`""` for `.`, the title
   * keeping the group as written), after first moving any block still open onto the
   * dimension list; each following value line is trimmed and appended to its values.
   * No other part of the state changes.
   */
  lemma {:induction false} BlockCollectsValues(pre: seq<string>, header: string, vals: seq<string>, firstRef: nat)
    requires Scan(pre, firstRef).Ok?
    requires !IsSkipped(header) && BracketGroup(header).Some?
    requires AllValueLines(vals)
    ensures Scan(pre + [header] + vals, firstRef) ==
              Ok(AfterBlock(Scan(pre, firstRef).value, BracketGroup(header).value, vals))
    decreases |vals|
  {
    if |vals| == 0 {
      assert pre + [header] + vals == pre + [header];
      ScanSnoc(pre, header, firstRef);
      HeaderStep(Scan(pre, firstRef).value, header);
    } else {
      var p, v := vals[..|vals| - 1], vals[|vals| - 1];
      assert p + [v] == vals;
      assert pre + [header] + vals == (pre + [header] + p) + [v];
      BlockCollectsValues(pre, header, p, firstRef);
      BlockGrows(pre + [header] + p, Scan(pre, firstRef).value, BracketGroup(header).value, p, v, firstRef);
    }
  }

  /** A header line opens an empty block after closing the one still open. */
  lemma {:induction false} HeaderStep(st: ParserState, header: string)
    requires WellFormed(st) && !IsSkipped(header) && BracketGroup(header).Some?
    ensures Step(st, header) == Ok(AfterBlock(st, BracketGroup(header).value, []))
  {
    assert BlockValues([]) == [];
  }

  lemma {:induction false} BlockGrows(lines: seq<string>, st: ParserState, g: string, vals: seq<string>, v: string, firstRef: nat)
    requires WellFormed(st) && Scan(lines, firstRef) == Ok(AfterBlock(st, g, vals)) && IsValueLine(v)
    ensures Scan(lines + [v], firstRef) == Ok(AfterBlock(st, g, vals + [v]))
  {
    ScanSnoc(lines, v, firstRef);
    ValueLineStep(AfterBlock(st, g, vals), v);
    assert BlockValues(vals + [v]) == BlockValues(vals) + [BlockValue(Trim(v))];
  }

  /**
   * An open block reaches the dimension list when the next header arrives or the input
   * ends, in both cases after the blocks closed before it.
   */
  lemma {:induction false} BlockClosedByHeaderOrEnd(st: ParserState, g: string, vals: seq<string>, header: string)
    requires WellFormed(st)
    requires !IsSkipped(header) && BracketGroup(header).Some?
    ensures var open := NewDimension(st.nextRef, HeaderName(g), g, BlockValues(vals));
            && ClosedDimensions(AfterBlock(st, g, vals)) == ClosedDimensions(st) + [open]
            && Step(AfterBlock(st, g, vals), header).Ok?
            && Step(AfterBlock(st, g, vals), header).value.dimensions == ClosedDimensions(st) + [open]
  {
  }

  /**
   * Read inside a block, a directive line is first stored as a value of the block (it is
   * not a header), then it closes the block without moving it onto the dimension list.
   */
  lemma {:induction false} DirectiveClosesBlock(st: ParserState, line: string)
    requires WellFormed(st) && st.definingDimension
    requires !IsSkipped(line) && BracketGroup(line).None? && IsDirectiveLine(Trim(line))
    requires Step(st, line).Ok?
    ensures var next := Step(st, line).value;
            && !next.definingDimension
            && next.dimensions == st.dimensions
            && next.currentDimension == Some(st.currentDimension.value.AddValue(BlockValue(Trim(line))))
  {
    DirectivePrefixesExclusive(Trim(line));
  }

  /** Outside a block a line is not trimmed, so an indented directive is no directive. */
  lemma {:induction false} IndentedLineOutsideBlockIgnored(st: ParserState, line: string)
    requires WellFormed(st) && !st.definingDimension
    requires !IsSkipped(line) && BracketGroup(line).None? && IsTrimmable(line[0])
    ensures Step(st, line) == Ok(st)
  {
    assert !IsDirectiveLine(line) by {
      assert line[0] != 'p' && line[0] != 'n' && line[0] != 'g';
    }
    StepOutsideBlock(st, line);
    DirectiveFailsIff(st, line);
  }

  // ---------------------------------------------------------------------------
  // Directives
  // ---------------------------------------------------------------------------

  /**
   * `key = value` with one `=` (further `=` only at the very end) stores the trimmed right
   * side, whatever was stored before; `path` gains a trailing `/` when it lacks one; a
   * `grid_` line is queued with its two halves untrimmed. Every directive closes the block.
   */
  lemma {:induction false} DirectiveStoresValue(st: ParserState, key: string, value: string, k: nat)
    requires WellFormed(st)
    requires '=' !in key && '=' !in value && value != ""
    ensures var line := key + "=" + value + Repeat('=', k);
      && (StartsWith(key, "path") ==>
            Directive(st, line) == Ok(st.(path := Some(WithSlash(Trim(value))), definingDimension := false)))
      && (StartsWith(key, "name_format") ==>
            Directive(st, line) == Ok(st.(nameFormat := Some(Trim(value)), definingDimension := false)))
      && (StartsWith(key, "plot_by") ==>
            Directive(st, line) == Ok(st.(plotByField := Some(Trim(value)), definingDimension := false)))
      && (StartsWith(key, "grid_") ==>
            Directive(st, line) ==
              Ok(st.(gridConfigLines := st.gridConfigLines + [GridLine(key, value)], definingDimension := false)))
  {
    var line := key + "=" + value + Repeat('=', k);
    SplitPair(key, value, k, '=');
    assert key + "=" + value + Repeat('=', k) == key + ['='] + value + Repeat('=', k);
    assert StartsWith(key, "path") ==> StartsWith(line, "path");
    assert StartsWith(key, "name_format") ==> StartsWith(line, "name_format");
    assert StartsWith(key, "plot_by") ==> StartsWith(line, "plot_by");
    assert StartsWith(key, "grid_") ==> StartsWith(line, "grid_");
    DirectivePrefixesExclusive(line);
  }

  /** The message each directive raises when its line does not split into two parts. */
  function FormMessage(line: string): string
  {
    if StartsWith(line, "path") then PATH_FORM
    else if StartsWith(line, "name_format") then NAME_FORMAT_FORM
    else if StartsWith(line, "plot_by") then PLOT_BY_FORM
    else GRID_FORM
  }

  /**
   * A directive fails exactly when `split("=")` does not give two parts, with that
   * directive's own message; a line without any other kind of text is never an error.
   */
  lemma {:induction false} DirectiveFailsIff(st: ParserState, line: string)
    requires WellFormed(st)
    ensures IsDirectiveLine(line) ==>
              (Directive(st, line).Err? <==> |Split(line, '=')| != 2)
    ensures Directive(st, line).Err? ==> IsDirectiveLine(line) && Directive(st, line).msg == FormMessage(line)
    ensures !IsDirectiveLine(line) ==> Directive(st, line) == Ok(st)
  {
    DirectivePrefixesExclusive(line);
  }

  /**
   * Java's split drops trailing empty strings, so `path=`, `path==` and a line with no
   * `=` at all give one part, and `path = a = b` gives three: all of them are errors.
   */
  lemma {:induction false} DirectiveMalformed(st: ParserState, key: string, a: string, b: string, k: nat)
    requires WellFormed(st) && IsDirectiveLine(key) && '=' !in key
    requires '=' !in a && '=' !in b && b != ""
    ensures Directive(st, key).Err?
    ensures Directive(st, key + Repeat('=', k + 1)).Err?
    ensures Directive(st, key + "=" + a + "=" + b).Err?
  {
    DirectiveFailsIff(st, key);
    DirectiveTrailingEquals(st, key, k);
    DirectiveTwoEquals(st, key, a, b);
  }

  lemma {:induction false} DirectiveTrailingEquals(st: ParserState, key: string, k: nat)
    requires WellFormed(st) && IsDirectiveLine(key) && '=' !in key
    ensures Directive(st, key + Repeat('=', k + 1)).Err?
  {
    SplitTrailingDelimiters(key, k, '=');
    assert StartsWith(key + Repeat('=', k + 1), key[..4]);
    DirectiveFailsIff(st, key + Repeat('=', k + 1));
  }

  lemma {:induction false} DirectiveTwoEquals(st: ParserState, key: string, a: string, b: string)
    requires WellFormed(st) && IsDirectiveLine(key) && '=' !in key
    requires '=' !in a && '=' !in b && b != ""
    ensures Directive(st, key + "=" + a + "=" + b).Err?
  {
    SplitTriple(key, a, b, '=');
    assert key + "=" + a + "=" + b == key + ['='] + a + ['='] + b;
    assert StartsWith(key + "=" + a + "=" + b, key[..4]);
    DirectiveFailsIff(st, key + "=" + a + "=" + b);
  }

  // ---------------------------------------------------------------------------
  // What a directive leaves alone, and object identities
  // ---------------------------------------------------------------------------

  /** A directive never touches the dimensions and never opens a block. */
  lemma {:induction false} DirectiveFrame(st: ParserState, line: string)
    requires WellFormed(st) && Directive(st, line).Ok?
    ensures var next := Directive(st, line).value;
            && next.dimensions == st.dimensions
            && next.currentDimension == st.currentDimension
            && next.nextRef == st.nextRef
            && (next.definingDimension ==> st.definingDimension)
            && (next.path.Some? ==> EndsWith(next.path.value, "/") || next.path == st.path)
  {
  }

  /**
   * How object numbers are handed out: each header takes the next one, so the
   * dimension list holds objects in increasing order, all older than the block opened
   * last, all numbered from `firstRef` up to `nextRef`.
   */
  predicate RefsOrdered(st: ParserState, firstRef: nat)
  {
    && firstRef <= st.nextRef
    && (st.currentDimension.None? ==> st.dimensions == [])
    && (st.currentDimension.Some? ==> firstRef <= st.currentDimension.value.ref < st.nextRef)
    && (forall k :: 0 <= k < |st.dimensions| ==> firstRef <= st.dimensions[k].ref)
    && (st.currentDimension.Some? ==>
          forall k :: 0 <= k < |st.dimensions| ==> st.dimensions[k].ref < st.currentDimension.value.ref)
    && (forall i, j :: 0 <= i < j < |st.dimensions| ==> st.dimensions[i].ref < st.dimensions[j].ref)
  }

  /** A stored path always ends in `/`. */
  predicate PathSlashed(st: ParserState)
  {
    st.path.Some? ==> EndsWith(st.path.value, "/")
  }

  lemma {:induction false} StepInvariants(st: ParserState, line: string, firstRef: nat)
    requires WellFormed(st) && RefsOrdered(st, firstRef) && PathSlashed(st) && Step(st, line).Ok?
    ensures RefsOrdered(Step(st, line).value, firstRef) && PathSlashed(Step(st, line).value)
    ensures Step(st, line).value.nextRef <= st.nextRef + 1
  {
    if IsSkipped(line) {
    } else if BracketGroup(line).Some? {
      HeaderStep(st, line);
    } else if st.definingDimension {
      StepInsideBlock(st, line);
      var grown := st.(currentDimension := Some(st.currentDimension.value.AddValue(BlockValue(Trim(line)))));
      DirectiveFrame(grown, Trim(line));
    } else {
      StepOutsideBlock(st, line);
      DirectiveFrame(st, line);
    }
  }

  /** The invariants hold after every prefix the line pass reads without error. */
  lemma {:induction false} ScanInvariants(lines: seq<string>, firstRef: nat)
    requires Scan(lines, firstRef).Ok?
    ensures RefsOrdered(Scan(lines, firstRef).value, firstRef) && PathSlashed(Scan(lines, firstRef).value)
    ensures Scan(lines, firstRef).value.nextRef <= firstRef + |lines|
  {
    if |lines| > 0 {
      var p, l := lines[..|lines| - 1], lines[|lines| - 1];
      assert p + [l] == lines;
      ScanSnoc(p, l, firstRef);
      ScanInvariants(p, firstRef);
      StepInvariants(Scan(p, firstRef).value, l, firstRef);
    }
  }

  /** Strictly increasing object numbers, all in `[lo, hi)`. */
  predicate RefsIncreasingWithin(dims: seq<Dimension>, lo: nat, hi: nat)
  {
    && (forall k :: 0 <= k < |dims| ==> lo <= dims[k].ref < hi)
    && (forall i, j :: 0 <= i < j < |dims| ==> dims[i].ref < dims[j].ref)
  }

  lemma {:induction false} ClosedRefs(st: ParserState, firstRef: nat)
    requires WellFormed(st) && RefsOrdered(st, firstRef)
    ensures RefsIncreasingWithin(ClosedDimensions(st), firstRef, st.nextRef)
  {
  }

  /**
   * The lost block: the block open when a directive line arrives is never put on the
   * dimension list, whatever follows.
   */
  predicate Forgotten(st: ParserState, r: nat)
  {
    && r < st.nextRef
    && (forall k :: 0 <= k < |st.dimensions| ==> st.dimensions[k].ref != r)
    && (st.definingDimension ==> st.currentDimension.Some? && st.currentDimension.value.ref != r)
  }

  lemma {:induction false} ForgottenStep(st: ParserState, line: string, r: nat)
    requires WellFormed(st) && Forgotten(st, r) && Step(st, line).Ok?
    ensures Forgotten(Step(st, line).value, r)
  {
    if IsSkipped(line) {
    } else if BracketGroup(line).Some? {
      HeaderStep(st, line);
    } else if st.definingDimension {
      StepInsideBlock(st, line);
      var grown := st.(currentDimension := Some(st.currentDimension.value.AddValue(BlockValue(Trim(line)))));
      DirectiveFrame(grown, Trim(line));
    } else {
      StepOutsideBlock(st, line);
      DirectiveFrame(st, line);
    }
  }

  lemma {:induction false} ForgottenScan(pre: seq<string>, post: seq<string>, firstRef: nat, r: nat)
    requires Scan(pre, firstRef).Ok? && Forgotten(Scan(pre, firstRef).value, r)
    requires Scan(pre + post, firstRef).Ok?
    ensures Forgotten(Scan(pre + post, firstRef).value, r)
    decreases |post|
  {
    if |post| == 0 {
      assert pre + post == pre;
    } else {
      var p, l := post[..|post| - 1], post[|post| - 1];
      assert pre + post == (pre + p) + [l];
      ScanSnoc(pre + p, l, firstRef);
      ForgottenScan(pre, p, firstRef, r);
      ForgottenStep(Scan(pre + p, firstRef).value, l, r);
    }
  }

  /** What the checks hand to the grid phase when they pass. */
  lemma {:induction false} ValidateSuccess(st: ParserState)
    requires WellFormed(st) && Validate(st).Success?
    ensures var c := Validate(st).config;
            && st.path == Some(c.path) && st.nameFormat == Some(c.nameFormat) && st.plotByField == Some(c.plotByField)
            && c.dimensions == ClosedDimensions(st)
            && FirstNamed(c.dimensions, c.plotByField) == Some(c.plotByFieldIndex)
            && BuildGrid(c.(gridRows := 0, gridCols := 0, gridLayout := []), st.gridConfigLines) == Validate(st)
  {
  }

  /** What the grid phase adds when it succeeds: the sized and filled grid, nothing else. */
  lemma {:induction false} BuildGridSuccess(c: Config, lines: seq<GridLine>)
    requires BuildGrid(c, lines).Success?
    ensures var d := BuildGrid(c, lines).config;
            && GridEntries(lines).Ok?
            && SizeOf(GridEntries(lines).value) == GridSize(d.gridRows, d.gridCols)
            && 0 < d.gridRows && 0 < d.gridCols
            && FillGrid(d.gridRows, d.gridCols, GridEntries(lines).value) == Some(d.gridLayout)
            && d == c.(gridRows := d.gridRows, gridCols := d.gridCols, gridLayout := d.gridLayout)
  {
  }

  /** Right after the directive line, the object of the open block is on no list. */
  lemma {:induction false} ForgottenAfterDirective(pre: seq<string>, line: string, firstRef: nat)
    requires Scan(pre, firstRef).Ok? && Scan(pre, firstRef).value.definingDimension
    requires !IsSkipped(line) && BracketGroup(line).None? && IsDirectiveLine(Trim(line))
    requires Scan(pre + [line], firstRef).Ok?
    ensures Forgotten(Scan(pre + [line], firstRef).value, Scan(pre, firstRef).value.currentDimension.value.ref)
  {
    var st := Scan(pre, firstRef).value;
    ScanSnoc(pre, line, firstRef);
    ScanInvariants(pre, firstRef);
    DirectiveClosesBlock(st, line);
  }

  /** An object on no list at the end of the line pass is not among the parsed dimensions. */
  lemma {:induction false} ForgottenNotParsed(lines: seq<string>, firstRef: nat, r: nat)
    requires Scan(lines, firstRef).Ok? && Forgotten(Scan(lines, firstRef).value, r)
    requires ParseSpec(lines, firstRef).Success?
    ensures forall d :: d in ParseSpec(lines, firstRef).config.dimensions ==> d.ref != r
  {
    ValidateSuccess(Scan(lines, firstRef).value);
  }

  /** A successful parse got through the line pass on every prefix. */
  lemma {:induction false} ParsedPrefix(lines: seq<string>, k: nat, firstRef: nat)
    requires k <= |lines| && ParseSpec(lines, firstRef).Success?
    ensures Scan(lines[..k], firstRef).Ok?
  {
    if Scan(lines[..k], firstRef).Err? {
      ScanErrSticky(lines, k, firstRef);
    }
  }

  /**
   * A directive line read while a block is open loses that block: when the file
   * parses, no dimension of the result is the object the block built.
   */
  lemma {:induction false} LostBlock(pre: seq<string>, line: string, post: seq<string>, firstRef: nat)
    requires Scan(pre, firstRef).Ok? && Scan(pre, firstRef).value.definingDimension
    requires !IsSkipped(line) && BracketGroup(line).None? && IsDirectiveLine(Trim(line))
    requires ParseSpec(pre + [line] + post, firstRef).Success?
    ensures var lost := Scan(pre, firstRef).value.currentDimension.value;
            forall d :: d in ParseSpec(pre + [line] + post, firstRef).config.dimensions ==> !d.Equals(Some(lost))
  {
    var r := Scan(pre, firstRef).value.currentDimension.value.ref;
    var all := pre + [line] + post;
    assert all[..|pre| + 1] == pre + [line];
    ParsedPrefix(all, |pre| + 1, firstRef);
    ForgottenAfterDirective(pre, line, firstRef);
    assert all == (pre + [line]) + post;
    ForgottenScan(pre + [line], post, firstRef, r);
    ForgottenNotParsed(all, firstRef, r);
  }
}
