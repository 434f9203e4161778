/**
 * ImagePathManager: which dimensions the user chooses, and which image file a full
 * set of dimension values names.
 *
 * The file name is the configured `name_format` with the `${name}` token of each
 * dimension replaced by the dimension's value, dimension by dimension in configured
 * order, each step working on the previous step's output. A token may be written
 * `?${name}`: for a non-empty value the `?` goes with the token; for an empty value
 * the one character before the `?` is dropped along with it. Java does this with
 * `String.replaceAll`; here the three patterns are scanned literally, left to right,
 * without overlap, as the regex engine matches them when the dimension name holds
 * no regex metacharacters and the value no `$` or `\`.
 *
 * The file system is the predicate `fileExists`, a snapshot of `File.exists()`.
 */
module PathManager {
  import opened Wrappers
  import opened JavaString
  import opened Dimensions
  import opened Config

  // ---------------------------------------------------------------------------
  // The dimensions the user chooses
  // ---------------------------------------------------------------------------

  /** The dimensions not named `plotByField`, in configured order. */
  function VariableDimensions(dims: seq<Dimension>, plotByField: string): (r: seq<Dimension>)
    ensures |r| <= |dims|
  {
    if |dims| == 0 then []
    else
      var rest := VariableDimensions(dims[..|dims| - 1], plotByField);
      if dims[|dims| - 1].dimName != plotByField then rest + [dims[|dims| - 1]] else rest
  }

  // ---------------------------------------------------------------------------
  // The three replaceAll calls, as literal scans
  // ---------------------------------------------------------------------------

  /** The token `${dimName}` of a name format. */
  function Token(dimName: string): (t: string)
    ensures |t| == |dimName| + 3 && t[0] == '$'
  {
    "${" + dimName + "}"
  }

  /** Does `tok` occur anywhere in `s`? */
  predicate Occurs(s: string, tok: string)
  {
    exists i :: 0 <= i <= |s| && StartsWith(s[i..], tok)
  }

  /** `s.replaceAll("\\??" + tok, v)`: each `?tok`, or else each `tok`, becomes `v`. */
  function ReplaceOptional(s: string, tok: string, v: string): string
    requires |tok| > 0
    decreases |s|
  {
    if |s| == 0 then ""
    else if StartsWith(s, "?" + tok) then v + ReplaceOptional(s[|tok| + 1..], tok, v)
    else if StartsWith(s, tok) then v + ReplaceOptional(s[|tok|..], tok, v)
    else [s[0]] + ReplaceOptional(s[1..], tok, v)
  }

  /** `s.replaceAll("." + "\\?" + tok, "")`: one character (not a line terminator), `?` and `tok` go. */
  function RemoveElided(s: string, tok: string): string
    requires |tok| > 0
    decreases |s|
  {
    if |s| == 0 then ""
    else if !IsLineTerminator(s[0]) && StartsWith(s[1..], "?" + tok) then RemoveElided(s[|tok| + 2..], tok)
    else [s[0]] + RemoveElided(s[1..], tok)
  }

  /** `s.replaceAll(tok, "")`. */
  function RemoveToken(s: string, tok: string): string
    requires |tok| > 0
    decreases |s|
  {
    if |s| == 0 then ""
    else if StartsWith(s, tok) then RemoveToken(s[|tok|..], tok)
    else [s[0]] + RemoveToken(s[1..], tok)
  }

  /** One iteration of getPath's loop: dimension `dimName` takes the value `value`. */
  function Substitute(name: string, dimName: string, value: string): string
  {
    var tok := Token(dimName);
    if value != "" then ReplaceOptional(name, tok, value)
    else RemoveToken(RemoveElided(name, tok), tok)
  }

  /** The dimension names, in configured order. */
  function DimNames(dims: seq<Dimension>): (names: seq<string>)
    ensures |names| == |dims| && forall k :: 0 <= k < |dims| ==> names[k] == dims[k].dimName
  {
    seq(|dims|, k requires 0 <= k < |dims| => dims[k].dimName)
  }

  /** The name format after substituting `coords[k]` for dimension `names[k]`, k = 0, 1, ... */
  function ResolveName(nameFormat: string, names: seq<string>, coords: seq<string>): string
    requires |names| == |coords|
  {
    if |coords| == 0 then nameFormat
    else Substitute(ResolveName(nameFormat, names[..|names| - 1], coords[..|coords| - 1]),
                    names[|names| - 1], coords[|coords| - 1])
  }

  /** getPath: the file `path + name` when it exists; null (None) otherwise or on a count mismatch. */
  function PathOf(config: Config, coords: seq<string>, fileExists: string -> bool): (file: Option<string>)
  {
    if |coords| != |config.dimensions| then None
    else
      var file := config.path + ResolveName(config.nameFormat, DimNames(config.dimensions), coords);
      if fileExists(file) then Some(file) else None
  }

  // ---------------------------------------------------------------------------
  // The class
  // ---------------------------------------------------------------------------

  class ImagePathManager {
    const config: Config

    constructor(config: Config)
      ensures this.config == config
    {
      this.config := config;
    }

    /** getVariableDimensions: loops over the dimensions, keeping those not named plot_by. */
    method GetVariableDimensions() returns (variableDims: seq<Dimension>)
      ensures variableDims == VariableDimensions(config.dimensions, config.plotByField)
    {
      variableDims := [];
      var dims := config.dimensions;
      var i := 0;
      while i < |dims|
        invariant 0 <= i <= |dims|
        invariant variableDims == VariableDimensions(dims[..i], config.plotByField)
      {
        assert dims[..i + 1][..i] == dims[..i];
        if dims[i].dimName != config.plotByField {
          variableDims := variableDims + [dims[i]];
        }
        i := i + 1;
      }
      assert dims[..i] == dims;
    }

    /** getPath: substitutes each coordinate in turn, then asks the file system. */
    method GetPath(coords: seq<string>, fileExists: string -> bool) returns (file: Option<string>)
      ensures file == PathOf(config, coords, fileExists)
    {
      if |coords| != |config.dimensions| {
        return None;
      }
      var name := config.nameFormat;
      ghost var names := DimNames(config.dimensions);
      var i := 0;
      while i < |coords|
        invariant 0 <= i <= |coords|
        invariant name == ResolveName(config.nameFormat, names[..i], coords[..i])
      {
        assert names[..i + 1][..i] == names[..i] && coords[..i + 1][..i] == coords[..i];
        var dimName := config.dimensions[i].dimName;
        if coords[i] != "" {
          name := ReplaceOptional(name, Token(dimName), coords[i]);
        } else {
          name := RemoveElided(name, Token(dimName));
          name := RemoveToken(name, Token(dimName));
        }
        i := i + 1;
      }
      assert names[..i] == names && coords[..i] == coords;
      var path := config.path + name;
      if fileExists(path) {
        return Some(path);
      } else {
        return None;
      }
    }
  }

  // ---------------------------------------------------------------------------
  // Properties
  // ---------------------------------------------------------------------------

  /** How many of `dims` are named `name`. */
  function CountNamed(dims: seq<Dimension>, name: string): nat
  {
    if |dims| == 0 then 0
    else CountNamed(dims[..|dims| - 1], name) + (if dims[|dims| - 1].dimName == name then 1 else 0)
  }

  /**
   * The variable dimensions are exactly the configured ones not named plot_by, every
   * one of them, in configured order: one drops out per dimension so named.
   */
  lemma {:induction false} VariableDimensionsMembers(dims: seq<Dimension>, plotByField: string)
    ensures forall d :: d in VariableDimensions(dims, plotByField) <==> d in dims && d.dimName != plotByField
    ensures |VariableDimensions(dims, plotByField)| == |dims| - CountNamed(dims, plotByField)
  {
    if |dims| > 0 {
      VariableDimensionsMembers(dims[..|dims| - 1], plotByField);
      assert dims == dims[..|dims| - 1] + [dims[|dims| - 1]];
    }
  }

  /** With plot_by naming only dimension `p`, the variable dimensions are the others in order. */
  lemma {:induction false} VariableDimensionsSplice(dims: seq<Dimension>, plotByField: string, p: nat)
    requires p < |dims| && dims[p].dimName == plotByField
    requires forall j :: 0 <= j < |dims| && j != p ==> dims[j].dimName != plotByField
    ensures VariableDimensions(dims, plotByField) == dims[..p] + dims[p + 1..]
  {
    var n := |dims| - 1;
    if n == p {
      NoneNamed(dims[..n], plotByField);
      assert dims[..p + 1][..n] == dims[..n];
    } else {
      VariableDimensionsSplice(dims[..n], plotByField, p);
      assert dims[..n][..p] == dims[..p];
      assert dims[p + 1..] == dims[..n][p + 1..] + [dims[n]];
    }
    assert dims[..n + 1] == dims;
  }

  lemma {:induction false} NoneNamed(dims: seq<Dimension>, plotByField: string)
    requires forall j :: 0 <= j < |dims| ==> dims[j].dimName != plotByField
    ensures VariableDimensions(dims, plotByField) == dims
  {
    if |dims| > 0 {
      NoneNamed(dims[..|dims| - 1], plotByField);
      assert dims == dims[..|dims| - 1] + [dims[|dims| - 1]];
    }
  }

  /**
   * For a parsed configuration, the selectable dimensions number one less than all
   * dimensions exactly when no second dimension carries the plot_by name.
   */
  lemma {:induction false} SelectableCount(c: Config)
    requires c.Valid()
    ensures |VariableDimensions(c.dimensions, c.plotByField)| == |c.dimensions| - 1 <==>
              forall j :: 0 <= j < |c.dimensions| && j != c.plotByFieldIndex ==> c.dimensions[j].dimName != c.plotByField
  {
    VariableDimensionsMembers(c.dimensions, c.plotByField);
    CountNamedAtLeast(c.dimensions, c.plotByField, c.plotByFieldIndex);
  }

  /** CountNamed counts: at least one for `p`, and one more for any second index so named. */
  lemma {:induction false} CountNamedAtLeast(dims: seq<Dimension>, name: string, p: nat)
    requires p < |dims| && dims[p].dimName == name
    ensures CountNamed(dims, name) >= 1
    ensures CountNamed(dims, name) == 1 <==> forall j :: 0 <= j < |dims| && j != p ==> dims[j].dimName != name
  {
    var n := |dims| - 1;
    var pre := dims[..n];
    assert forall j :: 0 <= j < n ==> pre[j] == dims[j];
    if p == n {
      if exists j :: 0 <= j < n && dims[j].dimName == name {
        var j :| 0 <= j < n && dims[j].dimName == name;
        CountNamedAtLeast(pre, name, j);
      } else {
        CountNamedZero(pre, name);
      }
    } else {
      CountNamedAtLeast(pre, name, p);
    }
  }

  lemma {:induction false} CountNamedZero(dims: seq<Dimension>, name: string)
    requires forall j :: 0 <= j < |dims| ==> dims[j].dimName != name
    ensures CountNamed(dims, name) == 0
  {
    if |dims| > 0 {
      CountNamedZero(dims[..|dims| - 1], name);
    }
  }

  /** getPath returns null whenever the coordinate count differs from the dimension count. */
  lemma {:induction false} PathNeedsAllCoords(config: Config, coords: seq<string>, fileExists: string -> bool)
    ensures PathOf(config, coords, fileExists).Some? ==> |coords| == |config.dimensions|
    ensures PathOf(config, coords, fileExists).Some? ==>
              fileExists(PathOf(config, coords, fileExists).value)
              && StartsWith(PathOf(config, coords, fileExists).value, config.path)
  {
  }

  // ---------------------------------------------------------------------------
  // Substitution
  // ---------------------------------------------------------------------------

  /** A string starting with `c` then `tok` has `tok` one place in. */
  lemma {:induction false} StartsWithAfter(s: string, c: char, tok: string)
    ensures StartsWith(s, [c] + tok) ==> StartsWith(s[1..], tok)
  {
    if StartsWith(s, [c] + tok) {
      assert s[1..][..|tok|] == s[..|tok| + 1][1..];
    }
  }

  /** Without an occurrence of `tok`, none of the three patterns matches at the front. */
  lemma {:induction false} NoTokenAtFront(s: string, tok: string)
    requires |s| > 0 && !Occurs(s, tok)
    ensures !StartsWith(s, tok) && !StartsWith(s, "?" + tok) && !StartsWith(s[1..], "?" + tok)
    ensures !Occurs(s[1..], tok)
  {
    assert s[0..] == s;
    StartsWithAfter(s, '?', tok);
    assert !StartsWith(s[1..], tok) by { assert s[1..] == s[1..][0..]; }
    if |s| >= 2 {
      StartsWithAfter(s[1..], '?', tok);
      assert !StartsWith(s[1..][1..], tok) by { assert s[1..][1..] == s[2..]; }
    }
    forall i | 0 <= i <= |s[1..]| ensures !StartsWith(s[1..][i..], tok) {
      assert s[1..][i..] == s[i + 1..];
    }
  }

  lemma {:induction false} ReplaceOptionalNoToken(s: string, tok: string, v: string)
    requires |tok| > 0 && !Occurs(s, tok)
    ensures ReplaceOptional(s, tok, v) == s
    decreases |s|
  {
    if |s| > 0 {
      NoTokenAtFront(s, tok);
      ReplaceOptionalNoToken(s[1..], tok, v);
    }
  }

  lemma {:induction false} RemoveElidedNoToken(s: string, tok: string)
    requires |tok| > 0 && !Occurs(s, tok)
    ensures RemoveElided(s, tok) == s
    decreases |s|
  {
    if |s| > 0 {
      NoTokenAtFront(s, tok);
      RemoveElidedNoToken(s[1..], tok);
    }
  }

  lemma {:induction false} RemoveTokenNoToken(s: string, tok: string)
    requires |tok| > 0 && !Occurs(s, tok)
    ensures RemoveToken(s, tok) == s
    decreases |s|
  {
    if |s| > 0 {
      NoTokenAtFront(s, tok);
      RemoveTokenNoToken(s[1..], tok);
    }
  }

  /** A dimension whose token does not occur in the name leaves the name unchanged. */
  lemma {:induction false} SubstituteNoToken(name: string, dimName: string, value: string)
    requires !Occurs(name, Token(dimName))
    ensures Substitute(name, dimName, value) == name
  {
    var tok := Token(dimName);
    if value != "" {
      ReplaceOptionalNoToken(name, tok, value);
    } else {
      RemoveElidedNoToken(name, tok);
      RemoveTokenNoToken(name, tok);
    }
  }

  // ---------------------------------------------------------------------------
  // Name formats built from literal text and one dimension's tokens
  // ---------------------------------------------------------------------------

  /**
   * A piece of a name format: literal `text`, then the dimension's token, written
   * `?${name}` when `elidable`.
   */
  datatype Segment = Segment(text: string, elidable: bool)

  /** The name format the segments spell, with `tail` after the last token. */
  function Render(segs: seq<Segment>, tok: string, tail: string): string
  {
    if |segs| == 0 then tail
    else segs[0].text + (if segs[0].elidable then "?" else "") + tok + Render(segs[1..], tok, tail)
  }

  /** Each token, with its `?`, replaced by `v`. */
  function Filled(segs: seq<Segment>, v: string, tail: string): string
  {
    if |segs| == 0 then tail else segs[0].text + v + Filled(segs[1..], v, tail)
  }

  /** Every elidable token has a character before it in its own segment. */
  predicate ElisionReady(segs: seq<Segment>)
  {
    forall k :: 0 <= k < |segs| && segs[k].elidable ==>
      |segs[k].text| > 0 && !IsLineTerminator(segs[k].text[|segs[k].text| - 1])
  }

  /** Each token removed, and with each `?${name}` the character before it. */
  function Dropped(segs: seq<Segment>, tail: string): string
    requires ElisionReady(segs)
  {
    if |segs| == 0 then tail
    else
      var t := segs[0].text;
      (if segs[0].elidable then t[..|t| - 1] else t) + Dropped(segs[1..], tail)
  }

  /** The format after the elision pass: elidable tokens gone with their character, others kept. */
  function Elided(segs: seq<Segment>, tok: string, tail: string): string
    requires ElisionReady(segs)
  {
    if |segs| == 0 then tail
    else
      var t := segs[0].text;
      (if segs[0].elidable then t[..|t| - 1] else t + tok) + Elided(segs[1..], tok, tail)
  }

  /**
   * Segments whose text the patterns cannot mistake for part of a token: no `$`
   * anywhere, and no `?` right before a token not written with one.
   */
  predicate Plain(segs: seq<Segment>, tail: string)
  {
    && '$' !in tail
    && forall k :: 0 <= k < |segs| ==>
         && '$' !in segs[k].text
         && (!segs[k].elidable && |segs[k].text| > 0 ==> segs[k].text[|segs[k].text| - 1] != '?')
  }

  lemma {:induction false} PlainRest(segs: seq<Segment>, tail: string)
    requires |segs| > 0 && Plain(segs, tail) && ElisionReady(segs)
    ensures Plain(segs[1..], tail) && ElisionReady(segs[1..])
  {
    assert forall k :: 0 <= k < |segs| - 1 ==> segs[1..][k] == segs[k + 1];
  }

  lemma {:induction false} NotPrefix(s: string, p: string, k: nat)
    requires k < |p| && k < |s| && s[k] != p[k]
    ensures !StartsWith(s, p)
  {
    if |p| <= |s| { assert s[..|p|][k] == s[k]; }
  }

  lemma {:induction false} PrefixAfter(p: string, rest: string)
    ensures StartsWith(p + rest, p) && (p + rest)[|p|..] == rest
  {
    assert (p + rest)[..|p|] == p;
  }

  // Replacement by a non-empty value

  lemma {:induction false} ReplaceKeep(s: string, tok: string, v: string)
    requires |tok| > 0 && |s| > 0 && !StartsWith(s, "?" + tok) && !StartsWith(s, tok)
    ensures ReplaceOptional(s, tok, v) == [s[0]] + ReplaceOptional(s[1..], tok, v)
  {
  }

  lemma {:induction false} ReplaceAtOptional(tok: string, v: string, rest: string)
    requires |tok| > 0
    ensures ReplaceOptional("?" + tok + rest, tok, v) == v + ReplaceOptional(rest, tok, v)
  {
    PrefixAfter("?" + tok, rest);
  }

  lemma {:induction false} ReplaceAtToken(tok: string, v: string, rest: string)
    requires |tok| > 0 && tok[0] == '$'
    ensures ReplaceOptional(tok + rest, tok, v) == v + ReplaceOptional(rest, tok, v)
  {
    NotPrefix(tok + rest, "?" + tok, 0);
    PrefixAfter(tok, rest);
  }

  lemma {:induction false} ReplaceText(x: string, y: string, tok: string, v: string)
    requires |tok| > 0 && tok[0] == '$' && '$' !in x
    requires |x| > 0 && x[|x| - 1] == '?' ==> !StartsWith(y, tok)
    ensures ReplaceOptional(x + y, tok, v) == x + ReplaceOptional(y, tok, v)
    decreases |x|
  {
    if |x| > 0 {
      var s := x + y;
      assert s[0] == x[0] && s[1..] == x[1..] + y;
      NotPrefix(s, tok, 0);
      if |x| >= 2 {
        assert s[1] == x[1];
        NotPrefix(s, "?" + tok, 1);
      } else if x[0] == '?' {
        assert s[1..] == y;
        StartsWithAfter(s, '?', tok);
      } else {
        NotPrefix(s, "?" + tok, 0);
      }
      ReplaceKeep(s, tok, v);
      assert '$' !in x[1..] by { assert forall k :: 0 <= k < |x| - 1 ==> x[1..][k] == x[k + 1]; }
      ReplaceText(x[1..], y, tok, v);
      calc {
        ReplaceOptional(x + y, tok, v);
        [x[0]] + ReplaceOptional(x[1..] + y, tok, v);
        [x[0]] + (x[1..] + ReplaceOptional(y, tok, v));
        { assert x == [x[0]] + x[1..]; }
        x + ReplaceOptional(y, tok, v);
      }
    } else {
      assert x + y == y;
    }
  }

  lemma {:induction false} ReplaceElidableSegment(t: string, tok: string, v: string, rest: string)
    requires |tok| > 0 && tok[0] == '$' && '$' !in t
    ensures ReplaceOptional(t + "?" + tok + rest, tok, v) == t + v + ReplaceOptional(rest, tok, v)
  {
    var y := "?" + tok + rest;
    NotPrefix(y, tok, 0);
    ReplaceAtOptional(tok, v, rest);
    ReplaceText(t, y, tok, v);
    assert t + "?" + tok + rest == t + y;
  }

  lemma {:induction false} ReplaceTokenSegment(t: string, tok: string, v: string, rest: string)
    requires |tok| > 0 && tok[0] == '$' && '$' !in t
    requires |t| > 0 ==> t[|t| - 1] != '?'
    ensures ReplaceOptional(t + tok + rest, tok, v) == t + v + ReplaceOptional(rest, tok, v)
  {
    var y := tok + rest;
    assert t + tok + rest == t + y;
    calc {
      ReplaceOptional(t + y, tok, v);
      { ReplaceText(t, y, tok, v); }
      t + ReplaceOptional(y, tok, v);
      { ReplaceAtToken(tok, v, rest); }
      t + (v + ReplaceOptional(rest, tok, v));
    }
  }

  lemma {:induction false} ReplaceRender(segs: seq<Segment>, tok: string, v: string, tail: string)
    requires |tok| > 0 && tok[0] == '$' && Plain(segs, tail)
    ensures ReplaceOptional(Render(segs, tok, tail), tok, v) == Filled(segs, v, tail)
    decreases |segs|
  {
    if |segs| == 0 {
      ReplaceText(tail, "", tok, v);
      assert tail + "" == tail;
    } else {
      assert Plain(segs[1..], tail) by {
        assert forall k :: 0 <= k < |segs| - 1 ==> segs[1..][k] == segs[k + 1];
      }
      ReplaceRender(segs[1..], tok, v, tail);
      var t, rest := segs[0].text, Render(segs[1..], tok, tail);
      if segs[0].elidable {
        assert Render(segs, tok, tail) == t + "?" + tok + rest;
        ReplaceElidableSegment(t, tok, v, rest);
      } else {
        assert Render(segs, tok, tail) == t + tok + rest;
        ReplaceTokenSegment(t, tok, v, rest);
      }
    }
  }

  /**
   * A non-empty value replaces every `${name}` and every `?${name}` of a format
   * built from plain text, the `?` going with the token.
   */
  lemma {:induction false} ReplaceEveryToken(segs: seq<Segment>, dimName: string, value: string, tail: string)
    requires value != "" && Plain(segs, tail)
    ensures Substitute(Render(segs, Token(dimName), tail), dimName, value) == Filled(segs, value, tail)
  {
    ReplaceRender(segs, Token(dimName), value, tail);
  }

  // Removal for an empty value

  lemma {:induction false} ElideKeep(s: string, tok: string)
    requires |tok| > 0 && |s| > 0 && !(!IsLineTerminator(s[0]) && StartsWith(s[1..], "?" + tok))
    ensures RemoveElided(s, tok) == [s[0]] + RemoveElided(s[1..], tok)
  {
  }

  lemma {:induction false} ElideAt(c: char, tok: string, rest: string)
    requires |tok| > 0 && !IsLineTerminator(c)
    ensures RemoveElided([c] + "?" + tok + rest, tok) == RemoveElided(rest, tok)
  {
    var s := [c] + "?" + tok + rest;
    assert s[1..] == "?" + tok + rest;
    PrefixAfter("?" + tok, rest);
    assert s[|tok| + 2..] == rest;
  }

  lemma {:induction false} ElideText(x: string, y: string, tok: string)
    requires |tok| > 0 && tok[0] == '$' && '$' !in x
    requires !StartsWith(y, "?" + tok)
    requires |x| > 0 && x[|x| - 1] == '?' ==> !StartsWith(y, tok)
    ensures RemoveElided(x + y, tok) == x + RemoveElided(y, tok)
    decreases |x|
  {
    if |x| > 0 {
      var s := x + y;
      assert s[0] == x[0] && s[1..] == x[1..] + y;
      if |x| >= 3 {
        assert s[1..][1] == x[2];
        NotPrefix(s[1..], "?" + tok, 1);
      } else if |x| == 2 && x[1] == '?' {
        assert s[1..][1..] == y;
        StartsWithAfter(s[1..], '?', tok);
      } else if |x| == 2 {
        assert s[1..][0] == x[1];
        NotPrefix(s[1..], "?" + tok, 0);
      } else {
        assert s[1..] == y;
      }
      ElideKeep(s, tok);
      assert '$' !in x[1..] by { assert forall k :: 0 <= k < |x| - 1 ==> x[1..][k] == x[k + 1]; }
      ElideText(x[1..], y, tok);
      calc {
        RemoveElided(x + y, tok);
        [x[0]] + RemoveElided(x[1..] + y, tok);
        [x[0]] + (x[1..] + RemoveElided(y, tok));
        { assert x == [x[0]] + x[1..]; }
        x + RemoveElided(y, tok);
      }
    } else {
      assert x + y == y;
    }
  }

  /** A token not followed by `?${name}` survives the elision pass. */
  lemma {:induction false} TokenKept(dimName: string, y: string)
    requires '$' !in dimName && !StartsWith(y, "?" + Token(dimName))
    ensures RemoveElided(Token(dimName) + y, Token(dimName)) == Token(dimName) + RemoveElided(y, Token(dimName))
  {
    var tok := Token(dimName);
    var body := tok[1..];
    assert body == "{" + dimName + "}";
    assert '$' !in body;
    var s := tok + y;
    assert s[1..] == body + y && s[1] == '{';
    NotPrefix(s[1..], "?" + tok, 0);
    calc {
      RemoveElided(s, tok);
      { ElideKeep(s, tok); }
      [s[0]] + RemoveElided(s[1..], tok);
      [tok[0]] + RemoveElided(body + y, tok);
      { ElideText(body, y, tok); }
      [tok[0]] + (body + RemoveElided(y, tok));
      { assert tok == [tok[0]] + body; }
      tok + RemoveElided(y, tok);
    }
  }

  /** A segment of a plain, elision-ready format never starts with `?${name}`. */
  lemma {:induction false} SegmentNoElision(t: string, elidable: bool, tok: string, rest: string)
    requires |tok| > 0 && tok[0] == '$' && '$' !in t
    requires elidable ==> |t| > 0
    requires !elidable && |t| > 0 ==> t[|t| - 1] != '?'
    ensures !StartsWith(t + (if elidable then "?" else "") + tok + rest, "?" + tok)
  {
    var r := t + (if elidable then "?" else "") + tok + rest;
    if |t| >= 2 {
      assert r[1] == t[1];
      NotPrefix(r, "?" + tok, 1);
    } else if |t| == 1 && elidable {
      assert r[1] == '?';
      NotPrefix(r, "?" + tok, 1);
    } else if |t| == 1 {
      assert r[0] == t[0];
      NotPrefix(r, "?" + tok, 0);
    } else {
      assert r[0] == '$';
      NotPrefix(r, "?" + tok, 0);
    }
  }

  /** A plain, elision-ready format never starts with `?${name}`. */
  lemma {:induction false} NoElisionAtStart(segs: seq<Segment>, tok: string, tail: string)
    requires |tok| > 0 && tok[0] == '$' && Plain(segs, tail) && ElisionReady(segs)
    ensures !StartsWith(Render(segs, tok, tail), "?" + tok)
  {
    if |segs| == 0 {
      if |tail| >= 2 { NotPrefix(tail, "?" + tok, 1); }
    } else {
      SegmentNoElision(segs[0].text, segs[0].elidable, tok, Render(segs[1..], tok, tail));
    }
  }

  lemma {:induction false} ElideRender(segs: seq<Segment>, dimName: string, tail: string)
    requires '$' !in dimName && Plain(segs, tail) && ElisionReady(segs)
    ensures RemoveElided(Render(segs, Token(dimName), tail), Token(dimName)) == Elided(segs, Token(dimName), tail)
    decreases |segs|
  {
    var tok := Token(dimName);
    if |segs| == 0 {
      ElideText(tail, "", tok);
      assert tail + "" == tail;
    } else {
      PlainRest(segs, tail);
      ElideRender(segs[1..], dimName, tail);
      if segs[0].elidable {
        ElideElidableFirst(segs, dimName, tail);
      } else {
        ElideTokenFirst(segs, dimName, tail);
      }
    }
  }

  /** The step of ElideRender for a first segment written with `?`. */
  lemma {:induction false} ElideElidableFirst(segs: seq<Segment>, dimName: string, tail: string)
    requires '$' !in dimName && Plain(segs, tail) && ElisionReady(segs) && |segs| > 0 && segs[0].elidable
    requires ElisionReady(segs[1..])
    requires RemoveElided(Render(segs[1..], Token(dimName), tail), Token(dimName)) == Elided(segs[1..], Token(dimName), tail)
    ensures RemoveElided(Render(segs, Token(dimName), tail), Token(dimName)) == Elided(segs, Token(dimName), tail)
  {
    var tok := Token(dimName);
    var t, rest := segs[0].text, Render(segs[1..], tok, tail);
    calc {
      RemoveElided(Render(segs, tok, tail), tok);
      { assert Render(segs, tok, tail) == t + "?" + tok + rest; }
      RemoveElided(t + "?" + tok + rest, tok);
      { ElideElidable(t, tok, rest); }
      t[..|t| - 1] + RemoveElided(rest, tok);
      t[..|t| - 1] + Elided(segs[1..], tok, tail);
    }
  }

  /** The step of ElideRender for a first segment whose token has no `?`. */
  lemma {:induction false} ElideTokenFirst(segs: seq<Segment>, dimName: string, tail: string)
    requires '$' !in dimName && Plain(segs, tail) && |segs| > 0 && !segs[0].elidable
    requires Plain(segs[1..], tail) && ElisionReady(segs) && ElisionReady(segs[1..])
    requires RemoveElided(Render(segs[1..], Token(dimName), tail), Token(dimName)) == Elided(segs[1..], Token(dimName), tail)
    ensures RemoveElided(Render(segs, Token(dimName), tail), Token(dimName)) == Elided(segs, Token(dimName), tail)
  {
    var tok := Token(dimName);
    var t, rest := segs[0].text, Render(segs[1..], tok, tail);
    NoElisionAtStart(segs[1..], tok, tail);
    assert Render(segs, tok, tail) == t + tok + rest;
    TextTokenKept(t, dimName, rest);
  }

  /** Plain text and a token without `?` both survive the elision pass. */
  lemma {:induction false} TextTokenKept(t: string, dimName: string, rest: string)
    requires '$' !in dimName && '$' !in t && (|t| > 0 ==> t[|t| - 1] != '?')
    requires !StartsWith(rest, "?" + Token(dimName))
    ensures RemoveElided(t + Token(dimName) + rest, Token(dimName)) == t + Token(dimName) + RemoveElided(rest, Token(dimName))
  {
    var tok := Token(dimName);
    NotPrefix(tok + rest, "?" + tok, 0);
    calc {
      RemoveElided(t + tok + rest, tok);
      { assert t + tok + rest == t + (tok + rest); }
      RemoveElided(t + (tok + rest), tok);
      { ElideText(t, tok + rest, tok); }
      t + RemoveElided(tok + rest, tok);
      { TokenKept(dimName, rest); }
      t + (tok + RemoveElided(rest, tok));
      t + tok + RemoveElided(rest, tok);
    }
  }

  lemma {:induction false} ElideElidable(t: string, tok: string, rest: string)
    requires |tok| > 0 && tok[0] == '$' && '$' !in t && |t| > 0 && !IsLineTerminator(t[|t| - 1])
    ensures RemoveElided(t + "?" + tok + rest, tok) == t[..|t| - 1] + RemoveElided(rest, tok)
  {
    var x, c := t[..|t| - 1], t[|t| - 1];
    assert '$' !in x by { assert forall k :: 0 <= k < |x| ==> x[k] == t[k]; }
    var y := [c] + "?" + tok + rest;
    assert t + "?" + tok + rest == x + y by { assert t == x + [c]; }
    assert y[1] == '?';
    NotPrefix(y, "?" + tok, 1);
    assert y[0] == c;
    NotPrefix(y, tok, 0);
    ElideText(x, y, tok);
    ElideAt(c, tok, rest);
  }

  lemma {:induction false} RemoveTokenKeep(s: string, tok: string)
    requires |tok| > 0 && |s| > 0 && !StartsWith(s, tok)
    ensures RemoveToken(s, tok) == [s[0]] + RemoveToken(s[1..], tok)
  {
  }

  lemma {:induction false} RemoveTokenText(x: string, y: string, tok: string)
    requires |tok| > 0 && tok[0] == '$' && '$' !in x
    ensures RemoveToken(x + y, tok) == x + RemoveToken(y, tok)
    decreases |x|
  {
    if |x| > 0 {
      var s := x + y;
      assert s[0] == x[0] && s[1..] == x[1..] + y;
      NotPrefix(s, tok, 0);
      RemoveTokenKeep(s, tok);
      assert '$' !in x[1..] by { assert forall k :: 0 <= k < |x| - 1 ==> x[1..][k] == x[k + 1]; }
      RemoveTokenText(x[1..], y, tok);
      calc {
        RemoveToken(x + y, tok);
        [x[0]] + RemoveToken(x[1..] + y, tok);
        [x[0]] + (x[1..] + RemoveToken(y, tok));
        { assert x == [x[0]] + x[1..]; }
        x + RemoveToken(y, tok);
      }
    } else {
      assert x + y == y;
    }
  }

  lemma {:induction false} RemoveTokenElided(segs: seq<Segment>, tok: string, tail: string)
    requires |tok| > 0 && tok[0] == '$' && Plain(segs, tail) && ElisionReady(segs)
    ensures RemoveToken(Elided(segs, tok, tail), tok) == Dropped(segs, tail)
    decreases |segs|
  {
    if |segs| == 0 {
      RemoveTokenText(tail, "", tok);
      assert tail + "" == tail;
    } else {
      var t, rest := segs[0].text, Elided(segs[1..], tok, tail);
      PlainRest(segs, tail);
      RemoveTokenElided(segs[1..], tok, tail);
      if segs[0].elidable {
        var x := t[..|t| - 1];
        assert '$' !in x by { assert forall k :: 0 <= k < |x| ==> x[k] == t[k]; }
        RemoveTokenText(x, rest, tok);
      } else {
        PrefixAfter(tok, rest);
        RemoveTokenText(t, tok + rest, tok);
        assert t + tok + rest == t + (tok + rest);
      }
    }
  }

  /**
   * An empty value removes every token of a plain format, and with every `?${name}`
   * also the one character before it.
   */
  lemma {:induction false} EmptyValueElides(segs: seq<Segment>, dimName: string, tail: string)
    requires '$' !in dimName && Plain(segs, tail) && ElisionReady(segs)
    ensures Substitute(Render(segs, Token(dimName), tail), dimName, "") == Dropped(segs, tail)
  {
    ElideRender(segs, dimName, tail);
    RemoveTokenElided(segs, Token(dimName), tail);
  }

  /** `?${name}` at the very start has no character before it: the `?` stays. */
  lemma {:induction false} LoneQuestionMark(dimName: string, tail: string)
    requires '$' !in dimName && '$' !in tail
    ensures Substitute("?" + Token(dimName) + tail, dimName, "") == "?" + tail
  {
    var tok := Token(dimName);
    var s := "?" + tok + tail;
    assert s[1..] == tok + tail && s[0] == '?' && s[1] == '$';
    NotPrefix(s[1..], "?" + tok, 0);
    if |tail| >= 2 { NotPrefix(tail, "?" + tok, 1); }
    calc {
      RemoveElided(s, tok);
      { ElideKeep(s, tok); }
      "?" + RemoveElided(tok + tail, tok);
      { TokenKept(dimName, tail); }
      "?" + (tok + RemoveElided(tail, tok));
      { ElideText(tail, "", tok); assert tail + "" == tail; }
      "?" + (tok + tail);
    }
    calc {
      RemoveToken("?" + (tok + tail), tok);
      { RemoveTokenText("?", tok + tail, tok); }
      "?" + RemoveToken(tok + tail, tok);
      { PrefixAfter(tok, tail); }
      "?" + RemoveToken(tail, tok);
      { RemoveTokenText(tail, "", tok); assert tail + "" == tail; }
      "?" + tail;
    }
  }

  // ---------------------------------------------------------------------------
  // Two dimensions in one name format
  // ---------------------------------------------------------------------------

  /** The tokens of two different names never overlap at the front. */
  lemma {:induction false} TokensDistinct(x: string, y: string, r: string)
    requires '}' !in x && '}' !in y && x != y
    ensures !StartsWith(Token(y) + r, Token(x))
  {
    var s, p := Token(y) + r, Token(x);
    assert s[..|y| + 3] == "${" + y + "}";
    if |x| < |y| {
      assert s[2 + |x|] == y[|x|] && p[2 + |x|] == '}';
      NotPrefix(s, p, 2 + |x|);
    } else if |x| > |y| {
      assert s[2 + |y|] == '}' && p[2 + |y|] == x[|y|];
      NotPrefix(s, p, 2 + |y|);
    } else {
      var k :| 0 <= k < |x| && x[k] != y[k];
      assert s[2 + k] == y[k] && p[2 + k] == x[k];
      NotPrefix(s, p, 2 + k);
    }
  }

  /** Text around another dimension's token holds no token of `x`. */
  lemma {:induction false} NoTokenAroundOther(x: string, y: string, sep: string, ext: string)
    requires '}' !in x && '$' !in y && '}' !in y && x != y && '$' !in sep && '$' !in ext
    ensures !Occurs(sep + Token(y) + ext, Token(x))
  {
    var s := sep + Token(y) + ext;
    forall i | 0 <= i <= |s|
      ensures !StartsWith(s[i..], Token(x))
    {
      if i == |sep| {
        assert s[i..] == Token(y) + ext;
        TokensDistinct(x, y, ext);
      } else if i < |s| {
        if i < |sep| {
          assert s[i] == sep[i];
        } else if i < |sep| + |y| + 3 {
          assert s[i] == Token(y)[i - |sep|];
          assert Token(y)[1..] == "{" + y + "}";
        } else {
          assert s[i] == ext[i - |sep| - |y| - 3];
        }
        NotPrefix(s[i..], Token(x), 0);
      }
    }
  }

  lemma {:induction false} ResolveTwo(nameFormat: string, x: string, y: string, a: string, b: string)
    ensures ResolveName(nameFormat, [x, y], [a, b]) == Substitute(Substitute(nameFormat, x, a), y, b)
  {
    assert [x, y][..1] == [x] && [a, b][..1] == [a];
    assert [x][..0] == [] && [a][..0] == [];
    assert ResolveName(nameFormat, [x], [a]) == Substitute(nameFormat, x, a);
  }

  lemma {:induction false} FirstOfTwo(x: string, y: string, a: string, ext: string)
    requires '}' !in x && '$' !in y && '}' !in y && x != y
    requires a != "" && '$' !in ext
    ensures Substitute(Token(x) + "_?" + Token(y) + ext, x, a) == a + "_?" + Token(y) + ext
  {
    var rest := "_?" + Token(y) + ext;
    calc {
      Substitute(Token(x) + "_?" + Token(y) + ext, x, a);
      { assert Token(x) + "_?" + Token(y) + ext == Token(x) + rest; }
      Substitute(Token(x) + rest, x, a);
      ReplaceOptional(Token(x) + rest, Token(x), a);
      { ReplaceAtToken(Token(x), a, rest); }
      a + ReplaceOptional(rest, Token(x), a);
      { NoTokenAroundOther(x, y, "_?", ext);
        ReplaceOptionalNoToken(rest, Token(x), a); }
      a + rest;
    }
  }

  lemma {:induction false} SecondOfTwo(y: string, a: string, b: string, ext: string)
    requires '$' !in y && '$' !in a && '$' !in b && '$' !in ext
    ensures Substitute(a + "_?" + Token(y) + ext, y, b) == if b == "" then a + ext else a + "_" + b + ext
  {
    var segs := [Segment(a + "_", true)];
    assert Render(segs, Token(y), ext) == a + "_?" + Token(y) + ext;
    assert Plain(segs, ext) && ElisionReady(segs);
    if b == "" {
      EmptyValueElides(segs, y, ext);
      assert (a + "_")[..|a|] == a;
    } else {
      ReplaceEveryToken(segs, y, b, ext);
    }
  }

  /**
   * The format `${x}_?${y}` + ext: the `_` separator appears only when y has a value.
   */
  lemma {:induction false} TwoDimensionFormat(x: string, y: string, a: string, b: string, ext: string)
    requires '$' !in x && '}' !in x && '$' !in y && '}' !in y && x != y
    requires a != "" && '$' !in a && '$' !in b && '$' !in ext
    ensures ResolveName(Token(x) + "_?" + Token(y) + ext, [x, y], [a, b])
         == if b == "" then a + ext else a + "_" + b + ext
  {
    ResolveTwo(Token(x) + "_?" + Token(y) + ext, x, y, a, b);
    FirstOfTwo(x, y, a, ext);
    SecondOfTwo(y, a, b, ext);
  }

  /** The worked example: with no value for y, `${x}_?${y}.png` gives `foo.png`. */
  lemma {:induction false} ElisionExample()
    ensures ResolveName("${x}_?${y}.png", ["x", "y"], ["foo", ""]) == "foo.png"
  {
    var fmt := Token("x") + "_?" + Token("y") + ".png";
    assert "${x}_?${y}.png" == fmt;
    TwoDimensionFormat("x", "y", "foo", "", ".png");
    assert "foo" + ".png" == "foo.png";
  }

  /** The same format with a value for y gives `foo_bar.png`. */
  lemma {:induction false} FilledExample()
    ensures ResolveName("${x}_?${y}.png", ["x", "y"], ["foo", "bar"]) == "foo_bar.png"
  {
    var fmt := Token("x") + "_?" + Token("y") + ".png";
    assert "${x}_?${y}.png" == fmt;
    TwoDimensionFormat("x", "y", "foo", "bar", ".png");
    assert "foo" + "_" + "bar" + ".png" == "foo_bar.png";
  }
}

