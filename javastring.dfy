/**
 * The few java.lang library behaviours the configuration parser depends on:
 * String.trim, startsWith/endsWith, String.split with a one-character delimiter
 * (trailing empty strings dropped), Integer.parseInt in radix 10 over ASCII digits,
 * and 32-bit two's-complement addition.
 */
module JavaString {
  import opened Wrappers

  // ---------------------------------------------------------------------------
  // String.trim
  // ---------------------------------------------------------------------------

  /** String.trim strips every character whose code is at most U+0020. */
  predicate IsTrimmable(c: char) { c <= ' ' }

  predicate AllTrimmable(s: string) { forall k :: 0 <= k < |s| ==> IsTrimmable(s[k]) }

  /** The first index at or after `st` whose character is not trimmable (or |s|). */
  function TrimLo(s: string, st: nat): (n: nat)
    requires st <= |s|
    ensures st <= n <= |s|
    ensures forall k :: st <= k < n ==> IsTrimmable(s[k])
    ensures n == |s| || !IsTrimmable(s[n])
    decreases |s| - st
  {
    if st < |s| && IsTrimmable(s[st]) then TrimLo(s, st + 1) else st
  }

  /** The end of `s[st..len]` once its trailing trimmable characters are dropped. */
  function TrimHi(s: string, st: nat, len: nat): (n: nat)
    requires st <= len <= |s|
    ensures st <= n <= len
    ensures forall k :: n <= k < len ==> IsTrimmable(s[k])
    ensures n == st || !IsTrimmable(s[n - 1])
  {
    if st < len && IsTrimmable(s[len - 1]) then TrimHi(s, st, len - 1) else len
  }

  /** String.trim: the infix of `s` between its leading and trailing trimmable characters. */
  function Trim(s: string): (r: string)
    ensures r == [] <==> AllTrimmable(s)
    ensures r != [] ==> !IsTrimmable(r[0]) && !IsTrimmable(r[|r| - 1])
  {
    var lo := TrimLo(s, 0);
    var hi := TrimHi(s, lo, |s|);
    assert lo < |s| ==> !IsTrimmable(s[lo]);
    s[lo..hi]
  }

  /** Trim removes exactly the padding around a core that begins and ends untrimmable. */
  lemma {:induction false} TrimPadded(pre: string, core: string, post: string)
    requires AllTrimmable(pre) && AllTrimmable(post)
    requires core != [] ==> !IsTrimmable(core[0]) && !IsTrimmable(core[|core| - 1])
    ensures Trim(pre + core + post) == core
  {
    var s := pre + core + post;
    if core == [] {
      assert AllTrimmable(s) by {
        forall k | 0 <= k < |s|
          ensures IsTrimmable(s[k])
        {
          if k < |pre| {
            assert s[k] == pre[k];
          } else {
            assert s[k] == post[k - |pre|];
          }
        }
      }
    } else {
      TrimLoPadded(s, pre, core, post, 0);
      TrimHiPadded(s, pre, core, post, |s|);
      assert s[|pre|..|pre| + |core|] == core;
    }
  }

  lemma {:induction false} TrimLoPadded(s: string, pre: string, core: string, post: string, st: nat)
    requires s == pre + core + post && AllTrimmable(pre) && core != [] && !IsTrimmable(core[0])
    requires st <= |pre|
    ensures TrimLo(s, st) == |pre|
    decreases |pre| - st
  {
    if st < |pre| {
      assert s[st] == pre[st];
      TrimLoPadded(s, pre, core, post, st + 1);
    } else {
      assert s[st] == core[0];
    }
  }

  lemma {:induction false} TrimHiPadded(s: string, pre: string, core: string, post: string, len: nat)
    requires s == pre + core + post && AllTrimmable(post) && core != [] && !IsTrimmable(core[|core| - 1])
    requires |pre| + |core| <= len <= |s|
    ensures TrimHi(s, |pre|, len) == |pre| + |core|
    decreases len
  {
    if len > |pre| + |core| {
      assert s[len - 1] == post[len - 1 - |pre| - |core|];
      TrimHiPadded(s, pre, core, post, len - 1);
    } else {
      assert s[len - 1] == core[|core| - 1];
    }
  }

  /** `line.trim().isEmpty()`. */
  predicate IsBlank(s: string) { Trim(s) == [] }

  // ---------------------------------------------------------------------------
  // java.util.regex: the characters `.` does not match (no DOTALL, no UNIX_LINES)
  // ---------------------------------------------------------------------------

  predicate IsLineTerminator(c: char)
  {
    c == '\n' || c == '\r' || c == '\U{85}' || c == '\U{2028}' || c == '\U{2029}'
  }

  // ---------------------------------------------------------------------------
  // startsWith / endsWith
  // ---------------------------------------------------------------------------

  predicate StartsWith(s: string, prefix: string) { |prefix| <= |s| && s[..|prefix|] == prefix }

  predicate EndsWith(s: string, suffix: string) { |suffix| <= |s| && s[|s| - |suffix|..] == suffix }

  // ---------------------------------------------------------------------------
  // String.split with a single, non-metacharacter delimiter and limit 0
  // ---------------------------------------------------------------------------

  /** The pieces glued back together with the delimiter between consecutive pieces. */
  function Join(parts: seq<string>, d: char): string
    requires |parts| >= 1
  {
    if |parts| == 1 then parts[0] else parts[0] + [d] + Join(parts[1..], d)
  }

  /** Every piece between delimiters, empty ones included (what split does before dropping). */
  function SplitAll(s: string, d: char): (parts: seq<string>)
    ensures |parts| >= 1
    ensures forall k :: 0 <= k < |parts| ==> d !in parts[k]
    ensures Join(parts, d) == s
  {
    if |s| == 0 then [""]
    else
      var rest := SplitAll(s[1..], d);
      if s[0] == d then
        assert s == [d] + s[1..];
        [""] + rest
      else
        var parts := [[s[0]] + rest[0]] + rest[1..];
        assert parts[1..] == rest[1..];
        assert s == [s[0]] + s[1..];
        parts
  }

  /** Drops the trailing empty strings, as split with limit 0 does. */
  function DropTrailingEmpty(parts: seq<string>): (r: seq<string>)
    ensures r <= parts
    ensures r == [] || r[|r| - 1] != ""
    ensures forall k :: |r| <= k < |parts| ==> parts[k] == ""
  {
    if |parts| == 0 then []
    else if parts[|parts| - 1] == "" then DropTrailingEmpty(parts[..|parts| - 1])
    else parts
  }

  /**
   * `s.split(d)`: when the delimiter does not occur the array holds `s` itself (even when
   * `s` is empty); otherwise the pieces with the trailing empty ones dropped.
   */
  function Split(s: string, d: char): (r: seq<string>)
  {
    if d !in s then [s] else DropTrailingEmpty(SplitAll(s, d))
  }

  /** `k` copies of the character `c`. */
  function Repeat(c: char, k: nat): (r: string)
    ensures |r| == k && forall j :: 0 <= j < k ==> r[j] == c
  {
    if k == 0 then [] else [c] + Repeat(c, k - 1)
  }

  /** Splitting is the inverse of joining delimiter-free pieces. */
  lemma {:induction false} SplitAllJoin(parts: seq<string>, d: char)
    requires |parts| >= 1
    requires forall k :: 0 <= k < |parts| ==> d !in parts[k]
    ensures SplitAll(Join(parts, d), d) == parts
  {
    if |parts| == 1 {
      SplitAllFree(parts[0], d);
    } else {
      SplitAllJoin(parts[1..], d);
      SplitAllPrefix(parts[0], Join(parts[1..], d), d);
    }
  }

  /** A string without the delimiter splits into itself. */
  lemma {:induction false} SplitAllFree(s: string, d: char)
    requires d !in s
    ensures SplitAll(s, d) == [s]
  {
    if |s| > 0 {
      assert d !in s[1..] by { assert forall k :: 0 <= k < |s| - 1 ==> s[1..][k] == s[k + 1]; }
      SplitAllFree(s[1..], d);
    }
  }

  /** Splitting `a + [d] + b` with `a` delimiter-free yields `a` followed by the pieces of `b`. */
  lemma {:induction false} SplitAllPrefix(a: string, b: string, d: char)
    requires d !in a
    ensures SplitAll(a + [d] + b, d) == [a] + SplitAll(b, d)
  {
    if |a| == 0 {
      assert a + [d] + b == [d] + b;
      assert ([d] + b)[1..] == b;
    } else {
      assert (a + [d] + b)[1..] == a[1..] + [d] + b;
      assert d !in a[1..] by { assert forall k :: 0 <= k < |a| - 1 ==> a[1..][k] == a[k + 1]; }
      SplitAllPrefix(a[1..], b, d);
      assert [a[0]] + a[1..] == a;
    }
  }

  /** Joining `k + 1` empty pieces gives `k` delimiters. */
  lemma {:induction false} JoinEmpties(parts: seq<string>, d: char)
    requires |parts| >= 1
    requires forall k :: 0 <= k < |parts| ==> parts[k] == ""
    ensures Join(parts, d) == Repeat(d, |parts| - 1)
  {
    if |parts| > 1 {
      JoinEmpties(parts[1..], d);
    }
  }

  /** Join over a concatenation of piece lists. */
  lemma {:induction false} JoinAppend(p: seq<string>, q: seq<string>, d: char)
    requires |p| >= 1 && |q| >= 1
    ensures Join(p + q, d) == Join(p, d) + [d] + Join(q, d)
  {
    if |p| == 1 {
      assert (p + q)[1..] == q;
    } else {
      assert (p + q)[1..] == p[1..] + q;
      JoinAppend(p[1..], q, d);
    }
  }

  /**
   * `a + "=" + b` followed by any number of further delimiters splits into exactly
   * `[a, b]` when `a` and `b` hold no delimiter and `b` is not empty.
   */
  lemma {:induction false} SplitPair(a: string, b: string, k: nat, d: char)
    requires d !in a && d !in b && b != ""
    ensures Split(a + [d] + b + Repeat(d, k), d) == [a, b]
  {
    var s := a + [d] + b + Repeat(d, k);
    var parts := [a, b] + seq(k, _ => "");
    assert forall j :: 0 <= j < |parts| ==> d !in parts[j];
    if k == 0 {
      assert Join(parts, d) == s;
    } else {
      JoinEmpties(parts[1..][1..], d);
      assert parts[1..][1..] == seq(k, _ => "");
      assert Join(parts, d) == a + [d] + (b + [d] + Repeat(d, k - 1));
      assert Repeat(d, k) == [d] + Repeat(d, k - 1);
      assert s == a + [d] + (b + [d] + Repeat(d, k - 1));
    }
    SplitAllJoin(parts, d);
    assert d in s by { assert s[|a|] == d; }
    assert DropTrailingEmpty(parts) == [a, b] by {
      if k > 0 { DropEmpties([a, b], k); }
    }
  }

  /** Three delimiter-free pieces, the last not empty, split back into exactly those three. */
  lemma {:induction false} SplitTriple(a: string, b: string, c: string, d: char)
    requires d !in a && d !in b && d !in c && c != ""
    ensures Split(a + [d] + b + [d] + c, d) == [a, b, c]
  {
    var s := a + [d] + b + [d] + c;
    var parts := [a, b, c];
    assert Join(parts[1..], d) == b + [d] + c by { assert parts[1..][1..] == [c]; }
    assert Join(parts, d) == s;
    SplitAllJoin(parts, d);
    assert d in s by { assert s[|a|] == d; }
  }

  /** A delimiter-free, non-empty string followed only by delimiters splits into itself. */
  lemma {:induction false} SplitTrailingDelimiters(a: string, k: nat, d: char)
    requires d !in a && a != ""
    ensures Split(a + Repeat(d, k + 1), d) == [a]
  {
    var s := a + Repeat(d, k + 1);
    var empties := seq(k + 1, _ => "");
    var parts := [a] + empties;
    assert parts[1..] == empties;
    JoinEmpties(empties, d);
    assert Repeat(d, k + 1) == [d] + Repeat(d, k);
    assert Join(parts, d) == s;
    assert forall j :: 0 <= j < |parts| ==> d !in parts[j];
    SplitAllJoin(parts, d);
    assert d in s by { assert s[|a|] == d; }
    DropEmpties([a], k + 1);
  }

  lemma {:induction false} DropEmpties(p: seq<string>, k: nat)
    requires p != [] && p[|p| - 1] != ""
    ensures DropTrailingEmpty(p + seq(k, _ => "")) == p
  {
    if k > 0 {
      assert (p + seq(k, _ => ""))[..|p| + k - 1] == p + seq(k - 1, _ => "");
      DropEmpties(p, k - 1);
    }
  }

  /**
   * Conversely, whenever split yields exactly two pieces the string was the first
   * piece, the delimiter, the second piece and nothing but delimiters after it.
   */
  lemma {:induction false} SplitTwoShape(s: string, d: char)
    requires |Split(s, d)| == 2
    ensures var p := Split(s, d);
      d !in p[0] && d !in p[1] && p[1] != "" &&
      |p[0]| + |p[1]| + 1 <= |s| &&
      s == p[0] + [d] + p[1] + Repeat(d, |s| - |p[0]| - |p[1]| - 1)
  {
    var all := SplitAll(s, d);
    var p := Split(s, d);
    assert d in s;
    assert p == all[..2];
    if |all| == 2 {
      assert all == p;
      assert Join(all, d) == p[0] + [d] + p[1];
    } else {
      var tail := all[2..];
      assert forall k :: 0 <= k < |tail| ==> tail[k] == all[k + 2];
      JoinEmpties(tail, d);
      assert all == p + tail;
      JoinAppend(p, tail, d);
      assert Join(p, d) == p[0] + [d] + p[1];
      assert s == p[0] + [d] + p[1] + [d] + Repeat(d, |tail| - 1);
      assert [d] + Repeat(d, |tail| - 1) == Repeat(d, |tail|);
    }
  }

  // ---------------------------------------------------------------------------
  // Integer.parseInt (radix 10) and 32-bit int arithmetic
  // ---------------------------------------------------------------------------

  const INT_MIN: int := -0x8000_0000
  const INT_MAX: int := 0x7fff_ffff

  predicate IsInt32(n: int) { INT_MIN <= n <= INT_MAX }

  /** Java `int`. */
  type Int32 = n: int | INT_MIN <= n <= INT_MAX

  predicate IsDigit(c: char) { '0' <= c <= '9' }

  predicate AllDigits(s: string) { forall k :: 0 <= k < |s| ==> IsDigit(s[k]) }

  /** The value of a run of decimal digits, most significant first. */
  function DigitsValue(s: string): nat
    requires AllDigits(s)
  {
    if |s| == 0 then 0 else DigitsValue(s[..|s| - 1]) * 10 + (s[|s| - 1] as int - '0' as int)
  }

  /**
   * Integer.parseInt(s): an optional sign followed by at least one digit, whose value fits
   * in 32 bits; anything else raises NumberFormatException (here None).
   */
  function ParseInt(s: string): (r: Option<Int32>)
    ensures r.Some? ==> IsInt32(r.value)
    ensures r.Some? ==> |s| > 0 && (AllDigits(s) || ((s[0] == '-' || s[0] == '+') && |s| > 1 && AllDigits(s[1..])))
    ensures r.Some? && AllDigits(s) ==> r.value == DigitsValue(s)
    ensures r.Some? && s[0] == '+' ==> r.value == DigitsValue(s[1..])
    ensures r.Some? && s[0] == '-' ==> r.value == 0 - DigitsValue(s[1..]) as int
  {
    if |s| == 0 then None
    else if s[0] == '-' || s[0] == '+' then
      if |s| == 1 || !AllDigits(s[1..]) then None
      else
        var v: int := if s[0] == '-' then 0 - DigitsValue(s[1..]) as int else DigitsValue(s[1..]);
        if IsInt32(v) then Some(v) else None
    else if AllDigits(s) && IsInt32(DigitsValue(s)) then Some(DigitsValue(s))
    else None
  }

  /** Conversely, an optional sign and at least one digit, with a value in the 32-bit range, always parse. */
  lemma {:induction false} ParseIntAccepts(s: string)
    ensures |s| > 0 && AllDigits(s) && DigitsValue(s) <= INT_MAX ==> ParseInt(s) == Some(DigitsValue(s))
    ensures |s| > 1 && s[0] == '+' && AllDigits(s[1..]) && DigitsValue(s[1..]) <= INT_MAX ==>
              ParseInt(s) == Some(DigitsValue(s[1..]))
    ensures |s| > 1 && s[0] == '-' && AllDigits(s[1..]) && DigitsValue(s[1..]) <= -INT_MIN ==>
              ParseInt(s) == Some(0 - DigitsValue(s[1..]) as int)
  {
  }

  /** Integer.toString for a non-negative value: its decimal digits without leading zeros. */
  function Decimal(n: nat): (r: string)
    ensures AllDigits(r) && |r| >= 1
    decreases n
  {
    if n < 10 then [('0' as int + n) as char]
    else Decimal(n / 10) + [('0' as int + n % 10) as char]
  }

  lemma {:induction false} DecimalValue(n: nat)
    ensures DigitsValue(Decimal(n)) == n
    decreases n
  {
    if n >= 10 {
      DecimalValue(n / 10);
      var s := Decimal(n);
      assert s[..|s| - 1] == Decimal(n / 10);
    }
  }

  /** parseInt reads back what Integer.toString writes, for every non-negative int. */
  lemma {:induction false} ParseIntDecimal(n: nat)
    requires n <= INT_MAX
    ensures ParseInt(Decimal(n)) == Some(n)
    ensures ParseInt("-" + Decimal(n)) == Some(-(n as int))
  {
    DecimalValue(n);
    var s := Decimal(n);
    assert s[0] != '-' && s[0] != '+';
    assert ("-" + s)[1..] == s;
  }

  /** Java `int` addition: the mathematical sum wrapped into the 32-bit range. */
  function AddInt32(a: Int32, b: Int32): (r: Int32)
    ensures IsInt32(a + b) ==> r == a + b
    ensures a + b > INT_MAX ==> r == a + b - 0x1_0000_0000
    ensures a + b < INT_MIN ==> r == a + b + 0x1_0000_0000
  {
    (a + b - INT_MIN) % 0x1_0000_0000 + INT_MIN
  }
}
