/**
 * The string operations the report relies on: decimal rendering of counts
 * (PHP string interpolation of an int), joining with a separator (PHP
 * `implode`) and its inverse, splitting at a separator character.
 */
module Text {

  predicate IsDigitChar(c: char) {
    '0' <= c <= '9'
  }

  function DigitChar(d: nat): (c: char)
    requires d < 10
    ensures IsDigitChar(c)
  {
    ('0' as int + d) as char
  }

  function DigitValue(c: char): nat
    requires IsDigitChar(c)
  {
    c as int - '0' as int
  }

  /** The canonical decimal text of `n`: digits only, no leading zero unless `n` is zero. */
  function NatToString(n: nat): (s: string)
    ensures |s| >= 1
    ensures forall i :: 0 <= i < |s| ==> IsDigitChar(s[i])
    ensures s[0] == '0' ==> n == 0 && s == "0"
    decreases n
  {
    if n < 10 then [DigitChar(n)]
    else NatToString(n / 10) + [DigitChar(n % 10)]
  }

  /** The value of a string of decimal digits, read most significant first. */
  function DecimalValue(s: string): nat
    requires forall i :: 0 <= i < |s| ==> IsDigitChar(s[i])
  {
    if s == [] then 0
    else DecimalValue(s[..|s| - 1]) * 10 + DigitValue(s[|s| - 1])
  }

  /** Reading back the rendered text gives the number. */
  lemma {:induction false} DecimalRoundTrip(n: nat)
    ensures DecimalValue(NatToString(n)) == n
    decreases n
  {
    var s := NatToString(n);
    if n >= 10 {
      DecimalRoundTrip(n / 10);
      assert s[..|s| - 1] == NatToString(n / 10);
    }
  }

  /** Distinct counts render as distinct texts. */
  lemma NatToStringInjective(m: nat, n: nat)
    requires NatToString(m) == NatToString(n)
    ensures m == n
  {
    DecimalRoundTrip(m);
    DecimalRoundTrip(n);
  }

  /** `xs` joined with `sep` between consecutive items. */
  function Join(xs: seq<string>, sep: string): (s: string)
    ensures xs == [] ==> s == ""
    ensures |xs| == 1 ==> s == xs[0]
  {
    if |xs| <= 1 then (if xs == [] then "" else xs[0])
    else Join(xs[..|xs| - 1], sep) + sep + xs[|xs| - 1]
  }

  /** The pieces of `s` between occurrences of `c`; always at least one piece. */
  function Split(s: string, c: char): (parts: seq<string>)
    ensures |parts| >= 1
  {
    if s == [] then [""]
    else
      var init := Split(s[..|s| - 1], c);
      if s[|s| - 1] == c then init + [""]
      else init[..|init| - 1] + [init[|init| - 1] + [s[|s| - 1]]]
  }

  /** Text after the last separator becomes the last piece. */
  lemma {:induction false} SplitAppend(a: string, c: char, x: string)
    requires c !in x
    ensures Split(a + [c] + x, c) == Split(a, c) + [x]
    decreases |x|
  {
    if x == [] {
      assert a + [c] + x == a + [c];
      assert (a + [c])[..|a + [c]| - 1] == a;
    } else {
      var x' := x[..|x| - 1];
      var s := a + [c] + x;
      assert s[..|s| - 1] == a + [c] + x';
      SplitAppend(a, c, x');
      assert x' + [x[|x| - 1]] == x;
    }
  }

  /** A string without the separator is a single piece. */
  lemma {:induction false} SplitNone(x: string, c: char)
    requires c !in x
    ensures Split(x, c) == [x]
    decreases |x|
  {
    if x != [] {
      var x' := x[..|x| - 1];
      SplitNone(x', c);
      assert x' + [x[|x| - 1]] == x;
    }
  }

  /** Splitting at `c` undoes joining with `c` when no item contains `c`. */
  lemma {:induction false} SplitJoin(xs: seq<string>, c: char)
    requires |xs| >= 1
    requires forall i :: 0 <= i < |xs| ==> c !in xs[i]
    ensures Split(Join(xs, [c]), c) == xs
    decreases |xs|
  {
    if |xs| == 1 {
      SplitNone(xs[0], c);
    } else {
      var init := xs[..|xs| - 1];
      SplitJoin(init, c);
      SplitAppend(Join(init, [c]), c, xs[|xs| - 1]);
      assert init + [xs[|xs| - 1]] == xs;
    }
  }

  /** The summed lengths of the items. */
  function TotalLength(xs: seq<string>): nat {
    if xs == [] then 0 else TotalLength(xs[..|xs| - 1]) + |xs[|xs| - 1]|
  }

  /** Joining `n` items adds exactly `n - 1` separators to their total length. */
  lemma {:induction false} JoinLength(xs: seq<string>, sep: string)
    requires |xs| >= 1
    ensures |Join(xs, sep)| == TotalLength(xs) + (|xs| - 1) * |sep|
    decreases |xs|
  {
    var n := |xs|;
    if n > 1 {
      var init := xs[..n - 1];
      JoinLength(init, sep);
      assert |Join(xs, sep)| == |Join(init, sep)| + |sep| + |xs[n - 1]|;
      assert TotalLength(xs) == TotalLength(init) + |xs[n - 1]|;
      assert (n - 2) * |sep| + |sep| == (n - 1) * |sep|;
    }
  }

  /** A joined text starts with the first item. */
  lemma {:induction false} JoinStartsWithFirst(xs: seq<string>, sep: string)
    requires |xs| >= 1
    ensures |xs[0]| <= |Join(xs, sep)| && Join(xs, sep)[..|xs[0]|] == xs[0]
    decreases |xs|
  {
    if |xs| > 1 {
      var init := xs[..|xs| - 1];
      JoinStartsWithFirst(init, sep);
      var j := Join(init, sep);
      assert Join(xs, sep) == j + (sep + xs[|xs| - 1]);
      assert Join(xs, sep)[..|xs[0]|] == j[..|xs[0]|];
    }
  }
}
