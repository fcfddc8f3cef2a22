/** The few pieces of Python's `str` that the dashboard's configuration parsing
    relies on: `isspace`/`strip`, `split` on one character, `lower` (for ASCII
    letters), `startswith`, and `int()` on a decimal string. */
module Text {
  import opened Wrappers

  /** Python's `str.isspace` for one character: the characters `str.strip()`
      and `int()` treat as white space. */
  predicate IsSpace(c: char) {
    || '\t' <= c <= '\r'
    || '\U{1c}' <= c <= '\U{1f}'
    || c == ' ' || c == '\U{85}' || c == '\U{a0}' || c == '\U{1680}'
    || '\U{2000}' <= c <= '\U{200a}'
    || c == '\U{2028}' || c == '\U{2029}' || c == '\U{202f}' || c == '\U{205f}'
    || c == '\U{3000}'
  }

  /** `s.lstrip()` */
  function StripLeft(s: string): (r: string)
    ensures |r| <= |s| && r == s[|s| - |r|..]
    ensures r == [] || !IsSpace(r[0])
    ensures forall i :: 0 <= i < |s| - |r| ==> IsSpace(s[i])
  {
    if |s| > 0 && IsSpace(s[0]) then StripLeft(s[1..]) else s
  }

  /** `s.rstrip()` */
  function StripRight(s: string): (r: string)
    ensures |r| <= |s| && r == s[..|r|]
    ensures r == [] || !IsSpace(r[|r| - 1])
    ensures forall i :: |r| <= i < |s| ==> IsSpace(s[i])
  {
    if |s| > 0 && IsSpace(s[|s| - 1]) then StripRight(s[..|s| - 1]) else s
  }

  /** Every character of `s` is white space. */
  predicate AllSpace(s: string) {
    forall k :: 0 <= k < |s| ==> IsSpace(s[k])
  }

  /** `s.strip()`: the result has no white space at either end, and what was
      removed on either side was white space. */
  function Strip(s: string): (r: string)
    ensures r == [] || (!IsSpace(r[0]) && !IsSpace(r[|r| - 1]))
    ensures exists i, j :: 0 <= i <= j <= |s| && r == s[i..j] && AllSpace(s[..i]) && AllSpace(s[j..])
  {
    var l := StripLeft(s);
    var r := StripRight(l);
    var i, j := |s| - |l|, |s| - |l| + |r|;
    StripSlices(s, l, r);
    assert r == s[i..j] && AllSpace(s[..i]) && AllSpace(s[j..]);
    r
  }

  /** The strip as one slice of `s`, from what `lstrip` and `rstrip`
      promise. */
  lemma StripSlices(s: string, l: string, r: string)
    requires |l| <= |s| && l == s[|s| - |l|..]
    requires forall k :: 0 <= k < |s| - |l| ==> IsSpace(s[k])
    requires |r| <= |l| && r == l[..|r|]
    requires forall k :: |r| <= k < |l| ==> IsSpace(l[k])
    ensures |s| - |l| + |r| <= |s| && r == s[|s| - |l|..|s| - |l| + |r|]
    ensures AllSpace(s[..|s| - |l|]) && AllSpace(s[|s| - |l| + |r|..])
  {
    var i, j := |s| - |l|, |s| - |l| + |r|;
    assert l == s[i..] && r == l[..|r|];
    forall k | 0 <= k < |r| ensures r[k] == s[i + k] {
      assert r[k] == l[k] && l[k] == s[i + k];
    }
    assert r == s[i..j];
    forall k | 0 <= k < |s[j..]| ensures IsSpace(s[j..][k]) {
      assert s[j..][k] == l[k + |r|];
    }
    forall k | 0 <= k < |s[..i]| ensures IsSpace(s[..i][k]) {
      assert s[..i][k] == s[k];
    }
  }

  /** A string with no white space at either end is its own strip. */
  lemma StripTrimmed(s: string)
    requires s == [] || (!IsSpace(s[0]) && !IsSpace(s[|s| - 1]))
    ensures Strip(s) == s
  {
  }

  /** `s.split(sep)` for a one-character separator: the pieces between the
      occurrences of `sep`; always at least one piece. */
  function Split(s: string, sep: char): (parts: seq<string>)
    ensures |parts| >= 1
    ensures forall i :: 0 <= i < |parts| ==> sep !in parts[i]
    decreases |s|
  {
    if |s| == 0 then [""]
    else if s[0] == sep then [""] + Split(s[1..], sep)
    else
      var rest := Split(s[1..], sep);
      [[s[0]] + rest[0]] + rest[1..]
  }

  /** `sep.join(parts)` */
  function Join(parts: seq<string>, sep: char): string
    decreases |parts|
  {
    if |parts| == 0 then ""
    else if |parts| == 1 then parts[0]
    else parts[0] + [sep] + Join(parts[1..], sep)
  }

  /** A piece free of the separator, followed by the separator, splits off as
      one piece. */
  lemma {:induction false} SplitAfterPiece(w: string, rest: string, sep: char)
    requires sep !in w
    ensures Split(w + [sep] + rest, sep) == [w] + Split(rest, sep)
    decreases |w|
  {
    if |w| == 0 {
      assert w + [sep] + rest == [sep] + rest;
      assert ([sep] + rest)[1..] == rest;
    } else {
      SplitAfterPiece(w[1..], rest, sep);
      assert (w + [sep] + rest)[1..] == w[1..] + [sep] + rest;
      assert [w[0]] + w[1..] == w;
    }
  }

  /** A string free of the separator is one piece. */
  lemma {:induction false} SplitWhole(w: string, sep: char)
    requires sep !in w
    ensures Split(w, sep) == [w]
    decreases |w|
  {
    if |w| > 0 {
      SplitWhole(w[1..], sep);
      assert [w[0]] + w[1..] == w;
    }
  }

  /** Splitting undoes joining: `sep.join(ps).split(sep) == ps` for a non-empty
      list of pieces free of the separator. */
  lemma {:induction false} SplitJoin(parts: seq<string>, sep: char)
    requires |parts| >= 1
    requires forall i :: 0 <= i < |parts| ==> sep !in parts[i]
    ensures Split(Join(parts, sep), sep) == parts
    decreases |parts|
  {
    if |parts| == 1 {
      SplitWhole(parts[0], sep);
    } else {
      SplitJoin(parts[1..], sep);
      SplitAfterPiece(parts[0], Join(parts[1..], sep), sep);
      assert [parts[0]] + parts[1..] == parts;
    }
  }

  /** Joining undoes splitting: `sep.join(s.split(sep)) == s`. */
  lemma {:induction false} JoinSplit(s: string, sep: char)
    ensures Join(Split(s, sep), sep) == s
    decreases |s|
  {
    if |s| > 0 {
      JoinSplit(s[1..], sep);
      var rest := Split(s[1..], sep);
      if s[0] == sep {
        assert Split(s, sep) == [""] + rest;
        assert ([""] + rest)[1..] == rest;
        assert [s[0]] + s[1..] == s;
      } else {
        var parts := Split(s, sep);
        assert parts == [[s[0]] + rest[0]] + rest[1..];
        if |rest| == 1 {
          assert Join(parts, sep) == [s[0]] + rest[0];
        } else {
          assert parts[1..] == rest[1..];
          assert Join(rest, sep) == rest[0] + [sep] + Join(rest[1..], sep);
        }
        assert [s[0]] + s[1..] == s;
      }
    }
  }

  /** `c.lower()` for the ASCII letters; every other character is left as is
      (no other character lower-cases to one of the letters of "hour"). */
  function LowerChar(c: char): char {
    if 'A' <= c <= 'Z' then (c as int + 32) as char else c
  }

  function Lower(s: string): (r: string)
    ensures |r| == |s| && forall i :: 0 <= i < |s| ==> r[i] == LowerChar(s[i])
  {
    seq(|s|, i requires 0 <= i < |s| => LowerChar(s[i]))
  }

  predicate StartsWith(s: string, prefix: string) {
    |prefix| <= |s| && s[..|prefix|] == prefix
  }

  predicate IsDigit(c: char) { '0' <= c <= '9' }

  /** The digits of a decimal literal as `int()` accepts them: non-empty,
      starting and ending with a digit, single underscores allowed between
      digits. */
  predicate DigitRun(d: string) {
    && |d| > 0 && IsDigit(d[0]) && IsDigit(d[|d| - 1])
    && (forall i :: 0 <= i < |d| ==> IsDigit(d[i]) || d[i] == '_')
    && (forall i :: 0 <= i < |d| ==> !DoubleUnderscore(d, i))
  }

  /** Two underscores in a row start at `i`. */
  predicate DoubleUnderscore(d: string, i: int) {
    0 <= i < |d| - 1 && d[i] == '_' && d[i + 1] == '_'
  }

  function DigitValue(c: char): nat {
    if IsDigit(c) then c as int - '0' as int else 0
  }

  /** The number a run of digits denotes, underscores ignored. */
  function DigitsValue(d: string): nat
    decreases |d|
  {
    if |d| == 0 then 0
    else if d[|d| - 1] == '_' then DigitsValue(d[..|d| - 1])
    else DigitsValue(d[..|d| - 1]) * 10 + DigitValue(d[|d| - 1])
  }

  /** `int(s)` on base-10 text: white space around, one optional sign, then a
      digit run; anything else is the `ValueError` the source catches. */
  function ParseInt(s: string): Option<int> {
    ParseTrimmed(Strip(s))
  }

  /** `int()` once the white space around is gone. */
  function ParseTrimmed(t: string): Option<int> {
    if |t| > 0 && (t[0] == '+' || t[0] == '-') then
      if DigitRun(t[1..]) then
        var v: int := DigitsValue(t[1..]);
        Some(if t[0] == '-' then -v else v)
      else None
    else if DigitRun(t) then
      Some(DigitsValue(t))
    else None
  }

  function DigitChar(d: nat): char
    requires d < 10
  {
    ('0' as int + d) as char
  }

  /** `str(n)` for a natural number. */
  function DecimalString(n: nat): (s: string)
    ensures |s| > 0
    decreases n
  {
    if n < 10 then [DigitChar(n)] else DecimalString(n / 10) + [DigitChar(n % 10)]
  }

  /** `str(n)` for any integer. */
  function IntString(n: int): string {
    if n < 0 then "-" + DecimalString(-n) else DecimalString(n)
  }

  lemma {:induction false} DecimalStringDigits(n: nat)
    ensures forall i :: 0 <= i < |DecimalString(n)| ==> IsDigit(DecimalString(n)[i])
    ensures DigitsValue(DecimalString(n)) == n
    decreases n
  {
    if n >= 10 {
      DecimalStringDigits(n / 10);
      var s := DecimalString(n);
      assert s[..|s| - 1] == DecimalString(n / 10);
    }
  }

  /** `int()` accepts white space on either side of a digit run,
      underscores between digits included. */
  lemma ParsePaddedDigits(pre: string, d: string, post: string, v: nat)
    requires AllSpace(pre) && AllSpace(post) && DigitRun(d) && DigitsValue(d) == v
    ensures ParseInt(pre + d + post) == Some(v)
  {
    ParseIntOfPadded(pre, d, post);
    ParseDigits(d, v);
  }

  /** ... and a plus sign in front of the digits. */
  lemma ParsePaddedPlus(pre: string, d: string, post: string, v: nat)
    requires AllSpace(pre) && AllSpace(post) && DigitRun(d) && DigitsValue(d) == v
    ensures ParseInt(pre + "+" + d + post) == Some(v)
  {
    ConcatRegroup(pre, "+", d, post);
    ParseIntOfPadded(pre, "+" + d, post);
    ParsePlus(d, v);
  }

  /** ... and a minus sign, which negates the value. */
  lemma ParsePaddedMinus(pre: string, d: string, post: string, v: nat)
    requires AllSpace(pre) && AllSpace(post) && DigitRun(d) && DigitsValue(d) == v
    ensures ParseInt(pre + "-" + d + post) == Some(-(v as int))
  {
    ConcatRegroup(pre, "-", d, post);
    ParseIntOfPadded(pre, "-" + d, post);
    ParseNegated(d, v);
  }

  /** White space around the text does not change what `int()` reads. */
  lemma ParseIntOfPadded(pre: string, t: string, post: string)
    requires AllSpace(pre) && AllSpace(post)
    requires t != [] && !IsSpace(t[0]) && !IsSpace(t[|t| - 1])
    ensures ParseInt(pre + t + post) == ParseInt(t)
  {
    StripPadded(pre, t, post);
    StripTrimmed(t);
  }

  lemma ConcatRegroup(a: string, b: string, c: string, e: string)
    ensures a + b + c + e == a + (b + c) + e
  {
  }

  /** `int(" +1_0 ") == 10`. */
  lemma ParseIntPaddedUnderscore()
    ensures ParseInt(" +1_0 ") == Some(10)
  {
    var d := "1_0";
    assert !DoubleUnderscore(d, 0) && !DoubleUnderscore(d, 1) && !DoubleUnderscore(d, 2);
    assert DigitRun(d);
    assert DigitsValue("") == 0;
    assert "1"[..0] == "";
    assert DigitsValue("1") == 1;
    assert "1_"[..1] == "1";
    assert DigitsValue("1_") == 1;
    assert d[..2] == "1_";
    assert DigitsValue(d) == 10;
    assert " +1_0 " == " " + "+" + d + " ";
    assert AllSpace(" ");
    ParsePaddedPlus(" ", d, " ", 10);
  }

  /** White space on both sides of a text with none at either end strips
      away, and nothing else does. */
  lemma StripPadded(pre: string, x: string, post: string)
    requires AllSpace(pre) && AllSpace(post)
    requires x != [] && !IsSpace(x[0]) && !IsSpace(x[|x| - 1])
    ensures Strip(pre + x + post) == x
  {
    assert pre + x + post == pre + (x + post);
    StripLeftPadded(pre, x + post);
    StripRightPadded(x, post);
  }

  /** `lstrip` removes exactly a leading run of white space. */
  lemma {:induction false} StripLeftPadded(pre: string, y: string)
    requires AllSpace(pre) && y != [] && !IsSpace(y[0])
    ensures StripLeft(pre + y) == y
    decreases |pre|
  {
    if pre == [] {
      assert pre + y == y;
    } else {
      assert (pre + y)[0] == pre[0] && (pre + y)[1..] == pre[1..] + y;
      assert AllSpace(pre[1..]) by {
        forall k | 0 <= k < |pre[1..]| ensures IsSpace(pre[1..][k]) {
          assert pre[1..][k] == pre[k + 1];
        }
      }
      StripLeftPadded(pre[1..], y);
    }
  }

  /** `rstrip` removes exactly a trailing run of white space. */
  lemma {:induction false} StripRightPadded(y: string, post: string)
    requires AllSpace(post) && y != [] && !IsSpace(y[|y| - 1])
    ensures StripRight(y + post) == y
    decreases |post|
  {
    if post == [] {
      assert y + post == y;
    } else {
      var n := |y + post|;
      var shorter := post[..|post| - 1];
      assert (y + post)[n - 1] == post[|post| - 1] && (y + post)[..n - 1] == y + shorter;
      assert AllSpace(shorter) by {
        forall k | 0 <= k < |shorter| ensures IsSpace(shorter[k]) {
          assert shorter[k] == post[k];
        }
      }
      StripRightPadded(y, shorter);
    }
  }

  /** `int(str(n)) == n`: the parser reads back every integer's own text. */
  lemma ParseIntString(n: int)
    ensures ParseInt(IntString(n)) == Some(n)
  {
    if n < 0 {
      DecimalStringRun(-n);
      ParseNegated(DecimalString(-n), -n);
    } else {
      DecimalStringRun(n);
      ParseDigits(DecimalString(n), n);
    }
  }

  lemma DecimalStringRun(n: nat)
    ensures DigitRun(DecimalString(n)) && DigitsValue(DecimalString(n)) == n
  {
    DecimalStringDigits(n);
  }

  /** A bare run of digits reads as its value. */
  lemma ParseDigits(d: string, v: nat)
    requires DigitRun(d) && DigitsValue(d) == v
    ensures ParseInt(d) == Some(v)
  {
    StripTrimmed(d);
    assert !(d[0] == '+' || d[0] == '-');
  }

  /** A plus sign and a run of digits read as the value. */
  lemma ParsePlus(d: string, v: nat)
    requires DigitRun(d) && DigitsValue(d) == v
    ensures ParseInt("+" + d) == Some(v)
  {
    var s := "+" + d;
    assert s[1..] == d;
    assert s[|s| - 1] == d[|d| - 1];
    StripTrimmed(s);
    assert Strip(s) == s;
    assert DigitRun(s[1..]);
  }

  /** A minus sign and a run of digits read as the negated value. */
  lemma ParseNegated(d: string, v: nat)
    requires DigitRun(d) && DigitsValue(d) == v
    ensures ParseInt("-" + d) == Some(-(v as int))
  {
    var s := "-" + d;
    assert s[1..] == d;
    assert s[|s| - 1] == d[|d| - 1];
    StripTrimmed(s);
    assert Strip(s) == s;
    assert DigitRun(s[1..]);
  }
}
