/** The parts of Python's `str` that the package relies on: `isspace`,
    `strip`, `split` on a one-character separator, `join`, and `str` of an
    `int`. All strings are sequences of Unicode scalar values. */
module PyStrings {

  /** Python 3's `str.isspace` for one character: the characters that
      `str.strip()` with no argument removes. */
  predicate IsSpace(c: char) {
    || ('\t' <= c <= '\r')                 // tab, line feed, vertical tab, form feed, carriage return
    || ('\U{1C}' <= c <= '\U{1F}')          // the four information separators
    || c == ' ' || c == '\U{85}' || c == '\U{A0}'
    || c == '\U{1680}'
    || ('\U{2000}' <= c <= '\U{200A}')
    || c == '\U{2028}' || c == '\U{2029}'
    || c == '\U{202F}' || c == '\U{205F}' || c == '\U{3000}'
  }

  predicate AllSpace(s: string) {
    forall k | 0 <= k < |s| :: IsSpace(s[k])
  }

  /** Neither starts nor ends with whitespace. */
  predicate Stripped(s: string) {
    s == [] || (!IsSpace(s[0]) && !IsSpace(s[|s| - 1]))
  }

  /** `s.lstrip()`: the suffix of `s` left after removing leading whitespace. */
  function LStrip(s: string): (r: string)
    ensures |r| <= |s| && r == s[|s| - |r|..]
    ensures AllSpace(s[..|s| - |r|])
    ensures r == [] || !IsSpace(r[0])
  {
    if s != [] && IsSpace(s[0]) then
      var r := LStrip(s[1..]);
      assert forall k | 1 <= k < |s| - |r| :: s[k] == s[1..][..|s| - 1 - |r|][k - 1];
      r
    else s
  }

  /** `s.rstrip()`: the prefix of `s` left after removing trailing whitespace. */
  function RStrip(s: string): (r: string)
    ensures |r| <= |s| && r == s[..|r|]
    ensures AllSpace(s[|r|..])
    ensures r == [] || !IsSpace(r[|r| - 1])
  {
    if s != [] && IsSpace(s[|s| - 1]) then
      var r := RStrip(s[..|s| - 1]);
      assert forall k | |r| <= k < |s| - 1 :: s[k] == s[..|s| - 1][k];
      r
    else s
  }

  /** `s.strip()`. */
  function Strip(s: string): (r: string)
    ensures Stripped(r)
    ensures |r| <= |LStrip(s)| && r == s[|s| - |LStrip(s)|..][..|r|]
  {
    RStrip(LStrip(s))
  }

  lemma {:induction false} LStripSpaces(p: string, u: string)
    requires AllSpace(p)
    requires u == [] || !IsSpace(u[0])
    ensures LStrip(p + u) == u
  {
    if p != [] {
      assert (p + u)[1..] == p[1..] + u;
      LStripSpaces(p[1..], u);
    }
  }

  lemma {:induction false} RStripSpaces(u: string, q: string)
    requires AllSpace(q)
    requires u == [] || !IsSpace(u[|u| - 1])
    ensures RStrip(u + q) == u
  {
    if q != [] {
      assert (u + q)[..|u + q| - 1] == u + q[..|q| - 1];
      RStripSpaces(u, q[..|q| - 1]);
    }
  }

  /** `strip` is characterised by what it keeps: whatever whitespace
      surrounds a string that neither starts nor ends with whitespace,
      `strip` gives back exactly that string. */
  lemma StripUnique(p: string, t: string, q: string)
    requires AllSpace(p) && AllSpace(q) && Stripped(t)
    ensures Strip(p + t + q) == t
  {
    assert p + t + q == p + (t + q);
    if t == [] {
      assert AllSpace(p + q);
      assert LStrip(p + q) == [];
    } else {
      LStripSpaces(p, t + q);
      RStripSpaces(t, q);
    }
  }

  /** `strip` is idempotent and leaves a stripped string alone. */
  lemma StripStripped(t: string)
    ensures Stripped(t) <==> Strip(t) == t
  {
    if Stripped(t) {
      StripUnique([], t, []);
      assert [] + t + [] == t;
    }
  }

  /** A single space in front of a stripped string is stripped away. */
  lemma StripAfterSpace(x: string)
    requires Stripped(x)
    ensures Strip(" " + x) == x
  {
    StripUnique(" ", x, []);
    assert " " + x + [] == " " + x;
  }

  /** Number of occurrences of `c` in `s` (`s.count(c)`). */
  function Count(s: string, c: char): nat {
    if s == [] then 0 else (if s[0] == c then 1 else 0) + Count(s[1..], c)
  }

  /** `s.split(sep)` for a one-character separator: the segments between
      consecutive separators, empty ones included. */
  function Split(s: string, sep: char): (parts: seq<string>)
    ensures |parts| == Count(s, sep) + 1
    ensures forall i | 0 <= i < |parts| :: sep !in parts[i]
  {
    if s == [] then [[]]
    else
      var rest := Split(s[1..], sep);
      if s[0] == sep then [[]] + rest
      else [[s[0]] + rest[0]] + rest[1..]
  }

  /** `sep.join(parts)`. */
  function Join(parts: seq<string>, sep: string): string {
    if |parts| == 0 then []
    else if |parts| == 1 then parts[0]
    else parts[0] + sep + Join(parts[1..], sep)
  }

  /** Joining one more part puts the separator and the part at the end. */
  lemma {:induction false} JoinAppend(parts: seq<string>, x: string, sep: string)
    ensures Join(parts + [x], sep) == if parts == [] then x else Join(parts, sep) + sep + x
  {
    if |parts| > 1 {
      assert (parts + [x])[1..] == parts[1..] + [x];
      JoinAppend(parts[1..], x, sep);
    } else if |parts| == 1 {
      assert (parts + [x])[1..] == [x];
    }
  }

  lemma {:induction false} SplitNoSeparator(a: string, sep: char)
    requires sep !in a
    ensures Split(a, sep) == [a]
  {
    if a != [] {
      SplitNoSeparator(a[1..], sep);
      assert [a[0]] + a[1..] == a;
    }
  }

  /** A separator closes the segment before it. */
  lemma {:induction false} SplitAtSeparator(a: string, sep: char, rest: string)
    requires sep !in a
    ensures Split(a + [sep] + rest, sep) == [a] + Split(rest, sep)
  {
    if a == [] {
      assert a + [sep] + rest == [sep] + rest;
      assert ([sep] + rest)[1..] == rest;
    } else {
      assert (a + [sep] + rest)[1..] == a[1..] + [sep] + rest;
      SplitAtSeparator(a[1..], sep, rest);
      assert [a[0]] + a[1..] == a;
    }
  }

  /** Splitting and joining again with the same separator gives back the input. */
  lemma {:induction false} JoinSplit(s: string, sep: char)
    ensures Join(Split(s, sep), [sep]) == s
  {
    if s != [] {
      var rest := Split(s[1..], sep);
      JoinSplit(s[1..], sep);
      if s[0] == sep {
        assert ([[]] + rest)[1..] == rest;
        assert s == [sep] + s[1..];
      } else if |rest| == 1 {
        assert s == [s[0]] + s[1..];
      } else {
        var parts := [[s[0]] + rest[0]] + rest[1..];
        assert parts[1..] == rest[1..];
        assert s == [s[0]] + s[1..];
      }
    }
  }

  /** Joining separator-free parts and splitting again gives back the parts. */
  lemma {:induction false} SplitJoin(parts: seq<string>, sep: char)
    requires |parts| >= 1
    requires forall i | 0 <= i < |parts| :: sep !in parts[i]
    ensures Split(Join(parts, [sep]), sep) == parts
  {
    if |parts| == 1 {
      SplitNoSeparator(parts[0], sep);
    } else {
      SplitJoin(parts[1..], sep);
      SplitAtSeparator(parts[0], sep, Join(parts[1..], [sep]));
      assert parts == [parts[0]] + parts[1..];
    }
  }

  /** The character of a decimal digit. */
  function DigitChar(d: nat): char
    requires d < 10
  {
    ('0' as int + d) as char
  }

  /** `str(n)` for a natural number: its decimal digits, no leading zeros. */
  function NatToStr(n: nat): (r: string)
    ensures |r| > 0 && forall k | 0 <= k < |r| :: '0' <= r[k] <= '9'
    ensures n > 0 ==> r[0] != '0'
    decreases n
  {
    if n < 10 then [DigitChar(n)] else NatToStr(n / 10) + [DigitChar(n % 10)]
  }

  /** The number a string of decimal digits denotes. */
  function DecimalValue(s: string): int {
    if s == [] then 0 else DecimalValue(s[..|s| - 1]) * 10 + (s[|s| - 1] as int - '0' as int)
  }

  lemma {:induction false} NatToStrDecodes(n: nat)
    ensures DecimalValue(NatToStr(n)) == n
    decreases n
  {
    if n >= 10 {
      NatToStrDecodes(n / 10);
      var s := NatToStr(n);
      assert s[..|s| - 1] == NatToStr(n / 10);
    }
  }

  /** `str(i)` for a Python `int`. */
  function IntToStr(i: int): (r: string)
    ensures |r| > 0
    ensures r[0] == '-' <==> i < 0
  {
    if i < 0 then "-" + NatToStr(-i) else NatToStr(i)
  }

  /** `str(i)` is a sign for negative numbers followed by the decimal digits
      of the magnitude. */
  lemma IntToStrValue(i: int)
    ensures i >= 0 ==> DecimalValue(IntToStr(i)) == i
    ensures i < 0 ==> IntToStr(i)[1..] == NatToStr(-i) && DecimalValue(IntToStr(i)[1..]) == -i
  {
    if i < 0 {
      assert IntToStr(i)[1..] == NatToStr(-i);
      NatToStrDecodes(-i);
    } else {
      NatToStrDecodes(i);
    }
  }

  /** Distinct natural numbers print differently. */
  lemma NatToStrInjective(m: nat, n: nat)
    requires NatToStr(m) == NatToStr(n)
    ensures m == n
  {
    NatToStrDecodes(m);
    NatToStrDecodes(n);
  }

  /** `str` on integers is one-to-one: distinct integers print differently. */
  lemma IntToStrInjective(a: int, b: int)
    requires IntToStr(a) == IntToStr(b)
    ensures a == b
  {
    var s := IntToStr(a);
    assert s[0] == IntToStr(b)[0];
    if a < 0 && b < 0 {
      assert s[1..] == NatToStr(-a);
      assert IntToStr(b)[1..] == NatToStr(-b);
      NatToStrInjective(-a, -b);
    } else if a >= 0 && b >= 0 {
      NatToStrInjective(a, b);
    }
    // A negative number prints with a leading '-', a non-negative one with a digit.
  }
}
