/**
 The few pieces of `java.lang.String`, `Long` and `String.format` the app
 relies on: splitting on a separator with trailing empty fields kept,
 substring search, decimal printing and parsing of a `long`, and `%02d`.
 */
module Text {
  import opened Options

  // ---------------------------------------------------------------------------
  // Splitting and joining on a single separator character
  // ---------------------------------------------------------------------------

  /** The parts glued back together with `sep` between consecutive parts. */
  function Join(parts: seq<string>, sep: char): string
    requires |parts| >= 1
    decreases |parts|
  {
    if |parts| == 1 then parts[0] else parts[0] + [sep] + Join(parts[1..], sep)
  }

  /**
   Java's `s.split(<sep as a regex>, -1)`: cut at every occurrence of `sep`,
   keeping empty fields, including trailing ones; always at least one field.
   */
  function Split(s: string, sep: char): (parts: seq<string>)
    ensures |parts| >= 1
    ensures forall k :: 0 <= k < |parts| ==> sep !in parts[k]
    ensures Join(parts, sep) == s
    decreases |s|
  {
    if |s| == 0 then [""]
    else
      var rest := Split(s[1..], sep);
      if s[0] == sep then
        assert s == [sep] + s[1..];
        [""] + rest
      else
        var parts := [[s[0]] + rest[0]] + rest[1..];
        assert parts[1..] == rest[1..];
        assert s == [s[0]] + s[1..];
        parts
  }

  /** A string without the separator splits into itself. */
  lemma {:induction false} SplitNoSeparator(x: string, sep: char)
    requires sep !in x
    ensures Split(x, sep) == [x]
    decreases |x|
  {
    if |x| > 0 {
      assert sep !in x[1..];
      SplitNoSeparator(x[1..], sep);
      assert [x[0]] + x[1..] == x;
    }
  }

  /** A separator-free prefix followed by the separator becomes one field in front of the rest. */
  lemma {:induction false} SplitAfterField(x: string, sep: char, t: string)
    requires sep !in x
    ensures Split(x + [sep] + t, sep) == [x] + Split(t, sep)
    decreases |x|
  {
    var s := x + [sep] + t;
    if |x| == 0 {
      assert s == [sep] + t;
      assert s[1..] == t;
    } else {
      assert s[0] == x[0];
      assert s[1..] == x[1..] + [sep] + t;
      assert sep !in x[1..];
      SplitAfterField(x[1..], sep, t);
      assert [x[0]] + x[1..] == x;
    }
  }

  /** Splitting undoes joining, as long as no part contains the separator. */
  lemma {:induction false} SplitJoin(parts: seq<string>, sep: char)
    requires |parts| >= 1
    requires forall k :: 0 <= k < |parts| ==> sep !in parts[k]
    ensures Split(Join(parts, sep), sep) == parts
    decreases |parts|
  {
    if |parts| == 1 {
      SplitNoSeparator(parts[0], sep);
    } else {
      SplitJoin(parts[1..], sep);
      SplitAfterField(parts[0], sep, Join(parts[1..], sep));
    }
  }

  /** How many times `c` occurs in `s`. */
  function Count(s: string, c: char): nat
  {
    if |s| == 0 then 0 else (if s[0] == c then 1 else 0) + Count(s[1..], c)
  }

  /** There is one more field than there are separators. */
  lemma {:induction false} SplitCount(s: string, sep: char)
    ensures |Split(s, sep)| == Count(s, sep) + 1
    decreases |s|
  {
    if |s| > 0 {
      SplitCount(s[1..], sep);
    }
  }

  /** Joined fields followed by a separator and more text split into those fields, then the text's fields. */
  lemma {:induction false} SplitJoinThen(parts: seq<string>, sep: char, t: string)
    requires |parts| >= 1
    requires forall k :: 0 <= k < |parts| ==> sep !in parts[k]
    ensures Split(Join(parts, sep) + [sep] + t, sep) == parts + Split(t, sep)
    decreases |parts|
  {
    if |parts| == 1 {
      SplitAfterField(parts[0], sep, t);
    } else {
      var x := Join(parts[1..], sep) + [sep] + t;
      SplitJoinThen(parts[1..], sep, t);
      assert Join(parts, sep) + [sep] + t == parts[0] + [sep] + x;
      SplitAfterField(parts[0], sep, x);
      Regroup(parts, Split(t, sep));
    }
  }

  lemma Regroup<T>(xs: seq<T>, ys: seq<T>)
    requires |xs| >= 1
    ensures [xs[0]] + (xs[1..] + ys) == xs + ys
  {
    assert xs == [xs[0]] + xs[1..];
  }

  // ---------------------------------------------------------------------------
  // Substring search
  // ---------------------------------------------------------------------------

  predicate OccursAt(s: string, pat: string, k: int)
  {
    0 <= k && k + |pat| <= |s| && s[k..k + |pat|] == pat
  }

  /** Java's `s.indexOf(pat)`, with `-1` written as `None`. */
  function IndexOf(s: string, pat: string): (r: Option<nat>)
    ensures r.Some? ==> OccursAt(s, pat, r.value)
    ensures r.Some? ==> forall k :: 0 <= k < r.value ==> !OccursAt(s, pat, k)
    ensures r.None? ==> forall k :: 0 <= k <= |s| ==> !OccursAt(s, pat, k)
  {
    IndexOfFrom(s, pat, 0)
  }

  function IndexOfFrom(s: string, pat: string, from: nat): (r: Option<nat>)
    requires from <= |s| + 1
    ensures r.Some? ==> from <= r.value && OccursAt(s, pat, r.value)
    ensures r.Some? ==> forall k :: from <= k < r.value ==> !OccursAt(s, pat, k)
    ensures r.None? ==> forall k :: from <= k <= |s| ==> !OccursAt(s, pat, k)
    decreases |s| + 1 - from
  {
    if from + |pat| > |s| then None
    else if s[from..from + |pat|] == pat then Some(from)
    else IndexOfFrom(s, pat, from + 1)
  }

  /** Java's `s.contains(pat)`. */
  predicate Contains(s: string, pat: string)
  {
    IndexOf(s, pat).Some?
  }

  /** Searching for a one-character string is searching for the character. */
  lemma ContainsChar(s: string, c: char)
    ensures Contains(s, [c]) <==> c in s
  {
    var r := IndexOf(s, [c]);
    if r.Some? {
      assert s[r.value..r.value + 1] == [c];
      assert s[r.value] == c;
    }
    if c in s {
      var k :| 0 <= k < |s| && s[k] == c;
      assert s[k..k + 1] == [c];
      assert OccursAt(s, [c], k);
    }
  }

  /** Java's `s.lastIndexOf(c)`, with `-1` written as `None`. */
  function LastIndexOf(s: string, c: char): (r: Option<nat>)
    ensures r.Some? ==> r.value < |s| && s[r.value] == c && c !in s[r.value + 1..]
    ensures r.None? <==> c !in s
    decreases |s|
  {
    if |s| == 0 then None
    else if s[|s| - 1] == c then Some(|s| - 1)
    else
      var r := LastIndexOf(s[..|s| - 1], c);
      assert s == s[..|s| - 1] + [s[|s| - 1]];
      if r.Some? then
        assert s[r.value + 1..] == s[..|s| - 1][r.value + 1..] + [s[|s| - 1]];
        r
      else r
  }

  // ---------------------------------------------------------------------------
  // Decimal digits
  // ---------------------------------------------------------------------------

  predicate IsDigit(c: char) { '0' <= c <= '9' }

  predicate AllDigits(s: string)
  {
    forall k :: 0 <= k < |s| ==> IsDigit(s[k])
  }

  function DigitChar(d: nat): (c: char)
    requires d < 10
    ensures IsDigit(c) && c as int - '0' as int == d
  {
    ('0' as int + d) as char
  }

  /** The value of a string of decimal digits, read most significant first. */
  function DigitsValue(s: string): nat
    requires AllDigits(s)
    decreases |s|
  {
    if |s| == 0 then 0
    else DigitsValue(s[..|s| - 1]) * 10 + (s[|s| - 1] as int - '0' as int)
  }

  /** The shortest decimal spelling of `n`: no leading zero unless `n` is zero. */
  function NatToDigits(n: nat): (s: string)
    ensures |s| >= 1 && AllDigits(s)
    ensures DigitsValue(s) == n
    ensures |s| == 1 || s[0] != '0'
    ensures n < 10 <==> |s| == 1
    decreases n
  {
    if n < 10 then [DigitChar(n)]
    else
      var prefix := NatToDigits(n / 10);
      var s := prefix + [DigitChar(n % 10)];
      assert s[..|s| - 1] == prefix;
      s
  }

  const LongMin: int := -0x8000_0000_0000_0000
  const LongMax: int := 0x7FFF_FFFF_FFFF_FFFF

  /** Java's `Long.toString(v)`, which is what string concatenation prints for a `long`. */
  function LongToString(v: int): (s: string)
    ensures |s| >= 1
    ensures forall k :: 0 <= k < |s| ==> IsDigit(s[k]) || s[k] == '-'
  {
    if v < 0 then "-" + NatToDigits(-v) else NatToDigits(v)
  }

  /** The text `Long.parseLong` accepts before the range check: an optional `+` or `-`, then one or more ASCII digits. */
  predicate IsLongLiteral(s: string)
  {
    || (|s| >= 1 && AllDigits(s))
    || (|s| >= 2 && (s[0] == '-' || s[0] == '+') && AllDigits(s[1..]))
  }

  /** The value such a literal spells: its digits' value, negated after a `-`. */
  function LiteralValue(s: string): int
    requires IsLongLiteral(s)
  {
    if IsDigit(s[0]) then DigitsValue(s)
    else if s[0] == '-' then -(DigitsValue(s[1..]) as int)
    else DigitsValue(s[1..])
  }

  /**
   Java's `Long.parseLong(s)`: an optional sign, then one or more decimal
   digits, and a value within the range of `long`; anything else is a
   `NumberFormatException`, written here as `None`.
   */
  function ParseLong(s: string): (r: Option<int>)
    ensures r.Some? <==> IsLongLiteral(s) && LongMin <= LiteralValue(s) <= LongMax
    ensures r.Some? ==> r.value == LiteralValue(s)
    ensures r.Some? ==> LongMin <= r.value <= LongMax
    ensures r.Some? ==> |s| >= 1
    ensures AllDigits(s) && |s| >= 1 && DigitsValue(s) <= LongMax ==> r == Some(DigitsValue(s))
  {
    if |s| == 0 then None
    else
      var body := if s[0] == '-' || s[0] == '+' then s[1..] else s;
      if |body| == 0 || !AllDigits(body) then None
      else
        var v: int := if s[0] == '-' then -(DigitsValue(body) as int) else DigitsValue(body) as int;
        if LongMin <= v <= LongMax then Some(v) else None
  }

  /** Printing a `long` and parsing it back gives the same value. */
  lemma ParseLongToString(v: int)
    requires LongMin <= v <= LongMax
    ensures ParseLong(LongToString(v)) == Some(v)
  {
    var s := LongToString(v);
    if v < 0 {
      assert s[1..] == NatToDigits(-v);
    } else {
      assert IsDigit(s[0]);
    }
  }

  /**
   Java's `String.format("%02d", v)`: the decimal digits of `v`, zero-padded
   after any minus sign to a width of at least two characters.
   */
  function Format02d(v: int): (s: string)
    ensures |s| >= 2
    ensures 0 <= v < 100 <==> |s| == 2 && AllDigits(s)
    ensures v >= 0 ==> AllDigits(s) && DigitsValue(s) == v
    ensures v < 0 ==> s[0] == '-' && AllDigits(s[1..]) && DigitsValue(s[1..]) == -v
  {
    if v < 0 then
      var s := "-" + NatToDigits(-v);
      assert s[1..] == NatToDigits(-v);
      assert !IsDigit(s[0]);
      s
    else if v < 10 then
      var s := "0" + NatToDigits(v);
      assert s[..1] == "0";
      s
    else NatToDigits(v)
  }
}
