/** String helpers shared by the renderers: joining with a separator, splitting
    lines, Python's whitespace test, and decimal rendering of integers. */
module Text {

  /** `sep.join(parts)`. */
  function Join(sep: string, parts: seq<string>): string
  {
    if |parts| == 0 then ""
    else if |parts| == 1 then parts[0]
    else parts[0] + sep + Join(sep, parts[1..])
  }

  function JoinLines(parts: seq<string>): string
  {
    Join("\n", parts)
  }

  /** Joining two non-empty lists is joining each and gluing with one separator. */
  lemma {:induction false} JoinConcat(sep: string, a: seq<string>, b: seq<string>)
    requires |a| > 0 && |b| > 0
    ensures Join(sep, a + b) == Join(sep, a) + sep + Join(sep, b)
  {
    if |a| == 1 {
      assert (a + b)[1..] == b;
    } else {
      assert (a + b)[1..] == a[1..] + b;
      JoinConcat(sep, a[1..], b);
    }
  }

  /** Position of the first `c` in `s`, or |s| when there is none. */
  function FirstIndex(c: char, s: string): (i: nat)
    ensures i <= |s|
    ensures i < |s| ==> s[i] == c
    ensures forall k :: 0 <= k < i ==> s[k] != c
  {
    if |s| == 0 then 0
    else if s[0] == c then 0
    else 1 + FirstIndex(c, s[1..])
  }

  /** `s.split(c)` for a one-character separator. */
  function SplitOn(c: char, s: string): (parts: seq<string>)
    ensures |parts| > 0
    ensures forall k :: 0 <= k < |parts| ==> c !in parts[k]
    decreases |s|
  {
    var i := FirstIndex(c, s);
    if i == |s| then [s]
    else [s[..i]] + SplitOn(c, s[i + 1..])
  }

  function SplitLines(s: string): seq<string>
  {
    SplitOn('\n', s)
  }

  lemma FirstIndexAfterPrefix(c: char, a: string, b: string)
    requires c !in a
    ensures FirstIndex(c, a + [c] + b) == |a|
  {
    var s := a + [c] + b;
    assert s[|a|] == c;
    assert forall k :: 0 <= k < |a| ==> s[k] == a[k];
  }

  /** Splitting undoes joining when no part contains the separator. */
  lemma {:induction false} SplitJoin(c: char, parts: seq<string>)
    requires |parts| > 0
    requires forall k :: 0 <= k < |parts| ==> c !in parts[k]
    ensures SplitOn(c, Join([c], parts)) == parts
  {
    if |parts| == 1 {
      assert FirstIndex(c, parts[0]) == |parts[0]|;
    } else {
      var rest := Join([c], parts[1..]);
      var s := parts[0] + [c] + rest;
      assert Join([c], parts) == s;
      FirstIndexAfterPrefix(c, parts[0], rest);
      assert s[..|parts[0]|] == parts[0];
      assert s[|parts[0]| + 1..] == rest;
      SplitJoin(c, parts[1..]);
    }
  }

  /** The ASCII characters Python's `str.strip()` removes. */
  predicate IsSpace(c: char)
  {
    c == ' ' || c == '\t' || c == '\n' || c == '\r' || c == 11 as char || c == 12 as char
  }

  /** `not s.strip()`: the string is empty or whitespace only. */
  predicate IsBlank(s: string)
  {
    forall k :: 0 <= k < |s| ==> IsSpace(s[k])
  }

  /** `filter(lambda x: x.strip(), parts)`. */
  function DropBlank(parts: seq<string>): (r: seq<string>)
    ensures forall k :: 0 <= k < |r| ==> !IsBlank(r[k])
    ensures |r| <= |parts|
  {
    if |parts| == 0 then []
    else if IsBlank(parts[0]) then DropBlank(parts[1..])
    else [parts[0]] + DropBlank(parts[1..])
  }

  lemma {:induction false} DropBlankKeepsNonBlank(parts: seq<string>)
    requires forall k :: 0 <= k < |parts| ==> !IsBlank(parts[k])
    ensures DropBlank(parts) == parts
  {
    if |parts| > 0 {
      DropBlankKeepsNonBlank(parts[1..]);
    }
  }

  lemma {:induction false} DropBlankHasNo(c: char, parts: seq<string>)
    requires forall k :: 0 <= k < |parts| ==> c !in parts[k]
    ensures forall k :: 0 <= k < |DropBlank(parts)| ==> c !in DropBlank(parts)[k]
  {
    if |parts| > 0 {
      DropBlankHasNo(c, parts[1..]);
    }
  }

  /** `'\n'.join(filter(lambda x: x.strip(), s.splitlines()))`. */
  function NonBlankLines(s: string): string
  {
    JoinLines(DropBlank(SplitLines(s)))
  }

  /** The filtered text has no blank line, and its lines are exactly the
      non-blank lines of the input, in order. */
  lemma NonBlankLinesSplit(s: string)
    requires |DropBlank(SplitLines(s))| > 0
    ensures SplitLines(NonBlankLines(s)) == DropBlank(SplitLines(s))
    ensures forall k :: 0 <= k < |SplitLines(NonBlankLines(s))| ==> !IsBlank(SplitLines(NonBlankLines(s))[k])
  {
    DropBlankHasNo('\n', SplitLines(s));
    SplitJoin('\n', DropBlank(SplitLines(s)));
  }

  // ---------------------------------------------------------------------
  // Decimal rendering: Python's str() of an int, and its inverse.

  predicate IsDigit(c: char)
  {
    '0' <= c <= '9'
  }

  predicate AllDigits(s: string)
  {
    forall k :: 0 <= k < |s| ==> IsDigit(s[k])
  }

  function DigitChar(d: nat): (c: char)
    requires d < 10
    ensures IsDigit(c)
  {
    ('0' as int + d) as char
  }

  function DigitValue(c: char): (d: nat)
    requires IsDigit(c)
    ensures d < 10
  {
    c as int - '0' as int
  }

  function NatToString(n: nat): (r: string)
    ensures |r| > 0 && AllDigits(r)
  {
    if n < 10 then [DigitChar(n)] else NatToString(n / 10) + [DigitChar(n % 10)]
  }

  /** `str(n)`: an optional minus sign followed by the decimal digits. */
  function IntToString(n: int): string
  {
    if n < 0 then "-" + NatToString(-n) else NatToString(n)
  }

  /** A decimal literal as an assembler reads it: optional `-`, then digits. */
  predicate IsDecimal(s: string)
  {
    |s| > 0 && if s[0] == '-' then |s| > 1 && AllDigits(s[1..]) else AllDigits(s)
  }

  function ParseNat(s: string): nat
    requires AllDigits(s)
  {
    if |s| == 0 then 0 else ParseNat(s[..|s| - 1]) * 10 + DigitValue(s[|s| - 1])
  }

  function ParseInt(s: string): int
    requires IsDecimal(s)
  {
    if s[0] == '-' then -(ParseNat(s[1..]) as int) else ParseNat(s)
  }

  lemma {:induction false} ParseNatToString(n: nat)
    ensures ParseNat(NatToString(n)) == n
  {
    var s := NatToString(n);
    if n >= 10 {
      assert s[..|s| - 1] == NatToString(n / 10);
      ParseNatToString(n / 10);
    }
  }

  /** Reading back the decimal text of `n` gives `n`. */
  lemma IntToStringRoundTrip(n: int)
    ensures IsDecimal(IntToString(n))
    ensures ParseInt(IntToString(n)) == n
  {
    var s := IntToString(n);
    if n < 0 {
      assert s[1..] == NatToString(-n);
      ParseNatToString(-n);
    } else {
      ParseNatToString(n);
    }
  }

  /** Distinct integers render to distinct text. */
  lemma IntToStringInjective(a: int, b: int)
    requires IntToString(a) == IntToString(b)
    ensures a == b
  {
    IntToStringRoundTrip(a);
    IntToStringRoundTrip(b);
  }

  /** No rendered integer contains a character outside `-0123456789`. */
  lemma IntToStringChars(n: int, c: char)
    requires c != '-' && !IsDigit(c)
    ensures c !in IntToString(n)
  {
    var s := IntToString(n);
    if n < 0 {
      assert s == "-" + NatToString(-n);
      assert forall k :: 1 <= k < |s| ==> s[k] == NatToString(-n)[k - 1];
    }
  }
}
