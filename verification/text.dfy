/** String helpers shared by the browser scripts and the Python routers:
    substring search, splitting at a separator, joining, whitespace
    stripping, decimal rendering of integers, and the two integer parsers the
    source relies on (Python's `int(str)` and JavaScript's `parseInt(s, 10)`). */
module Text {
  import opened Wrappers

  /** `needle` occurs in `hay` (JavaScript `includes`, Python `in`). */
  predicate Contains(hay: string, needle: string) {
    exists i :: 0 <= i <= |hay| - |needle| && OccursAt(hay, needle, i)
  }

  predicate OccursAt(hay: string, needle: string, i: int)
    requires 0 <= i <= |hay| - |needle|
  {
    hay[i..i + |needle|] == needle
  }

  /** A needle holding a character the text lacks does not occur in it. */
  lemma NotContainsMissingChar(hay: string, needle: string, c: char)
    requires c in needle && c !in hay
    ensures !Contains(hay, needle)
  {
    var k :| 0 <= k < |needle| && needle[k] == c;
    forall i | 0 <= i <= |hay| - |needle|
      ensures !OccursAt(hay, needle, i)
    {
      assert hay[i..i + |needle|][k] == hay[i + k];
    }
  }

  predicate StartsWith(s: string, prefix: string) {
    |prefix| <= |s| && s[..|prefix|] == prefix
  }

  /** Position of the first `c` in `s`. */
  function IndexOf(s: string, c: char): (i: nat)
    requires c in s
    ensures i < |s| && s[i] == c
    ensures c !in s[..i]
  {
    if s[0] == c then 0
    else
      var j := IndexOf(s[1..], c);
      assert s[..j + 1] == [s[0]] + s[1..][..j];
      j + 1
  }

  /** Python `sep.join(parts)`; the empty list joins to "". */
  function Join(parts: seq<string>, sep: string): string
  {
    if |parts| == 0 then ""
    else if |parts| == 1 then parts[0]
    else parts[0] + sep + Join(parts[1..], sep)
  }

  /** Python `s.split(sep)` and JavaScript `s.split(sep)` for a one-character
      separator: always at least one part, no part holds the separator, and
      joining the parts back gives `s`. */
  function Split(s: string, sep: char): (parts: seq<string>)
    ensures |parts| >= 1
    ensures forall k | 0 <= k < |parts| :: sep !in parts[k]
    ensures Join(parts, [sep]) == s
    decreases |s|
  {
    if sep !in s then [s]
    else
      var i := IndexOf(s, sep);
      var rest := Split(s[i + 1..], sep);
      assert ([s[..i]] + rest)[1..] == rest;
      assert s == s[..i] + [sep] + s[i + 1..];
      [s[..i]] + rest
  }

  /** The first occurrence of a separator in a joined text is the end of the
      first part. */
  lemma IndexOfJoin(parts: seq<string>, sep: char)
    requires |parts| >= 2
    requires sep !in parts[0]
    ensures sep in Join(parts, [sep])
    ensures IndexOf(Join(parts, [sep]), sep) == |parts[0]|
  {
    var s := Join(parts, [sep]);
    var p := parts[0];
    assert s[..|p|] == p;
    assert s[|p|] == sep;
  }

  /** Splitting a joined list gives the list back when no part holds the
      separator. */
  lemma {:induction false} SplitOfJoin(parts: seq<string>, sep: char)
    requires |parts| >= 1
    requires forall k | 0 <= k < |parts| :: sep !in parts[k]
    ensures Split(Join(parts, [sep]), sep) == parts
    decreases |parts|
  {
    if |parts| > 1 {
      var s := Join(parts, [sep]);
      var tail := parts[1..];
      IndexOfJoin(parts, sep);
      assert forall k | 0 <= k < |tail| :: sep !in tail[k] by {
        forall k | 0 <= k < |tail| ensures sep !in tail[k] {
          assert tail[k] == parts[k + 1];
        }
      }
      SplitOfJoin(tail, sep);
      var n := |parts[0]|;
      assert s[n + 1..] == Join(tail, [sep]);
      assert s[..n] == parts[0];
      assert Split(s, sep) == [s[..n]] + Split(s[n + 1..], sep);
      assert parts == [parts[0]] + tail;
    }
  }

  /** Joining two non-empty lists one after the other puts one separator
      between their joins. */
  lemma {:induction false} JoinAppend(a: seq<string>, b: seq<string>, sep: string)
    requires |a| >= 1 && |b| >= 1
    ensures Join(a + b, sep) == Join(a, sep) + sep + Join(b, sep)
    decreases |a|
  {
    if |a| > 1 {
      assert (a + b)[1..] == a[1..] + b;
      JoinAppend(a[1..], b, sep);
    }
  }

  /** A joined list ends with its last part, right after a separator. */
  lemma {:induction false} JoinLast(parts: seq<string>, sep: string)
    requires |parts| >= 2
    ensures Join(parts, sep) == Join(parts[..|parts| - 1], sep) + sep + parts[|parts| - 1]
    decreases |parts|
  {
    if |parts| > 2 {
      var tail := parts[1..];
      JoinLast(tail, sep);
      assert tail[..|tail| - 1] == parts[..|parts| - 1][1..];
    }
  }

  /** Python `s.split(sep)[-1]` for a text holding the separator: the text
      after its last separator. */
  function AfterLast(s: string, sep: char): (r: string)
    requires sep in s
    ensures sep !in r
    ensures |r| < |s| && s == s[..|s| - |r| - 1] + [sep] + r
  {
    var parts := Split(s, sep);
    if |parts| == 1 then
      assert false; ""
    else
      JoinLast(parts, [sep]);
      parts[|parts| - 1]
  }

  /** The text after the last separator is determined by the text: any
      split of `s` as `a + sep + b` with no separator in `b` has that `b`. */
  lemma AfterLastUnique(a: string, b: string, sep: char)
    requires sep !in b
    ensures AfterLast(a + [sep] + b, sep) == b
  {
    var s := a + [sep] + b;
    assert s[|a|] == sep;
    var r := AfterLast(s, sep);
    assert forall k | |a| < k < |s| :: s[k] == b[k - |a| - 1];
    assert s[|s| - |r| - 1] == sep;
    if |r| > |b| {
      assert false;
    }
    assert r == s[|s| - |r|..];
  }

  /** Python `str.strip()` / JavaScript leading-blank skip, over the ASCII
      white-space characters. */
  predicate IsSpace(c: char) {
    c == ' ' || c == '\t' || c == '\n' || c == '\r' || c == '\U{000B}' || c == '\U{000C}'
  }

  function TrimStart(s: string): (r: string)
    ensures |r| <= |s| && r == s[|s| - |r|..]
    ensures forall k | 0 <= k < |s| - |r| :: IsSpace(s[k])
    ensures r == [] || !IsSpace(r[0])
  {
    if |s| > 0 && IsSpace(s[0]) then TrimStart(s[1..]) else s
  }

  function TrimEnd(s: string): (r: string)
    ensures |r| <= |s| && r == s[..|r|]
    ensures forall k | |r| <= k < |s| :: IsSpace(s[k])
    ensures r == [] || !IsSpace(r[|r| - 1])
  {
    if |s| > 0 && IsSpace(s[|s| - 1]) then TrimEnd(s[..|s| - 1]) else s
  }

  predicate AllSpace(s: string) {
    forall k | 0 <= k < |s| :: IsSpace(s[k])
  }

  /** Python `s.strip()`: drop white space at both ends. The result is the
      middle of `s` between a white-space prefix and a white-space suffix. */
  function Strip(s: string): (r: string)
    ensures |r| <= |s|
    ensures r == [] || (!IsSpace(r[0]) && !IsSpace(r[|r| - 1]))
    ensures exists i :: 0 <= i <= |s| - |r| && r == s[i..i + |r|] && AllSpace(s[..i]) && AllSpace(s[i + |r|..])
  {
    var t := TrimStart(s);
    var r := TrimEnd(t);
    var i := |s| - |t|;
    assert r == s[i..i + |r|];
    assert AllSpace(s[..i]);
    var tail := s[i + |r|..];
    assert AllSpace(tail) by {
      forall k | 0 <= k < |tail| ensures IsSpace(tail[k]) {
        assert tail[k] == t[|r| + k];
      }
    }
    r
  }

  /** A text whose ends are not white space strips to itself. */
  lemma StripUnpadded(s: string)
    requires |s| > 0 && !IsSpace(s[0]) && !IsSpace(s[|s| - 1])
    ensures Strip(s) == s
  {
  }

  predicate IsDigit(c: char) { '0' <= c <= '9' }

  predicate AllDigits(s: string) {
    forall k | 0 <= k < |s| :: IsDigit(s[k])
  }

  function DigitValue(c: char): nat
    requires IsDigit(c)
  {
    (c as int) - ('0' as int)
  }

  function DigitChar(d: nat): (c: char)
    requires d < 10
    ensures IsDigit(c) && DigitValue(c) == d
  {
    (('0' as int) + d) as char
  }

  /** Value of a run of decimal digits, most significant first. */
  function DigitsValue(s: string): nat
    requires AllDigits(s)
  {
    if |s| == 0 then 0 else 10 * DigitsValue(s[..|s| - 1]) + DigitValue(s[|s| - 1])
  }

  /** Decimal rendering of a natural number, no leading zeros. */
  function NatToString(n: nat): (s: string)
    ensures |s| >= 1 && AllDigits(s)
  {
    if n < 10 then [DigitChar(n)] else NatToString(n / 10) + [DigitChar(n % 10)]
  }

  /** Python `str(n)` and JavaScript `n.toString()` for an integer. */
  function IntToString(n: int): string
  {
    if n < 0 then "-" + NatToString(-n) else NatToString(n)
  }

  lemma {:induction false} NatToStringValue(n: nat)
    ensures DigitsValue(NatToString(n)) == n
  {
    if n >= 10 {
      NatToStringValue(n / 10);
      var s := NatToString(n);
      assert s[..|s| - 1] == NatToString(n / 10);
    }
  }

  lemma IntToStringShape(n: int)
    ensures |IntToString(n)| >= 1
    ensures !IsSpace(IntToString(n)[0]) && !IsSpace(IntToString(n)[|IntToString(n)| - 1])
    ensures ',' !in IntToString(n) && '&' !in IntToString(n) && '=' !in IntToString(n)
  {
    var s := IntToString(n);
    assert forall k | 0 <= k < |s| :: IsDigit(s[k]) || (k == 0 && s[k] == '-');
  }

  /** Python `int(s)` on a text: white space at both ends is allowed, then an
      optional sign and at least one digit. `None` stands for the ValueError. */
  function PyInt(s: string): (r: Option<int>)
    ensures r.Some? ==> |Strip(s)| >= 1
  {
    SignedDigits(Strip(s))
  }

  /** An optional sign followed by digits and nothing else, read as a number. */
  function SignedDigits(t: string): Option<int> {
    if |t| >= 2 && (t[0] == '-' || t[0] == '+') && AllDigits(t[1..]) then
      var v: int := DigitsValue(t[1..]);
      Some(if t[0] == '-' then -v else v)
    else if |t| >= 1 && AllDigits(t) then Some(DigitsValue(t))
    else None
  }

  /** Python reads back every integer it prints. */
  lemma PyIntOfIntToString(n: int)
    ensures PyInt(IntToString(n)) == Some(n)
  {
    IntToStringShape(n);
    StripUnpadded(IntToString(n));
    if n < 0 {
      NatToStringValue(-n);
      SignedDigitsOfNegative(NatToString(-n));
    } else {
      NatToStringValue(n);
      SignedDigitsOfDigits(NatToString(n));
    }
  }

  lemma SignedDigitsOfDigits(d: string)
    requires |d| >= 1 && AllDigits(d)
    ensures SignedDigits(d) == Some(DigitsValue(d))
  {
  }

  lemma SignedDigitsOfNegative(d: string)
    requires |d| >= 1 && AllDigits(d)
    ensures SignedDigits("-" + d) == Some(-(DigitsValue(d) as int))
  {
    assert ("-" + d)[1..] == d;
  }

  /** The longest run of digits at the start of `s`. */
  function DigitPrefix(s: string): (p: string)
    ensures |p| <= |s| && p == s[..|p|] && AllDigits(p)
    ensures |p| == |s| || !IsDigit(s[|p|])
  {
    if |s| > 0 && IsDigit(s[0]) then
      var rest := DigitPrefix(s[1..]);
      assert [s[0]] + rest == s[..|rest| + 1];
      [s[0]] + rest
    else []
  }

  /** JavaScript `parseInt(s, 10)`: skip leading white space, take an optional
      sign, then the longest run of digits; `None` stands for NaN. Trailing
      text after the digits is ignored. */
  function JsParseInt(s: string): (r: Option<int>)
    ensures |s| == 0 ==> r.None?
  {
    SignedDigitPrefix(TrimStart(s))
  }

  /** The optional sign and the digits right after it, read as a number. */
  function SignedDigitPrefix(t: string): Option<int> {
    var negative := |t| > 0 && t[0] == '-';
    var u := if |t| > 0 && (t[0] == '-' || t[0] == '+') then t[1..] else t;
    var d := DigitPrefix(u);
    if |d| == 0 then None
    else
      var v: int := DigitsValue(d);
      Some(if negative then -v else v)
  }

  /** `parseInt` reads back every integer `toString` writes. */
  lemma JsParseIntOfIntToString(n: int)
    ensures JsParseInt(IntToString(n)) == Some(n)
  {
    if n < 0 {
      JsParseIntOfNegative(-n);
    } else {
      JsParseIntOfNat(n);
    }
  }

  /** A run of digits is its own digit prefix. */
  lemma {:induction false} DigitPrefixOfDigits(s: string)
    requires AllDigits(s)
    ensures DigitPrefix(s) == s
  {
    if |s| > 0 {
      DigitPrefixOfDigits(s[1..]);
    }
  }

  /** A text not starting with white space is its own `TrimStart`. */
  lemma TrimStartUnpadded(s: string)
    requires |s| > 0 && !IsSpace(s[0])
    ensures TrimStart(s) == s
  {
  }

  lemma JsParseIntOfNat(n: nat)
    ensures JsParseInt(NatToString(n)) == Some(n)
  {
    NatToStringValue(n);
    JsParseIntOfDigits(NatToString(n));
  }

  lemma JsParseIntOfNegative(m: nat)
    requires m > 0
    ensures JsParseInt("-" + NatToString(m)) == Some(-(m as int))
  {
    NatToStringValue(m);
    JsParseIntOfNegativeDigits(NatToString(m));
  }

  /** `parseInt` reads a run of digits as its value. */
  lemma JsParseIntOfDigits(d: string)
    requires |d| >= 1 && AllDigits(d)
    ensures JsParseInt(d) == Some(DigitsValue(d))
  {
    TrimStartUnpadded(d);
    DigitPrefixOfDigits(d);
  }

  /** `parseInt` reads a minus sign and a run of digits as minus their value. */
  lemma JsParseIntOfNegativeDigits(d: string)
    requires |d| >= 1 && AllDigits(d)
    ensures JsParseInt("-" + d) == Some(-(DigitsValue(d) as int))
  {
    var s := "-" + d;
    TrimStartUnpadded(s);
    assert s[1..] == d;
    DigitPrefixOfDigits(d);
    assert DigitPrefix(s[1..]) == d;
    assert SignedDigitPrefix(s) == Some(-(DigitsValue(d) as int));
  }
}
