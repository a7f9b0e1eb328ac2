/**
 * The string operations the request handlers apply to header values and
 * route parameters: JavaScript's `String.prototype.split(" ")` and
 * `parseInt(s, 10)`, with the decimal printing a client uses to build
 * `/tasks/<id>` paths.
 */
module Text {
  import opened Wrappers

  // ---------------------------------------------------------------------
  // split(" ")
  // ---------------------------------------------------------------------

  /** The fields of `s` between occurrences of `sep`, as `s.split(sep)`
      returns them for a one-character separator (never an empty list). */
  function Split(s: string, sep: char): (r: seq<string>)
    ensures |r| >= 1
  {
    if s == [] then [[]]
    else
      var rest := Split(s[1..], sep);
      if s[0] == sep then [[]] + rest
      else [[s[0]] + rest[0]] + rest[1..]
  }

  /** The inverse of `Split`: the fields glued back together with `sep`. */
  function Join(parts: seq<string>, sep: char): (r: string)
  {
    if |parts| == 0 then []
    else if |parts| == 1 then parts[0]
    else parts[0] + [sep] + Join(parts[1..], sep)
  }

  /** Splitting loses nothing: joining the fields gives back the string. */
  lemma {:induction false} JoinSplit(s: string, sep: char)
    ensures Join(Split(s, sep), sep) == s
  {
    if s != [] {
      var rest := Split(s[1..], sep);
      JoinSplit(s[1..], sep);
      if s[0] == sep {
        assert Split(s, sep)[1..] == rest;
      } else {
        var r := Split(s, sep);
        assert r[1..] == rest[1..];
        if |rest| == 1 {
          assert r == [[s[0]] + rest[0]];
        } else {
          assert rest == [rest[0]] + rest[1..];
          assert Join(rest, sep) == rest[0] + [sep] + Join(rest[1..], sep);
          assert [s[0]] + Join(rest, sep) == ([s[0]] + rest[0]) + [sep] + Join(rest[1..], sep);
        }
      }
    }
  }

  /** No field contains the separator. */
  lemma {:induction false} SplitFieldsHaveNoSeparator(s: string, sep: char)
    ensures forall k :: 0 <= k < |Split(s, sep)| ==> sep !in Split(s, sep)[k]
  {
    if s != [] {
      SplitFieldsHaveNoSeparator(s[1..], sep);
    }
  }

  /** Splitting a string that has no separator gives it back as one field. */
  lemma {:induction false} SplitWithoutSeparator(s: string, sep: char)
    requires sep !in s
    ensures Split(s, sep) == [s]
  {
    if s != [] {
      SplitWithoutSeparator(s[1..], sep);
      assert [s[0]] + s[1..] == s;
    }
  }

  /** A first field free of the separator is peeled off whole. */
  lemma {:induction false} SplitAfterField(a: string, sep: char, b: string)
    requires sep !in a
    ensures Split(a + [sep] + b, sep) == [a] + Split(b, sep)
  {
    if a == [] {
      assert a + [sep] + b == [sep] + b;
      assert ([sep] + b)[1..] == b;
    } else {
      assert (a + [sep] + b)[1..] == a[1..] + [sep] + b;
      SplitAfterField(a[1..], sep, b);
      assert [a[0]] + a[1..] == a;
    }
  }

  // ---------------------------------------------------------------------
  // parseInt(s, 10)
  // ---------------------------------------------------------------------

  predicate IsDigit(c: char) { '0' <= c <= '9' }

  /** The white space `parseInt` skips before the number (the ECMAScript
      white-space and line-terminator characters, without the other
      Unicode space separators). */
  predicate IsJsSpace(c: char) {
    c == '\t' || c == '\n' || c == '\U{000B}' || c == '\U{000C}' || c == '\r' || c == ' '
    || c == '\U{00A0}' || c == '\U{FEFF}' || c == '\U{2028}' || c == '\U{2029}'
  }

  /** `s` without its leading white space. */
  function TrimStart(s: string): (r: string)
    ensures |r| <= |s| && r == s[|s| - |r|..]
    ensures r == [] || !IsJsSpace(r[0])
    ensures forall k :: 0 <= k < |s| - |r| ==> IsJsSpace(s[k])
  {
    if s != [] && IsJsSpace(s[0]) then TrimStart(s[1..]) else s
  }

  /** The longest prefix of `s` made of decimal digits. */
  function LeadingDigits(s: string): (r: string)
    ensures |r| <= |s| && r == s[..|r|]
    ensures forall k :: 0 <= k < |r| ==> IsDigit(r[k])
    ensures |r| == |s| || !IsDigit(s[|r|])
  {
    if s != [] && IsDigit(s[0]) then [s[0]] + LeadingDigits(s[1..]) else []
  }

  /** The value of a string of decimal digits, most significant first. */
  function DigitsValue(d: string): (r: nat)
    requires forall k :: 0 <= k < |d| ==> IsDigit(d[k])
  {
    if d == [] then 0
    else
      assert IsDigit(d[|d| - 1]);
      10 * DigitsValue(d[..|d| - 1]) + (d[|d| - 1] as int - '0' as int)
  }

  /** `parseInt(s, 10)`: leading white space is skipped, one optional sign is
      read, then the longest run of decimal digits; anything after it is
      ignored. `None` is `NaN`, returned when no digit follows. */
  function ParseInt(s: string): (r: Option<int>)
  {
    var t := TrimStart(s);
    var negative := t != [] && t[0] == '-';
    var body := if t != [] && (t[0] == '-' || t[0] == '+') then t[1..] else t;
    var digits := LeadingDigits(body);
    if digits == [] then None
    else Some(if negative then -(DigitsValue(digits) as int) else DigitsValue(digits))
  }

  /** The decimal text of `n`, as a template literal `${n}` prints it. */
  function DecimalString(n: nat): (r: string)
    ensures r != [] && forall k :: 0 <= k < |r| ==> IsDigit(r[k])
  {
    var last := ['0' + ((n % 10) as char)];
    if n < 10 then last else DecimalString(n / 10) + last
  }

  lemma {:induction false} DigitsValueOfDecimal(n: nat)
    ensures DigitsValue(DecimalString(n)) == n
  {
    var d := DecimalString(n);
    if n >= 10 {
      DigitsValueOfDecimal(n / 10);
      assert d[..|d| - 1] == DecimalString(n / 10);
    }
  }

  lemma {:induction false} LeadingDigitsOfDigits(d: string, rest: string)
    requires forall k :: 0 <= k < |d| ==> IsDigit(d[k])
    requires rest == [] || !IsDigit(rest[0])
    ensures LeadingDigits(d + rest) == d
  {
    if d == [] {
      assert d + rest == rest;
    } else {
      assert (d + rest)[1..] == d[1..] + rest;
      LeadingDigitsOfDigits(d[1..], rest);
      assert [d[0]] + d[1..] == d;
    }
  }

  /** A path segment built from a task id parses back to that id, whatever
      non-digit text follows it. */
  lemma ParseDecimal(n: nat, rest: string)
    requires rest == [] || !IsDigit(rest[0])
    ensures ParseInt(DecimalString(n) + rest) == Some(n)
  {
    var s := DecimalString(n) + rest;
    assert s[0] == DecimalString(n)[0];
    assert TrimStart(s) == s;
    LeadingDigitsOfDigits(DecimalString(n), rest);
    DigitsValueOfDecimal(n);
  }

  /** The path segment `${id}` a client builds parses back to `id`. */
  lemma ParsePath(n: nat)
    ensures ParseInt(DecimalString(n)) == Some(n)
  {
    ParseDecimal(n, []);
    assert DecimalString(n) + [] == DecimalString(n);
  }

  /** Leading white space and a sign in front of the digits are honoured. */
  lemma ParseSignedDecimal(spaces: string, sign: char, n: nat)
    requires forall k :: 0 <= k < |spaces| ==> IsJsSpace(spaces[k])
    requires sign == '-' || sign == '+'
    ensures ParseInt(spaces + [sign] + DecimalString(n)) == Some(if sign == '-' then -(n as int) else n)
  {
    var d := DecimalString(n);
    var t := [sign] + d;
    assert spaces + [sign] + d == spaces + t;
    TrimSpaces(spaces, t);
    assert t[0] == sign && t[1..] == d + [];
    LeadingDigitsOfDigits(d, []);
    assert LeadingDigits(t[1..]) == d;
    DigitsValueOfDecimal(n);
    assert DigitsValue(d) == n;
  }

  lemma {:induction false} TrimSpaces(spaces: string, s: string)
    requires forall k :: 0 <= k < |spaces| ==> IsJsSpace(spaces[k])
    requires s == [] || !IsJsSpace(s[0])
    ensures TrimStart(spaces + s) == s
  {
    if spaces == [] {
      assert spaces + s == s;
    } else {
      assert (spaces + s)[1..] == spaces[1..] + s;
      TrimSpaces(spaces[1..], s);
    }
  }

  /** A string with no digit at all is `NaN`. */
  lemma NoDigitIsNaN(s: string)
    requires forall k :: 0 <= k < |s| ==> !IsDigit(s[k])
    ensures ParseInt(s) == None
  {
    var t := TrimStart(s);
    var i := |s| - |t|;
    assert t == s[i..];
    if t != [] && (t[0] == '-' || t[0] == '+') {
      assert |t| == 1 || t[1..][0] == s[i + 1];
    } else {
      assert t == [] || t[0] == s[i];
    }
  }
}
