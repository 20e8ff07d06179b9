/** The two pieces of Python string handling the scripts lean on: `int()` on a
    slice of a file name, and `str.split('/')` on the output location. */
module PyText {
  import opened Wrappers

  /** The characters `int()` strips from either end of its argument. Below
      U+0080 these are only the C whitespace characters `\t \n \v \f \r` and
      the space: U+001C..U+001F, which `str.isspace` accepts, are kept and
      make the parse fail. Above it, every code point `str.isspace` accepts
      is first turned into a space, and so stripped. */
  predicate IsSpace(c: char)
  {
    var k := c as int;
    || (9 <= k <= 13) || k == 32 || k == 0x85 || k == 0xA0 || k == 0x1680
    || (0x2000 <= k <= 0x200A) || k == 0x2028 || k == 0x2029 || k == 0x202F
    || k == 0x205F || k == 0x3000
  }

  predicate IsDigit(c: char)
  {
    '0' <= c <= '9'
  }

  function StripStart(s: string): (r: string)
    ensures |r| <= |s| && r == s[|s| - |r|..]
    ensures forall i :: 0 <= i < |s| - |r| ==> IsSpace(s[i])
    ensures |r| > 0 ==> !IsSpace(r[0])
  {
    if |s| > 0 && IsSpace(s[0]) then
      var r := StripStart(s[1..]);
      assert forall i :: 1 <= i < |s| - |r| ==> s[i] == s[1..][i - 1];
      r
    else s
  }

  function StripEnd(s: string): (r: string)
    ensures |r| <= |s| && r == s[..|r|]
    ensures forall i :: |r| <= i < |s| ==> IsSpace(s[i])
    ensures |r| > 0 ==> !IsSpace(r[|r| - 1])
  {
    if |s| > 0 && IsSpace(s[|s| - 1]) then StripEnd(s[..|s| - 1]) else s
  }

  function Strip(s: string): string
  {
    StripEnd(StripStart(s))
  }

  /** Decimal digits with single underscores between them, as `int()`
      accepts after the sign: `2024`, `0012`, `1_000`. */
  predicate IsGrouped(t: string)
  {
    && |t| > 0
    && IsDigit(t[0])
    && IsDigit(t[|t| - 1])
    && (forall i :: 0 <= i < |t| ==> IsDigit(t[i]) || t[i] == '_')
    && (forall i :: 0 <= i < |t| - 1 ==> t[i] == '_' ==> t[i + 1] != '_')
  }

  predicate AllDigits(t: string)
  {
    forall i :: 0 <= i < |t| ==> IsDigit(t[i])
  }

  /** `t` with its underscores removed. */
  function Ungroup(t: string): (r: string)
    requires forall i :: 0 <= i < |t| ==> IsDigit(t[i]) || t[i] == '_'
    ensures AllDigits(r)
    ensures AllDigits(t) ==> r == t
  {
    if |t| == 0 then ""
    else (if t[0] == '_' then "" else [t[0]]) + Ungroup(t[1..])
  }

  /** The number a string of decimal digits spells, most significant first. */
  function DigitsValue(ds: string): nat
    requires AllDigits(ds)
  {
    if |ds| == 0 then 0
    else DigitsValue(ds[..|ds| - 1]) * 10 + (ds[|ds| - 1] as int - '0' as int)
  }

  /** The digits after the sign: grouped digits spell their value, anything
      else is refused. */
  function ParseDigits(t: string): Option<nat>
  {
    if IsGrouped(t) then Some(DigitsValue(Ungroup(t))) else None
  }

  /** `int(s)` for base 10: surrounding whitespace, an optional sign, then
      grouped digits; anything else raises `ValueError`, modelled as `None`. */
  function ParseInt(s: string): Option<int>
  {
    ParseSigned(Strip(s))
  }

  /** An optional sign, then the digits. */
  function ParseSigned(t: string): Option<int>
  {
    if |t| > 0 && (t[0] == '+' || t[0] == '-') then
      match ParseDigits(t[1..])
      case None => None
      case Some(n) => Some(if t[0] == '-' then -(n as int) else n)
    else ParseDigits(t)
  }

  function DigitChar(d: nat): (c: char)
    requires d < 10
    ensures IsDigit(c) && c as int - '0' as int == d
  {
    ('0' as int + d) as char
  }

  /** `str(n)` for a natural number. */
  function ShowNat(n: nat): (r: string)
    ensures |r| > 0 && AllDigits(r)
    ensures DigitsValue(r) == n
  {
    if n < 10 then [DigitChar(n)]
    else
      var r := ShowNat(n / 10) + [DigitChar(n % 10)];
      assert r[..|r| - 1] == ShowNat(n / 10);
      r
  }

  /** `str(n)`: the decimal spelling of an integer, `-` first when negative. */
  function Show(n: int): string
  {
    if n < 0 then "-" + ShowNat(-n) else ShowNat(n)
  }

  /** Parsing the decimal spelling of any integer gives that integer back:
      a file named after a timestamp sorts by that timestamp. */
  lemma ParseShow(n: int)
    ensures ParseInt(Show(n)) == Some(n)
  {
    var ds := ShowNat(if n < 0 then -n else n);
    DigitsAreGrouped(ds);
    assert IsDigit(ds[0]) && IsDigit(ds[|ds| - 1]);
    if n < 0 {
      ParseNegative(ds);
    } else {
      ParseUnsigned(ds);
    }
  }

  /** Digits alone parse to the number they spell. */
  lemma ParseUnsigned(ds: string)
    requires |ds| > 0 && IsDigit(ds[0]) && IsDigit(ds[|ds| - 1]) && ParseDigits(ds).Some?
    ensures ParseInt(ds) == ParseDigits(ds)
  {
    StrippedParse(ds);
    assert ds[0] != '+' && ds[0] != '-';
  }

  lemma StrippedParse(s: string)
    requires |s| > 0 && !IsSpace(s[0]) && !IsSpace(s[|s| - 1])
    ensures ParseInt(s) == ParseSigned(s)
  {
    NoSpaceAtEnds(s);
  }

  /** A minus sign before digits negates the number they spell. */
  lemma ParseNegative(ds: string)
    requires |ds| > 0 && IsDigit(ds[|ds| - 1]) && ParseDigits(ds).Some?
    ensures ParseInt("-" + ds) == Some(-(ParseDigits(ds).value as int))
  {
    var s := "-" + ds;
    assert s[|s| - 1] == ds[|ds| - 1];
    StrippedParse(s);
    SignedNegative(s, ds);
  }

  lemma SignedNegative(s: string, ds: string)
    requires s == "-" + ds && ParseDigits(ds).Some?
    ensures ParseSigned(s) == Some(-(ParseDigits(ds).value as int))
  {
    assert s[1..] == ds;
  }

  lemma NoSpaceAtEnds(s: string)
    requires |s| > 0 && !IsSpace(s[0]) && !IsSpace(s[|s| - 1])
    ensures Strip(s) == s
  {
  }

  /** Whitespace around a number does not change what it parses to. */
  lemma ParseIgnoresSpace(a: string, t: string, b: string)
    requires forall i :: 0 <= i < |a| ==> IsSpace(a[i])
    requires forall i :: 0 <= i < |b| ==> IsSpace(b[i])
    requires |t| > 0 && !IsSpace(t[0]) && !IsSpace(t[|t| - 1])
    ensures ParseInt(a + t + b) == ParseInt(t)
  {
    assert a + t + b == a + (t + b);
    assert (t + b)[0] == t[0];
    StripStartSpaces(a, t + b);
    StripEndSpaces(t, b);
    assert Strip(a + t + b) == t;
    StrippedParse(t);
  }

  lemma {:induction false} StripStartSpaces(a: string, u: string)
    requires forall i :: 0 <= i < |a| ==> IsSpace(a[i])
    requires |u| > 0 && !IsSpace(u[0])
    ensures StripStart(a + u) == u
  {
    if |a| > 0 {
      assert (a + u)[1..] == a[1..] + u;
      StripStartSpaces(a[1..], u);
    } else {
      assert a + u == u;
    }
  }

  lemma {:induction false} StripEndSpaces(u: string, b: string)
    requires forall i :: 0 <= i < |b| ==> IsSpace(b[i])
    requires |u| > 0 && !IsSpace(u[|u| - 1])
    ensures StripEnd(u + b) == u
  {
    if |b| > 0 {
      assert (u + b)[..|u + b| - 1] == u + b[..|b| - 1];
      StripEndSpaces(u, b[..|b| - 1]);
    } else {
      assert u + b == u;
    }
  }

  /** What `int()` refuses: a string holding any character other than
      whitespace, a digit, `_`, `+` or `-` does not parse. */
  lemma ParseAlphabet(s: string)
    ensures ParseInt(s).Some? ==>
      forall i :: 0 <= i < |s| ==> IsSpace(s[i]) || IsDigit(s[i]) || s[i] == '_' || s[i] == '+' || s[i] == '-'
  {
    var u := StripStart(s);
    var t := StripEnd(u);
    if ParseInt(s).Some? {
      var lo := |s| - |u|;
      forall i | 0 <= i < |s|
        ensures IsSpace(s[i]) || IsDigit(s[i]) || s[i] == '_' || s[i] == '+' || s[i] == '-'
      {
        if lo <= i < lo + |t| {
          assert s[i] == u[i - lo] == t[i - lo];
          SignedAlphabet(t, i - lo);
        } else if lo + |t| <= i {
          assert s[i] == u[i - lo];
        }
      }
    }
  }

  lemma SignedAlphabet(t: string, j: nat)
    requires ParseSigned(t).Some? && j < |t|
    ensures IsDigit(t[j]) || t[j] == '_' || t[j] == '+' || t[j] == '-'
  {
    if j > 0 && (t[0] == '+' || t[0] == '-') {
      assert t[j] == t[1..][j - 1];
    }
  }

  /** Tabs and newlines around the digits are stripped. */
  lemma TabAndNewline()
    ensures ParseInt("\t5\n") == Some(5)
  {
    assert "\t5\n" == "\t" + "5" + "\n";
    ParseIgnoresSpace("\t", "5", "\n");
    ParseDigit(5);
  }

  /** U+001C, which `str.isspace` counts as whitespace, is not stripped:
      `int()` raises on it. */
  lemma FileSeparator()
    ensures ParseInt([28 as char, '5']) == None
  {
    var s := [28 as char, '5'];
    assert !IsSpace(s[0]) && !IsSpace(s[|s| - 1]);
    NoSpaceAtEnds(s);
    assert !IsDigit(s[0]) && s[0] != '+' && s[0] != '-';
  }

  lemma ParseDigit(d: nat)
    requires d < 10
    ensures ParseInt([DigitChar(d)]) == Some(d)
  {
    ParseShow(d);
  }

  lemma DigitsAreGrouped(ds: string)
    requires |ds| > 0 && AllDigits(ds)
    ensures IsGrouped(ds) && ParseDigits(ds) == Some(DigitsValue(ds))
  {
  }

  /** `s.split(sep)`: the pieces of `s` between occurrences of `sep`. */
  function Split(s: string, sep: char): (r: seq<string>)
    ensures |r| >= 1
    ensures forall i :: 0 <= i < |r| ==> sep !in r[i]
    ensures |r| == 1 <==> sep !in s
  {
    if |s| == 0 then [""]
    else
      var rest := Split(s[1..], sep);
      if s[0] == sep then [""] + rest
      else
        assert s == [s[0]] + s[1..];
        [[s[0]] + rest[0]] + rest[1..]
  }

  /** `sep.join(pieces)`. */
  function Join(pieces: seq<string>, sep: char): string
    requires |pieces| >= 1
  {
    if |pieces| == 1 then pieces[0]
    else pieces[0] + [sep] + Join(pieces[1..], sep)
  }

  /** Splitting and joining on the same separator gives the string back. */
  lemma {:induction false} JoinSplit(s: string, sep: char)
    ensures Join(Split(s, sep), sep) == s
  {
    if |s| > 0 {
      JoinSplit(s[1..], sep);
      var rest := Split(s[1..], sep);
      if s[0] == sep {
        assert ([""] + rest)[1..] == rest;
      } else {
        var r := [[s[0]] + rest[0]] + rest[1..];
        if |rest| > 1 {
          assert r[1..] == rest[1..];
          assert Join(rest, sep) == rest[0] + [sep] + Join(rest[1..], sep);
        }
      }
    }
  }
}
