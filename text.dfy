// Strings as the page script sees them: the whitespace that String.prototype.trim
// and the numeric conversions skip, decimal digits, the rendering of integers
// as element text, and parseInt(s, 10).

module Text {

  datatype Option<T> = None | Some(value: T)

  /** The ECMAScript WhiteSpace and LineTerminator code points (trim, Number, parseInt). */
  predicate IsWhitespace(c: char) {
    || c == ' ' || c == '\t' || c == '\n' || c == '\r'
    || c == '\U{000B}' || c == '\U{000C}' || c == '\U{00A0}' || c == '\U{FEFF}'
    || c == '\U{1680}' || ('\U{2000}' <= c <= '\U{200A}')
    || c == '\U{2028}' || c == '\U{2029}' || c == '\U{202F}' || c == '\U{205F}' || c == '\U{3000}'
  }

  predicate AllWhitespace(s: string) {
    forall j :: 0 <= j < |s| ==> IsWhitespace(s[j])
  }

  /** Drops leading whitespace: what is left is a suffix of s, and only whitespace was dropped. */
  function TrimStart(s: string): (r: string)
    ensures |r| <= |s| && r == s[|s| - |r|..]
    ensures AllWhitespace(s[..|s| - |r|])
    ensures r != [] ==> !IsWhitespace(r[0])
  {
    if s != [] && IsWhitespace(s[0]) then
      var r := TrimStart(s[1..]);
      assert s[..|s| - |r|] == [s[0]] + s[1..][..|s| - 1 - |r|];
      r
    else s
  }

  /** Drops trailing whitespace: what is left is a prefix of s, and only whitespace was dropped. */
  function TrimEnd(s: string): (r: string)
    ensures |r| <= |s| && r == s[..|r|]
    ensures AllWhitespace(s[|r|..])
    ensures r != [] ==> !IsWhitespace(r[|r| - 1])
  {
    if s != [] && IsWhitespace(s[|s| - 1]) then
      var r := TrimEnd(s[..|s| - 1]);
      assert s[|r|..] == s[..|s| - 1][|r|..] + [s[|s| - 1]];
      r
    else s
  }

  /** String.prototype.trim. */
  function Trim(s: string): (r: string)
    ensures |r| <= |s|
    ensures r != [] ==> !IsWhitespace(r[0]) && !IsWhitespace(r[|r| - 1])
  {
    TrimEnd(TrimStart(s))
  }

  /** Trimming keeps every character that is not whitespace, and adds none. */
  lemma TrimKeeps(s: string, c: char)
    requires !IsWhitespace(c)
    ensures c in Trim(s) <==> c in s
  {
    TrimStartKeeps(s, c);
    TrimEndKeeps(TrimStart(s), c);
  }

  lemma TrimStartKeeps(s: string, c: char)
    requires !IsWhitespace(c)
    ensures c in TrimStart(s) <==> c in s
  {
    var t := TrimStart(s);
    var front := s[..|s| - |t|];
    assert s == front + t;
    NotInWhitespace(front, c);
    InConcat(front, t, c);
  }

  lemma TrimEndKeeps(t: string, c: char)
    requires !IsWhitespace(c)
    ensures c in TrimEnd(t) <==> c in t
  {
    var r := TrimEnd(t);
    var back := t[|r|..];
    assert t == r + back;
    NotInWhitespace(back, c);
    InConcat(r, back, c);
  }

  lemma NotInWhitespace(w: string, c: char)
    requires AllWhitespace(w) && !IsWhitespace(c)
    ensures c !in w
  {
  }

  lemma InConcat(a: string, b: string, c: char)
    ensures c in a + b <==> c in a || c in b
  {
    if c in a + b {
      var j :| 0 <= j < |a + b| && (a + b)[j] == c;
      if j < |a| {
        assert a[j] == c;
      } else {
        assert b[j - |a|] == c;
      }
    }
    if c in a {
      var j :| 0 <= j < |a| && a[j] == c;
      assert (a + b)[j] == c;
    }
    if c in b {
      var j :| 0 <= j < |b| && b[j] == c;
      assert (a + b)[|a| + j] == c;
    }
  }

  /** Trimming a core that starts and ends with a visible character, padded with whitespace, gives the core. */
  lemma {:induction false} TrimPadded(left: string, core: string, right: string)
    requires AllWhitespace(left) && AllWhitespace(right)
    requires core != [] && !IsWhitespace(core[0]) && !IsWhitespace(core[|core| - 1])
    ensures Trim(left + core + right) == core
  {
    assert left + core + right == left + (core + right);
    TrimStartPadded(left, core + right);
    TrimEndPadded(core, right);
  }

  /** Text that starts and ends with a visible character is left as it is. */
  lemma TrimUnpadded(s: string)
    requires s != [] && !IsWhitespace(s[0]) && !IsWhitespace(s[|s| - 1])
    ensures Trim(s) == s
  {
    assert s == [] + s + [];
    TrimPadded([], s, []);
  }

  lemma {:induction false} TrimStartPadded(left: string, rest: string)
    requires AllWhitespace(left)
    requires rest != [] && !IsWhitespace(rest[0])
    ensures TrimStart(left + rest) == rest
  {
    if left != [] {
      assert (left + rest)[1..] == left[1..] + rest;
      TrimStartPadded(left[1..], rest);
    }
  }

  lemma {:induction false} TrimEndPadded(core: string, right: string)
    requires AllWhitespace(right)
    requires core != [] && !IsWhitespace(core[|core| - 1])
    ensures TrimEnd(core + right) == core
  {
    if right != [] {
      var s := core + right;
      assert s[..|s| - 1] == core + right[..|right| - 1];
      TrimEndPadded(core, right[..|right| - 1]);
    } else {
      assert core + right == core;
    }
  }

  /** Index of the first occurrence of c (String.prototype.indexOf), None for -1. */
  function IndexOf(s: string, c: char): (r: Option<nat>)
    ensures r.None? <==> c !in s
    ensures r.Some? ==> r.value < |s| && s[r.value] == c && c !in s[..r.value]
  {
    if s == [] then None
    else if s[0] == c then Some(0)
    else match IndexOf(s[1..], c)
      case None => None
      case Some(k) =>
        assert s[..k + 1] == [s[0]] + s[1..][..k];
        Some(k + 1)
  }

  /** s.replace(c, ''): removes the first occurrence of c only. */
  function RemoveFirst(s: string, c: char): (r: string)
    ensures c !in s ==> r == s
    ensures c in s ==> |r| == |s| - 1 && multiset(r) == multiset(s) - multiset{c}
    ensures c in s ==> exists k :: 0 <= k < |s| && s[k] == c && c !in s[..k] && r == s[..k] + s[k + 1..]
  {
    match IndexOf(s, c)
    case None => s
    case Some(k) =>
      assert s == s[..k] + [s[k]] + s[k + 1..];
      s[..k] + s[k + 1..]
  }

  predicate IsDigit(c: char) { '0' <= c <= '9' }

  predicate AllDigits(s: string) {
    forall j :: 0 <= j < |s| ==> IsDigit(s[j])
  }

  function DigitValue(c: char): (d: nat)
    requires IsDigit(c)
    ensures d < 10
  {
    c as int - '0' as int
  }

  function DigitChar(d: nat): (c: char)
    requires d < 10
    ensures IsDigit(c) && DigitValue(c) == d
  {
    ('0' as int + d) as char
  }

  /** The value of a string of decimal digits, most significant first. */
  function DigitsValue(ds: string): nat
    requires AllDigits(ds)
  {
    if ds == [] then 0 else DigitsValue(ds[..|ds| - 1]) * 10 + DigitValue(ds[|ds| - 1])
  }

  /** String(n) for a natural number: shortest decimal digits, no leading zero. */
  function NatToString(n: nat): (r: string)
    ensures r != [] && AllDigits(r)
    ensures r[0] == '0' ==> n == 0
  {
    if n < 10 then [DigitChar(n)] else NatToString(n / 10) + [DigitChar(n % 10)]
  }

  /** Reading back the digits of a natural number gives that number. */
  lemma {:induction false} NatToStringValue(n: nat)
    ensures DigitsValue(NatToString(n)) == n
  {
    var r := NatToString(n);
    if n < 10 {
      assert r[..|r| - 1] == [];
    } else {
      assert r[..|r| - 1] == NatToString(n / 10);
      NatToStringValue(n / 10);
    }
  }

  /** String(i) for an integer, as element text. */
  function IntToString(i: int): (r: string)
    ensures r != [] && IsDigit(r[|r| - 1])
    ensures r[0] == '-' <==> i < 0
    ensures i >= 0 ==> AllDigits(r)
  {
    if i < 0 then "-" + NatToString(-i) else NatToString(i)
  }

  /** The longest prefix of decimal digits. */
  function DigitPrefix(s: string): (r: string)
    ensures AllDigits(r) && |r| <= |s| && r == s[..|r|]
    ensures |r| < |s| ==> !IsDigit(s[|r|])
  {
    if s != [] && IsDigit(s[0]) then [s[0]] + DigitPrefix(s[1..]) else []
  }

  /** parseInt(s, 10): skips leading whitespace, takes one optional sign and the longest
      run of digits after it; None stands for NaN (no digit at all). */
  function ParseInt(s: string): Option<int>
  {
    ParseSignedDigits(TrimStart(s))
  }

  /** Whether parseInt's text begins with a minus sign. */
  predicate Negative(t: string)
  {
    t != [] && t[0] == '-'
  }

  /** The text after parseInt's optional sign. */
  function Unsigned(t: string): string
  {
    if t != [] && (t[0] == '-' || t[0] == '+') then t[1..] else t
  }

  /** parseInt after the leading whitespace: an optional sign, then the longest run of digits. */
  function ParseSignedDigits(t: string): Option<int>
  {
    var ds := DigitPrefix(Unsigned(t));
    if ds == [] then None
    else
      var v: int := DigitsValue(ds);
      Some(if Negative(t) then -v else v)
  }

  /** Digits followed by anything that does not begin with a digit read back as those digits. */
  lemma {:induction false} DigitPrefixOf(ds: string, rest: string)
    requires AllDigits(ds)
    requires rest == [] || !IsDigit(rest[0])
    ensures DigitPrefix(ds + rest) == ds
  {
    if ds == [] {
      assert ds + rest == rest;
    } else {
      assert (ds + rest)[1..] == ds[1..] + rest;
      DigitPrefixOf(ds[1..], rest);
    }
  }

  /** parseInt reads back String(i), and stops at the first character that is not a digit. */
  lemma ParseIntOfIntToString(i: int, rest: string)
    requires rest == [] || !IsDigit(rest[0])
    ensures ParseInt(IntToString(i) + rest) == Some(i)
  {
    if i < 0 {
      ParseIntOfNegative(i, rest);
    } else {
      ParseIntOfNat(i, rest);
    }
  }

  lemma ParseIntOfNat(i: int, rest: string)
    requires i >= 0
    requires rest == [] || !IsDigit(rest[0])
    ensures ParseInt(IntToString(i) + rest) == Some(i)
  {
    var digits := NatToString(i);
    var s := digits + rest;
    assert IntToString(i) + rest == s;
    assert s[0] == digits[0];
    assert Unsigned(s) == digits + rest && !Negative(s);
    NatToStringValue(i);
    SignedDigitsOf(s, digits, rest, i);
    ParseIntUntrimmed(s);
  }

  lemma ParseIntOfNegative(i: int, rest: string)
    requires i < 0
    requires rest == [] || !IsDigit(rest[0])
    ensures ParseInt(IntToString(i) + rest) == Some(i)
  {
    var m: nat := -i;
    var digits := NatToString(m);
    var t := IntToString(i) + rest;
    NegativeText(i, rest);
    NatToStringValue(m);
    SignedDigitsOf(t, digits, rest, m);
    ParseIntUntrimmed(t);
  }

  /** A negative number's text, followed by anything, starts with a minus sign and then its
      magnitude's digits. */
  lemma NegativeText(i: int, rest: string)
    requires i < 0
    ensures var t := IntToString(i) + rest;
      t != [] && t[0] == '-' && Negative(t) && Unsigned(t) == NatToString(-i) + rest
  {
    var u := NatToString(-i) + rest;
    assert IntToString(i) + rest == "-" + u;
    MinusSign(u);
  }

  lemma MinusSign(u: string)
    ensures Negative("-" + u) && Unsigned("-" + u) == u
  {
    assert ("-" + u)[1..] == u;
  }

  /** Text whose unsigned part is digits followed by a non-digit reads as those digits, negated
      after a minus sign. */
  lemma SignedDigitsOf(t: string, digits: string, rest: string, v: nat)
    requires digits != [] && AllDigits(digits) && DigitsValue(digits) == v
    requires rest == [] || !IsDigit(rest[0])
    requires Unsigned(t) == digits + rest
    ensures ParseSignedDigits(t) == Some(if Negative(t) then -(v as int) else v)
  {
    DigitPrefixOf(digits, rest);
  }

  lemma ParseIntUntrimmed(s: string)
    requires s != [] && !IsWhitespace(s[0])
    ensures ParseInt(s) == ParseSignedDigits(s)
  {
    TrimStartPadded([], s);
    assert [] + s == s;
  }

  /** parseInt gives NaN exactly when no digit follows the leading whitespace and the optional
      sign. */
  lemma ParseIntNaN(s: string)
    ensures ParseInt(s) == None <==> var u := Unsigned(TrimStart(s)); u == [] || !IsDigit(u[0])
  {
    var u := Unsigned(TrimStart(s));
    var ds := DigitPrefix(u);
    if u != [] && IsDigit(u[0]) {
      assert ds != [];
    }
  }

  predicate IsHexDigit(c: char) { IsDigit(c) || 'a' <= c <= 'f' || 'A' <= c <= 'F' }

  function HexValue(c: char): (d: nat)
    requires IsHexDigit(c)
    ensures d < 16
    ensures IsDigit(c) ==> d == DigitValue(c)
  {
    if IsDigit(c) then DigitValue(c)
    else if 'a' <= c <= 'f' then c as int - 'a' as int + 10
    else c as int - 'A' as int + 10
  }

  /** The longest prefix of hexadecimal digits. */
  function HexPrefix(s: string): (r: string)
    ensures |r| <= |s| && r == s[..|r|]
    ensures forall j :: 0 <= j < |r| ==> IsHexDigit(r[j])
    ensures |r| < |s| ==> !IsHexDigit(s[|r|])
  {
    if s != [] && IsHexDigit(s[0]) then [s[0]] + HexPrefix(s[1..]) else []
  }

  /** The value of a string of hexadecimal digits, most significant first. */
  function HexDigitsValue(ds: string): nat
    requires forall j :: 0 <= j < |ds| ==> IsHexDigit(ds[j])
  {
    if ds == [] then 0 else HexDigitsValue(ds[..|ds| - 1]) * 16 + HexValue(ds[|ds| - 1])
  }

  /** Text that parseInt without a radix reads in base 16. */
  predicate HexMarked(u: string)
  {
    |u| >= 2 && u[0] == '0' && (u[1] == 'x' || u[1] == 'X')
  }

  /** parseInt(s) with no radix: as parseInt(s, 10), except that '0x' or '0X' after the sign
      switches to base 16; None stands for NaN (no digit after the prefix). */
  function ParseIntNoRadix(s: string): Option<int>
  {
    var t := TrimStart(s);
    var u := Unsigned(t);
    if HexMarked(u) then
      var ds := HexPrefix(u[2..]);
      if ds == [] then None
      else
        var v: int := HexDigitsValue(ds);
        Some(if Negative(t) then -v else v)
    else ParseSignedDigits(t)
  }

  /** Without the '0x' mark, leaving the radix out changes nothing. */
  lemma ParseIntNoRadixDecimal(s: string)
    requires !HexMarked(Unsigned(TrimStart(s)))
    ensures ParseIntNoRadix(s) == ParseInt(s)
  {
  }

  /** With it, the same text reads differently: "0x10" is 16 without a radix and 0 in base 10. */
  lemma ParseIntHexMarked(s: string)
    requires s == "0x10"
    ensures ParseIntNoRadix(s) == Some(16)
    ensures ParseInt(s) == Some(0)
  {
    TrimStartPadded([], s);
    assert [] + s == s;
    assert Unsigned(s) == s;
    var hex := s[2..];
    assert hex == "10";
    assert HexPrefix(hex) == hex by {
      assert hex[1..] == "0";
      assert hex[1..][1..] == [];
    }
    assert HexDigitsValue(hex) == 16 by {
      var one := hex[..1];
      assert one == "1" && hex[|hex| - 1] == '0';
      assert one[..0] == [];
      assert HexDigitsValue(one) == 1;
      assert HexDigitsValue(hex) == HexDigitsValue(one) * 16 + HexValue('0');
    }
    assert DigitPrefix(s) == "0" by {
      assert s[1..][0] == 'x';
    }
    assert DigitsValue("0") == 0 by {
      assert "0"[..0] == [];
    }
  }

  /** ASCII upper-casing, as toUpperCase does on base-36 digits. */
  function UpperAscii(c: char): (r: char)
    ensures 'a' <= c <= 'z' ==> 'A' <= r <= 'Z'
    ensures !('a' <= c <= 'z') ==> r == c
  {
    if 'a' <= c <= 'z' then (c as int - 32) as char else c
  }

  function Upper(s: string): (r: string)
    ensures |r| == |s| && forall j :: 0 <= j < |s| ==> r[j] == UpperAscii(s[j])
  {
    if s == [] then [] else [UpperAscii(s[0])] + Upper(s[1..])
  }

  /** Where a slice bound lands: a negative bound counts from the end, and both ends are
      clamped to the string. */
  function SliceBound(s: string, x: int): (b: nat)
    ensures b <= |s|
  {
    if x < 0 then (if |s| + x <= 0 then 0 else |s| + x)
    else if x <= |s| then x else |s|
  }

  /** s.slice(from, to): the characters between the two bounds, or nothing when they cross. */
  function Slice(s: string, from: int, to: int): (r: string)
    ensures |r| <= |s|
    ensures 0 <= from <= to <= |s| ==> r == s[from..to]
    ensures from == 0 ==> r == s[..|r|]
    ensures from == 0 && 0 <= to <= |s| ==> |r| == to
    ensures from == 0 && -|s| <= to < 0 ==> r == s[..|s| + to]
  {
    var b := SliceBound(s, from);
    var e := SliceBound(s, to);
    if b <= e then s[b..e] else []
  }
}
