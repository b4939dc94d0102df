/** The JavaScript string primitives the exporter relies on: `String(n)` for
    integers, `padStart`, `Array.prototype.join`, `substring`, removing a
    character with `split(c).join('')`, the relational comparison of two
    strings and the global `parseInt` (section 19.2.5 of ECMA-262). */
module Strings {
  import opened Wrappers

  // ---------------------------------------------------------------------------
  // Digits
  // ---------------------------------------------------------------------------

  /** The value of `c` as a digit of radix up to 36; 36 when `c` is no digit. */
  function RadixDigitValue(c: char): (v: nat)
    ensures v <= 36
  {
    if '0' <= c <= '9' then c as int - '0' as int
    else if 'a' <= c <= 'z' then c as int - 'a' as int + 10
    else if 'A' <= c <= 'Z' then c as int - 'A' as int + 10
    else 36
  }

  predicate IsRadixDigit(c: char, radix: nat) {
    RadixDigitValue(c) < radix
  }

  predicate AllDigits(s: string, radix: nat) {
    forall i :: 0 <= i < |s| ==> IsRadixDigit(s[i], radix)
  }

  /** The number that the digits `s` denote in `radix`, most significant first. */
  function DigitsValue(s: string, radix: nat): nat
    requires AllDigits(s, radix)
  {
    if s == [] then 0
    else DigitsValue(s[..|s| - 1], radix) * radix + RadixDigitValue(s[|s| - 1])
  }

  function DigitChar(d: nat): (c: char)
    requires d < 10
    ensures IsRadixDigit(c, 10) && RadixDigitValue(c) == d
  {
    (48 + d) as char
  }

  function Pow10(k: nat): (p: nat)
    ensures p >= 1
  {
    if k == 0 then 1 else 10 * Pow10(k - 1)
  }

  /** `String(n)` for a natural number: its shortest decimal form. */
  function NatToString(n: nat): (s: string)
    ensures |s| >= 1 && AllDigits(s, 10)
  {
    if n < 10 then
      [DigitChar(n)]
    else
      var prefix := NatToString(n / 10);
      var s := prefix + [DigitChar(n % 10)];
      assert s[..|s| - 1] == prefix;
      s
  }

  /** The digits of `String(n)` denote `n`. */
  lemma {:induction false} NatToStringValue(n: nat)
    ensures DigitsValue(NatToString(n), 10) == n
  {
    if n >= 10 {
      NatToStringValue(n / 10);
      var s := NatToString(n);
      assert s[..|s| - 1] == NatToString(n / 10);
    }
  }

  /** `String(i)` for an integer. */
  function IntToString(i: int): (s: string)
    ensures i < 0 ==> s == "-" + NatToString(-i)
    ensures i >= 0 ==> s == NatToString(i)
  {
    if i < 0 then "-" + NatToString(-i) else NatToString(i)
  }

  lemma {:induction false} NatToStringLength(n: nat, k: nat)
    requires 1 <= k && n < Pow10(k)
    ensures |NatToString(n)| <= k
  {
    if n >= 10 {
      assert n / 10 < Pow10(k - 1);
      NatToStringLength(n / 10, k - 1);
    }
  }

  /** A leading zero does not change the value. */
  lemma {:induction false} LeadingZeroValue(s: string, radix: nat)
    requires radix >= 1 && AllDigits(s, radix)
    ensures AllDigits("0" + s, radix) && DigitsValue("0" + s, radix) == DigitsValue(s, radix)
  {
    var z := "0" + s;
    assert AllDigits(z, radix) by {
      forall i | 0 <= i < |z| ensures IsRadixDigit(z[i], radix) {
        if i > 0 { assert z[i] == s[i - 1]; }
      }
    }
    if s != [] {
      var p := s[..|s| - 1];
      assert z[..|z| - 1] == "0" + p;
      assert z[|z| - 1] == s[|s| - 1];
      LeadingZeroValue(p, radix);
    }
  }

  // ---------------------------------------------------------------------------
  // padStart, join, substring, removing a character
  // ---------------------------------------------------------------------------

  /** `n` copies of `c`. */
  function Repeat(c: char, n: nat): (r: string)
    ensures |r| == n
  {
    if n == 0 then [] else [c] + Repeat(c, n - 1)
  }

  lemma {:induction false} RepeatAll(c: char, n: nat)
    ensures forall i :: 0 <= i < n ==> Repeat(c, n)[i] == c
  {
    if n > 0 {
      RepeatAll(c, n - 1);
      assert Repeat(c, n) == [c] + Repeat(c, n - 1);
    }
  }

  /** `s.padStart(len, fill)` for a one-character fill string. */
  function PadStart(s: string, len: nat, fill: char): (r: string)
    ensures |r| == if |s| >= len then |s| else len
  {
    if |s| >= len then s else Repeat(fill, len - |s|) + s
  }

  /** Padding puts `fill` in front of `s` and keeps `s` as the suffix. */
  lemma {:induction false} PadStartShape(s: string, len: nat, fill: char)
    ensures var r := PadStart(s, len, fill);
      && r[|r| - |s|..] == s
      && forall i :: 0 <= i < |r| - |s| ==> r[i] == fill
  {
    var r := PadStart(s, len, fill);
    if |s| < len {
      RepeatAll(fill, len - |s|);
      assert r[|r| - |s|..] == s;
    }
  }

  lemma {:induction false} ZerosValue(k: nat)
    ensures AllDigits(Repeat('0', k), 10) && DigitsValue(Repeat('0', k), 10) == 0
  {
    if k > 0 {
      ZerosValue(k - 1);
      LeadingZeroValue(Repeat('0', k - 1), 10);
      assert Repeat('0', k) == "0" + Repeat('0', k - 1);
    }
  }

  /** Padding with zeros keeps the value of a digit string. */
  lemma {:induction false} PadStartZeroValue(s: string, len: nat)
    requires AllDigits(s, 10)
    ensures AllDigits(PadStart(s, len, '0'), 10)
    ensures DigitsValue(PadStart(s, len, '0'), 10) == DigitsValue(s, 10)
  {
    if |s| < len {
      var zeros := Repeat('0', len - |s|);
      assert PadStart(s, len, '0') == zeros + s;
      ZerosValue(len - |s|);
      DigitsValueConcat(zeros, s);
      var q := Pow10(|s|);
      assert DigitsValue(zeros, 10) * q == 0 * q == 0;
    }
  }

  /** `dateformat`'s `pad(n, len)`: `String(n).padStart(len, '0')`. */
  function Pad(n: int, len: nat): string {
    PadStart(IntToString(n), len, '0')
  }

  /** A number below 10^len is padded to exactly `len` digits that denote it. */
  lemma {:induction false} PadDigits(n: nat, len: nat)
    requires 1 <= len && n < Pow10(len)
    ensures |Pad(n, len)| == len && AllDigits(Pad(n, len), 10)
    ensures DigitsValue(Pad(n, len), 10) == n
  {
    NatToStringLength(n, len);
    NatToStringValue(n);
    PadStartZeroValue(NatToString(n), len);
  }

  lemma {:induction false} AllDigitsConcat(a: string, b: string)
    requires AllDigits(a, 10) && AllDigits(b, 10)
    ensures AllDigits(a + b, 10)
  {
    var ab := a + b;
    forall i | 0 <= i < |ab| ensures IsRadixDigit(ab[i], 10) {
      if i < |a| { assert ab[i] == a[i]; } else { assert ab[i] == b[i - |a|]; }
    }
  }

  lemma {:induction false} AllDigitsPrefix(b: string, k: nat)
    requires AllDigits(b, 10) && k <= |b|
    ensures AllDigits(b[..k], 10)
  {
    forall i | 0 <= i < k ensures IsRadixDigit(b[..k][i], 10) { assert b[..k][i] == b[i]; }
  }

  /** Digits written after other digits: the value of the concatenation. */
  lemma {:induction false} DigitsValueConcat(a: string, b: string)
    requires AllDigits(a, 10) && AllDigits(b, 10)
    ensures AllDigits(a + b, 10)
    ensures DigitsValue(a + b, 10) == DigitsValue(a, 10) * Pow10(|b|) + DigitsValue(b, 10)
    decreases |b|
  {
    AllDigitsConcat(a, b);
    var ab := a + b;
    if b == [] {
      assert ab == a;
    } else {
      var p := b[..|b| - 1];
      AllDigitsPrefix(b, |b| - 1);
      assert ab[..|ab| - 1] == a + p;
      DigitsValueConcat(a, p);
      var va, vp, d, q := DigitsValue(a, 10), DigitsValue(p, 10), RadixDigitValue(b[|b| - 1]), Pow10(|p|);
      assert DigitsValue(ab, 10) == DigitsValue(a + p, 10) * 10 + d;
      assert DigitsValue(b, 10) == vp * 10 + d;
      assert Pow10(|b|) == 10 * q;
      ShiftDigit(va, q, vp, d);
    }
  }

  lemma {:induction false} ShiftDigit(va: int, q: int, vp: int, d: int)
    ensures (va * q + vp) * 10 + d == va * (10 * q) + (vp * 10 + d)
  {
  }

  /** A digit string holds no character other than digits. */
  lemma {:induction false} DigitsHaveNo(s: string, c: char)
    requires AllDigits(s, 10) && !IsRadixDigit(c, 10)
    ensures c !in s
  {
    assert forall i :: 0 <= i < |s| ==> s[i] != c by {
      forall i | 0 <= i < |s| ensures s[i] != c { assert IsRadixDigit(s[i], 10); }
    }
  }

  /** Whole units followed by two digits of hundredths. */
  lemma {:induction false} UnitsAndHundredths(q: nat, m: nat)
    requires m < 100
    ensures AllDigits(NatToString(q) + Pad(m, 2), 10)
    ensures DigitsValue(NatToString(q) + Pad(m, 2), 10) == q * 100 + m
  {
    assert Pow10(2) == 100;
    PadDigits(m, 2);
    NatToStringValue(q);
    DigitsValueConcat(NatToString(q), Pad(m, 2));
  }

  /** Two-digit fields, as `dateformat` writes months, days and times:
      exactly two characters, and different numbers give different fields. */
  lemma {:induction false} PadTwoDigits(a: nat, b: nat)
    requires a < 100 && b < 100
    ensures |Pad(a, 2)| == 2
    ensures Pad(a, 2) == Pad(b, 2) <==> a == b
  {
    assert Pow10(2) == 100;
    PadDigits(a, 2);
    PadDigits(b, 2);
  }

  /** Four-digit fields, as `dateformat` writes years. */
  lemma {:induction false} PadFourDigits(a: nat, b: nat)
    requires a < 10000 && b < 10000
    ensures |Pad(a, 4)| == 4
    ensures Pad(a, 4) == Pad(b, 4) <==> a == b
  {
    assert Pow10(4) == 10000;
    PadDigits(a, 4);
    PadDigits(b, 4);
  }

  /** Three fields of fixed widths joined by one-character separators
      determine the fields. */
  lemma {:induction false} FieldsInjective(a: string, b: string, c: string, x: string, y: string, z: string, sep: char)
    requires |a| == |x| && |b| == |y| && |c| == |z|
    ensures a + [sep] + b + [sep] + c == x + [sep] + y + [sep] + z <==> a == x && b == y && c == z
  {
    var f, g := a + [sep] + b + [sep] + c, x + [sep] + y + [sep] + z;
    if f == g {
      assert a == f[..|a|] == g[..|a|] == x;
      assert b == f[|a| + 1..|a| + 1 + |b|] == g[|a| + 1..|a| + 1 + |b|] == y;
      assert c == f[|a| + |b| + 2..] == g[|a| + |b| + 2..] == z;
    }
  }

  /** `parts.join(sep)`. */
  function Join(parts: seq<string>, sep: string): (r: string)
    ensures |parts| == 1 ==> r == parts[0]
    ensures |parts| > 1 ==> r == parts[0] + sep + Join(parts[1..], sep)
  {
    if |parts| == 0 then ""
    else if |parts| == 1 then parts[0]
    else parts[0] + sep + Join(parts[1..], sep)
  }

  /** Pushing one more part onto a non-empty list appends the separator and
      that part to the joined text. */
  lemma {:induction false} JoinAppend(parts: seq<string>, x: string, sep: string)
    requires |parts| > 0
    ensures Join(parts + [x], sep) == Join(parts, sep) + sep + x
  {
    var q := parts + [x];
    assert q[1..] == parts[1..] + [x];
    if |parts| > 1 {
      JoinAppend(parts[1..], x, sep);
    }
  }

  /** `s.substring(start)`: `start` is clamped to `[0, |s|]`. */
  function Substring(s: string, start: int): (r: string)
    ensures 0 <= start <= |s| ==> r == s[start..]
    ensures start < 0 ==> r == s
    ensures start > |s| ==> r == ""
  {
    if start < 0 then s else if start > |s| then "" else s[start..]
  }

  /** `s.split(c).join('')`: every occurrence of `c` deleted. */
  function RemoveChar(s: string, c: char): (r: string)
    ensures c !in r
  {
    if s == [] then []
    else if s[0] == c then RemoveChar(s[1..], c)
    else [s[0]] + RemoveChar(s[1..], c)
  }

  lemma {:induction false} RemoveCharAbsent(s: string, c: char)
    requires c !in s
    ensures RemoveChar(s, c) == s
  {
    if s != [] {
      assert c !in s[1..];
      RemoveCharAbsent(s[1..], c);
    }
  }

  lemma {:induction false} RemoveCharConcat(a: string, b: string, c: char)
    ensures RemoveChar(a + b, c) == RemoveChar(a, c) + RemoveChar(b, c)
  {
    if a == [] {
      assert a + b == b;
    } else {
      assert (a + b)[0] == a[0];
      assert (a + b)[1..] == a[1..] + b;
      RemoveCharConcat(a[1..], b, c);
    }
  }

  /** Deleting the one occurrence of `c` between two strings free of it. */
  lemma {:induction false} RemoveCharAround(a: string, b: string, c: char)
    requires c !in a && c !in b
    ensures RemoveChar(a + [c] + b, c) == a + b
  {
    assert RemoveChar(a + [c], c) == a by {
      RemoveCharConcat(a, [c], c);
      RemoveCharAbsent(a, c);
      assert RemoveChar([c], c) == [];
    }
    RemoveCharConcat(a + [c], b, c);
    RemoveCharAbsent(b, c);
  }

  /** Deleting the point from a signed decimal `sign w.f`. */
  lemma {:induction false} RemovePoint(sign: string, w: string, f: string)
    requires sign == "" || sign == "-"
    requires AllDigits(w, 10) && AllDigits(f, 10)
    ensures RemoveChar(sign + w + "." + f, '.') == sign + (w + f)
  {
    assert !IsRadixDigit('.', 10);
    DigitsHaveNo(w, '.');
    DigitsHaveNo(f, '.');
    assert sign + w + "." + f == (sign + w) + ['.'] + f;
    RemoveCharAround(sign + w, f, '.');
  }

  // ---------------------------------------------------------------------------
  // Relational comparison of strings
  // ---------------------------------------------------------------------------

  /** `a < b` for two strings: `a` is a proper prefix of `b`, or the first
      differing character of `a` is smaller. */
  predicate StrLess(a: string, b: string)
    decreases |a|
  {
    if |a| == 0 then |b| > 0
    else if |b| == 0 then false
    else if a[0] == b[0] then StrLess(a[1..], b[1..])
    else a[0] < b[0]
  }

  /** `a <= b`, i.e. `!(a > b)`. */
  predicate StrLessOrEqual(a: string, b: string) {
    !StrLess(b, a)
  }

  lemma {:induction false} StrLessIrreflexive(a: string)
    ensures !StrLess(a, a)
  {
    if |a| > 0 { StrLessIrreflexive(a[1..]); }
  }

  lemma {:induction false} StrLessTransitive(a: string, b: string, c: string)
    requires StrLess(a, b) && StrLess(b, c)
    ensures StrLess(a, c)
    decreases |a|
  {
    if |a| > 0 && a[0] == b[0] && b[0] == c[0] {
      StrLessTransitive(a[1..], b[1..], c[1..]);
    }
  }

  lemma {:induction false} StrLessTrichotomy(a: string, b: string)
    ensures StrLess(a, b) || a == b || StrLess(b, a)
    decreases |a|
  {
    if |a| > 0 && |b| > 0 && a[0] == b[0] {
      StrLessTrichotomy(a[1..], b[1..]);
      if a[1..] == b[1..] {
        assert a == [a[0]] + a[1..] && b == [b[0]] + b[1..];
      }
    }
  }

  /** `<=` on strings is a total preorder (indeed a total order). */
  lemma {:induction false} StrLessOrEqualTotal(a: string, b: string)
    ensures StrLessOrEqual(a, b) || StrLessOrEqual(b, a)
  {
    if StrLess(a, b) && StrLess(b, a) {
      StrLessTransitive(a, b, a);
      StrLessIrreflexive(a);
    }
  }

  lemma {:induction false} StrLessOrEqualTransitive(a: string, b: string, c: string)
    requires StrLessOrEqual(a, b) && StrLessOrEqual(b, c)
    ensures StrLessOrEqual(a, c)
  {
    if StrLess(c, a) {
      StrLessTrichotomy(a, b);
      StrLessTrichotomy(b, c);
      if a == b {
      } else if b == c {
      } else {
        StrLessTransitive(a, b, c);
        StrLessTransitive(c, a, b);
        StrLessIrreflexive(c);
      }
    }
  }

  // ---------------------------------------------------------------------------
  // parseInt
  // ---------------------------------------------------------------------------

  /** The characters `parseInt` skips at the start (WhiteSpace and LineTerminator). */
  predicate IsStrWhiteSpace(c: char) {
    c == '\t' || c == '\n' || c == '\U{B}' || c == '\U{C}' || c == '\r' || c == ' '
    || c == '\U{A0}' || c == '\U{1680}' || ('\U{2000}' <= c <= '\U{200A}')
    || c == '\U{2028}' || c == '\U{2029}' || c == '\U{202F}' || c == '\U{205F}'
    || c == '\U{3000}' || c == '\U{FEFF}'
  }

  function TrimStart(s: string): (r: string)
    ensures |r| <= |s| && r == s[|s| - |r|..]
    ensures |r| > 0 ==> !IsStrWhiteSpace(r[0])
    ensures |s| > 0 && !IsStrWhiteSpace(s[0]) ==> r == s
  {
    if s != [] && IsStrWhiteSpace(s[0]) then TrimStart(s[1..]) else s
  }

  /** The longest prefix of `s` made of digits of `radix`. */
  function LeadingDigits(s: string, radix: nat): (d: string)
    ensures d <= s && AllDigits(d, radix)
    ensures |d| < |s| ==> !IsRadixDigit(s[|d|], radix)
  {
    if s != [] && IsRadixDigit(s[0], radix) then [s[0]] + LeadingDigits(s[1..], radix) else []
  }

  lemma {:induction false} LeadingDigitsOfDigits(s: string, radix: nat)
    requires AllDigits(s, radix)
    ensures LeadingDigits(s, radix) == s
  {
  }

  /** The digits `parseInt` reads stop at the first character that is no
      digit. */
  lemma {:induction false} LeadingDigitsStop(digits: string, rest: string, radix: nat)
    requires AllDigits(digits, radix)
    requires |rest| > 0 && !IsRadixDigit(rest[0], radix)
    ensures LeadingDigits(digits + rest, radix) == digits
  {
    if digits == [] {
      assert digits + rest == rest;
    } else {
      assert (digits + rest)[1..] == digits[1..] + rest;
      LeadingDigitsStop(digits[1..], rest, radix);
    }
  }

  /** The digits after an optional sign: with a `0x`/`0X` prefix they are read
      in radix 16, otherwise in radix 10; None when there is no digit. */
  function ParseUnsigned(u: string): Option<nat> {
    var hex := |u| >= 2 && u[0] == '0' && (u[1] == 'x' || u[1] == 'X');
    var radix := if hex then 16 else 10;
    var digits := LeadingDigits(if hex then u[2..] else u, radix);
    if digits == [] then None else Some(DigitsValue(digits, radix))
  }

  /** `parseInt(s)` with no radix: None stands for NaN. */
  function ParseInt(s: string): Option<int> {
    var t := TrimStart(s);
    var negative := |t| > 0 && t[0] == '-';
    var u := if |t| > 0 && (t[0] == '-' || t[0] == '+') then t[1..] else t;
    match ParseUnsigned(u)
    case None => None
    case Some(v) => var w: int := v; Some(if negative then -w else w)
  }

  lemma {:induction false} ParseUnsignedOfDigits(d: string)
    requires |d| >= 1 && AllDigits(d, 10)
    ensures ParseUnsigned(d) == Some(DigitsValue(d, 10))
  {
    assert !(|d| >= 2 && (d[1] == 'x' || d[1] == 'X')) by {
      if |d| >= 2 { assert IsRadixDigit(d[1], 10); }
    }
    LeadingDigitsOfDigits(d, 10);
  }

  /** `parseInt` skips nothing before a digit or a sign. */
  lemma {:induction false} TrimStartNoWhiteSpace(s: string)
    requires |s| >= 1 && (IsRadixDigit(s[0], 10) || s[0] == '-')
    ensures TrimStart(s) == s
  {
    assert !IsStrWhiteSpace(s[0]);
  }

  /** A string made only of decimal digits parses to the number they denote. */
  lemma {:induction false} ParseIntOfDigits(d: string)
    requires |d| >= 1 && AllDigits(d, 10)
    ensures ParseInt(d) == Some(DigitsValue(d, 10))
  {
    assert IsRadixDigit(d[0], 10);
    TrimStartNoWhiteSpace(d);
    ParseUnsignedOfDigits(d);
  }

  /** `parseInt` reads the leading decimal digits and ignores what follows
      the first character that is no digit. */
  lemma {:induction false} ParseIntStopsAtNonDigit(d: string, rest: string)
    requires |d| >= 2 && AllDigits(d, 10)
    requires |rest| > 0 && !IsRadixDigit(rest[0], 10)
    ensures ParseInt(d + rest) == Some(DigitsValue(d, 10))
  {
    var s := d + rest;
    assert s[0] == d[0] && s[1] == d[1];
    assert IsRadixDigit(s[0], 10) && IsRadixDigit(s[1], 10);
    TrimStartNoWhiteSpace(s);
    LeadingDigitsStop(d, rest, 10);
    assert ParseUnsigned(s) == Some(DigitsValue(d, 10));
  }

  lemma {:induction false} ParseIntAfterMinus(s: string, v: nat)
    requires |s| >= 2 && s[0] == '-'
    requires TrimStart(s) == s
    requires ParseUnsigned(s[1..]) == Some(v)
    ensures ParseInt(s) == Some(-(v as int))
  {
  }

  /** A minus sign followed by decimal digits `d` (denoting `v`) parses to `-v`. */
  lemma {:induction false} ParseIntOfNegativeDigits(d: string, v: nat)
    requires |d| >= 1 && AllDigits(d, 10) && v == DigitsValue(d, 10)
    ensures ParseInt("-" + d) == Some(-(v as int))
  {
    var s := "-" + d;
    assert s[0] == '-';
    TrimStartNoWhiteSpace(s);
    assert s[1..] == d;
    ParseUnsignedOfDigits(d);
    ParseIntAfterMinus(s, v);
  }

  /** An optional minus sign followed by decimal digits. */
  lemma {:induction false} SignedDigitsParse(negative: bool, digits: string, v: nat)
    requires |digits| >= 1 && AllDigits(digits, 10) && DigitsValue(digits, 10) == v
    ensures ParseInt((if negative then "-" else "") + digits) == Some(if negative then -(v as int) else v)
  {
    if negative {
      ParseIntOfNegativeDigits(digits, v);
    } else {
      assert "" + digits == digits;
      ParseIntOfDigits(digits);
    }
  }
}
