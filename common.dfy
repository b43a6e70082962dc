/** Value-level helpers shared by every component: an Option type and the few
    JavaScript string and number built-ins the components rely on. */
module Common {

  datatype Option<T> = None | Some(value: T)

  /** `opt || ""` for an optional string field. */
  function OrEmpty(o: Option<string>): string {
    match o
    case Some(s) => s
    case None => ""
  }

  // ---------------------------------------------------------------------------
  // String.prototype.toLowerCase and String.prototype.includes
  // ---------------------------------------------------------------------------

  /** Lower-cases the ASCII letters; every other character maps to itself. */
  function LowerChar(c: char): char {
    if 'A' <= c <= 'Z' then (c as int + 32) as char else c
  }

  function ToLower(s: string): string {
    seq(|s|, i requires 0 <= i < |s| => LowerChar(s[i]))
  }

  /** `s.includes(sub)`: `sub` occurs in `s` at some position. */
  predicate Includes(s: string, sub: string)
    decreases |s|
  {
    sub <= s || (|s| > 0 && Includes(s[1..], sub))
  }

  lemma {:induction false} IncludesAt(s: string, sub: string, k: nat)
    requires k + |sub| <= |s| && s[k..k + |sub|] == sub
    ensures Includes(s, sub)
    decreases k
  {
    if k == 0 {
      assert s[..|sub|] == sub;
    } else {
      assert s[1..][k - 1..k - 1 + |sub|] == s[k..k + |sub|];
      IncludesAt(s[1..], sub, k - 1);
    }
  }

  lemma {:induction false} IncludesWitness(s: string, sub: string) returns (k: nat)
    requires Includes(s, sub)
    ensures k + |sub| <= |s| && s[k..k + |sub|] == sub
    decreases |s|
  {
    if sub <= s {
      k := 0;
    } else {
      var k' := IncludesWitness(s[1..], sub);
      k := k' + 1;
      assert s[k..k + |sub|] == s[1..][k'..k' + |sub|];
    }
  }

  /** `sub` occurs in `s` starting at index `k`. */
  predicate OccursAt(s: string, sub: string, k: nat) {
    k + |sub| <= |s| && s[k..k + |sub|] == sub
  }

  /** `Includes` is exactly "occurs at some position". */
  lemma IncludesIff(s: string, sub: string)
    ensures Includes(s, sub) <==> exists k: nat :: OccursAt(s, sub, k)
  {
    if Includes(s, sub) {
      var k := IncludesWitness(s, sub);
      assert OccursAt(s, sub, k);
    }
    if exists k: nat :: OccursAt(s, sub, k) {
      var k: nat :| OccursAt(s, sub, k);
      IncludesAt(s, sub, k);
    }
  }

  // ---------------------------------------------------------------------------
  // Decimal digits
  // ---------------------------------------------------------------------------

  function DigitChar(d: nat): char
    requires d < 10
  {
    "0123456789"[d]
  }

  /** The value of `c` as a digit in base `radix` (2..36), or -1 when it is not one. */
  function DigitValue(c: char, radix: nat): int {
    var v :=
      if '0' <= c <= '9' then c as int - '0' as int
      else if 'a' <= c <= 'z' then c as int - 'a' as int + 10
      else if 'A' <= c <= 'Z' then c as int - 'A' as int + 10
      else 36;
    if v < radix then v else -1
  }

  predicate IsDigit(c: char, radix: nat) {
    DigitValue(c, radix) >= 0
  }

  predicate AllDigits(s: string, radix: nat) {
    forall i :: 0 <= i < |s| ==> IsDigit(s[i], radix)
  }

  /** The number the digit string `s` denotes in base `radix`, most significant digit first. */
  function DigitsValue(s: string, radix: nat): nat
    requires AllDigits(s, radix)
  {
    if s == [] then 0
    else DigitsValue(s[..|s| - 1], radix) * radix + DigitValue(s[|s| - 1], radix)
  }

  /** Number of leading characters of `s` that are digits in base `radix`. */
  function DigitPrefixLength(s: string, radix: nat): (n: nat)
    ensures n <= |s| && AllDigits(s[..n], radix)
    ensures n < |s| ==> !IsDigit(s[n], radix)
  {
    if s == [] || !IsDigit(s[0], radix) then 0
    else
      var n := 1 + DigitPrefixLength(s[1..], radix);
      assert s[..n] == [s[0]] + s[1..][..n - 1];
      n
  }

  /** `${n}`: the shortest decimal numeral of `n`. */
  function NatToString(n: nat): (r: string)
    ensures |r| >= 1 && AllDigits(r, 10)
    ensures r[0] == '0' ==> n == 0 && |r| == 1
  {
    if n < 10 then [DigitChar(n)]
    else NatToString(n / 10) + [DigitChar(n % 10)]
  }

  lemma {:induction false} NatToStringValue(n: nat)
    ensures DigitsValue(NatToString(n), 10) == n
  {
    if n >= 10 {
      var s := NatToString(n);
      assert s[..|s| - 1] == NatToString(n / 10);
      NatToStringValue(n / 10);
    }
  }

  /** The `width` low-order decimal digits of `n`, zero-padded on the left. */
  function PadDigits(n: nat, width: nat): (r: string)
    ensures |r| == width && AllDigits(r, 10)
  {
    if width == 0 then []
    else PadDigits(n / 10, width - 1) + [DigitChar(n % 10)]
  }

  function Pow10(k: nat): nat {
    if k == 0 then 1 else 10 * Pow10(k - 1)
  }

  lemma {:induction false} PadDigitsValue(n: nat, width: nat)
    requires n < Pow10(width)
    ensures DigitsValue(PadDigits(n, width), 10) == n
  {
    if width > 0 {
      var s := PadDigits(n, width);
      assert s[..|s| - 1] == PadDigits(n / 10, width - 1);
      PadDigitsValue(n / 10, width - 1);
    }
  }

  // ---------------------------------------------------------------------------
  // parseInt(string) without a radix, section 21.1.2.13 of ECMA-262
  // ---------------------------------------------------------------------------

  /** StrWhiteSpaceChar: WhiteSpace (tab, VT, FF, ZWNBSP, the Zs category) and LineTerminator. */
  predicate IsJsSpace(c: char) {
    c == '\t' || c == '\n' || c == '\U{B}' || c == '\U{C}' || c == '\r' || c == ' '
    || c == '\U{A0}' || c == '\U{1680}' || ('\U{2000}' <= c <= '\U{200A}')
    || c == '\U{2028}' || c == '\U{2029}' || c == '\U{202F}' || c == '\U{205F}'
    || c == '\U{3000}' || c == '\U{FEFF}'
  }

  function TrimStart(s: string): (r: string)
    ensures |r| <= |s| && r == s[|s| - |r|..]
    ensures r != [] ==> !IsJsSpace(r[0])
  {
    if s != [] && IsJsSpace(s[0]) then TrimStart(s[1..]) else s
  }

  /** `parseInt(s)`; `None` stands for NaN. Leading white space is skipped, then
      one sign, then a `0x`/`0X` prefix selects base 16; the longest run of digits
      that follows is the value, and no digit at all gives NaN. */
  function ParseInt(s: string): Option<int> {
    ParseSigned(TrimStart(s))
  }

  function ParseSigned(t: string): Option<int> {
    if t != [] && t[0] == '-' then
      match ParseUnsigned(t[1..])
      case Some(v) => Some(-v)
      case None => None
    else if t != [] && t[0] == '+' then ParseUnsigned(t[1..])
    else ParseUnsigned(t)
  }

  function ParseUnsigned(u: string): Option<int> {
    if |u| >= 2 && u[0] == '0' && (u[1] == 'x' || u[1] == 'X') then ParseDigits(u[2..], 16)
    else ParseDigits(u, 10)
  }

  function ParseDigits(body: string, radix: nat): Option<int> {
    var n := DigitPrefixLength(body, radix);
    if n == 0 then None else Some(DigitsValue(body[..n], radix))
  }

  /** A decimal numeral followed by anything that does not start with a letter
      or digit reads as that numeral: parseInt stops at the first non-digit. */
  lemma ParseUnsignedNumeral(n: nat, rest: string)
    requires rest == [] || !IsDigit(rest[0], 36)
    ensures ParseUnsigned(NatToString(n) + rest) == Some(n)
  {
    var d := NatToString(n);
    var u := d + rest;
    assert u[0] == d[0];
    if |u| >= 2 && u[0] == '0' {
      assert |d| == 1 && u[1] == rest[0];
      assert IsDigit('x', 36) && IsDigit('X', 36);
    }
    DigitPrefixOfDigits(d, rest, 10);
    assert u[..|d|] == d;
    NatToStringValue(n);
  }

  /** A decimal digit is neither white space nor a sign. */
  lemma DecimalDigitChar(c: char)
    requires IsDigit(c, 10)
    ensures '0' <= c <= '9' && !IsJsSpace(c) && c != '-' && c != '+'
  {
  }

  lemma TrimStartNonSpace(s: string)
    requires s != [] && !IsJsSpace(s[0])
    ensures TrimStart(s) == s
  {
  }

  /** `parseInt("")` is NaN. */
  lemma ParseIntEmpty()
    ensures ParseInt("") == None
  {
    assert TrimStart("") == "";
    assert DigitPrefixLength("", 10) == 0;
  }

  lemma ParseIntOfNatString(n: nat, rest: string)
    requires rest == [] || !IsDigit(rest[0], 36)
    ensures ParseInt(NatToString(n) + rest) == Some(n)
  {
    var d := NatToString(n);
    var s := d + rest;
    assert s[0] == d[0];
    DecimalDigitChar(d[0]);
    TrimStartNonSpace(s);
    assert ParseSigned(s) == ParseUnsigned(s);
    ParseUnsignedNumeral(n, rest);
  }

  lemma {:induction false} DigitPrefixOfDigits(d: string, rest: string, radix: nat)
    requires AllDigits(d, radix)
    requires rest == [] || !IsDigit(rest[0], radix)
    ensures DigitPrefixLength(d + rest, radix) == |d|
  {
    if d != [] {
      assert (d + rest)[1..] == d[1..] + rest;
      DigitPrefixOfDigits(d[1..], rest, radix);
    }
  }
}
