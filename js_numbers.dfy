/**
 * JavaScript's `parseInt` (with no radix argument) and the text of an integer
 * Number as a template literal writes it (`${n}`).
 */
module JsNumbers {
  import opened Wrappers
  import opened JsStrings

  /** Value of `c` as a digit of base 36 (`0`-`9`, then letters of either case); 36 when it is not one. */
  function DigitValue(c: char): (d: nat)
    ensures d <= 36
    ensures d < 10 <==> '0' <= c <= '9'
  {
    if '0' <= c <= '9' then c as int - '0' as int
    else if 'a' <= c <= 'z' then c as int - 'a' as int + 10
    else if 'A' <= c <= 'Z' then c as int - 'A' as int + 10
    else 36
  }

  predicate IsDigitIn(c: char, radix: nat) {
    DigitValue(c) < radix
  }

  predicate AllDigitsIn(s: string, radix: nat) {
    forall i :: 0 <= i < |s| ==> IsDigitIn(s[i], radix)
  }

  /** The longest prefix of `s` made of digits of `radix`. */
  function DigitPrefix(s: string, radix: nat): (r: string)
    ensures |r| <= |s| && r == s[..|r|]
    ensures AllDigitsIn(r, radix)
    ensures |r| == |s| || !IsDigitIn(s[|r|], radix)
  {
    if |s| > 0 && IsDigitIn(s[0], radix) then
      var r := [s[0]] + DigitPrefix(s[1..], radix);
      assert r == s[..|r|];
      r
    else []
  }

  /** Value of a digit string in `radix`, most significant digit first. */
  function DigitsValue(ds: string, radix: nat): nat {
    if ds == [] then 0
    else DigitsValue(ds[..|ds| - 1], radix) * radix + DigitValue(ds[|ds| - 1])
  }

  /** True when `u` opens with the `0x` / `0X` prefix that switches `parseInt` to base 16. */
  predicate HasHexPrefix(u: string) {
    |u| >= 2 && u[0] == '0' && (u[1] == 'x' || u[1] == 'X')
  }

  /** `u` with one leading sign character removed. */
  function Unsigned(t: string): string {
    if |t| > 0 && (t[0] == '-' || t[0] == '+') then t[1..] else t
  }

  /** The digits after the sign: base 16 after a `0x` / `0X` prefix, base 10 otherwise; `None` when there are none. */
  function ParseMagnitude(u: string): Option<nat> {
    var radix := if HasHexPrefix(u) then 16 else 10;
    var digits := DigitPrefix(if HasHexPrefix(u) then u[2..] else u, radix);
    if digits == [] then None else Some(DigitsValue(digits, radix))
  }

  /**
   * JavaScript's `parseInt` with no radix: skip leading whitespace, take one optional sign, switch to
   * base 16 after a `0x` / `0X` prefix, then read the longest run of digits.
   * `None` is NaN (no digit at all); `-0` is 0.
   */
  function ParseInt(s: string): Option<int> {
    var t := TrimStart(s);
    var magnitude := ParseMagnitude(Unsigned(t));
    if magnitude.None? then None
    else if |t| > 0 && t[0] == '-' then Some(-(magnitude.value as int))
    else Some(magnitude.value as int)
  }

  function DigitChar(d: nat): (c: char)
    requires d < 10
    ensures DigitValue(c) == d
  {
    ('0' as int + d) as char
  }

  /** Decimal text of a natural number, without leading zeros. */
  function NatText(n: nat): (r: string)
    ensures r != [] && AllDigitsIn(r, 10)
    ensures DigitsValue(r, 10) == n
    ensures r[0] == '0' ==> n == 0 && r == "0"
  {
    if n < 10 then [DigitChar(n)]
    else
      var r := NatText(n / 10) + [DigitChar(n % 10)];
      assert r[..|r| - 1] == NatText(n / 10);
      r
  }

  /** `${n}` for an integer-valued Number. */
  function IntText(n: int): (r: string)
    ensures r != []
    ensures n < 0 ==> r[0] == '-' && AllDigitsIn(r[1..], 10)
    ensures n >= 0 ==> AllDigitsIn(r, 10)
  {
    if n < 0 then
      var r := "-" + NatText(-n);
      assert r[1..] == NatText(-n);
      r
    else NatText(n)
  }

  // ---------------------------------------------------------------- lemmas

  lemma {:induction false} DigitPrefixAppend(a: string, rest: string, radix: nat)
    requires AllDigitsIn(a, radix)
    requires rest == [] || !IsDigitIn(rest[0], radix)
    ensures DigitPrefix(a + rest, radix) == a
  {
    if a == [] {
      assert a + rest == rest;
    } else {
      assert (a + rest)[0] == a[0];
      assert (a + rest)[1..] == a[1..] + rest;
      DigitPrefixAppend(a[1..], rest, radix);
    }
  }

  /**
   * `parseInt` reads back the integer a template literal wrote, whatever text
   * follows it, as long as that text does not carry on the digits (or, after a
   * lone `0`, turn it into a `0x` prefix).
   */
  lemma ParseMagnitudeText(m: nat, rest: string)
    requires rest == [] || !IsDigitIn(rest[0], 10)
    requires m == 0 && rest != [] ==> rest[0] != 'x' && rest[0] != 'X'
    ensures ParseMagnitude(NatText(m) + rest) == Some(m)
  {
    var u := NatText(m) + rest;
    assert u[0] == NatText(m)[0];
    assert !HasHexPrefix(u) by {
      if m != 0 {
        assert u[0] != '0';
      } else if |u| >= 2 {
        assert u[1] == rest[0];
      }
    }
    DigitPrefixAppend(NatText(m), rest, 10);
  }

  lemma ParseIntSigned(s: string, m: nat)
    requires ParseMagnitude(Unsigned(TrimStart(s))) == Some(m)
    ensures |TrimStart(s)| > 0 && TrimStart(s)[0] == '-' ==> ParseInt(s) == Some(-(m as int))
    ensures !(|TrimStart(s)| > 0 && TrimStart(s)[0] == '-') ==> ParseInt(s) == Some(m)
  {
  }

  lemma ParseIntNoLead(s: string, m: nat)
    requires s != [] && !IsWhitespace(s[0])
    requires ParseMagnitude(Unsigned(s)) == Some(m)
    ensures ParseInt(s) == if s[0] == '-' then Some(-(m as int)) else Some(m)
  {
    assert TrimStart(s) == s;
    ParseIntSigned(s, m);
  }

  lemma UnsignedText(n: int, m: nat, rest: string)
    requires m == if n < 0 then -n else n
    ensures Unsigned(IntText(n) + rest) == NatText(m) + rest
  {
    var digits := NatText(m);
    assert DigitValue(digits[0]) < 10;
    if n < 0 {
      assert IntText(n) + rest == "-" + (digits + rest);
    } else {
      assert IntText(n) + rest == digits + rest;
      assert (digits + rest)[0] == digits[0];
    }
  }

  lemma MagnitudeOfText(n: int, rest: string)
    requires rest == [] || !IsDigitIn(rest[0], 10)
    requires n == 0 && rest != [] ==> rest[0] != 'x' && rest[0] != 'X'
    ensures ParseMagnitude(Unsigned(IntText(n) + rest)) == Some(if n < 0 then -n else n)
  {
    UnsignedText(n, if n < 0 then -n else n, rest);
    ParseMagnitudeText(if n < 0 then -n else n, rest);
  }

  lemma ParseIntText(n: int, rest: string)
    requires rest == [] || !IsDigitIn(rest[0], 10)
    requires n == 0 && rest != [] ==> rest[0] != 'x' && rest[0] != 'X'
    ensures ParseInt(IntText(n) + rest) == Some(n)
  {
    var s := IntText(n) + rest;
    MagnitudeOfText(n, rest);
    assert s[0] == IntText(n)[0];
    ParseIntNoLead(s, if n < 0 then -n else n);
  }

  /** A text that opens with neither whitespace, a sign nor a digit is `NaN`. */
  lemma ParseIntNoDigit(s: string)
    requires s != [] && !IsWhitespace(s[0]) && s[0] != '-' && s[0] != '+' && !IsDigitIn(s[0], 10)
    ensures ParseInt(s) == None
  {
    assert TrimStart(s) == s;
    assert Unsigned(s) == s;
    assert !HasHexPrefix(s);
    assert DigitPrefix(s, 10) == [];
  }

  /** Leading whitespace is ignored by `parseInt`. */
  lemma ParseIntSkipsWhitespace(pad: string, s: string)
    requires AllWhitespace(pad)
    ensures ParseInt(pad + s) == ParseInt(s)
  {
    TrimStartPadded(pad, s);
    assert TrimStart(pad + s) == TrimStart(s);
  }

  /** Two integers with the same text are equal. */
  lemma IntTextInjective(a: int, b: int)
    requires IntText(a) == IntText(b)
    ensures a == b
  {
    ParseIntText(a, []);
    ParseIntText(b, []);
    assert IntText(a) + [] == IntText(b) + [];
  }
}
