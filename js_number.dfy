/** JavaScript's global `parseInt(string)` called without a radix, as both
    programs call it (ECMAScript section 19.2.5): skip leading whitespace, read
    an optional sign, switch to base 16 after a `0x` or `0X` prefix, then take
    the longest run of digits of that base. `None` stands for `NaN`; `-0` is
    the integer 0. */
module JsNumber {
  import opened Wrappers
  import opened JsText

  predicate IsDecimalDigit(c: char)
  {
    '0' <= c <= '9'
  }

  /** `c` is a digit of base `radix`, which is 10 or 16. */
  predicate IsRadixDigit(c: char, radix: nat)
  {
    || IsDecimalDigit(c)
    || (radix == 16 && ('a' <= c <= 'f' || 'A' <= c <= 'F'))
  }

  /** The numeric value of a decimal or hexadecimal digit. */
  function DigitValue(c: char): (v: nat)
    requires IsRadixDigit(c, 16)
    ensures v < 16
    ensures IsDecimalDigit(c) ==> v < 10
  {
    if IsDecimalDigit(c) then c as int - '0' as int
    else if 'a' <= c <= 'f' then c as int - 'a' as int + 10
    else c as int - 'A' as int + 10
  }

  /** The length of the longest prefix of `s` made of base-`radix` digits. */
  function DigitRun(s: string, radix: nat): (n: nat)
    ensures n <= |s|
    ensures forall i :: 0 <= i < n ==> IsRadixDigit(s[i], radix)
    ensures n < |s| ==> !IsRadixDigit(s[n], radix)
  {
    if s != [] && IsRadixDigit(s[0], radix) then 1 + DigitRun(s[1..], radix) else 0
  }

  /** `radix` raised to the power `n`. */
  function Power(radix: nat, n: nat): (p: nat)
    ensures radix > 0 ==> p > 0
  {
    if n == 0 then 1 else radix * Power(radix, n - 1)
  }

  /** The value of a string of base-`radix` digits, most significant first:
      below `radix` to the power of the number of digits. */
  function DigitsValue(ds: string, radix: nat): (v: nat)
    requires radix == 10 || radix == 16
    requires forall i :: 0 <= i < |ds| ==> IsRadixDigit(ds[i], radix)
    ensures v < Power(radix, |ds|)
  {
    if ds == [] then 0
    else
      assert IsRadixDigit(ds[|ds| - 1], radix);
      assert IsRadixDigit(ds[|ds| - 1], 16);
      DigitsValue(ds[..|ds| - 1], radix) * radix + DigitValue(ds[|ds| - 1])
  }

  /** `parseInt(s)`. Text that does not start, after whitespace, with a sign
      or a decimal digit never parses. */
  function ParseInt(s: string): (r: Option<int>)
    ensures var t := TrimStart(s);
      t == [] || !(t[0] == '-' || t[0] == '+' || IsDecimalDigit(t[0])) ==> r == None
  {
    ParseSigned(TrimStart(s))
  }

  /** `parseInt` once leading whitespace is gone: an optional sign, then the
      unsigned part. */
  function ParseSigned(t: string): (r: Option<int>)
    ensures t == [] || !(t[0] == '-' || t[0] == '+' || IsDecimalDigit(t[0])) ==> r == None
  {
    if t != [] && t[0] == '-' then
      match ParseUnsigned(t[1..])
      case Some(v) => Some(-(v as int))
      case None => None
    else if t != [] && t[0] == '+' then
      ParseUnsigned(t[1..])
    else
      ParseUnsigned(t)
  }

  /** The part of `parseInt` after the sign: the hexadecimal prefix, then the
      longest digit run; `None` when that run is empty. */
  function ParseUnsigned(u: string): (r: Option<nat>)
    ensures u == [] || !IsDecimalDigit(u[0]) ==> r == None
  {
    var hex := |u| >= 2 && u[0] == '0' && (u[1] == 'x' || u[1] == 'X');
    var radix := if hex then 16 else 10;
    var body := if hex then u[2..] else u;
    var n := DigitRun(body, radix);
    if n == 0 then None else Some(DigitsValue(body[..n], radix))
  }

  /** The decimal digits of `k`, without leading zeros: the reference
      rendering against which `ParseInt` is checked. */
  function Decimal(k: nat): (d: string)
    ensures |d| >= 1
    ensures forall i :: 0 <= i < |d| ==> IsDecimalDigit(d[i])
    ensures d[0] == '0' ==> k == 0 && d == "0"
    ensures DigitsValue(d, 10) == k
  {
    if k < 10 then [('0' as int + k) as char]
    else
      var d := Decimal(k / 10) + [('0' as int + k % 10) as char];
      assert d[..|d| - 1] == Decimal(k / 10);
      d
  }

  /** Whitespace, the decimal digits of `k` and then any text that does not
      continue the number parse back to `k`. The exception is `0` followed by
      `x` or `X`, which `parseInt` reads as the start of a hexadecimal
      literal. */
  lemma ParseIntDecimal(ws: string, k: nat, rest: string)
    requires AllSpace(ws)
    requires rest == [] || !IsDecimalDigit(rest[0])
    requires k == 0 && rest != [] ==> rest[0] != 'x' && rest[0] != 'X'
    ensures ParseInt(ws + Decimal(k) + rest) == Some(k)
  {
    UnsignedDecimal(k, rest);
    DigitsAfterSpaces(ws, Decimal(k), rest);
  }

  /** Whitespace followed by a digit is read without a sign. */
  lemma DigitsAfterSpaces(ws: string, d: string, rest: string)
    requires AllSpace(ws)
    requires d + rest != [] && IsDecimalDigit((d + rest)[0])
    ensures ParseInt(ws + d + rest) == ParseUnsigned(d + rest)
  {
    var u := d + rest;
    assert ws + d + rest == ws + u;
    ParseIntSkipsSpaces(ws, u);
    ParseIntUnsignedText(u);
  }

  /** The digits of `k` alone read back as `k`, and trimming leaves them
      as they are. */
  lemma ParseIntOfDecimal(k: nat)
    ensures Trim(Decimal(k)) == Decimal(k)
    ensures ParseInt(Decimal(k)) == Some(k)
  {
    var d := Decimal(k);
    TrimUntouched(d);
    UnsignedDecimal(k, []);
    assert d + [] == d;
    ParseIntUnsignedText(d);
  }

  /** Text that starts with a decimal digit is read without a sign. */
  lemma ParseIntUnsignedText(u: string)
    requires u != [] && IsDecimalDigit(u[0])
    ensures ParseInt(u) == ParseUnsigned(u)
  {
    assert !IsSpace(u[0]);
    TrimStartWord(u);
    assert u[0] != '-' && u[0] != '+';
    assert ParseInt(u) == ParseSigned(u);
  }

  /** Text that starts with a minus sign is read as the negated rest. */
  lemma ParseIntMinus(u: string)
    ensures ParseInt("-" + u) == match ParseUnsigned(u) case Some(v) => Some(-(v as int)) case None => None
  {
    var t := "-" + u;
    assert TrimStart(t) == t;
    assert t[1..] == u;
  }

  /** Leading whitespace does not change what `parseInt` reads. */
  lemma ParseIntSkipsSpaces(ws: string, t: string)
    requires AllSpace(ws)
    requires t != [] && !IsSpace(t[0])
    ensures ParseInt(ws + t) == ParseInt(t)
  {
    TrimStartSpaces(ws, t);
    assert TrimStart(t) == t;
  }

  /** The digits of `k` followed by text that does not continue them read
      back as `k`. */
  lemma UnsignedDecimal(k: nat, rest: string)
    requires rest == [] || !IsDecimalDigit(rest[0])
    requires k == 0 && rest != [] ==> rest[0] != 'x' && rest[0] != 'X'
    ensures var u := Decimal(k) + rest; IsDecimalDigit(u[0]) && ParseUnsigned(u) == Some(k)
  {
    var d := Decimal(k);
    var u := d + rest;
    assert u[0] == d[0];
    if |u| >= 2 && u[0] == '0' {
      assert d == "0";
      assert u[1] == rest[0];
    }
    DigitRunOfDigits(d, rest);
    assert u[..|d|] == d;
  }

  /** Leading whitespace in front of text that starts with a non-space is
      removed and nothing else is. */
  lemma {:induction false} TrimStartSpaces(ws: string, s: string)
    requires AllSpace(ws)
    requires s != [] && !IsSpace(s[0])
    ensures TrimStart(ws + s) == s
  {
    if ws != [] {
      assert (ws + s)[1..] == ws[1..] + s;
      TrimStartSpaces(ws[1..], s);
    } else {
      assert ws + s == s;
    }
  }

  lemma {:induction false} DigitRunOfDigits(d: string, rest: string)
    requires forall i :: 0 <= i < |d| ==> IsDecimalDigit(d[i])
    requires rest == [] || !IsDecimalDigit(rest[0])
    ensures DigitRun(d + rest, 10) == |d|
  {
    if d != [] {
      assert (d + rest)[1..] == d[1..] + rest;
      DigitRunOfDigits(d[1..], rest);
    } else {
      assert d + rest == rest;
    }
  }
}
