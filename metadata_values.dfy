/**
 * The typed_value accessor of a metadata row: the stored string is
 * reinterpreted on read according to its declared type tag; the row itself
 * is never changed.
 */
module MetadataValues {
  import opened Wrappers
  import opened Strings
  import opened Schema
  import Seqs

  /** The value read back; the float and json readings are not modelled. */
  datatype TypedValue =
    | IntValue(i: int)
    | BoolValue(b: bool)
    | StringValue(s: string)
    | Unmodelled(declaredType: string, raw: string)

  /** Whitespace PHP skips before a numeric prefix. */
  predicate IsNumericSpace(c: char) {
    c == ' ' || c == '\t' || c == '\n' || c == '\r' || c == '\U{000B}' || c == '\U{000C}'
  }

  predicate IsDigit(c: char) {
    '0' <= c <= '9'
  }

  function SkipSpace(s: string): (r: string)
    ensures |r| <= |s|
  {
    if s != [] && IsNumericSpace(s[0]) then SkipSpace(s[1..]) else s
  }

  /** The longest prefix of `s` made of decimal digits. */
  function LeadingDigits(s: string): (r: string)
    ensures |r| <= |s| && r == s[..|r|]
    ensures forall i :: 0 <= i < |r| ==> IsDigit(r[i])
    ensures |r| < |s| ==> !IsDigit(s[|r|])
  {
    if s != [] && IsDigit(s[0]) then [s[0]] + LeadingDigits(s[1..]) else []
  }

  /** The value of one decimal digit (0 for any other character, which never occurs in a numeral). */
  function DigitValue(c: char): (r: nat)
    ensures r < 10
  {
    if IsDigit(c) then c as int - '0' as int else 0
  }

  /** The number a string of decimal digits denotes. */
  function DigitsValue(d: string): nat {
    if d == [] then 0 else DigitsValue(d[..|d| - 1]) * 10 + DigitValue(d[|d| - 1])
  }

  /** A decimal numeral: its value is (-1)^negative * mantissa * 10^scale. */
  datatype Numeral = Numeral(negative: bool, mantissa: nat, scale: int)

  /**
   * The exponent part at the start of `s`: 'e' or 'E', an optional sign and
   * at least one digit; 0 when `s` does not start with one.
   */
  function Exponent(s: string): int {
    if s != [] && (s[0] == 'e' || s[0] == 'E') then
      var signed := |s| > 1 && (s[1] == '-' || s[1] == '+');
      var d := LeadingDigits(if signed then s[2..] else s[1..]);
      if d == [] then 0
      else if signed && s[1] == '-' then 0 - DigitsValue(d) as int
      else DigitsValue(d)
    else 0
  }

  /**
   * The unsigned numeral at the start of `u`: digits with an optional '.'
   * and fraction digits (or '.' and fraction digits alone), then an
   * optional exponent. None when there is no digit before or just after the
   * point.
   */
  function UnsignedPrefix(u: string): Option<Numeral> {
    var ip := LeadingDigits(u);
    var rest := u[|ip|..];
    var point := rest != [] && rest[0] == '.';
    var fp := if point then LeadingDigits(rest[1..]) else [];
    if ip == [] && fp == [] then None
    else
      var after := if point then rest[1 + |fp|..] else rest;
      Some(Numeral(false, DigitsValue(ip + fp), Exponent(after) - |fp|))
  }

  /**
   * The numeric prefix PHP reads from a string: leading whitespace, an
   * optional sign and an unsigned numeral.
   */
  function NumericPrefix(s: string): Option<Numeral> {
    var t := SkipSpace(s);
    var u := if t != [] && (t[0] == '-' || t[0] == '+') then t[1..] else t;
    match UnsignedPrefix(u)
    case None => None
    case Some(n) => Some(Numeral(t != [] && t[0] == '-', n.mantissa, n.scale))
  }

  /** `m` with `k` decimal zeros appended: m * 10^k. */
  function ShiftLeft(m: nat, k: nat): nat {
    if k == 0 then m else 10 * ShiftLeft(m, k - 1)
  }

  /** `m` with its last `k` decimal digits dropped: m / 10^k rounded down. */
  function ShiftRight(m: nat, k: nat): nat {
    if k == 0 then m else ShiftRight(m / 10, k - 1)
  }

  /** The value of a numeral truncated toward zero. */
  function Truncated(n: Numeral): int {
    var magnitude := if n.scale >= 0 then ShiftLeft(n.mantissa, n.scale) else ShiftRight(n.mantissa, 0 - n.scale);
    if n.negative then 0 - magnitude else magnitude
  }

  /** PHP_INT_MAX and PHP_INT_MIN on a 64-bit build. */
  const IntMax: int := 0x7FFF_FFFF_FFFF_FFFF
  const IntMin: int := -0x8000_0000_0000_0000

  /**
   * The least magnitude a decimal rounds to an infinite double:
   * 2^1024 - 2^970, halfway between the largest double and 2^1024.
   */
  const DoubleOverflow: int := 0xFFFF_FFFF_FFFF_FC00_0000_0000_0000_0000_0000_0000_0000_0000_0000_0000_0000_0000_0000_0000_0000_0000_0000_0000_0000_0000_0000_0000_0000_0000_0000_0000_0000_0000_0000_0000_0000_0000_0000_0000_0000_0000_0000_0000_0000_0000_0000_0000_0000_0000_0000_0000_0000_0000_0000_0000_0000_0000_0000_0000_0000_0000_0000_0000_0000_0000

  /**
   * The conversion of a number to a 64-bit integer: values in range are
   * kept, an infinite double becomes 0 and any other value saturates.
   */
  function Saturate(v: int): (r: int)
    ensures IntMin <= r <= IntMax
    ensures IntMin <= v <= IntMax ==> r == v
  {
    if IntMin <= v <= IntMax then v
    else if v >= DoubleOverflow || v <= 0 - DoubleOverflow then 0
    else if v > 0 then IntMax
    else IntMin
  }

  /**
   * PHP's (int) cast of a string: the numeric prefix truncated toward zero
   * and capped to 64 bits; 0 when there is no numeric prefix.
   */
  function IntCast(s: string): (r: int)
    ensures IntMin <= r <= IntMax
    ensures NumericPrefix(s) == None ==> r == 0
  {
    match NumericPrefix(s)
    case None => 0
    case Some(n) => Saturate(Truncated(n))
  }

  /** PHP's (bool) cast of a string: false exactly for "" and "0". */
  function BoolCast(s: string): bool {
    !PhpEmpty(s)
  }

  /** Metadata::getTypedValueAttribute: dispatch on the declared type tag. */
  function TypedValueOf(m: Meta): (r: TypedValue)
    ensures r.StringValue? <==> m.declaredType !in {"integer", "float", "boolean", "json"}
    ensures r.StringValue? ==> r.s == m.value
    ensures r.IntValue? <==> m.declaredType == "integer"
    ensures r.IntValue? ==> IntMin <= r.i <= IntMax
    ensures r.BoolValue? <==> m.declaredType == "boolean"
  {
    match m.declaredType
    case "integer" => IntValue(IntCast(m.value))
    case "float" => Unmodelled("float", m.value)
    case "boolean" => BoolValue(BoolCast(m.value))
    case "json" => Unmodelled("json", m.value)
    case _ => StringValue(m.value)
  }

  /** A string of digits is its own longest digit prefix. */
  lemma {:induction false} LeadingDigitsOfDigits(d: string)
    requires forall i :: 0 <= i < |d| ==> IsDigit(d[i])
    ensures LeadingDigits(d) == d
  {
    if d != [] {
      LeadingDigitsOfDigits(d[1..]);
      assert d == [d[0]] + d[1..];
    }
  }

  /** The decimal rendering of `n` denotes `n`. */
  lemma {:induction false} DigitsValueOfNatToString(n: nat)
    ensures DigitsValue(NatToString(n)) == n
    decreases n
  {
    var d := NatToString(n);
    if n < 10 {
      assert d == [DigitChar(n)];
      assert d[..0] == [];
    } else {
      DigitsValueOfNatToString(n / 10);
      assert d[..|d| - 1] == NatToString(n / 10);
      assert d[|d| - 1] == DigitChar(n % 10);
    }
  }

  /**
   * Round trip: a 64-bit integer stored in its (string) form reads back as
   * the same integer under the 'integer' type tag.
   */
  lemma {:induction false} IntRoundTrip(n: int)
    requires IntMin <= n <= IntMax
    ensures TypedValueOf(Meta(IntToString(n), "integer")) == IntValue(n)
  {
    var m := if n < 0 then -n else n;
    PrefixOfNat(m);
    IntCastOfNumeral(IntToString(n), Numeral(n < 0, m, 0));
  }

  /** PHP's (string) cast of a boolean: "1" for true and "" for false. */
  function BoolToString(b: bool): string {
    if b then "1" else ""
  }

  /** Round trip: a boolean stored in its (string) form reads back as the same boolean. */
  lemma BoolRoundTrip(b: bool)
    ensures TypedValueOf(Meta(BoolToString(b), "boolean")) == BoolValue(b)
  {
  }

  /** A string that starts with a digit is read without sign or leading space. */
  lemma {:induction false} PrefixOfUnsigned(s: string, n: Numeral)
    requires s != [] && IsDigit(s[0])
    requires UnsignedPrefix(s) == Some(n)
    ensures NumericPrefix(s) == Some(n)
    ensures NumericPrefix("-" + s) == Some(Numeral(true, n.mantissa, n.scale))
  {
    assert SkipSpace(s) == s;
    var t := "-" + s;
    assert t[0] == '-' && t[1..] == s;
    assert SkipSpace(t) == t;
  }

  /** A numeral without sign or leading space, followed by `rest`. */
  lemma {:induction false} PrefixOfDigits(d: string, rest: string)
    requires d != [] && forall i :: 0 <= i < |d| ==> IsDigit(d[i])
    requires rest == [] || (!IsDigit(rest[0]) && rest[0] != '.')
    ensures NumericPrefix(d + rest) == Some(Numeral(false, DigitsValue(d), Exponent(rest)))
    ensures NumericPrefix("-" + (d + rest)) == Some(Numeral(true, DigitsValue(d), Exponent(rest)))
  {
    var s := d + rest;
    LeadingDigitsOfPrefix(d, rest);
    assert s[|d|..] == rest;
    assert d + [] == d;
    assert UnsignedPrefix(s) == Some(Numeral(false, DigitsValue(d), Exponent(rest)));
    assert s[0] == d[0];
    PrefixOfUnsigned(s, Numeral(false, DigitsValue(d), Exponent(rest)));
  }

  /** The integer reading stops at the first character that cannot continue a number ("12abc" reads 12). */
  lemma {:induction false} IntCastIgnoresSuffix(n: nat, rest: string)
    requires n <= IntMax
    requires rest == [] || (!IsDigit(rest[0]) && rest[0] != '.' && Exponent(rest) == 0)
    ensures IntCast(NatToString(n) + rest) == n
  {
    DigitsValueOfNatToString(n);
    PrefixOfDigits(NatToString(n), rest);
    IntCastOfNumeral(NatToString(n) + rest, Numeral(false, n, 0));
  }

  /** An exponent appends that many zeros to the mantissa ("12e3" reads 12000). */
  lemma {:induction false} ExponentScales(n: nat, x: nat)
    requires ShiftLeft(n, x) <= IntMax
    ensures IntCast(NatToString(n) + "e" + NatToString(x)) == ShiftLeft(n, x)
  {
    var s := NatToString(n) + "e" + NatToString(x);
    PrefixOfExponent(n, x);
    IntCastOfNumeral(s, Numeral(false, n, x));
  }

  lemma {:induction false} PrefixOfExponent(n: nat, x: nat)
    ensures NumericPrefix(NatToString(n) + "e" + NatToString(x)) == Some(Numeral(false, n, x))
  {
    var d := NatToString(n);
    var rest := ['e'] + NatToString(x);
    assert d + "e" + NatToString(x) == d + rest;
    assert Exponent(rest) == x by {
      ExponentOfDigits(x);
    }
    assert DigitsValue(d) == n by {
      DigitsValueOfNatToString(n);
    }
    assert rest[0] == 'e';
    PrefixOfDigits(d, rest);
  }

  lemma {:induction false} ExponentOfDigits(x: nat)
    ensures Exponent("e" + NatToString(x)) == x
  {
    DigitsValueOfNatToString(x);
    ExponentOfDigitString(NatToString(x));
  }

  lemma {:induction false} ExponentOfDigitString(d: string)
    requires d != [] && forall i :: 0 <= i < |d| ==> IsDigit(d[i])
    ensures Exponent(['e'] + d) == DigitsValue(d)
  {
    var s := ['e'] + d;
    assert s[1] == d[0];
    assert !(s[1] == '-' || s[1] == '+');
    assert s[1..] == d;
    LeadingDigitsOfDigits(d);
  }

  /** Dropping the last |b| digits of the numeral `a + b` leaves the value of `a`. */
  lemma {:induction false} DigitsValueAppend(a: string, b: string)
    ensures ShiftRight(DigitsValue(a + b), |b|) == DigitsValue(a)
    decreases |b|
  {
    if b == [] {
      assert a + b == a;
    } else {
      var b' := b[..|b| - 1];
      DigitsValueAppend(a, b');
      assert (a + b)[..|a + b| - 1] == a + b';
    }
  }

  /** A fraction is truncated toward zero ("12.75" reads 12, "-12.75" reads -12). */
  lemma {:induction false} FractionTruncates(n: nat, f: string, rest: string)
    requires n <= IntMax
    requires forall i :: 0 <= i < |f| ==> IsDigit(f[i])
    requires rest == [] || (!IsDigit(rest[0]) && Exponent(rest) == 0)
    ensures IntCast(NatToString(n) + "." + f + rest) == n
    ensures IntCast("-" + NatToString(n) + "." + f + rest) == 0 - n
  {
    var d := NatToString(n);
    var num := FractionValue(n, f);
    var neg := Numeral(true, num.mantissa, num.scale);
    PrefixOfFraction(d, f, rest);
    assert IntCast(d + "." + f + rest) == n by {
      IntCastOfNumeral(d + "." + f + rest, num);
    }
    assert IntCast("-" + d + "." + f + rest) == 0 - n by {
      IntCastOfNumeral("-" + d + "." + f + rest, neg);
    }
  }

  /** The numeral of `n`, a point and the digits `f` truncates back to `n`. */
  lemma {:induction false} FractionValue(n: nat, f: string) returns (num: Numeral)
    ensures num == Numeral(false, DigitsValue(NatToString(n) + f), 0 - |f|)
    ensures Truncated(num) == n && Truncated(Numeral(true, num.mantissa, num.scale)) == 0 - n
  {
    DigitsValueOfNatToString(n);
    DigitsValueAppend(NatToString(n), f);
    num := Numeral(false, DigitsValue(NatToString(n) + f), 0 - |f|);
  }

  /** The two ways of grouping a signed decimal with a fraction denote the same string. */
  lemma {:induction false} FractionAssoc(d: string, f: string, rest: string)
    ensures d + "." + f + rest == d + ("." + f + rest)
    ensures "-" + d + "." + f + rest == "-" + (d + ("." + f + rest))
  {
    Seqs.AppendAssoc(d, ".", f);
    Seqs.AppendAssoc(d, "." + f, rest);
    Seqs.AppendAssoc("-", d, ".");
    Seqs.AppendAssoc("-", d + ".", f);
    Seqs.AppendAssoc("-", d + "." + f, rest);
  }

  /** The numeral of digits, a point, fraction digits and a tail with no exponent. */
  lemma {:induction false} PrefixOfFraction(d: string, f: string, rest: string)
    requires d != [] && forall i :: 0 <= i < |d| ==> IsDigit(d[i])
    requires forall i :: 0 <= i < |f| ==> IsDigit(f[i])
    requires rest == [] || (!IsDigit(rest[0]) && Exponent(rest) == 0)
    ensures NumericPrefix(d + "." + f + rest) == Some(Numeral(false, DigitsValue(d + f), 0 - |f|))
    ensures NumericPrefix("-" + d + "." + f + rest) == Some(Numeral(true, DigitsValue(d + f), 0 - |f|))
  {
    var s := d + ("." + f + rest);
    UnsignedOfFraction(d, f, rest, "." + f + rest);
    assert s[0] == d[0];
    PrefixOfUnsigned(s, Numeral(false, DigitsValue(d + f), 0 - |f|));
    FractionAssoc(d, f, rest);
  }

  lemma {:induction false} UnsignedOfFraction(d: string, f: string, rest: string, tail: string)
    requires d != [] && forall i :: 0 <= i < |d| ==> IsDigit(d[i])
    requires forall i :: 0 <= i < |f| ==> IsDigit(f[i])
    requires rest == [] || (!IsDigit(rest[0]) && Exponent(rest) == 0)
    requires tail == ['.'] + f + rest
    ensures UnsignedPrefix(d + tail) == Some(Numeral(false, DigitsValue(d + f), 0 - |f|))
  {
    var s := d + tail;
    var ip := LeadingDigits(s);
    assert ip == d by {
      LeadingDigitsOfPrefix(d, tail);
    }
    var r := s[|ip|..];
    assert r == tail;
    assert r != [] && r[0] == '.';
    assert r[1..] == f + rest;
    var fp := LeadingDigits(r[1..]);
    assert fp == f by {
      LeadingDigitsOfPrefix(f, rest);
    }
    assert r[1 + |fp|..] == rest;
    assert Exponent(rest) == 0;
  }

  lemma {:induction false} LeadingDigitsOfPrefix(d: string, rest: string)
    requires forall i :: 0 <= i < |d| ==> IsDigit(d[i])
    requires rest == [] || !IsDigit(rest[0])
    ensures LeadingDigits(d + rest) == d
  {
    if d == [] {
      assert d + rest == rest;
    } else {
      LeadingDigitsOfPrefix(d[1..], rest);
      assert (d + rest)[1..] == d[1..] + rest;
      assert d == [d[0]] + d[1..];
    }
  }

  /** The (int) cast of a string with a numeric prefix converts the prefix's truncated value. */
  lemma {:induction false} IntCastOfNumeral(s: string, n: Numeral)
    requires NumericPrefix(s) == Some(n)
    ensures IntCast(s) == Saturate(Truncated(n))
  {
  }

  /** The numeral of a plain digit string, with or without a minus sign. */
  lemma {:induction false} PrefixOfNat(n: nat)
    ensures NumericPrefix(NatToString(n)) == Some(Numeral(false, n, 0))
    ensures NumericPrefix("-" + NatToString(n)) == Some(Numeral(true, n, 0))
  {
    DigitsValueOfNatToString(n);
    PrefixOfDigits(NatToString(n), []);
    assert NatToString(n) + [] == NatToString(n);
  }

  /**
   * Integers beyond 64 bits saturate to PHP_INT_MAX or PHP_INT_MIN, until
   * their double would be infinite.
   */
  lemma {:induction false} OutOfRangeSaturates(n: nat)
    requires IntMax < n < DoubleOverflow
    ensures IntCast(NatToString(n)) == IntMax
    ensures IntCast("-" + NatToString(n)) == IntMin
  {
    PrefixOfNat(n);
    IntCastOfNumeral(NatToString(n), Numeral(false, n, 0));
    IntCastOfNumeral("-" + NatToString(n), Numeral(true, n, 0));
  }

  /** A number whose double is infinite reads as 0. */
  lemma {:induction false} InfiniteReadsZero(n: nat)
    requires n >= DoubleOverflow
    ensures IntCast(NatToString(n)) == 0
    ensures IntCast("-" + NatToString(n)) == 0
  {
    PrefixOfNat(n);
    IntCastOfNumeral(NatToString(n), Numeral(false, n, 0));
    IntCastOfNumeral("-" + NatToString(n), Numeral(true, n, 0));
  }

  /** A string with no digit after the optional sign or point reads as 0 ("abc" reads 0). */
  lemma {:induction false} NoDigitsReadsZero(s: string)
    requires s == [] || (!IsDigit(s[0]) && !IsNumericSpace(s[0]) && s[0] != '-' && s[0] != '+')
    requires |s| >= 2 && s[0] == '.' ==> !IsDigit(s[1])
    ensures NumericPrefix(s) == None
    ensures IntCast(s) == 0
  {
  }
}
