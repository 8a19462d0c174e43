/**
 * Fixed-width integers as the decoder reads them.
 *
 * `RequireInt<T>` is instantiated for four C++ integer types.  A JSON
 * integer is converted with a plain narrowing conversion (two's-complement
 * wrap-around); a string goes through absl's `SimpleAtoi<T>`, which trims
 * ASCII white space, takes an optional sign and base-10 digits, and fails
 * when the value does not fit in `T`.
 */
module Numbers {
  import opened Wrappers

  datatype IntType = Int32 | Int64 | UInt32 | UInt64 {
    /** 2 to the number of bits of the type. */
    function Modulus(): int {
      if Int32? || UInt32? then 0x1_0000_0000 else 0x1_0000_0000_0000_0000
    }

    predicate Signed() { Int32? || Int64? }

    function Min(): int {
      if Signed() then -(Modulus() / 2) else 0
    }

    function Max(): int {
      if Signed() then Modulus() / 2 - 1 else Modulus() - 1
    }

    predicate InRange(i: int) { Min() <= i <= Max() }
  }

  /** `static_cast<T>(i)`: the value of `T` congruent to `i` modulo 2^bits. */
  function Narrow(t: IntType, i: int): (r: int)
    ensures t.InRange(r)
    ensures (r - i) % t.Modulus() == 0
    ensures t.InRange(i) ==> r == i
  {
    match t
    case Int32 => Reduce32(i + 0x8000_0000) - 0x8000_0000
    case UInt32 => Reduce32(i)
    case Int64 => Reduce64(i + 0x8000_0000_0000_0000) - 0x8000_0000_0000_0000
    case UInt64 => Reduce64(i)
  }

  /** Two values of one type that are congruent modulo 2^bits are the same value: `Narrow` has one answer. */
  lemma {:induction false} CongruentInRange(t: IntType, a: int, b: int, i: int)
    requires t.InRange(a) && t.InRange(b)
    requires (a - i) % t.Modulus() == 0 && (b - i) % t.Modulus() == 0
    ensures a == b
  {
    var m := t.Modulus();
    var p := (a - i) / m;
    var q := (b - i) / m;
    assert a - i == m * p;
    assert b - i == m * q;
    assert a - b == m * (p - q);
  }

  /** The residue of `x` modulo 2^32. */
  function Reduce32(x: int): (r: int)
    ensures 0 <= r < 0x1_0000_0000
    ensures (r - x) % 0x1_0000_0000 == 0
    ensures 0 <= x < 0x1_0000_0000 ==> r == x
  {
    var r := x % 0x1_0000_0000;
    assert r - x == -0x1_0000_0000 * (x / 0x1_0000_0000);
    r
  }

  /** The residue of `x` modulo 2^64. */
  function Reduce64(x: int): (r: int)
    ensures 0 <= r < 0x1_0000_0000_0000_0000
    ensures (r - x) % 0x1_0000_0000_0000_0000 == 0
    ensures 0 <= x < 0x1_0000_0000_0000_0000 ==> r == x
  {
    var r := x % 0x1_0000_0000_0000_0000;
    assert r - x == -0x1_0000_0000_0000_0000 * (x / 0x1_0000_0000_0000_0000);
    r
  }

  /** `absl::ascii_isspace`. */
  predicate IsAsciiSpace(c: char)
  {
    c == ' ' || c == '\t' || c == '\n' || c == '\r' || c == '\U{000B}' || c == '\U{000C}'
  }

  predicate IsDigit(c: char) { '0' <= c <= '9' }

  function DigitValue(c: char): (r: nat)
    requires IsDigit(c)
    ensures r < 10
  {
    (c as int) - ('0' as int)
  }

  function Digit(d: nat): (c: char)
    requires d < 10
    ensures IsDigit(c) && DigitValue(c) == d
  {
    (('0' as int) + d) as char
  }

  predicate AllDigits(s: string)
  {
    forall k :: 0 <= k < |s| ==> IsDigit(s[k])
  }

  /** The number a run of decimal digits denotes, most significant first (0 for no digits). */
  function DigitsValue(s: string): nat
    requires AllDigits(s)
  {
    if s == [] then 0 else DigitsValue(s[..|s| - 1]) * 10 + DigitValue(s[|s| - 1])
  }

  /** `s` without leading and trailing ASCII white space. */
  function Trim(s: string): (r: string)
    ensures |r| <= |s|
    ensures r != [] ==> !IsAsciiSpace(r[0]) && !IsAsciiSpace(r[|r| - 1])
    ensures s != [] && !IsAsciiSpace(s[0]) && !IsAsciiSpace(s[|s| - 1]) ==> r == s
  {
    if s == [] then []
    else if IsAsciiSpace(s[0]) then Trim(s[1..])
    else if IsAsciiSpace(s[|s| - 1]) then Trim(s[..|s| - 1])
    else s
  }

  /**
   * `text` is an optional sign followed by at least one decimal digit, and
   * `v` is the number it denotes.
   */
  predicate Spells(text: string, v: int)
  {
    |text| > 0 &&
    var digits := if text[0] == '-' || text[0] == '+' then text[1..] else text;
    digits != [] && AllDigits(digits) &&
    v == (if text[0] == '-' then -(DigitsValue(digits) as int) else DigitsValue(digits))
  }

  /**
   * `absl::SimpleAtoi<T>`: the base-10 value of `s`, if `s` is (after
   * trimming) an optional sign followed by at least one digit and the
   * value fits in `t`.  Unsigned types reject a minus sign outright.
   */
  function SimpleAtoi(t: IntType, s: string): (r: Option<int>)
    ensures r.Some? ==> t.InRange(r.value)
    ensures r.Some? ==> Spells(Trim(s), r.value) && (!t.Signed() ==> Trim(s)[0] != '-')
    ensures forall v :: Spells(Trim(s), v) && t.InRange(v) && (!t.Signed() ==> Trim(s)[0] != '-') ==> r == Some(v)
  {
    var body := Trim(s);
    if body == [] then None
    else
      var negative := body[0] == '-';
      var digits := if negative || body[0] == '+' then body[1..] else body;
      if digits == [] || !AllDigits(digits) then None
      else if negative && !t.Signed() then None
      else
        var v: int := if negative then -(DigitsValue(digits) as int) else DigitsValue(digits);
        if t.InRange(v) then Some(v) else None
  }

  /** The shortest base-10 spelling of `n`. */
  function NatString(n: nat): (s: string)
    ensures s != [] && AllDigits(s)
    decreases n
  {
    if n < 10 then [Digit(n)] else NatString(n / 10) + [Digit(n % 10)]
  }

  /** The base-10 spelling of `i`, with a leading minus sign when negative. */
  function DecimalString(i: int): (s: string)
  {
    if i < 0 then "-" + NatString(-i) else NatString(i)
  }

  lemma {:induction false} NatStringValue(n: nat)
    ensures DigitsValue(NatString(n)) == n
    decreases n
  {
    var s := NatString(n);
    if n >= 10 {
      NatStringValue(n / 10);
      assert s[..|s| - 1] == NatString(n / 10);
    }
  }

  /** Reading back the decimal spelling of any in-range value gives the value. */
  lemma DecimalRoundTrip(t: IntType, i: int)
    requires t.InRange(i)
    ensures SimpleAtoi(t, DecimalString(i)) == Some(i)
  {
    var s := DecimalString(i);
    var digits := NatString(if i < 0 then -i else i);
    NatStringValue(if i < 0 then -i else i);
    assert !IsAsciiSpace(digits[0]) && !IsAsciiSpace(digits[|digits| - 1]);
    assert Trim(s) == s;
    if i < 0 {
      assert s[1..] == digits;
    }
  }
}
