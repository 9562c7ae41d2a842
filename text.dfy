/**
 * The observable results of the C++ library formatting the disassembler
 * relies on: `to_string` of an int (decimal, leading '-' when negative)
 * and a `stringstream` in `hex` mode (lower-case digits, no padding, the
 * int printed as its 32-bit unsigned pattern).
 */
module Text {

  /** A digit of `base`: '0'..'9' or a lower-case 'a'..'f', worth less than the base. */
  predicate IsDigit(c: char, base: nat) {
    ('0' <= c <= '9' || 'a' <= c <= 'f') && DigitValue(c) < base
  }

  /** The lower-case digit for `d` in bases up to 16. */
  function DigitChar(d: nat): (c: char)
    requires d < 16
    ensures c != '-'
  {
    if d < 10 then ('0' as int + d) as char else ('a' as int + d - 10) as char
  }

  /** The value of a digit character, the inverse of DigitChar. */
  function DigitValue(c: char): (d: nat)
    ensures d < 16
  {
    if '0' <= c <= '9' then c as int - '0' as int
    else if 'a' <= c <= 'f' then c as int - 'a' as int + 10
    else 0
  }

  /** The digits of `n` in `base`, most significant first, with no leading zero. */
  function DigitsOf(n: nat, base: nat): (s: string)
    requires 2 <= base <= 16
    ensures |s| >= 1
    ensures s[0] == '0' ==> n == 0
    ensures forall i :: 0 <= i < |s| ==> s[i] != '-'
    decreases n
  {
    if n < base then [DigitChar(n)]
    else
      DivStep(n, base);
      DigitsOf(n / base, base) + [DigitChar(n % base)]
  }

  lemma DivStep(n: nat, base: nat)
    requires 2 <= base <= n
    ensures 1 <= n / base < n
    ensures n == base * (n / base) + n % base && n % base < base
  {
    var q, r := n / base, n % base;
    assert n == base * q + r && 0 <= r < base;
    if q == 0 {
      assert false;
    }
    AtLeastDouble(base, q);
  }

  lemma AtLeastDouble(base: nat, q: nat)
    requires base >= 2
    ensures base * q >= 2 * q
  {
    assert base * q == 2 * q + (base - 2) * q;
  }

  /** DigitChar gives a digit of every base above its value, which reads back as that value. */
  lemma DigitCharIsDigit(d: nat, base: nat)
    requires d < base <= 16
    ensures IsDigit(DigitChar(d), base) && DigitValue(DigitChar(d)) == d
  {
  }

  /** Every character of the digits of `n` is a digit of the base. */
  lemma {:induction false} DigitsAreDigits(n: nat, base: nat)
    requires 2 <= base <= 16
    ensures forall i :: 0 <= i < |DigitsOf(n, base)| ==> IsDigit(DigitsOf(n, base)[i], base)
    decreases n
  {
    if n < base {
      DigitCharIsDigit(n, base);
    } else {
      DivStep(n, base);
      DigitCharIsDigit(n % base, base);
      DigitsAreDigits(n / base, base);
      var s := DigitsOf(n, base);
      assert forall i :: 0 <= i < |s| - 1 ==> s[i] == DigitsOf(n / base, base)[i];
    }
  }

  /** Reads a digit string in `base`, most significant digit first. */
  function ValueOf(s: string, base: nat): nat
  {
    if s == [] then 0 else base * ValueOf(s[..|s| - 1], base) + DigitValue(s[|s| - 1])
  }

  /** Reading back the digits of `n` gives `n`. */
  lemma {:induction false} DigitsRoundTrip(n: nat, base: nat)
    requires 2 <= base <= 16
    ensures ValueOf(DigitsOf(n, base), base) == n
    decreases n
  {
    var s := DigitsOf(n, base);
    if n < base {
      assert s[..0] == [];
    } else {
      DivStep(n, base);
      DigitsRoundTrip(n / base, base);
      assert s[..|s| - 1] == DigitsOf(n / base, base);
      assert DigitValue(DigitChar(n % base)) == n % base;
    }
  }

  /** `to_string` of an int. */
  function DecimalText(n: int): string
  {
    if n < 0 then "-" + DigitsOf(-n, 10) else DigitsOf(n, 10)
  }

  /** Reads a decimal text with an optional leading '-'. */
  function ParseDecimal(s: string): int
  {
    if |s| > 0 && s[0] == '-' then -(ValueOf(s[1..], 10) as int) else ValueOf(s, 10)
  }

  /** `to_string`'s text: a '-' exactly for a negative int, then decimal digits only. */
  lemma DecimalTextShape(n: int)
    ensures |DecimalText(n)| >= 1
    ensures DecimalText(n)[0] == '-' <==> n < 0
    ensures forall i :: (if n < 0 then 1 else 0) <= i < |DecimalText(n)| ==> IsDigit(DecimalText(n)[i], 10)
  {
    var m := if n < 0 then -n else n;
    DigitsAreDigits(m, 10);
    if n < 0 {
      assert forall i :: 1 <= i < |DecimalText(n)| ==> DecimalText(n)[i] == DigitsOf(m, 10)[i - 1];
    }
  }

  /** Decimal rendering loses nothing: reading it back gives the same integer. */
  lemma DecimalRoundTrip(n: int)
    ensures ParseDecimal(DecimalText(n)) == n
  {
    if n < 0 {
      assert ("-" + DigitsOf(-n, 10))[1..] == DigitsOf(-n, 10);
      DigitsRoundTrip(-n, 10);
    } else {
      DigitsRoundTrip(n, 10);
    }
  }

  const TwoTo32: nat := 0x1_0000_0000

  /**
   * `"0x" << hex << dec`: the int is printed as its 32-bit unsigned
   * pattern in lower-case hexadecimal without padding.
   */
  function ToHex(dec: int): (r: string)
    ensures |r| >= 3 && r[..2] == "0x"
    ensures ValueOf(r[2..], 16) == dec % TwoTo32
    ensures r[2] == '0' ==> dec % TwoTo32 == 0
  {
    var pattern := dec % TwoTo32;
    DigitsRoundTrip(pattern, 16);
    var r := "0x" + DigitsOf(pattern, 16);
    assert r[2..] == DigitsOf(pattern, 16);
    r
  }

  /**
   * After the "0x", only lower-case hexadecimal digits, with no padding:
   * "0x0" is the text of exactly the ints whose 32-bit pattern is zero.
   */
  lemma ToHexDigits(dec: int)
    ensures forall i :: 2 <= i < |ToHex(dec)| ==> IsDigit(ToHex(dec)[i], 16)
    ensures ToHex(dec) == "0x0" <==> dec % TwoTo32 == 0
  {
    var digits := DigitsOf(dec % TwoTo32, 16);
    DigitsAreDigits(dec % TwoTo32, 16);
    assert forall i :: 2 <= i < |ToHex(dec)| ==> ToHex(dec)[i] == digits[i - 2];
  }

  /** Small values print as their plain hexadecimal digits. */
  lemma HexSmall()
    ensures ToHex(16) == "0x10"
    ensures ToHex(0) == "0x0"
  {
    assert DigitsOf(16, 16) == DigitsOf(1, 16) + [DigitChar(0)];
  }

  /** A negative value prints as its 32-bit two's-complement pattern. */
  lemma HexNegative()
    ensures ToHex(-4) == "0xfffffffc"
  {
    var p := -4 % TwoTo32;
    assert p == 0xffff_fffc;
    assert DigitsOf(0xf, 16) == "f";
    assert DigitsOf(0xff, 16) == "ff";
    assert DigitsOf(0xfff, 16) == "fff";
    assert DigitsOf(0xffff, 16) == "ffff";
    assert DigitsOf(0xf_ffff, 16) == "fffff";
    assert DigitsOf(0xff_ffff, 16) == "ffffff";
    assert DigitsOf(0xfff_ffff, 16) == "fffffff";
    assert DigitsOf(p, 16) == "fffffffc";
  }


}
