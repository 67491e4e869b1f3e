/** Integer text as Rust reads and writes it: `Display` of an integer and
    `str::parse::<u32>`. */
module Numbers {
  import opened Wrappers
  import opened Models

  predicate IsDigit(c: char) {
    '0' <= c <= '9'
  }

  predicate AllDigits(s: string) {
    forall i :: 0 <= i < |s| ==> IsDigit(s[i])
  }

  function DigitChar(d: nat): (c: char)
    requires d < 10
    ensures IsDigit(c) && c as int - '0' as int == d
  {
    ('0' as int + d) as char
  }

  /** Decimal text of a natural number, without leading zeros. */
  function Decimal(n: nat): (s: string)
    ensures s != [] && AllDigits(s)
    ensures n > 0 ==> s[0] != '0'
    decreases n
  {
    if n < 10 then [DigitChar(n)] else Decimal(n / 10) + [DigitChar(n % 10)]
  }

  /** `Display` of a signed integer. */
  function IntText(n: int): string {
    if n < 0 then "-" + Decimal(-n) else Decimal(n)
  }

  /** The value of a run of decimal digits, most significant first. */
  function DigitsValue(s: string): nat
    requires AllDigits(s)
  {
    if s == [] then 0 else DigitsValue(s[..|s| - 1]) * 10 + (s[|s| - 1] as int - '0' as int)
  }

  /** `s.parse::<u32>()`: an optional `+`, then at least one ASCII digit and
      nothing else, with a value that fits in 32 bits. No sign `-`, no
      spaces. Overflow fails the parse rather than wrapping. */
  function ParseU32(s: string): (r: Option<U32>)
    ensures r.Some? ==> s != [] && (s[0] == '+' || IsDigit(s[0]))
    ensures r.Some? ==> forall i :: 1 <= i < |s| ==> IsDigit(s[i])
    ensures r.Some? ==> var digits := if s[0] == '+' then s[1..] else s;
      AllDigits(digits) && r.value == DigitsValue(digits)
  {
    var digits := if |s| > 0 && s[0] == '+' then s[1..] else s;
    if digits == [] || !AllDigits(digits) then None
    else
      var v := DigitsValue(digits);
      if v < 0x1_0000_0000 then Some(v) else None
  }

  lemma {:induction false} DigitsValueOfDecimal(n: nat)
    ensures DigitsValue(Decimal(n)) == n
    decreases n
  {
    if n >= 10 {
      var s := Decimal(n);
      assert s[..|s| - 1] == Decimal(n / 10);
      DigitsValueOfDecimal(n / 10);
    }
  }

  /** Every `u32` written in decimal parses back to itself, with or without a
      leading `+`. */
  lemma ParseDecimal(n: U32)
    ensures ParseU32(Decimal(n)) == Some(n)
    ensures ParseU32("+" + Decimal(n)) == Some(n)
  {
    DigitsValueOfDecimal(n);
    assert ("+" + Decimal(n))[1..] == Decimal(n);
  }

  /** The decimal text of a number too large for 32 bits does not parse,
      with or without a leading `+`: the parse fails rather than wrapping. */
  lemma ParseOverflow(n: nat)
    requires n >= 0x1_0000_0000
    ensures ParseU32(Decimal(n)) == None
    ensures ParseU32("+" + Decimal(n)) == None
  {
    DigitsValueOfDecimal(n);
    assert ("+" + Decimal(n))[1..] == Decimal(n);
  }

  /** Leading zeros do not change the value of a run of digits. */
  lemma {:induction false} LeadingZeros(z: string, s: string)
    requires forall i :: 0 <= i < |z| ==> z[i] == '0'
    requires AllDigits(s)
    ensures AllDigits(z + s) && DigitsValue(z + s) == DigitsValue(s)
    decreases |s| + |z|
  {
    var t := z + s;
    if s == [] {
      assert t == z;
      if z != [] {
        assert t[..|t| - 1] == z[..|z| - 1] + [];
        LeadingZeros(z[..|z| - 1], []);
      }
    } else {
      assert t[..|t| - 1] == z + s[..|s| - 1];
      LeadingZeros(z, s[..|s| - 1]);
    }
  }

  /** A `u32` written with any number of leading zeros still parses to itself. */
  lemma ParsePadded(z: string, n: U32)
    requires forall i :: 0 <= i < |z| ==> z[i] == '0'
    ensures ParseU32(z + Decimal(n)) == Some(n)
  {
    LeadingZeros(z, Decimal(n));
    DigitsValueOfDecimal(n);
    assert (z + Decimal(n))[0] != '+';
  }

  /** Text that is not a plain unsigned number does not parse. */
  lemma ParseRejects(s: string)
    ensures ParseU32("") == None && ParseU32("+") == None
    ensures ParseU32("-" + s) == None && ParseU32(" " + s) == None
  {
    assert !IsDigit(("-" + s)[0]);
    assert !IsDigit((" " + s)[0]);
  }
}
