/** Java's 32-bit `int`: its range, its wrap-around arithmetic, its decimal
    text (Integer.toString) and its decimal parser (Integer.parseInt). */
module Int32 {
  import opened Wrappers

  const MinValue: int := -0x8000_0000
  const MaxValue: int := 0x7fff_ffff
  const Modulus: int := 0x1_0000_0000

  predicate InRange(x: int) {
    MinValue <= x <= MaxValue
  }

  /** Two's-complement wrap-around of an exact result to the 32-bit range:
      the unique in-range value congruent to `x` modulo 2^32. */
  function Wrap(x: int): (r: int)
    ensures InRange(r)
    ensures (x - r) % Modulus == 0
    ensures InRange(x) ==> r == x
  {
    var q := (x - MinValue) / Modulus;
    var m := (x - MinValue) % Modulus;
    assert x - MinValue == q * Modulus + m;
    assert x - (m + MinValue) == q * Modulus;
    m + MinValue
  }

  predicate IsDigit(c: char) {
    '0' <= c <= '9'
  }

  predicate AllDigits(s: string) {
    forall i :: 0 <= i < |s| ==> IsDigit(s[i])
  }

  function DigitChar(d: nat): (c: char)
    requires d < 10
    ensures IsDigit(c) && c as int - '0' as int == d
  {
    ('0' as int + d) as char
  }

  /** The value of a run of decimal digits, most significant first. */
  function DigitsValue(s: string): nat
    requires AllDigits(s)
  {
    if |s| == 0 then 0
    else DigitsValue(s[..|s| - 1]) * 10 + (s[|s| - 1] as int - '0' as int)
  }

  /** Decimal digits of a natural number, without leading zeros. */
  function NatText(n: nat): (s: string)
    ensures |s| >= 1 && AllDigits(s)
    ensures |s| > 1 ==> s[0] != '0'
    decreases n
  {
    if n < 10 then [DigitChar(n)] else NatText(n / 10) + [DigitChar(n % 10)]
  }

  /** Integer.toString: a leading '-' for negative values. */
  function Text(n: int): (s: string)
    ensures |s| >= 1
    ensures (s[0] == '-') <==> n < 0
    ensures n >= 0 ==> AllDigits(s)
  {
    if n < 0 then "-" + NatText(-n) else NatText(n)
  }

  /** A sign followed by at least one digit. */
  predicate Signed(s: string) {
    |s| >= 2 && (s[0] == '-' || s[0] == '+') && AllDigits(s[1..])
  }

  /** The value of signed text: its digits' value, negated after a '-'. */
  function SignedValue(s: string): int
    requires Signed(s)
  {
    var magnitude: int := DigitsValue(s[1..]);
    if s[0] == '-' then -magnitude else magnitude
  }

  /** Integer.parseInt on ASCII text: an optional sign, then at least one
      digit, and a value inside the 32-bit range; anything else is rejected. */
  function ParseInt(s: string): (r: Option<int>)
    ensures r.Some? ==> InRange(r.value)
    ensures r.Some? ==> |s| >= 1
    ensures r.Some? && s[0] != '-' && s[0] != '+' ==> AllDigits(s) && r.value == DigitsValue(s)
    ensures r.Some? && (s[0] == '-' || s[0] == '+') ==> Signed(s) && r.value == SignedValue(s)
    // and conversely, well-formed text whose value fits is accepted
    ensures |s| >= 1 && AllDigits(s) && InRange(DigitsValue(s)) ==> r == Some(DigitsValue(s))
    ensures Signed(s) && InRange(SignedValue(s)) ==> r == Some(SignedValue(s))
  {
    if |s| == 0 then None
    else if s[0] == '-' || s[0] == '+' then
      if |s| == 1 || !AllDigits(s[1..]) then None
      else
        var v := SignedValue(s);
        if InRange(v) then Some(v) else None
    else if !AllDigits(s) then None
    else
      var v := DigitsValue(s);
      if InRange(v) then Some(v) else None
  }

  lemma {:induction false} NatTextValue(n: nat)
    ensures DigitsValue(NatText(n)) == n
    decreases n
  {
    if n >= 10 {
      var s := NatText(n);
      NatTextValue(n / 10);
      assert s[..|s| - 1] == NatText(n / 10);
      assert s[|s| - 1] == DigitChar(n % 10);
    }
  }

  /** The text Integer.toString prints is read back by Integer.parseInt as the same value. */
  lemma TextRoundTrip(n: int)
    requires InRange(n)
    ensures ParseInt(Text(n)) == Some(n)
  {
    if n < 0 {
      var t := NatText(-n);
      var s := "-" + t;
      assert Text(n) == s;
      assert s[0] == '-' && |s| > 1;
      assert s[1..] == t;
      NatTextValue(-n);
      assert DigitsValue(s[1..]) == -n;
    } else {
      var s := NatText(n);
      assert Text(n) == s;
      NatTextValue(n);
      assert s[0] != '-' && s[0] != '+';
    }
  }
}
