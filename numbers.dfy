/** Rust's `str::parse` for unsigned integer types (`u16`, `usize`), as
    `from_str_radix` with radix 10 does it: an optional leading `+`, then at
    least one decimal digit, accumulated left to right and refused as soon as
    the value leaves the type's range. */
module Numbers {
  import opened Wrappers

  /** Largest `u16`. */
  const U16_MAX: nat := 0xFFFF
  /** Largest `usize` on a 64-bit target. */
  const USIZE_MAX: nat := 0xFFFF_FFFF_FFFF_FFFF

  predicate IsDigit(c: char)
  {
    '0' <= c <= '9'
  }

  predicate AllDigits(d: string)
  {
    forall i :: 0 <= i < |d| ==> IsDigit(d[i])
  }

  function DigitValue(c: char): (v: nat)
    requires IsDigit(c)
    ensures v < 10
  {
    c as int - '0' as int
  }

  /** The value of the digits `d` read after the digits already worth `acc`. */
  function Horner(acc: nat, d: string): nat
    requires AllDigits(d)
    decreases |d|
  {
    if d == [] then acc else Horner(acc * 10 + DigitValue(d[0]), d[1..])
  }

  /** The digits `from_str_radix` reads: a single leading `+` is skipped. */
  function DigitsOf(s: string): string
  {
    if |s| > 0 && s[0] == '+' then s[1..] else s
  }

  /** What `str::parse` accepts for the unsigned type whose largest value is
      `max`: an optional `+`, then a non-empty run of decimal digits whose
      value is at most `max`. */
  predicate IsNumeral(s: string, max: nat)
  {
    DigitsOf(s) != [] && AllDigits(DigitsOf(s)) && Horner(0, DigitsOf(s)) <= max
  }

  /** The value of a numeral: its digits read in base 10. */
  function NumeralValue(s: string): nat
    requires AllDigits(DigitsOf(s))
  {
    Horner(0, DigitsOf(s))
  }

  /** The accumulation loop: each step multiplies by ten and adds the next
      digit; a non-digit or a value above `max` fails the parse. */
  function Accumulate(d: string, acc: nat, max: nat): (r: Option<nat>)
    requires acc <= max
    ensures r.Some? ==> r.value <= max
    decreases |d|
  {
    if d == [] then Some(acc)
    else if !IsDigit(d[0]) then None
    else
      var next := acc * 10 + DigitValue(d[0]);
      if next > max then None else Accumulate(d[1..], next, max)
  }

  /** `s.parse::<T>()` for the unsigned type `T` whose largest value is `max`. */
  function ParseUnsigned(s: string, max: nat): (r: Option<nat>)
    ensures r.Some? ==> r.value <= max
  {
    var d := DigitsOf(s);
    if d == [] then None else Accumulate(d, 0, max)
  }

  /** Reading more digits never makes the value smaller. */
  lemma {:induction false} HornerGrows(acc: nat, d: string)
    requires AllDigits(d)
    ensures Horner(acc, d) >= acc
    decreases |d|
  {
    if d != [] {
      HornerGrows(acc * 10 + DigitValue(d[0]), d[1..]);
    }
  }

  /** The accumulation succeeds exactly on digit strings whose value fits. */
  lemma {:induction false} AccumulateMeaning(d: string, acc: nat, max: nat)
    requires acc <= max
    ensures Accumulate(d, acc, max).Some? <==> AllDigits(d) && Horner(acc, d) <= max
    ensures Accumulate(d, acc, max).Some? ==> Accumulate(d, acc, max).value == Horner(acc, d)
    decreases |d|
  {
    if d != [] && IsDigit(d[0]) {
      var next := acc * 10 + DigitValue(d[0]);
      assert AllDigits(d) <==> AllDigits(d[1..]) by {
        if AllDigits(d[1..]) {
          assert forall i :: 1 <= i < |d| ==> d[i] == d[1..][i - 1];
        }
      }
      if next <= max {
        AccumulateMeaning(d[1..], next, max);
      } else if AllDigits(d) {
        HornerGrows(next, d[1..]);
      }
    } else if d != [] {
      assert !AllDigits(d);
    }
  }

  /** What the parse accepts: after an optional `+`, a non-empty run of
      decimal digits whose value is at most `max`; the result is that value. */
  lemma ParseUnsignedMeaning(s: string, max: nat)
    ensures ParseUnsigned(s, max).Some? <==> IsNumeral(s, max)
    ensures ParseUnsigned(s, max).Some? ==> ParseUnsigned(s, max).value == NumeralValue(s)
  {
    AccumulateMeaning(DigitsOf(s), 0, max);
  }

  /** The decimal rendering of `n`, most significant digit first. */
  function ToDecimal(n: nat): (r: string)
    ensures r != [] && AllDigits(r)
    decreases n
  {
    var last := ['0' + ((n % 10) as char)];
    if n < 10 then last else ToDecimal(n / 10) + last
  }

  /** Reading one more digit at the end multiplies by ten and adds it. */
  lemma {:induction false} HornerSnoc(acc: nat, d: string, c: char)
    requires AllDigits(d) && IsDigit(c)
    ensures AllDigits(d + [c])
    ensures Horner(acc, d + [c]) == Horner(acc, d) * 10 + DigitValue(c)
    decreases |d|
  {
    if d != [] {
      assert (d + [c])[1..] == d[1..] + [c];
      HornerSnoc(acc * 10 + DigitValue(d[0]), d[1..], c);
    }
  }

  /** Reading the rendering of `n` gives `n` back. */
  lemma {:induction false} HornerToDecimal(n: nat)
    ensures Horner(0, ToDecimal(n)) == n
    decreases n
  {
    var c := '0' + ((n % 10) as char);
    if n >= 10 {
      HornerToDecimal(n / 10);
      HornerSnoc(0, ToDecimal(n / 10), c);
    }
  }

  /** Round trip: every value in range is parsed back from its rendering,
      and the rendering of a value out of range is refused. */
  lemma ParseToDecimal(n: nat, max: nat)
    ensures ParseUnsigned(ToDecimal(n), max) == if n <= max then Some(n) else None
  {
    var r := ToDecimal(n);
    assert r[0] != '+' by { assert IsDigit(r[0]); }
    assert DigitsOf(r) == r;
    HornerToDecimal(n);
    ParseUnsignedMeaning(r, max);
  }
}
