/**
 * The part of Go's `strconv` package the currency service relies on:
 * `strconv.Atoi`, read as a specification of what it accepts.
 *
 * A Go string is a sequence of bytes; here each `char` stands for one byte,
 * so `|s|` is Go's `len(s)` and `s[i..]` is Go's `s[i:]`.
 */
module Strconv {
  import opened Wrappers

  /** Bounds of Go's `int` on a 64-bit platform. */
  const MinInt: int := -0x8000_0000_0000_0000
  const MaxInt: int := 0x7fff_ffff_ffff_ffff

  predicate InIntRange(n: int) {
    MinInt <= n <= MaxInt
  }

  predicate IsDigit(c: char) {
    '0' <= c <= '9'
  }

  predicate IsSign(c: char) {
    c == '+' || c == '-'
  }

  predicate IsDigits(s: string) {
    forall i | 0 <= i < |s| :: IsDigit(s[i])
  }

  function DigitValue(c: char): nat
    requires IsDigit(c)
  {
    c as int - '0' as int
  }

  function DigitChar(d: nat): char
    requires d < 10
  {
    ('0' as int + d) as char
  }

  /** The value of a run of decimal digits, most significant digit first. */
  function DigitsValue(s: string): nat
    requires IsDigits(s)
  {
    if |s| == 0 then 0 else 10 * DigitsValue(s[..|s| - 1]) + DigitValue(s[|s| - 1])
  }

  /** `s` without its leading sign, if it has one. */
  function Unsigned(s: string): string {
    if |s| > 0 && IsSign(s[0]) then s[1..] else s
  }

  /** The base-10 syntax `Atoi` accepts: an optional `+` or `-`, then one or more digits. */
  predicate IsIntegerText(s: string) {
    |Unsigned(s)| > 0 && IsDigits(Unsigned(s))
  }

  /** The mathematical value of an integer text, before any range check. */
  function TextValue(s: string): int
    requires IsIntegerText(s)
  {
    if s[0] == '-' then -(DigitsValue(Unsigned(s)) as int) else DigitsValue(Unsigned(s))
  }

  /**
   * `strconv.Atoi(s)`: `Some(n)` for a nil error, `None` for either a syntax
   * error or a range error (the caller only tests whether the error is nil).
   */
  function Atoi(s: string): Option<int> {
    if IsIntegerText(s) && InIntRange(TextValue(s)) then Some(TextValue(s)) else None
  }

  /** The canonical decimal text of a natural number, as `strconv.Itoa` writes it. */
  function FormatNat(n: nat): string {
    if n < 10 then [DigitChar(n)] else FormatNat(n / 10) + [DigitChar(n % 10)]
  }

  /** `strconv.Itoa(n)`: a `-` for negative numbers, then the canonical digits. */
  function FormatInt(n: int): string {
    if n < 0 then "-" + FormatNat(-n) else FormatNat(n)
  }

  /** A non-empty digit run that starts with `0` only when it is `0` itself. */
  predicate NoLeadingZero(d: string) {
    |d| > 0 && (d[0] == '0' ==> |d| == 1)
  }

  /** `d` with its leading zeros removed, keeping at least one digit. */
  function StripZeros(d: string): string
    requires |d| > 0
  {
    if |d| > 1 && d[0] == '0' then StripZeros(d[1..]) else d
  }

  /** The text `FormatInt` would write for the value of an integer text:
      no `+`, no leading zeros, and no `-` on zero. */
  function Canonical(s: string): string
    requires IsIntegerText(s)
  {
    var m := StripZeros(Unsigned(s));
    if s[0] == '-' && m != "0" then "-" + m else m
  }

  lemma {:induction false} FormatNatIsCanonical(n: nat)
    ensures IsDigits(FormatNat(n)) && NoLeadingZero(FormatNat(n))
    ensures DigitsValue(FormatNat(n)) == n
    decreases n
  {
    if n >= 10 {
      FormatNatIsCanonical(n / 10);
      var s := FormatNat(n);
      assert s[..|s| - 1] == FormatNat(n / 10);
    }
  }

  /** Atoi reads back exactly the integers Itoa writes, when they are in range. */
  lemma AtoiFormatInt(n: int)
    requires InIntRange(n)
    ensures Atoi(FormatInt(n)) == Some(n)
  {
    var m := if n < 0 then -n else n;
    FormatNatIsCanonical(m);
    if n < 0 {
      assert Unsigned(FormatInt(n)) == FormatNat(m);
    } else {
      assert Unsigned(FormatInt(n)) == FormatNat(m);
    }
  }

  /** A well-formed integer text outside Go's 64-bit `int` is a range error. */
  lemma AtoiRejectsOutOfRange(n: int)
    requires !InIntRange(n)
    ensures Atoi(FormatInt(n)) == None
  {
    var m := if n < 0 then -n else n;
    FormatNatIsCanonical(m);
    assert Unsigned(FormatInt(n)) == FormatNat(m);
  }

  /** Any byte that is neither a digit nor a leading sign makes Atoi fail:
      letters, a decimal point, a space, an underscore, a second sign. */
  lemma AtoiRejectsNonDigit(s: string, i: nat)
    requires i < |s| && !IsDigit(s[i])
    requires i > 0 || !IsSign(s[0])
    ensures Atoi(s) == None
  {
    if IsSign(s[0]) {
      assert !IsDigit(Unsigned(s)[i - 1]);
    } else {
      assert !IsDigit(Unsigned(s)[i]);
    }
  }

  /** The empty text and a lone sign carry no digits and are rejected. */
  lemma AtoiRejectsNoDigits(s: string)
    requires s == "" || s == "+" || s == "-"
    ensures Atoi(s) == None
  {
  }

  lemma {:induction false} LeadingZeroValue(d: string)
    requires IsDigits(d)
    ensures IsDigits("0" + d) && DigitsValue("0" + d) == DigitsValue(d)
    decreases |d|
  {
    if |d| > 0 {
      var z := "0" + d;
      assert z[..|z| - 1] == "0" + d[..|d| - 1];
      LeadingZeroValue(d[..|d| - 1]);
    }
  }

  lemma {:induction false} StripZerosValue(d: string)
    requires |d| > 0 && IsDigits(d)
    ensures IsDigits(StripZeros(d)) && NoLeadingZero(StripZeros(d))
    ensures DigitsValue(StripZeros(d)) == DigitsValue(d)
    decreases |d|
  {
    if |d| > 1 && d[0] == '0' {
      StripZerosValue(d[1..]);
      assert d == "0" + d[1..];
      LeadingZeroValue(d[1..]);
    }
  }

  /** A digit run is at least its leading digit, so a run without a leading
      zero has a positive value unless it is `0`. */
  lemma {:induction false} DigitsValueAtLeastFirst(d: string)
    requires |d| > 0 && IsDigits(d)
    ensures DigitsValue(d) >= DigitValue(d[0])
    decreases |d|
  {
    if |d| > 1 {
      DigitsValueAtLeastFirst(d[..|d| - 1]);
    }
  }

  /** Formatting the value of a canonical digit run gives the run back. */
  lemma {:induction false} FormatNatDigitsValue(d: string)
    requires IsDigits(d) && NoLeadingZero(d)
    ensures FormatNat(DigitsValue(d)) == d
    decreases |d|
  {
    if |d| > 1 {
      var p := d[..|d| - 1];
      DigitsValueAtLeastFirst(p);
      FormatNatDigitsValue(p);
      var n := DigitsValue(d);
      assert n / 10 == DigitsValue(p) && n % 10 == DigitValue(d[|d| - 1]);
      assert d == p + [d[|d| - 1]];
    }
  }

  /** Whatever Atoi accepts, Itoa writes back in canonical form: the only
      things Atoi forgets are a `+`, leading zeros and the sign of zero. */
  lemma AtoiCanonical(s: string)
    requires Atoi(s).Some?
    ensures IsIntegerText(s) && FormatInt(Atoi(s).value) == Canonical(s)
  {
    var d := Unsigned(s);
    var m := StripZeros(d);
    StripZerosValue(d);
    FormatNatDigitsValue(m);
    if s[0] == '-' && m != "0" {
      DigitsValueAtLeastFirst(m);
    }
  }
}
