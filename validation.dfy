/**
 * Input validation performed by model binding before the handlers run: the data-annotation
 * attributes on the Deposit, Create and Register input models, and the conversion of a
 * loan term in weeks to whole months.
 */
module Validation {
  import opened Models

  // ---------------------------------------------------------------- [Required] and [StringLength]

  /** The characters `char.IsWhiteSpace` accepts (Unicode space separators and the listed controls). */
  predicate IsWhiteSpace(c: char) {
    || ('\U{0009}' <= c <= '\U{000D}')
    || c == '\U{0020}' || c == '\U{0085}' || c == '\U{00A0}' || c == '\U{1680}'
    || ('\U{2000}' <= c <= '\U{200A}')
    || c == '\U{2028}' || c == '\U{2029}' || c == '\U{202F}' || c == '\U{205F}' || c == '\U{3000}'
  }

  /** `[Required]` on a string: present, and not empty or made of white space only. */
  predicate Required(s: string) {
    exists i :: 0 <= i < |s| && !IsWhiteSpace(s[i])
  }

  /** `[StringLength(max, MinimumLength = min)]`. */
  predicate StringLength(s: string, min: nat, max: nat) {
    min <= |s| <= max
  }

  /**
   * [Required] rejects exactly the empty and the all-blank strings, and a string built of
   * two parts passes exactly when one of the parts does: one non-blank character anywhere
   * is enough, and no amount of padding makes a blank string pass.
   */
  lemma {:induction false} RequiredMeansNonBlank(a: string, b: string)
    ensures Required(a) <==> |a| > 0 && !(forall i :: 0 <= i < |a| ==> IsWhiteSpace(a[i]))
    ensures Required(a + b) <==> Required(a) || Required(b)
    ensures !Required("   ")
  {
    if Required(a + b) {
      var i :| 0 <= i < |a + b| && !IsWhiteSpace((a + b)[i]);
      if i < |a| {
        assert a[i] == (a + b)[i];
      } else {
        assert b[i - |a|] == (a + b)[i];
      }
    }
    if Required(a) {
      var i :| 0 <= i < |a| && !IsWhiteSpace(a[i]);
      assert (a + b)[i] == a[i];
    }
    if Required(b) {
      var i :| 0 <= i < |b| && !IsWhiteSpace(b[i]);
      assert (a + b)[|a| + i] == b[i];
    }
  }

  // ---------------------------------------------------------------- [EmailAddress]

  /** `s.IndexOf(c)`: the first position of c, if any. */
  function IndexOf(s: string, c: char): (r: Option<nat>)
    ensures r.Some? ==> r.value < |s| && s[r.value] == c && forall j :: 0 <= j < r.value ==> s[j] != c
    ensures r.None? ==> forall j :: 0 <= j < |s| ==> s[j] != c
    decreases |s|
  {
    if |s| == 0 then None
    else if s[0] == c then Some(0)
    else match IndexOf(s[1..], c)
      case None => None
      case Some(i) => Some(i + 1)
  }

  /** `s.LastIndexOf(c)`: the last position of c, if any. */
  function LastIndexOf(s: string, c: char): (r: Option<nat>)
    ensures r.Some? ==> r.value < |s| && s[r.value] == c && forall j :: r.value < j < |s| ==> s[j] != c
    ensures r.None? ==> forall j :: 0 <= j < |s| ==> s[j] != c
    decreases |s|
  {
    if |s| == 0 then None
    else if s[|s| - 1] == c then Some(|s| - 1)
    else LastIndexOf(s[..|s| - 1], c)
  }

  /**
   * `[EmailAddress]`: the first '@' is neither the first nor the last character and is also
   * the last '@'.
   */
  predicate EmailAddress(s: string) {
    var first := IndexOf(s, '@');
    first.Some? && first.value > 0 && first.value != |s| - 1 && first == LastIndexOf(s, '@')
  }

  /** The attribute accepts exactly the strings with one '@', strictly inside. */
  lemma {:induction false} EmailAddressExactlyOneAt(s: string)
    ensures EmailAddress(s) <==>
      exists i :: (0 < i < |s| - 1 && s[i] == '@' && forall j :: 0 <= j < |s| && j != i ==> s[j] != '@')
  {
    var first, last := IndexOf(s, '@'), LastIndexOf(s, '@');
    if EmailAddress(s) {
      var i := first.value;
      assert forall j :: 0 <= j < |s| && j != i ==> s[j] != '@';
    }
    if exists i :: (0 < i < |s| - 1 && s[i] == '@' && forall j :: 0 <= j < |s| && j != i ==> s[j] != '@') {
      var i :| 0 < i < |s| - 1 && s[i] == '@' && forall j :: 0 <= j < |s| && j != i ==> s[j] != '@';
      assert first == Some(i);
      assert last == Some(i);
    }
  }

  // ---------------------------------------------------------------- [Range] on decimal properties

  /** `Convert.ToInt32(decimal)`: to the nearest integer, a tie going to the even neighbour. */
  function RoundHalfEven(x: real): (n: int)
    ensures n as real - 0.5 <= x <= n as real + 0.5
    ensures (x == n as real - 0.5 || x == n as real + 0.5) ==> n % 2 == 0
  {
    var f := x.Floor;
    var d := x - f as real;
    if d < 0.5 then f
    else if d > 0.5 then f + 1
    else if f % 2 == 0 then f else f + 1
  }

  const Int32Min: int := -0x8000_0000
  const Int32Max: int := 0x7FFF_FFFF

  /** What validating a value against a range ends in. */
  datatype RangeVerdict = Accepted | Refused | Overflows

  /**
   * `[Range(lo, hi)]` with integer bounds, applied to a decimal property: the value is first
   * converted to a 32-bit integer (rounding half to even, and failing with an overflow
   * outside the 32-bit range), and the rounded value is compared with the bounds.
   */
  function RangeAsWritten(x: real, lo: int, hi: int): (v: RangeVerdict)
    ensures v == Overflows <==> !(Int32Min <= RoundHalfEven(x) <= Int32Max)
  {
    var n := RoundHalfEven(x);
    if n < Int32Min || n > Int32Max then Overflows
    else if lo <= n <= hi then Accepted
    else Refused
  }

  /**
   * The window the rounding opens: a value is accepted when it lies strictly within half a
   * unit outside the bounds, or exactly half a unit outside a bound that is even.
   */
  lemma {:induction false} RangeAsWrittenWindow(x: real, lo: int, hi: int)
    requires Int32Min <= lo <= hi <= Int32Max
    ensures RangeAsWritten(x, lo, hi) == Accepted <==>
      && (x > lo as real - 0.5 || (x == lo as real - 0.5 && lo % 2 == 0))
      && (x < hi as real + 0.5 || (x == hi as real + 0.5 && hi % 2 == 0))
  {
    var n := RoundHalfEven(x);
    if x > lo as real - 0.5 {
      assert n >= lo;
    }
    if x < hi as real + 0.5 {
      assert n <= hi;
    }
    if x == lo as real - 0.5 {
      assert n == lo || n == lo - 1;
    }
    if x == hi as real + 0.5 {
      assert n == hi || n == hi + 1;
    }
  }

  /** The range the attribute is meant to enforce: lo <= x <= hi on the exact value. */
  predicate InRange(x: real, lo: int, hi: int) {
    lo as real <= x <= hi as real
  }

  /** Every value in the intended range passes the attribute as written; the converse fails. */
  lemma {:induction false} InRangeIsAccepted(x: real, lo: int, hi: int)
    requires Int32Min <= lo <= hi <= Int32Max
    ensures InRange(x, lo, hi) ==> RangeAsWritten(x, lo, hi) == Accepted
  {
    RangeAsWrittenWindow(x, lo, hi);
  }

  /** Deposit: `[Range(100, 1000000)]` lets 99.5 through. */
  lemma {:induction false} DepositHalfBelowMinimumAccepted()
    ensures RangeAsWritten(99.5, DepositMin, DepositMax) == Accepted
    ensures !DepositAmountValid(99.5)
  {
    assert RoundHalfEven(99.5) == 100;
  }

  /** Create: `[Range(1000, 10000000)]` on the amount lets 999.5 through. */
  lemma {:induction false} LoanAmountHalfBelowMinimumAccepted()
    ensures RangeAsWritten(999.5, LoanAmountMin, LoanAmountMax) == Accepted
    ensures !InRange(999.5, LoanAmountMin, LoanAmountMax)
  {
    assert RoundHalfEven(999.5) == 1000;
  }

  /** Create: `[Range(1, 20)]` on the interest rate lets 0.6 % and 20.4 % through. */
  lemma {:induction false} RateOutsideRangeAccepted()
    ensures RangeAsWritten(0.6, RateMin, RateMax) == Accepted && !InRange(0.6, RateMin, RateMax)
    ensures RangeAsWritten(20.4, RateMin, RateMax) == Accepted && !InRange(20.4, RateMin, RateMax)
  {
    assert RoundHalfEven(0.6) == 1;
    assert RoundHalfEven(20.4) == 20;
  }

  // ---------------------------------------------------------------- the three input models

  const DepositMin: int := 100
  const DepositMax: int := 1_000_000
  const LoanAmountMin: int := 1_000
  const LoanAmountMax: int := 10_000_000
  const TermWeeksMin: int := 4
  const TermWeeksMax: int := 52
  const RateMin: int := 1
  const RateMax: int := 20
  const PurposeMinLength: nat := 10
  const PurposeMaxLength: nat := 500
  const PasswordMinLength: nat := 6
  const PasswordMaxLength: nat := 100

  /** The deposit form's amount, checked on its exact value. */
  predicate DepositAmountValid(amount: real) {
    InRange(amount, DepositMin, DepositMax)
  }

  /** A valid deposit is a positive amount. */
  lemma {:induction false} DepositAmountPositive(amount: real)
    requires DepositAmountValid(amount)
    ensures amount >= 100.0 && amount > 0.0
  {
  }

  /** The loan request form. */
  datatype LoanInput = LoanInput(amount: real, purpose: string, termWeeks: int, rate: real)

  predicate LoanInputValid(i: LoanInput) {
    && InRange(i.amount, LoanAmountMin, LoanAmountMax)
    && Required(i.purpose) && StringLength(i.purpose, PurposeMinLength, PurposeMaxLength)
    && TermWeeksMin <= i.termWeeks <= TermWeeksMax
    && InRange(i.rate, RateMin, RateMax)
  }

  /** The registration form. */
  datatype RegisterInput = RegisterInput(email: string, password: string, confirm: string, role: string)

  predicate RegisterInputValid(i: RegisterInput) {
    && Required(i.email) && EmailAddress(i.email)
    && Required(i.password) && StringLength(i.password, PasswordMinLength, PasswordMaxLength)
    && Required(i.confirm) && i.confirm == i.password
    && Required(i.role)
  }

  /** `(short)Math.Ceiling(weeks / 4.0m)`: the term in whole months of four weeks. */
  function TermMonths(weeks: int): (m: int)
    ensures 4 * (m - 1) < weeks <= 4 * m
  {
    (weeks + 3) / 4
  }

  /** A valid term of 4 to 52 weeks is 1 to 13 months, well within a 16-bit integer. */
  lemma {:induction false} TermMonthsOfValidInput(weeks: int)
    requires TermWeeksMin <= weeks <= TermWeeksMax
    ensures 1 <= TermMonths(weeks) <= 13
  {
  }
}
