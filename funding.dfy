/**
 * Funding a loan (Pages/Loan/Fund.cshtml.cs): the figures the page shows, the checks a
 * contribution must pass, the wallet transfer it makes and the four-installment weekly
 * schedule generated when the loan becomes fully funded.
 */
module LoanFunding {
  import opened Models
  import opened Tables

  /** `AmountRequested − Σ fundings`: what the loan still needs. */
  function Remaining(loans: seq<Loan>, fs: seq<Funding>, loan: LoanId): real
    requires loan < |loans|
  {
    loans[loan].amountRequested - FundedAmount(fs, loan)
  }

  function Min(a: real, b: real): (m: real)
    ensures m <= a && m <= b && (m == a || m == b)
  {
    if a <= b then a else b
  }

  /** What the funding page shows a lender. */
  datatype FundView = FundView(funded: real, remaining: real, lenderBalance: real, offer: real)

  /**
   * OnGetAsync: nothing for an unknown loan; otherwise the funded and remaining amounts, the
   * lender's balance (0 without a wallet) and the pre-filled offer, the smaller of the two.
   */
  function FundPage(loans: seq<Loan>, fs: seq<Funding>, ws: seq<Wallet>, loan: LoanId, lender: UserId)
    : (v: Option<FundView>)
    ensures v.None? <==> loan >= |loans|
    ensures v.Some? ==> v.value.funded == FundedAmount(fs, loan) && v.value.remaining == Remaining(loans, fs, loan)
    ensures v.Some? ==> v.value.funded + v.value.remaining == loans[loan].amountRequested
    ensures v.Some? ==> v.value.lenderBalance == BalanceOf(ws, lender)
    ensures v.Some? ==> v.value.offer <= v.value.remaining && v.value.offer <= v.value.lenderBalance
    ensures v.Some? ==> v.value.offer == v.value.remaining || v.value.offer == v.value.lenderBalance
  {
    if loan >= |loans| then None
    else
      var funded := FundedAmount(fs, loan);
      var remaining := loans[loan].amountRequested - funded;
      var balance := BalanceOf(ws, lender);
      Some(FundView(funded, remaining, balance, Min(remaining, balance)))
  }

  /** How OnPostAsync ends. */
  datatype FundOutcome =
    | LoanNotFound
    | LenderWalletNotFound
    | NonPositiveAmount
    | InsufficientBalance
    | ExceedsRemaining
    | Contributed(fullyFunded: bool)

  /**
   * The checks of OnPostAsync, in the order it makes them; each refusal is the first check
   * that fails. The loan's status and the caller's role are not checked. A contribution is accepted exactly when it is positive, covered by
   * the lender's balance and within what the loan still needs; it completes the funding
   * exactly when it is all that the loan still needs.
   */
  function FundDecision(loans: seq<Loan>, fs: seq<Funding>, ws: seq<Wallet>,
                        loan: LoanId, lender: UserId, amount: real): (r: FundOutcome)
    ensures r.Contributed? <==>
      && loan < |loans|
      && FindWallet(ws, lender).Some?
      && 0.0 < amount <= BalanceOf(ws, lender)
      && amount <= Remaining(loans, fs, loan)
    ensures r.Contributed? ==> (r.fullyFunded <==> amount == Remaining(loans, fs, loan))
    ensures r == LoanNotFound <==> loan >= |loans|
    ensures r == LenderWalletNotFound <==> loan < |loans| && FindWallet(ws, lender).None?
    ensures r == NonPositiveAmount <==> loan < |loans| && FindWallet(ws, lender).Some? && amount <= 0.0
    ensures r == InsufficientBalance <==>
      loan < |loans| && FindWallet(ws, lender).Some? && 0.0 < amount && amount > BalanceOf(ws, lender)
    ensures r == ExceedsRemaining <==>
      && loan < |loans| && FindWallet(ws, lender).Some?
      && 0.0 < amount <= BalanceOf(ws, lender)
      && amount > Remaining(loans, fs, loan)
  {
    if loan >= |loans| then LoanNotFound
    else
      var funded := FundedAmount(fs, loan);
      var remaining := loans[loan].amountRequested - funded;
      match FindWallet(ws, lender)
      case None => LenderWalletNotFound
      case Some(lw) =>
        var balance := ws[lw].balance;
        if amount <= 0.0 then NonPositiveAmount
        else if amount > balance then InsufficientBalance
        else if amount > remaining then ExceedsRemaining
        else Contributed(funded + amount >= loans[loan].amountRequested)
  }

  /** A loan that needs nothing more turns every positive contribution away. */
  lemma {:induction false} FullyFundedAcceptsNothing(loans: seq<Loan>, fs: seq<Funding>, ws: seq<Wallet>,
                                  loan: LoanId, lender: UserId, amount: real)
    requires loan < |loans| && Remaining(loans, fs, loan) <= 0.0
    ensures !FundDecision(loans, fs, ws, loan, lender, amount).Contributed?
  {
  }

  /**
   * The page's pre-filled offer, when positive and the lender has a wallet, passes every
   * check of the post handler.
   */
  lemma {:induction false} OfferIsAccepted(loans: seq<Loan>, fs: seq<Funding>, ws: seq<Wallet>,
                                          loan: LoanId, lender: UserId)
    requires loan < |loans| && FindWallet(ws, lender).Some?
    requires FundPage(loans, fs, ws, loan, lender).value.offer > 0.0
    ensures var v := FundPage(loans, fs, ws, loan, lender).value;
      FundDecision(loans, fs, ws, loan, lender, v.offer) == Contributed(v.offer == v.remaining)
  {
    var v := FundPage(loans, fs, ws, loan, lender).value;
    assert v.remaining == Remaining(loans, fs, loan);
  }

  /**
   * The money movement of a contribution: `lenderWallet.Balance -= amount`, then the
   * borrower's wallet (opened with balance 0 when missing) is looked up and credited.
   * When lender and borrower are the same user both steps hit the same wallet.
   */
  function Transfer(ws: seq<Wallet>, lw: WalletId, borrower: UserId, amount: real, now: Time): (r: seq<Wallet>)
    requires lw < |ws|
    ensures FindWallet(r, borrower).Some? && |r| >= |ws|
  {
    CreditOrOpen(Adjust(ws, lw, -amount, now), borrower, amount, now)
  }

  /** A transfer conserves the money in wallets. */
  lemma {:induction false} TransferConserves(ws: seq<Wallet>, lw: WalletId, borrower: UserId, amount: real, now: Time)
    requires lw < |ws|
    ensures TotalBalance(Transfer(ws, lw, borrower, amount, now)) == TotalBalance(ws)
  {
    var debited := Adjust(ws, lw, -amount, now);
    assert TotalBalance(debited) == TotalBalance(ws) - amount by {
      AdjustTotal(ws, lw, -amount, now);
    }
    assert TotalBalance(CreditOrOpen(debited, borrower, amount, now)) == TotalBalance(debited) + amount by {
      CreditOrOpenTotal(debited, borrower, amount, now);
    }
  }

  /**
   * The lender, whose wallet is at lw, loses and the borrower gains exactly the amount
   * (nothing changes for a lender who funds their own loan); every other user keeps their
   * wallet and balance.
   */
  lemma {:induction false} TransferEffect(ws: seq<Wallet>, lw: WalletId, lender: UserId, borrower: UserId,
                                          amount: real, now: Time)
    requires FindWallet(ws, lender) == Some(lw)
    ensures var r := Transfer(ws, lw, borrower, amount, now);
      && FindWallet(r, lender) == Some(lw)
      && (lender != borrower ==>
            && BalanceOf(r, lender) == BalanceOf(ws, lender) - amount
            && BalanceOf(r, borrower) == BalanceOf(ws, borrower) + amount)
      && (lender == borrower ==> BalanceOf(r, lender) == BalanceOf(ws, lender))
      && (forall u :: u != lender && u != borrower ==>
            FindWallet(r, u) == FindWallet(ws, u) && BalanceOf(r, u) == BalanceOf(ws, u))
  {
    var debited := Adjust(ws, lw, -amount, now);
    var r := CreditOrOpen(debited, borrower, amount, now);
    forall u ensures FindWallet(debited, u) == FindWallet(ws, u) {
      SameOwnersSameLookup(debited, ws, u);
    }
    CreditOrOpenEffect(debited, borrower, amount, now);
    if lender != borrower {
      assert r[lw] == debited[lw];
    }
    forall u | u != lender && u != borrower
      ensures FindWallet(r, u) == FindWallet(ws, u) && BalanceOf(r, u) == BalanceOf(ws, u)
    {
      var fu := FindWallet(ws, u);
      if fu.Some? {
        assert fu.value != FindWallet(r, borrower).value;
        assert fu.value != lw;
        assert r[fu.value] == debited[fu.value] == ws[fu.value];
      }
    }
  }

  /** The loan's transition on full funding: "Funded", with ApprovedAt overwritten. */
  function MarkFunded(l: Loan, now: Time): (l': Loan)
    ensures l'.status == LoanStatus.Funded && l'.approvedAt == Some(now)
    ensures l'.borrower == l.borrower && l'.amountRequested == l.amountRequested
    ensures l'.interestRate == l.interestRate && l'.approver == l.approver
  {
    l.(status := LoanStatus.Funded, approvedAt := Some(now))
  }

  /** `totalPrincipal * (InterestRate / 100)`: the interest charged on the whole loan. */
  function TotalInterest(amount: real, rate: real): real {
    amount * (rate / 100.0)
  }

  /** Installment i (1 to 4) of the schedule: a quarter of the principal and of the interest, due 7·i days on. */
  function Installment(loan: LoanId, amount: real, rate: real, now: Time, i: nat): Repayment {
    NewRepayment(loan, now + i * 7 * TicksPerDay, amount / 4.0, TotalInterest(amount, rate) / 4.0)
  }

  /** The four weekly installments generated on full funding. */
  function Schedule(loan: LoanId, amount: real, rate: real, now: Time): seq<Repayment> {
    seq(4, k requires 0 <= k < 4 => Installment(loan, amount, rate, now, k + 1))
  }

  /** Σ principal over a list of installments. */
  function PrincipalTotal(rs: seq<Repayment>): real
    decreases |rs|
  {
    if |rs| == 0 then 0.0 else PrincipalTotal(rs[..|rs| - 1]) + rs[|rs| - 1].principal
  }

  /** Σ interest over a list of installments. */
  function InterestTotal(rs: seq<Repayment>): real
    decreases |rs|
  {
    if |rs| == 0 then 0.0 else InterestTotal(rs[..|rs| - 1]) + rs[|rs| - 1].interest
  }

  /** The totals of a four-installment list, written out. */
  lemma {:induction false} FourTotals(s: seq<Repayment>)
    requires |s| == 4
    ensures PrincipalTotal(s) == s[0].principal + s[1].principal + s[2].principal + s[3].principal
    ensures InterestTotal(s) == s[0].interest + s[1].interest + s[2].interest + s[3].interest
  {
    assert s[..3][..2] == s[..2] && s[..2][..1] == s[..1] && s[..1][..0] == [];
    assert PrincipalTotal(s[..1]) == s[0].principal;
    assert InterestTotal(s[..1]) == s[0].interest;
    assert PrincipalTotal(s[..2]) == s[0].principal + s[1].principal;
    assert InterestTotal(s[..2]) == s[0].interest + s[1].interest;
    assert PrincipalTotal(s[..3]) == s[0].principal + s[1].principal + s[2].principal;
    assert InterestTotal(s[..3]) == s[0].interest + s[1].interest + s[2].interest;
  }

  /**
   * Under exact arithmetic the schedule repays the loan: four unpaid installments of the
   * loan, one week apart starting a week from now, whose principals add up to the amount
   * requested and whose interests add up to the total interest.
   */
  lemma {:induction false} ScheduleRepaysLoan(loan: LoanId, amount: real, rate: real, now: Time)
    ensures |Schedule(loan, amount, rate, now)| == 4
    ensures PrincipalTotal(Schedule(loan, amount, rate, now)) == amount
    ensures InterestTotal(Schedule(loan, amount, rate, now)) == TotalInterest(amount, rate)
    ensures forall k :: 0 <= k < 4 ==> var r := Schedule(loan, amount, rate, now)[k];
      && r.loan == loan && r.status == RepaymentStatus.Pending && r.paidAt == None
      && r.scheduledDate == now + (k + 1) * 7 * TicksPerDay
    ensures amount >= 0.0 && rate >= 0.0 ==>
      forall k :: 0 <= k < 4 ==>
        Schedule(loan, amount, rate, now)[k].principal >= 0.0 && Schedule(loan, amount, rate, now)[k].interest >= 0.0
  {
    var s := Schedule(loan, amount, rate, now);
    FourTotals(s);
    if amount >= 0.0 && rate >= 0.0 {
      assert TotalInterest(amount, rate) >= 0.0;
    }
  }
}
