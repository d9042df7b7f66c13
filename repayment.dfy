/**
 * Repaying a loan (Pages/Repayment/Schedule.cshtml.cs): the checks a payment must pass, the
 * proportional distribution of the payment to the loan's lenders, and the schedule page's
 * figures.
 */
module Repayments {
  import opened Models
  import opened Tables
  import opened Ordering
  import LoanFunding

  /** `PrincipalAmount + InterestAmount`: what paying the installment costs. */
  function Due(r: Repayment): real {
    r.principal + r.interest
  }

  /** Every installment belongs to one of the n loans. */
  predicate InstallmentsOfLoans(rs: seq<Repayment>, n: nat) {
    forall i :: 0 <= i < |rs| ==> rs[i].loan < n
  }

  // ---------------------------------------------------------------- paying an installment

  /** How OnPostAsync ends. */
  datatype PayOutcome =
    | NotBorrower
    | NotFoundOrDenied
    | AlreadyPaid
    | NoWallet
    | ShortOfFunds
    | Settled

  /**
   * The checks of OnPostAsync, in the order it makes them: a payment goes through exactly when
   * the caller is a borrower, the installment exists, belongs to one of the caller's loans and
   * is unpaid, and the caller's wallet covers principal plus interest. Each refusal is the
   * first of these checks that fails.
   */
  function PayDecision(loans: seq<Loan>, rs: seq<Repayment>, ws: seq<Wallet>,
                       id: RepaymentId, caller: UserId, role: string): (r: PayOutcome)
    requires InstallmentsOfLoans(rs, |loans|)
    ensures r == Settled <==>
      && role == "Borrower"
      && id < |rs| && loans[rs[id].loan].borrower == caller
      && rs[id].status != RepaymentStatus.Paid
      && FindWallet(ws, caller).Some?
      && Due(rs[id]) <= BalanceOf(ws, caller)
    ensures r == NotBorrower <==> role != "Borrower"
    ensures r == NotFoundOrDenied <==>
      role == "Borrower" && (id >= |rs| || loans[rs[id].loan].borrower != caller)
    ensures r == AlreadyPaid <==>
      && role == "Borrower"
      && id < |rs| && loans[rs[id].loan].borrower == caller
      && rs[id].status == RepaymentStatus.Paid
    ensures r == NoWallet <==>
      && role == "Borrower"
      && id < |rs| && loans[rs[id].loan].borrower == caller
      && rs[id].status != RepaymentStatus.Paid
      && FindWallet(ws, caller).None?
    ensures r == ShortOfFunds <==>
      && role == "Borrower"
      && id < |rs| && loans[rs[id].loan].borrower == caller
      && rs[id].status != RepaymentStatus.Paid
      && FindWallet(ws, caller).Some?
      && BalanceOf(ws, caller) < Due(rs[id])
  {
    if role != "Borrower" then NotBorrower
    else if id >= |rs| || loans[rs[id].loan].borrower != caller then NotFoundOrDenied
    else if rs[id].status == RepaymentStatus.Paid then AlreadyPaid
    else match FindWallet(ws, caller)
      case None => NoWallet
      case Some(bw) => if ws[bw].balance < Due(rs[id]) then ShortOfFunds else Settled
  }

  /** An installment once settled is never charged again: the next attempt finds it paid. */
  lemma {:induction false} NoDoublePayment(loans: seq<Loan>, rs: seq<Repayment>, ws: seq<Wallet>,
                                           id: RepaymentId, caller: UserId, now: Time)
    requires InstallmentsOfLoans(rs, |loans|)
    requires PayDecision(loans, rs, ws, id, caller, "Borrower") == Settled
    ensures var rs' := rs[id := rs[id].(status := RepaymentStatus.Paid, paidAt := Some(now))];
      forall ws' :: PayDecision(loans, rs', ws', id, caller, "Borrower") == AlreadyPaid
  {
    var rs' := rs[id := rs[id].(status := RepaymentStatus.Paid, paidAt := Some(now))];
    assert InstallmentsOfLoans(rs', |loans|) by {
      forall i | 0 <= i < |rs'| ensures rs'[i].loan < |loans| {
        assert rs[i].loan < |loans|;
      }
    }
  }

  /** `totalPayment * (funding.Amount / totalFunded)`: a lender's part of a payment. */
  function Share(payment: real, amount: real, total: real): real
    requires total != 0.0
  {
    payment * (amount / total)
  }

  /** The wallets and the new transactions after crediting lenders. */
  datatype Payout = Payout(wallets: seq<Wallet>, txns: seq<Txn>)

  /**
   * The distribution loop over the loan's fundings fs: each funding whose lender has a wallet
   * credits that wallet with its share and records a "LoanRepayment" transaction; a lender
   * without a wallet is skipped. `total` is Σ fs, read once before the loop.
   */
  function Distribute(ws: seq<Wallet>, fs: seq<Funding>, payment: real, total: real,
                      loan: LoanId, now: Time): (p: Payout)
    requires |fs| > 0 ==> total != 0.0
    ensures SameOwners(ws, p.wallets)
    decreases |fs|
  {
    if |fs| == 0 then Payout(ws, [])
    else
      var prev := Distribute(ws, fs[..|fs| - 1], payment, total, loan, now);
      var f := fs[|fs| - 1];
      match FindWallet(prev.wallets, f.lender)
      case None => prev
      case Some(lw) =>
        var share := Share(payment, f.amount, total);
        Payout(Adjust(prev.wallets, lw, share, now),
               prev.txns + [Txn(lw, "LoanRepayment", share, RWF, Some(loan), now)])
  }

  /**
   * The distribution logs at most one transaction per funding, each a "LoanRepayment" in RWF
   * related to the loan, against a wallet of the table.
   */
  lemma {:induction false} DistributeLogs(ws: seq<Wallet>, fs: seq<Funding>, payment: real, total: real,
                                          loan: LoanId, now: Time)
    requires |fs| > 0 ==> total != 0.0
    ensures var p := Distribute(ws, fs, payment, total, loan, now);
      && |p.txns| <= |fs|
      && forall i :: 0 <= i < |p.txns| ==>
           p.txns[i].wallet < |ws| && p.txns[i].kind == "LoanRepayment"
           && p.txns[i].currency == RWF && p.txns[i].relatedLoan == Some(loan)
    decreases |fs|
  {
    if |fs| > 0 {
      DistributeLogs(ws, fs[..|fs| - 1], payment, total, loan, now);
    }
  }

  /** Σ of the shares of the fundings whose lender holds a wallet in ws. */
  function Credited(ws: seq<Wallet>, fs: seq<Funding>, payment: real, total: real): real
    requires total != 0.0
    decreases |fs|
  {
    if |fs| == 0 then 0.0
    else
      var f := fs[|fs| - 1];
      Credited(ws, fs[..|fs| - 1], payment, total)
        + (if FindWallet(ws, f.lender).Some? then Share(payment, f.amount, total) else 0.0)
  }

  /** The distribution adds to the wallets exactly the shares it credits. */
  lemma {:induction false} DistributeAddsCredited(ws: seq<Wallet>, fs: seq<Funding>, payment: real,
                                                  total: real, loan: LoanId, now: Time)
    requires total != 0.0
    ensures TotalBalance(Distribute(ws, fs, payment, total, loan, now).wallets)
      == TotalBalance(ws) + Credited(ws, fs, payment, total)
    decreases |fs|
  {
    if |fs| > 0 {
      var prev := Distribute(ws, fs[..|fs| - 1], payment, total, loan, now);
      DistributeAddsCredited(ws, fs[..|fs| - 1], payment, total, loan, now);
      SameOwnersSameLookup(prev.wallets, ws, fs[|fs| - 1].lender);
      var lw := FindWallet(prev.wallets, fs[|fs| - 1].lender);
      if lw.Some? {
        AdjustTotal(prev.wallets, lw.value, Share(payment, fs[|fs| - 1].amount, total), now);
      }
    }
  }

  /** Every lender holds a wallet. */
  predicate LendersHaveWallets(ws: seq<Wallet>, fs: seq<Funding>) {
    forall i :: 0 <= i < |fs| ==> FindWallet(ws, fs[i].lender).Some?
  }

  /** Every lender of a prefix of fs holds a wallet when every lender of fs does. */
  lemma {:induction false} LendersOfPrefix(ws: seq<Wallet>, fs: seq<Funding>, n: nat)
    requires n <= |fs| && LendersHaveWallets(ws, fs)
    ensures LendersHaveWallets(ws, fs[..n])
  {
    forall i | 0 <= i < n ensures FindWallet(ws, fs[..n][i].lender).Some? {
      assert fs[..n][i] == fs[i];
    }
  }

  /** When every lender holds a wallet, the shares add up to the share of Σ fs. */
  lemma {:induction false} CreditedAll(ws: seq<Wallet>, fs: seq<Funding>, payment: real, total: real)
    requires total != 0.0 && LendersHaveWallets(ws, fs)
    ensures Credited(ws, fs, payment, total) == Share(payment, SumAmounts(fs), total)
    decreases |fs|
  {
    if |fs| > 0 {
      var n := |fs| - 1;
      LendersOfPrefix(ws, fs, n);
      CreditedAll(ws, fs[..n], payment, total);
      assert FindWallet(ws, fs[n].lender).Some?;
      ShareOfSum(payment, SumAmounts(fs[..n]), fs[n].amount, total);
    }
  }

  /** The share of a sum of contributions is the sum of their shares. */
  lemma {:induction false} ShareOfSum(payment: real, s: real, a: real, total: real)
    requires total != 0.0
    ensures Share(payment, s + a, total) == Share(payment, s, total) + Share(payment, a, total)
  {
    assert (s + a) / total == s / total + a / total;
  }

  /** The share of the whole is the whole payment. */
  lemma {:induction false} ShareOfWhole(payment: real, total: real)
    requires total != 0.0
    ensures Share(payment, total, total) == payment
  {
    assert total / total == 1.0;
  }

  /**
   * A payment whose lenders all hold wallets is passed on in full: when the fundings sum to
   * the total, the wallets gain exactly the payment.
   */
  lemma {:induction false} FullPaymentPassedOn(ws: seq<Wallet>, fs: seq<Funding>, payment: real,
                                               loan: LoanId, now: Time)
    requires |fs| > 0 && SumAmounts(fs) != 0.0 && LendersHaveWallets(ws, fs)
    ensures TotalBalance(Distribute(ws, fs, payment, SumAmounts(fs), loan, now).wallets)
      == TotalBalance(ws) + payment
  {
    var total := SumAmounts(fs);
    DistributeAddsCredited(ws, fs, payment, total, loan, now);
    CreditedAll(ws, fs, payment, total);
    ShareOfWhole(payment, total);
  }

  /** Σ of the amounts the user contributed among fs. */
  function Contribution(fs: seq<Funding>, lender: UserId): real
    decreases |fs|
  {
    if |fs| == 0 then 0.0
    else Contribution(fs[..|fs| - 1], lender) + (if fs[|fs| - 1].lender == lender then fs[|fs| - 1].amount else 0.0)
  }

  /** Σ of the shares of the user's fundings among fs. */
  function SharesOf(fs: seq<Funding>, lender: UserId, payment: real, total: real): real
    requires total != 0.0
    decreases |fs|
  {
    if |fs| == 0 then 0.0
    else
      var f := fs[|fs| - 1];
      SharesOf(fs[..|fs| - 1], lender, payment, total) + (if f.lender == lender then Share(payment, f.amount, total) else 0.0)
  }

  /**
   * Each lender with a wallet receives payment · (their contribution / total), however many
   * fundings they made; a user without a wallet gets nothing.
   */
  lemma {:induction false} LenderReceivesShare(ws: seq<Wallet>, fs: seq<Funding>, payment: real,
                            total: real, loan: LoanId, now: Time, u: UserId)
    requires total != 0.0
    ensures var r := Distribute(ws, fs, payment, total, loan, now).wallets;
      && (FindWallet(ws, u).Some? ==>
            BalanceOf(r, u) == BalanceOf(ws, u) + payment * (Contribution(fs, u) / total))
      && (FindWallet(ws, u).None? ==> FindWallet(r, u).None? && BalanceOf(r, u) == 0.0)
  {
    var r := Distribute(ws, fs, payment, total, loan, now).wallets;
    SameOwnersSameLookup(r, ws, u);
    if FindWallet(ws, u).Some? {
      LenderReceivesShares(ws, fs, payment, total, loan, now, u);
      SharesProportional(fs, u, payment, total);
    }
  }

  /** A wallet-holding user's balance rises by the shares of their fundings. */
  lemma {:induction false} LenderReceivesShares(ws: seq<Wallet>, fs: seq<Funding>, payment: real,
                                                total: real, loan: LoanId, now: Time, u: UserId)
    requires total != 0.0 && FindWallet(ws, u).Some?
    ensures BalanceOf(Distribute(ws, fs, payment, total, loan, now).wallets, u)
      == BalanceOf(ws, u) + SharesOf(fs, u, payment, total)
    decreases |fs|
  {
    if |fs| > 0 {
      LenderReceivesShares(ws, fs[..|fs| - 1], payment, total, loan, now, u);
      DistributeStep(ws, fs, payment, total, loan, now, u);
    }
  }

  /** The shares of one lender's fundings add up to the share of their total contribution. */
  lemma {:induction false} SharesProportional(fs: seq<Funding>, u: UserId, payment: real, total: real)
    requires total != 0.0
    ensures SharesOf(fs, u, payment, total) == payment * (Contribution(fs, u) / total)
    decreases |fs|
  {
    if |fs| > 0 {
      var n := |fs| - 1;
      SharesProportional(fs[..n], u, payment, total);
      var c := Contribution(fs[..n], u);
      if fs[n].lender == u {
        assert (c + fs[n].amount) / total == c / total + fs[n].amount / total;
        assert payment * (c / total + fs[n].amount / total)
          == payment * (c / total) + payment * (fs[n].amount / total);
      }
    }
  }

  /** One step of the loop: the user's balance rises by the last funding's share exactly when it is theirs. */
  lemma {:induction false} DistributeStep(ws: seq<Wallet>, fs: seq<Funding>, payment: real, total: real,
                       loan: LoanId, now: Time, u: UserId)
    requires total != 0.0 && |fs| > 0 && FindWallet(ws, u).Some?
    ensures var n := |fs| - 1;
      BalanceOf(Distribute(ws, fs, payment, total, loan, now).wallets, u)
        == BalanceOf(Distribute(ws, fs[..n], payment, total, loan, now).wallets, u)
           + (if fs[n].lender == u then Share(payment, fs[n].amount, total) else 0.0)
  {
    var n := |fs| - 1;
    var prev := Distribute(ws, fs[..n], payment, total, loan, now).wallets;
    var f := fs[n];
    SameOwnersSameLookup(prev, ws, u);
    SameOwnersSameLookup(prev, ws, f.lender);
    var fl := FindWallet(prev, f.lender);
    var wu := FindWallet(prev, u).value;
    if fl.Some? {
      var r := Adjust(prev, fl.value, Share(payment, f.amount, total), now);
      SameOwnersSameLookup(r, prev, u);
      if f.lender != u {
        assert fl.value != wu;
        assert r[wu] == prev[wu];
      }
    }
  }

  /** Crediting non-negative shares keeps every balance non-negative. */
  lemma {:induction false} DistributeKeepsNoOverdraft(ws: seq<Wallet>, fs: seq<Funding>, payment: real,
                                                      total: real, loan: LoanId, now: Time)
    requires NoOverdraft(ws) && payment >= 0.0 && total > 0.0 && AllPositive(fs)
    ensures NoOverdraft(Distribute(ws, fs, payment, total, loan, now).wallets)
    decreases |fs|
  {
    if |fs| > 0 {
      var n := |fs| - 1;
      assert AllPositive(fs[..n]) by {
        forall i | 0 <= i < n ensures fs[..n][i].amount > 0.0 {
          assert fs[..n][i] == fs[i];
        }
      }
      DistributeKeepsNoOverdraft(ws, fs[..n], payment, total, loan, now);
      assert fs[n].amount / total > 0.0;
      assert Share(payment, fs[n].amount, total) >= 0.0;
    }
  }

  /**
   * The wallets after a payment of `due` by the caller: their wallet (at position bw) is
   * debited, then each funding fs of the loan is paid its share of `due` in proportion to
   * total, the amount funded.
   */
  function Settle(ws: seq<Wallet>, bw: WalletId, fs: seq<Funding>, due: real, total: real,
                  loan: LoanId, now: Time): Payout
    requires bw < |ws| && (|fs| > 0 ==> total != 0.0)
  {
    Distribute(Adjust(ws, bw, -due, now), fs, due, total, loan, now)
  }

  /** A balance change leaves every lender's wallet where it was. */
  lemma {:induction false} AdjustKeepsLenders(ws: seq<Wallet>, bw: WalletId, delta: real, now: Time, fs: seq<Funding>)
    requires bw < |ws| && LendersHaveWallets(ws, fs)
    ensures LendersHaveWallets(Adjust(ws, bw, delta, now), fs)
  {
    forall i | 0 <= i < |fs| ensures FindWallet(Adjust(ws, bw, delta, now), fs[i].lender).Some? {
      SameOwnersSameLookup(Adjust(ws, bw, delta, now), ws, fs[i].lender);
    }
  }

  /** A settled payment moves no wallet, so every lender of `lenders` keeps a wallet. */
  lemma {:induction false} SettleKeepsLenders(ws: seq<Wallet>, bw: WalletId, fs: seq<Funding>, due: real, total: real,
                                              loan: LoanId, now: Time, lenders: seq<Funding>)
    requires bw < |ws| && (|fs| > 0 ==> total != 0.0) && LendersHaveWallets(ws, lenders)
    ensures LendersHaveWallets(Settle(ws, bw, fs, due, total, loan, now).wallets, lenders)
  {
    var debited := Adjust(ws, bw, -due, now);
    var r := Settle(ws, bw, fs, due, total, loan, now).wallets;
    AdjustKeepsLenders(ws, bw, -due, now, lenders);
    forall i | 0 <= i < |lenders| ensures FindWallet(r, lenders[i].lender).Some? {
      SameOwnersSameLookup(r, debited, lenders[i].lender);
    }
  }

  /** When every lender holds a wallet, a settled payment moves money between wallets and creates none. */
  lemma {:induction false} SettleConserves(ws: seq<Wallet>, bw: WalletId, fs: seq<Funding>, due: real, loan: LoanId, now: Time)
    requires bw < |ws| && |fs| > 0 && SumAmounts(fs) != 0.0 && LendersHaveWallets(ws, fs)
    ensures TotalBalance(Settle(ws, bw, fs, due, SumAmounts(fs), loan, now).wallets) == TotalBalance(ws)
  {
    var debited := Adjust(ws, bw, -due, now);
    var total := SumAmounts(fs);
    assert TotalBalance(debited) == TotalBalance(ws) - due by {
      AdjustTotal(ws, bw, -due, now);
    }
    assert TotalBalance(Distribute(debited, fs, due, total, loan, now).wallets) == TotalBalance(debited) + due by {
      AdjustKeepsLenders(ws, bw, -due, now, fs);
      FullPaymentPassedOn(debited, fs, due, loan, now);
    }
  }

  /** The payer loses the amount due, less their own share when they also funded the loan. */
  lemma {:induction false} SettlePayerBalance(ws: seq<Wallet>, payer: UserId, fs: seq<Funding>, due: real, total: real,
                           loan: LoanId, now: Time)
    requires FindWallet(ws, payer).Some? && total != 0.0
    ensures BalanceOf(Settle(ws, FindWallet(ws, payer).value, fs, due, total, loan, now).wallets, payer)
      == BalanceOf(ws, payer) - due + due * (Contribution(fs, payer) / total)
  {
    var debited := Adjust(ws, FindWallet(ws, payer).value, -due, now);
    SameOwnersSameLookup(debited, ws, payer);
    LenderReceivesShare(debited, fs, due, total, loan, now, payer);
  }

  /** Every other wallet holder gains their share of the payment, and a user without a wallet nothing. */
  lemma {:induction false} SettleOthers(ws: seq<Wallet>, payer: UserId, fs: seq<Funding>, due: real, total: real,
                     loan: LoanId, now: Time, u: UserId)
    requires FindWallet(ws, payer).Some? && total != 0.0 && u != payer
    ensures var r := Settle(ws, FindWallet(ws, payer).value, fs, due, total, loan, now).wallets;
      && (FindWallet(ws, u).Some? ==> BalanceOf(r, u) == BalanceOf(ws, u) + due * (Contribution(fs, u) / total))
      && (FindWallet(ws, u).None? ==> BalanceOf(r, u) == 0.0)
  {
    var bw := FindWallet(ws, payer).value;
    var debited := Adjust(ws, bw, -due, now);
    SameOwnersSameLookup(debited, ws, u);
    LenderReceivesShare(debited, fs, due, total, loan, now, u);
    if FindWallet(ws, u).Some? {
      assert debited[FindWallet(ws, u).value] == ws[FindWallet(ws, u).value];
    }
  }

  /** Nobody funded the loan: the payment leaves the payer, whose wallet is at bw, and reaches no one. */
  lemma {:induction false} SettleUnfunded(ws: seq<Wallet>, bw: WalletId, payer: UserId, due: real, loan: LoanId, now: Time)
    requires FindWallet(ws, payer) == Some(bw)
    ensures var p := Settle(ws, bw, [], due, 0.0, loan, now);
      && TotalBalance(p.wallets) == TotalBalance(ws) - due
      && BalanceOf(p.wallets, payer) == BalanceOf(ws, payer) - due
      && p.txns == []
  {
    var debited := Adjust(ws, bw, -due, now);
    assert Settle(ws, bw, [], due, 0.0, loan, now) == Payout(debited, []);
    assert TotalBalance(debited) == TotalBalance(ws) - due by {
      AdjustTotal(ws, bw, -due, now);
    }
    assert BalanceOf(debited, payer) == BalanceOf(ws, payer) - due by {
      SameOwnersSameLookup(debited, ws, payer);
    }
  }

  // ---------------------------------------------------------------- the schedule page

  /**
   * `Loan.Repayments`: the loan's installments, each as often as the table holds it
   * (InstallmentsOfCounts), in table order (InstallmentsOfKeepsOrder).
   */
  function InstallmentsOf(rs: seq<Repayment>, loan: LoanId): (r: seq<Repayment>)
    ensures forall x :: x in r <==> x in rs && x.loan == loan
    decreases |rs|
  {
    if |rs| == 0 then []
    else
      var last := rs[|rs| - 1];
      var prefix := InstallmentsOf(rs[..|rs| - 1], loan);
      assert rs == rs[..|rs| - 1] + [last];
      if last.loan == loan then prefix + [last] else prefix
  }

  /** The loan's installments hold each of its rows as many times as the table does, and no other row. */
  lemma {:induction false} InstallmentsOfCounts(rs: seq<Repayment>, loan: LoanId)
    ensures forall x :: multiset(InstallmentsOf(rs, loan))[x] == if x.loan == loan then multiset(rs)[x] else 0
    decreases |rs|
  {
    if |rs| > 0 {
      var m := |rs| - 1;
      InstallmentsOfCounts(rs[..m], loan);
      assert rs == rs[..m] + [rs[m]];
    }
  }

  /** The installments of a prefix of the table are a prefix of the loan's installments. */
  lemma {:induction false} InstallmentsOfKeepsOrder(rs: seq<Repayment>, loan: LoanId, n: nat)
    requires n <= |rs|
    ensures InstallmentsOf(rs[..n], loan) <= InstallmentsOf(rs, loan)
    decreases |rs|
  {
    if n < |rs| {
      var m := |rs| - 1;
      var a, b := InstallmentsOf(rs[..n], loan), InstallmentsOf(rs[..m], loan);
      var c := InstallmentsOf(rs, loan);
      assert a <= b by {
        assert rs[..m][..n] == rs[..n];
        InstallmentsOfKeepsOrder(rs[..m], loan, n);
      }
      assert b <= c by {
        assert c == b + (if rs[m].loan == loan then [rs[m]] else []);
      }
    } else {
      assert rs[..n] == rs;
    }
  }

  /** `Count(r => r.Status == "Paid")`. */
  function PaidCount(xs: seq<Repayment>): nat
    decreases |xs|
  {
    if |xs| == 0 then 0
    else PaidCount(xs[..|xs| - 1]) + (if xs[|xs| - 1].status == RepaymentStatus.Paid then 1 else 0)
  }

  /** `Where(r => r.Status == "Paid").Sum(r => r.PrincipalAmount + r.InterestAmount)`. */
  function PaidTotal(xs: seq<Repayment>): real
    decreases |xs|
  {
    if |xs| == 0 then 0.0
    else PaidTotal(xs[..|xs| - 1]) + (if xs[|xs| - 1].status == RepaymentStatus.Paid then Due(xs[|xs| - 1]) else 0.0)
  }

  /** The paid count never exceeds the number of installments, and reaches it exactly when all are paid. */
  lemma {:induction false} PaidCountBounds(xs: seq<Repayment>)
    ensures PaidCount(xs) <= |xs|
    ensures PaidCount(xs) == |xs| <==> forall i :: 0 <= i < |xs| ==> xs[i].status == RepaymentStatus.Paid
    decreases |xs|
  {
    if |xs| > 0 {
      var n := |xs| - 1;
      PaidCountBounds(xs[..n]);
      assert forall i :: 0 <= i < n ==> xs[..n][i] == xs[i];
    }
  }

  /** Counting and summing the paid installments of two lists laid end to end. */
  lemma {:induction false} PaidOfConcat(a: seq<Repayment>, b: seq<Repayment>)
    ensures PaidCount(a + b) == PaidCount(a) + PaidCount(b)
    ensures PaidTotal(a + b) == PaidTotal(a) + PaidTotal(b)
    decreases |b|
  {
    if |b| > 0 {
      var n := |b| - 1;
      assert (a + b)[..|a + b| - 1] == a + b[..n];
      PaidOfConcat(a, b[..n]);
    } else {
      assert a + b == a;
    }
  }

  /** The paid count and the paid total do not depend on the order of the installments. */
  lemma {:induction false} PaidOfReorder(xs: seq<Repayment>, ys: seq<Repayment>)
    requires multiset(xs) == multiset(ys)
    ensures PaidCount(xs) == PaidCount(ys) && PaidTotal(xs) == PaidTotal(ys)
    decreases |xs|
  {
    if |xs| > 0 {
      var n := |xs| - 1;
      var x := xs[n];
      assert x in multiset(ys) by {
        assert xs == xs[..n] + [x];
      }
      var j :| 0 <= j < |ys| && ys[j] == x;
      var rest := ys[..j] + ys[j + 1..];
      assert multiset(rest) == multiset(xs[..n]) by {
        RemoveOne(xs, ys, j);
      }
      PaidOfReorder(xs[..n], rest);
      assert PaidCount(xs) == PaidCount(xs[..n]) + PaidCount([x]) && PaidTotal(xs) == PaidTotal(xs[..n]) + PaidTotal([x]) by {
        assert xs == xs[..n] + [x];
        PaidOfConcat(xs[..n], [x]);
      }
      assert PaidCount(ys) == PaidCount(rest) + PaidCount([x]) && PaidTotal(ys) == PaidTotal(rest) + PaidTotal([x]) by {
        assert ys == ys[..j] + [x] + ys[j + 1..];
        PaidOfConcat(ys[..j] + [x], ys[j + 1..]);
        PaidOfConcat(ys[..j], [x]);
        PaidOfConcat(ys[..j], ys[j + 1..]);
      }
    } else {
      assert |ys| == |multiset(ys)|;
    }
  }

  /** Taking the element at j out of ys, a permutation of xs, leaves a permutation of xs less its last element. */
  lemma {:induction false} RemoveOne(xs: seq<Repayment>, ys: seq<Repayment>, j: nat)
    requires multiset(xs) == multiset(ys) && |xs| > 0 && j < |ys| && ys[j] == xs[|xs| - 1]
    ensures multiset(ys[..j] + ys[j + 1..]) == multiset(xs[..|xs| - 1])
  {
    var n, x := |xs| - 1, ys[j];
    assert ys == ys[..j] + [x] + ys[j + 1..];
    assert xs == xs[..n] + [x];
    assert multiset(ys[..j] + ys[j + 1..]) == multiset(ys) - multiset{x};
    assert multiset(xs[..n]) == multiset(xs) - multiset{x};
  }

  /** Installments with non-negative amounts have a non-negative paid total. */
  lemma {:induction false} PaidTotalNonNegative(xs: seq<Repayment>)
    requires forall i :: 0 <= i < |xs| ==> xs[i].principal >= 0.0 && xs[i].interest >= 0.0
    ensures PaidTotal(xs) >= 0.0
    decreases |xs|
  {
    if |xs| > 0 {
      PaidTotalNonNegative(xs[..|xs| - 1]);
    }
  }

  /** The figures OnGetAsync shows for a loan. */
  datatype ScheduleView = ScheduleView(
    installments: seq<Repayment>,
    totalInterest: real,
    totalRepayment: real,
    weeklyPayment: real,
    paidCount: nat,
    totalPaid: real,
    totalRemaining: real,
    walletBalance: real)

  datatype SchedulePageResult = LoginRedirect | LoanMissing | Shown(view: ScheduleView)

  function ByDate(r: Repayment): int {
    r.scheduledDate
  }

  /**
   * OnGetAsync: a non-borrower is sent to the login page; a loan that does not exist or is
   * not the caller's shows nothing; otherwise the loan's installments in date order, the
   * interest and repayment totals (from the loan's amount and rate, whatever the
   * installments hold), the first installment's amount as the weekly payment, what has been
   * paid and what remains, and the caller's balance.
   */
  function SchedulePage(loans: seq<Loan>, rs: seq<Repayment>, ws: seq<Wallet>, loan: LoanId,
                        caller: UserId, role: string): (p: SchedulePageResult)
    ensures p == LoginRedirect <==> role != "Borrower"
    ensures p.Shown? <==> role == "Borrower" && loan < |loans| && loans[loan].borrower == caller
    ensures p.Shown? ==> var v := p.view;
      && SortedBy(v.installments, ByDate)
      && multiset(v.installments) == multiset(InstallmentsOf(rs, loan))
      && v.totalRepayment == loans[loan].amountRequested + v.totalInterest
      && v.totalInterest == LoanFunding.TotalInterest(loans[loan].amountRequested, loans[loan].interestRate)
      && v.totalRemaining == v.totalRepayment - v.totalPaid
      && v.paidCount == PaidCount(InstallmentsOf(rs, loan))
      && v.totalPaid == PaidTotal(InstallmentsOf(rs, loan))
      && v.paidCount <= |v.installments|
      && (v.paidCount == |v.installments| <==> AllPaid(rs, loan))
      && (|v.installments| == 0 ==> v.weeklyPayment == 0.0)
      && (|v.installments| > 0 ==>
            exists x :: (x in rs && x.loan == loan && v.weeklyPayment == Due(x)
                         && forall y :: y in rs && y.loan == loan ==> x.scheduledDate <= y.scheduledDate))
      && v.walletBalance == BalanceOf(ws, caller)
  {
    if role != "Borrower" then LoginRedirect
    else if loan >= |loans| || loans[loan].borrower != caller then LoanMissing
    else
      var l := loans[loan];
      var xs := SortBy(InstallmentsOf(rs, loan), ByDate);
      var interest := LoanFunding.TotalInterest(l.amountRequested, l.interestRate);
      var repayment := l.amountRequested + interest;
      var weekly := if |xs| == 0 then 0.0 else Due(xs[0]);
      var paid := PaidTotal(xs);
      SchedulePaidCount(rs, loan, xs);
      PaidOfReorder(xs, InstallmentsOf(rs, loan));
      if |xs| > 0 then
        FirstIsEarliest(rs, loan, xs);
        Shown(ScheduleView(xs, interest, repayment, weekly, PaidCount(xs), paid, repayment - paid,
                           BalanceOf(ws, caller)))
      else
        Shown(ScheduleView(xs, interest, repayment, weekly, PaidCount(xs), paid, repayment - paid,
                           BalanceOf(ws, caller)))
  }

  /** Over a reordering of the loan's installments, all paid means the loan's installments are all paid. */
  lemma {:induction false} SchedulePaidCount(rs: seq<Repayment>, loan: LoanId, xs: seq<Repayment>)
    requires multiset(xs) == multiset(InstallmentsOf(rs, loan))
    ensures PaidCount(xs) <= |xs|
    ensures PaidCount(xs) == |xs| <==> AllPaid(rs, loan)
  {
    PaidCountBounds(xs);
    var ys := InstallmentsOf(rs, loan);
    if PaidCount(xs) == |xs| {
      forall i | 0 <= i < |rs| && rs[i].loan == loan ensures rs[i].status == RepaymentStatus.Paid {
        assert rs[i] in ys;
        assert rs[i] in multiset(xs);
        var k :| 0 <= k < |xs| && xs[k] == rs[i];
      }
    }
    if AllPaid(rs, loan) {
      forall k | 0 <= k < |xs| ensures xs[k].status == RepaymentStatus.Paid {
        assert xs[k] in multiset(ys);
        assert xs[k] in ys;
        var i :| 0 <= i < |rs| && rs[i] == xs[k];
      }
    }
  }

  /** The head of the date-ordered list is an installment of the loan with the earliest date. */
  lemma {:induction false} FirstIsEarliest(rs: seq<Repayment>, loan: LoanId, xs: seq<Repayment>)
    requires multiset(xs) == multiset(InstallmentsOf(rs, loan)) && SortedBy(xs, ByDate) && |xs| > 0
    ensures xs[0] in rs && xs[0].loan == loan
    ensures forall y :: y in rs && y.loan == loan ==> xs[0].scheduledDate <= y.scheduledDate
  {
    var ys := InstallmentsOf(rs, loan);
    assert xs[0] in multiset(ys);
    forall y | y in rs && y.loan == loan ensures xs[0].scheduledDate <= y.scheduledDate {
      assert y in multiset(xs);
      var k :| 0 <= k < |xs| && xs[k] == y;
      assert ByDate(xs[0]) <= ByDate(xs[k]);
    }
  }
}
