/**
 * The consistency the ledger's tables keep from one request to the next: rows refer to rows
 * that exist, no wallet is overdrawn, e-mail addresses are unique, and every loan's status
 * agrees with what it has been funded and with its installments. Each request handler is
 * shown to keep the loan lifecycle by one lemma here.
 */
module Invariants {
  import opened Models
  import opened Tables
  import opened LoanFunding
  import Repayments
  import Approvals

  // ---------------------------------------------------------------- referential integrity

  predicate WalletsOwned(ws: seq<Wallet>, users: nat) {
    forall i :: 0 <= i < |ws| ==> ws[i].owner < users
  }

  predicate TxnsOfWallets(ts: seq<Txn>, wallets: nat) {
    forall i :: 0 <= i < |ts| ==> ts[i].wallet < wallets
  }

  predicate LoansOfUsers(loans: seq<Loan>, users: nat) {
    forall i :: 0 <= i < |loans| ==> loans[i].borrower < users
  }

  /** Funding rows refer to existing loans and carry positive amounts. */
  predicate FundingsOfLoans(fs: seq<Funding>, loans: nat) {
    && (forall i :: 0 <= i < |fs| ==> fs[i].loan < loans)
    && AllPositive(fs)
  }

  /** Installments refer to existing loans and carry non-negative amounts. */
  predicate InstallmentsWellFormed(rs: seq<Repayment>, loans: nat) {
    && Repayments.InstallmentsOfLoans(rs, loans)
    && (forall i :: 0 <= i < |rs| ==> rs[i].principal >= 0.0 && rs[i].interest >= 0.0)
  }

  predicate ProfilesOfUsers(ps: seq<UserProfile>, users: nat) {
    forall i :: 0 <= i < |ps| ==> ps[i].user < users
  }

  predicate DocsOfUsers(ds: seq<KycDoc>, users: nat) {
    forall i :: 0 <= i < |ds| ==> ds[i].user < users
  }

  /** A user holds at most one wallet, so looking a wallet up by owner is unambiguous. */
  predicate OneWalletPerUser(ws: seq<Wallet>) {
    forall i, j :: 0 <= i < j < |ws| ==> ws[i].owner != ws[j].owner
  }

  /** Every stored user fits the Users table's column widths. */
  predicate UsersFitColumns(users: seq<User>) {
    forall i :: 0 <= i < |users| ==> FitsUserColumns(users[i])
  }

  /** No two accounts share an e-mail address. */
  predicate DistinctEmails(users: seq<User>) {
    forall i, j :: 0 <= i < j < |users| ==> users[i].email != users[j].email
  }

  // ---------------------------------------------------------------- the loan lifecycle

  /**
   * A loan asks for a positive amount at a non-negative rate and never receives more than it
   * asked for. Until it is fully funded it is Pending, Approved or Rejected and has no
   * installments; once fully funded it has exactly four, and it is Funded while none is paid,
   * Completed once all are paid and Repaying in between.
   */
  predicate LoanConsistent(loans: seq<Loan>, fs: seq<Funding>, rs: seq<Repayment>, l: LoanId)
    requires l < |loans|
  {
    var x := loans[l];
    var funded := FundedAmount(fs, l);
    && x.amountRequested > 0.0 && x.interestRate >= 0.0
    && funded <= x.amountRequested
    && (funded < x.amountRequested ==>
          && (x.status == LoanStatus.Pending || x.status == LoanStatus.Approved || x.status == LoanStatus.Rejected)
          && CountFor(rs, l) == 0)
    && (funded == x.amountRequested ==>
          && CountFor(rs, l) == 4
          && x.status == (if AllPaid(rs, l) then LoanStatus.Completed
                          else if NonePaid(rs, l) then LoanStatus.Funded
                          else LoanStatus.Repaying))
  }

  predicate Lifecycle(loans: seq<Loan>, fs: seq<Funding>, rs: seq<Repayment>) {
    forall l :: 0 <= l < |loans| ==> LoanConsistent(loans, fs, rs, l)
  }

  /** A list whose installments all belong to one loan counts them all for it. */
  lemma {:induction false} CountOfOneLoan(s: seq<Repayment>, loan: LoanId)
    requires forall k :: 0 <= k < |s| ==> s[k].loan == loan
    ensures CountFor(s, loan) == |s|
    decreases |s|
  {
    if |s| > 0 {
      CountOfOneLoan(s[..|s| - 1], loan);
    }
  }

  /** Appending installments of one loan changes nothing for any other loan. */
  lemma {:induction false} AppendOtherLoan(rs: seq<Repayment>, s: seq<Repayment>, loan: LoanId, l: LoanId)
    requires forall k :: 0 <= k < |s| ==> s[k].loan == loan
    requires l != loan
    ensures CountFor(rs + s, l) == CountFor(rs, l)
    ensures AllPaid(rs + s, l) == AllPaid(rs, l) && NonePaid(rs + s, l) == NonePaid(rs, l)
  {
    CountForConcat(rs, s, l);
    CountForZero(s, l);
    assert forall i :: 0 <= i < |rs| ==> (rs + s)[i] == rs[i];
    assert forall i :: |rs| <= i < |rs + s| ==> (rs + s)[i].loan == loan;
  }

  /** Updating one installment changes nothing for the other loans. */
  lemma {:induction false} UpdateOtherLoan(rs: seq<Repayment>, id: nat, r: Repayment, l: LoanId)
    requires id < |rs| && r.loan == rs[id].loan && l != r.loan
    ensures CountFor(rs[id := r], l) == CountFor(rs, l)
    ensures AllPaid(rs[id := r], l) == AllPaid(rs, l) && NonePaid(rs[id := r], l) == NonePaid(rs, l)
  {
    CountForUpdate(rs, id, r, l);
    assert forall i :: 0 <= i < |rs| && i != id ==> rs[id := r][i] == rs[i];
    assert rs[id := r][id].loan != l;
  }

  /**
   * A loan with an installment has been fully funded by at least one funding row, so a
   * payment on it always has lenders to go to and a positive total to divide by.
   */
  lemma {:induction false} InstallmentMeansFunded(loans: seq<Loan>, fs: seq<Funding>, rs: seq<Repayment>, id: RepaymentId)
    requires Lifecycle(loans, fs, rs) && Repayments.InstallmentsOfLoans(rs, |loans|) && AllPositive(fs)
    requires id < |rs|
    ensures var loan := rs[id].loan;
      && FundedAmount(fs, loan) == loans[loan].amountRequested > 0.0
      && |FundingsOf(fs, loan)| > 0
  {
    var loan := rs[id].loan;
    assert LoanConsistent(loans, fs, rs, loan);
    CountForZero(rs, loan);
  }

  /** The amount funded is never negative, and positive exactly when some row funded the loan. */
  lemma {:induction false} FundedTotalPositive(fs: seq<Funding>, loan: LoanId)
    requires AllPositive(fs)
    ensures FundedAmount(fs, loan) >= 0.0
    ensures |FundingsOf(fs, loan)| > 0 ==> FundedAmount(fs, loan) > 0.0
  {
    FundingsOfPositive(fs, loan);
    SumOfPositives(FundingsOf(fs, loan));
  }

  /**
   * Fund keeps the lifecycle: an accepted contribution that completes the funding marks the
   * loan Funded and appends its four-installment schedule; any other accepted contribution
   * only adds the funding row.
   */
  lemma {:induction false} LifecycleAfterFund(loans: seq<Loan>, fs: seq<Funding>, rs: seq<Repayment>,
                                              loan: LoanId, lender: UserId, amount: real, now: Time)
    requires Lifecycle(loans, fs, rs)
    requires loan < |loans| && 0.0 < amount <= Remaining(loans, fs, loan)
    ensures var x := loans[loan];
      var full := FundedAmount(fs, loan) + amount >= x.amountRequested;
      Lifecycle(if full then loans[loan := MarkFunded(x, now)] else loans,
                fs + [Funding(loan, lender, amount, now)],
                rs + (if full then Schedule(loan, x.amountRequested, x.interestRate, now) else []))
  {
    var x := loans[loan];
    var full := FundedAmount(fs, loan) + amount >= x.amountRequested;
    var loans' := if full then loans[loan := MarkFunded(x, now)] else loans;
    var f := Funding(loan, lender, amount, now);
    var sched := if full then Schedule(loan, x.amountRequested, x.interestRate, now) else [];
    var rs' := rs + sched;
    ScheduleRepaysLoan(loan, x.amountRequested, x.interestRate, now);
    assert forall k :: 0 <= k < |sched| ==> sched[k].loan == loan && sched[k].status == RepaymentStatus.Pending;
    forall l | 0 <= l < |loans'| ensures LoanConsistent(loans', fs + [f], rs', l) {
      assert LoanConsistent(loans, fs, rs, l);
      FundedAmountAppend(fs, f, l);
      if l != loan {
        AppendOtherLoan(rs, sched, loan, l);
      } else {
        CountForConcat(rs, sched, loan);
        CountOfOneLoan(sched, loan);
        if full {
          assert FundedAmount(fs, loan) < x.amountRequested;
          CountForZero(rs, loan);
          assert forall i :: 0 <= i < |rs| ==> rs'[i] == rs[i];
          assert NonePaid(rs', loan);
          assert rs'[|rs|] == sched[0];
        }
      }
    }
  }

  /**
   * PayInstallment keeps the lifecycle: the paid installment's loan becomes Completed when all
   * its installments are paid and Repaying otherwise.
   */
  lemma {:induction false} LifecycleAfterPay(loans: seq<Loan>, fs: seq<Funding>, rs: seq<Repayment>,
                                             id: RepaymentId, now: Time)
    requires Lifecycle(loans, fs, rs) && Repayments.InstallmentsOfLoans(rs, |loans|)
    requires id < |rs|
    ensures var loan := rs[id].loan;
      var rs' := rs[id := rs[id].(status := RepaymentStatus.Paid, paidAt := Some(now))];
      Lifecycle(loans[loan := loans[loan].(status := if AllPaid(rs', loan) then LoanStatus.Completed
                                                     else LoanStatus.Repaying)],
                fs, rs')
  {
    var loan := rs[id].loan;
    var paid := rs[id].(status := RepaymentStatus.Paid, paidAt := Some(now));
    var rs' := rs[id := paid];
    var loans' := loans[loan := loans[loan].(status := if AllPaid(rs', loan) then LoanStatus.Completed
                                                       else LoanStatus.Repaying)];
    forall l | 0 <= l < |loans'| ensures LoanConsistent(loans', fs, rs', l) {
      assert LoanConsistent(loans, fs, rs, l);
      if l != loan {
        UpdateOtherLoan(rs, id, paid, l);
      } else {
        CountForZero(rs, loan);
        CountForUpdate(rs, id, paid, loan);
        assert rs'[id] == paid;
      }
    }
  }

  /**
   * DecideLoan keeps the lifecycle: a pending loan is not yet fully funded, and the decision
   * only moves it among Pending, Approved and Rejected.
   */
  lemma {:induction false} LifecycleAfterDecide(loans: seq<Loan>, fs: seq<Funding>, rs: seq<Repayment>,
                                                loan: LoanId, action: string, admin: UserId, now: Time)
    requires Lifecycle(loans, fs, rs)
    requires loan < |loans| && loans[loan].status == LoanStatus.Pending
    ensures Lifecycle(loans[loan := Approvals.Decide(loans[loan], action, admin, now)], fs, rs)
  {
    var loans' := loans[loan := Approvals.Decide(loans[loan], action, admin, now)];
    forall l | 0 <= l < |loans'| ensures LoanConsistent(loans', fs, rs, l) {
      assert LoanConsistent(loans, fs, rs, l);
    }
  }

  /** CreateLoan keeps the lifecycle: a new pending request has no funding and no installment. */
  lemma {:induction false} LifecycleAfterCreate(loans: seq<Loan>, fs: seq<Funding>, rs: seq<Repayment>, x: Loan)
    requires Lifecycle(loans, fs, rs) && FundingsOfLoans(fs, |loans|) && Repayments.InstallmentsOfLoans(rs, |loans|)
    requires x.amountRequested > 0.0 && x.interestRate >= 0.0 && x.status == LoanStatus.Pending
    ensures Lifecycle(loans + [x], fs, rs)
  {
    var loans' := loans + [x];
    forall l | 0 <= l < |loans'| ensures LoanConsistent(loans', fs, rs, l) {
      if l < |loans| {
        assert LoanConsistent(loans, fs, rs, l);
        assert loans'[l] == loans[l];
      } else {
        FundedAmountUnreferenced(fs, l);
        CountForZero(rs, l);
      }
    }
  }

  // ---------------------------------------------------------------- the whole database

  /** The rows of every table the core reads or writes. */
  datatype Snapshot = Snapshot(users: seq<User>, profiles: seq<UserProfile>, wallets: seq<Wallet>,
                               txns: seq<Txn>, loans: seq<Loan>, fundings: seq<Funding>,
                               repayments: seq<Repayment>, kycDocs: seq<KycDoc>)

  predicate WalletsSound(ws: seq<Wallet>, users: nat) {
    WalletsOwned(ws, users) && NoOverdraft(ws) && OneWalletPerUser(ws)
  }

  predicate Consistent(d: Snapshot) {
    && WalletsSound(d.wallets, |d.users|)
    && TxnsOfWallets(d.txns, |d.wallets|)
    && LoansOfUsers(d.loans, |d.users|)
    && FundingsOfLoans(d.fundings, |d.loans|)
    && InstallmentsWellFormed(d.repayments, |d.loans|)
    && ProfilesOfUsers(d.profiles, |d.users|)
    && DocsOfUsers(d.kycDocs, |d.users|)
    && DistinctEmails(d.users)
    && UsersFitColumns(d.users)
    && Lifecycle(d.loans, d.fundings, d.repayments)
    && Repayments.LendersHaveWallets(d.wallets, d.fundings)
  }

  /** A change of wallets in which every wallet holder still holds one keeps every lender's wallet. */
  lemma {:induction false} HoldersKeepWallets(ws: seq<Wallet>, ws': seq<Wallet>, fs: seq<Funding>)
    requires Repayments.LendersHaveWallets(ws, fs)
    requires forall u :: FindWallet(ws, u).Some? ==> FindWallet(ws', u).Some?
    ensures Repayments.LendersHaveWallets(ws', fs)
  {
    forall i | 0 <= i < |fs| ensures FindWallet(ws', fs[i].lender).Some? {
      assert FindWallet(ws, fs[i].lender).Some?;
    }
  }

  /** Crediting a wallet, opened or not, takes no wallet from anyone. */
  lemma {:induction false} CreditOrOpenKeepsLenders(ws: seq<Wallet>, owner: UserId, amount: real, now: Time, fs: seq<Funding>)
    requires Repayments.LendersHaveWallets(ws, fs)
    ensures Repayments.LendersHaveWallets(CreditOrOpen(ws, owner, amount, now), fs)
  {
    CreditOrOpenEffect(ws, owner, amount, now);
    HoldersKeepWallets(ws, CreditOrOpen(ws, owner, amount, now), fs);
  }

  /**
   * Every lender of a loan holds a wallet when every lender of the table does: the rows of
   * FundingsOf are rows of the table.
   */
  lemma {:induction false} LendersOfLoan(ws: seq<Wallet>, fs: seq<Funding>, loan: LoanId)
    requires Repayments.LendersHaveWallets(ws, fs)
    ensures Repayments.LendersHaveWallets(ws, FundingsOf(fs, loan))
  {
    var mine := FundingsOf(fs, loan);
    forall i | 0 <= i < |mine| ensures FindWallet(ws, mine[i].lender).Some? {
      assert mine[i] in fs;
      var j :| 0 <= j < |fs| && fs[j] == mine[i];
    }
  }

  /** Logging transactions of existing wallets keeps every transaction's wallet in range, also as wallets are added. */
  lemma {:induction false} TxnsAppended(ts: seq<Txn>, extra: seq<Txn>, n: nat, m: nat)
    requires TxnsOfWallets(ts, n) && n <= m && TxnsOfWallets(extra, m)
    ensures TxnsOfWallets(ts + extra, m)
  {
  }

  /** Changing one balance to a non-negative value keeps the wallets sound. */
  lemma {:induction false} AdjustKeepsSound(ws: seq<Wallet>, i: WalletId, delta: real, now: Time, users: nat)
    requires WalletsSound(ws, users) && i < |ws| && ws[i].balance + delta >= 0.0
    ensures WalletsSound(Adjust(ws, i, delta, now), users)
  {
  }

  /** Crediting a registered owner, opening their wallet if need be, keeps the wallets sound. */
  lemma {:induction false} CreditOrOpenKeepsSound(ws: seq<Wallet>, owner: UserId, amount: real, now: Time, users: nat)
    requires WalletsSound(ws, users) && owner < users && amount >= 0.0
    ensures WalletsSound(CreditOrOpen(ws, owner, amount, now), users)
  {
    if FindWallet(ws, owner).None? {
      var grown := ws + [EmptyWallet(owner, now)];
      assert WalletsSound(grown, users);
      AdjustKeepsSound(grown, |ws|, amount, now, users);
    } else {
      AdjustKeepsSound(ws, FindWallet(ws, owner).value, amount, now, users);
    }
  }

  /** Distributing non-negative shares keeps the wallets sound. */
  lemma {:induction false} DistributeKeepsSound(ws: seq<Wallet>, fs: seq<Funding>, payment: real, total: real,
                             loan: LoanId, now: Time, users: nat)
    requires WalletsSound(ws, users) && payment >= 0.0 && total > 0.0 && AllPositive(fs)
    ensures WalletsSound(Repayments.Distribute(ws, fs, payment, total, loan, now).wallets, users)
  {
    Repayments.DistributeKeepsNoOverdraft(ws, fs, payment, total, loan, now);
  }

  /** The wallets after a settled payment stay sound when the payer's balance covered the payment. */
  lemma {:induction false} SettleKeepsSound(ws: seq<Wallet>, bw: WalletId, fs: seq<Funding>, due: real, total: real,
                         loan: LoanId, now: Time, users: nat)
    requires WalletsSound(ws, users) && bw < |ws| && 0.0 <= due <= ws[bw].balance
    requires total > 0.0 && AllPositive(fs)
    ensures WalletsSound(Repayments.Settle(ws, bw, fs, due, total, loan, now).wallets, users)
    ensures |Repayments.Settle(ws, bw, fs, due, total, loan, now).wallets| == |ws|
  {
    AdjustKeepsSound(ws, bw, -due, now, users);
    DistributeKeepsSound(Adjust(ws, bw, -due, now), fs, due, total, loan, now, users);
  }

  // ---------------------------------------------------------------- what the handlers do to it

  /**
   * What Deposit does with an accepted amount: the owner's wallet, opened with balance 0
   * when missing, is credited, and a "Deposit" transaction with no related loan is logged
   * against it.
   */
  function DepositEffect(d: Snapshot, owner: UserId, amount: real, now: Time): Snapshot {
    var ws := CreditOrOpen(d.wallets, owner, amount, now);
    d.(wallets := ws, txns := d.txns + [Txn(FindWallet(ws, owner).value, "Deposit", amount, RWF, None, now)])
  }

  /**
   * The database after an accepted contribution: the funding row; the transfer from the
   * lender's wallet to the borrower's; a Debit transaction on the one and a Credit on the
   * other; and, when the contribution completes the funding, the loan marked Funded and its
   * four installments.
   */
  function FundEffect(d: Snapshot, loan: LoanId, lender: UserId, amount: real, now: Time): Snapshot
    requires FundDecision(d.loans, d.fundings, d.wallets, loan, lender, amount).Contributed?
  {
    var x := d.loans[loan];
    var full := FundDecision(d.loans, d.fundings, d.wallets, loan, lender, amount).fullyFunded;
    var lw := FindWallet(d.wallets, lender).value;
    var ws := Transfer(d.wallets, lw, x.borrower, amount, now);
    var bw := FindWallet(ws, x.borrower).value;
    d.(fundings := d.fundings + [Funding(loan, lender, amount, now)],
       wallets := ws,
       txns := d.txns + [Txn(lw, "Debit", amount, RWF, Some(loan), now), Txn(bw, "Credit", amount, RWF, Some(loan), now)],
       loans := if full then d.loans[loan := MarkFunded(x, now)] else d.loans,
       repayments := d.repayments + (if full then Schedule(loan, x.amountRequested, x.interestRate, now) else []))
  }

  /**
   * The database after a settled payment: the payer's debit and the lenders' shares (Settle),
   * the payer's "LoanRepayment" transaction followed by the lenders', the installment marked
   * paid, and the loan Completed once all its installments are paid and Repaying otherwise.
   */
  function PayEffect(d: Snapshot, id: RepaymentId, caller: UserId, now: Time): Snapshot
    requires Repayments.InstallmentsOfLoans(d.repayments, |d.loans|) && AllPositive(d.fundings)
    requires Repayments.PayDecision(d.loans, d.repayments, d.wallets, id, caller, "Borrower") == Repayments.Settled
  {
    var inst := d.repayments[id];
    var fs := FundingsOf(d.fundings, inst.loan);
    var bw := FindWallet(d.wallets, caller).value;
    var due := Repayments.Due(inst);
    FundedTotalPositive(d.fundings, inst.loan);
    var p := Repayments.Settle(d.wallets, bw, fs, due, SumAmounts(fs), inst.loan, now);
    var paid := d.repayments[id := inst.(status := RepaymentStatus.Paid, paidAt := Some(now))];
    d.(wallets := p.wallets,
       txns := d.txns + [Txn(bw, "LoanRepayment", due, RWF, Some(inst.loan), now)] + p.txns,
       repayments := paid,
       loans := d.loans[inst.loan := d.loans[inst.loan].(status := if AllPaid(paid, inst.loan)
                                                                  then LoanStatus.Completed
                                                                  else LoanStatus.Repaying)])
  }

  /**
   * An accepted contribution keeps the database consistent: the funding row, the transfer,
   * and, when it completes the funding, the Funded status and the schedule.
   */
  lemma {:induction false} FundKeepsConsistent(d: Snapshot, loan: LoanId, lender: UserId, amount: real, now: Time)
    requires Consistent(d)
    requires FundDecision(d.loans, d.fundings, d.wallets, loan, lender, amount).Contributed?
    ensures Consistent(FundEffect(d, loan, lender, amount, now))
  {
    var x := d.loans[loan];
    var lw := FindWallet(d.wallets, lender).value;
    var full := FundDecision(d.loans, d.fundings, d.wallets, loan, lender, amount).fullyFunded;
    assert full == (FundedAmount(d.fundings, loan) + amount >= x.amountRequested);
    FundKeepsWallets(d.wallets, d.txns, |d.users|, lw, x.borrower, loan, amount, now);
    FundKeepsLoanTables(d, loan, lender, amount, now);
    FundKeepsLenders(d.wallets, d.fundings, lw, lender, x.borrower, Funding(loan, lender, amount, now), now);
  }

  /** The transfer takes no wallet from anyone, and the new funding's lender holds one. */
  lemma {:induction false} FundKeepsLenders(ws: seq<Wallet>, fs: seq<Funding>, lw: WalletId, lender: UserId,
                                            borrower: UserId, f: Funding, now: Time)
    requires Repayments.LendersHaveWallets(ws, fs) && FindWallet(ws, lender) == Some(lw) && f.lender == lender
    ensures Repayments.LendersHaveWallets(Transfer(ws, lw, borrower, f.amount, now), fs + [f])
  {
    var ws' := Transfer(ws, lw, borrower, f.amount, now);
    TransferEffect(ws, lw, lender, borrower, f.amount, now);
    HoldersKeepWallets(ws, ws', fs);
    assert (fs + [f])[|fs|] == f;
    forall i | 0 <= i < |fs| ensures (fs + [f])[i] == fs[i] {}
  }

  /** The transfer of a contribution keeps the wallets sound and the transactions on existing wallets. */
  lemma {:induction false} FundKeepsWallets(ws: seq<Wallet>, ts: seq<Txn>, users: nat, lw: WalletId, borrower: UserId,
                         loan: LoanId, amount: real, now: Time)
    requires WalletsSound(ws, users) && TxnsOfWallets(ts, |ws|)
    requires lw < |ws| && 0.0 < amount <= ws[lw].balance && borrower < users
    ensures var ws' := Transfer(ws, lw, borrower, amount, now);
      var bw := FindWallet(ws', borrower).value;
      && WalletsSound(ws', users)
      && TxnsOfWallets(ts + [Txn(lw, "Debit", amount, RWF, Some(loan), now), Txn(bw, "Credit", amount, RWF, Some(loan), now)], |ws'|)
  {
    var ws' := Transfer(ws, lw, borrower, amount, now);
    var bw := FindWallet(ws', borrower).value;
    AdjustKeepsSound(ws, lw, -amount, now, users);
    CreditOrOpenKeepsSound(Adjust(ws, lw, -amount, now), borrower, amount, now, users);
    TxnsAppended(ts, [Txn(lw, "Debit", amount, RWF, Some(loan), now), Txn(bw, "Credit", amount, RWF, Some(loan), now)],
                 |ws|, |ws'|);
  }

  /** An accepted contribution keeps the loan, funding and installment tables consistent. */
  lemma {:induction false} FundKeepsLoanTables(d: Snapshot, loan: LoanId, lender: UserId, amount: real, now: Time)
    requires Consistent(d) && loan < |d.loans| && 0.0 < amount <= Remaining(d.loans, d.fundings, loan)
    ensures var x := d.loans[loan];
      var full := FundedAmount(d.fundings, loan) + amount >= x.amountRequested;
      var loans' := if full then d.loans[loan := MarkFunded(x, now)] else d.loans;
      var fs' := d.fundings + [Funding(loan, lender, amount, now)];
      var rs' := d.repayments + (if full then Schedule(loan, x.amountRequested, x.interestRate, now) else []);
      && LoansOfUsers(loans', |d.users|)
      && FundingsOfLoans(fs', |loans'|)
      && InstallmentsWellFormed(rs', |loans'|)
      && Lifecycle(loans', fs', rs')
  {
    var x := d.loans[loan];
    var full := FundedAmount(d.fundings, loan) + amount >= x.amountRequested;
    LifecycleAfterFund(d.loans, d.fundings, d.repayments, loan, lender, amount, now);
    var sched := if full then Schedule(loan, x.amountRequested, x.interestRate, now) else [];
    ScheduleRepaysLoan(loan, x.amountRequested, x.interestRate, now);
    assert LoanConsistent(d.loans, d.fundings, d.repayments, loan);
    assert InstallmentsWellFormed(d.repayments + sched, |d.loans|);
  }

  /**
   * A settled payment keeps the database consistent: the payer's debit, the lenders' shares,
   * the installment marked paid and the loan's new status.
   */
  lemma {:induction false} PayKeepsConsistent(d: Snapshot, id: RepaymentId, caller: UserId, now: Time)
    requires Consistent(d)
    requires Repayments.PayDecision(d.loans, d.repayments, d.wallets, id, caller, "Borrower") == Repayments.Settled
    ensures Consistent(PayEffect(d, id, caller, now))
  {
    var inst := d.repayments[id];
    var fs := FundingsOf(d.fundings, inst.loan);
    InstallmentMeansFunded(d.loans, d.fundings, d.repayments, id);
    FundedTotalPositive(d.fundings, inst.loan);
    FundingsOfPositive(d.fundings, inst.loan);
    PayKeepsWallets(d.wallets, d.txns, |d.users|, FindWallet(d.wallets, caller).value, fs,
                    Repayments.Due(inst), SumAmounts(fs), inst.loan, now);
    LifecycleAfterPay(d.loans, d.fundings, d.repayments, id, now);
    Repayments.SettleKeepsLenders(d.wallets, FindWallet(d.wallets, caller).value, fs, Repayments.Due(inst),
                                  SumAmounts(fs), inst.loan, now, d.fundings);
  }

  /**
   * A settled payment moves money between wallets and creates or destroys none: the payer
   * loses the amount due and the lenders, who all hold wallets, gain all of it.
   */
  lemma {:induction false} PayConserves(d: Snapshot, id: RepaymentId, caller: UserId, now: Time)
    requires Consistent(d)
    requires Repayments.PayDecision(d.loans, d.repayments, d.wallets, id, caller, "Borrower") == Repayments.Settled
    ensures TotalBalance(PayEffect(d, id, caller, now).wallets) == TotalBalance(d.wallets)
  {
    var inst := d.repayments[id];
    var fs := FundingsOf(d.fundings, inst.loan);
    InstallmentMeansFunded(d.loans, d.fundings, d.repayments, id);
    FundedTotalPositive(d.fundings, inst.loan);
    LendersOfLoan(d.wallets, d.fundings, inst.loan);
    Repayments.SettleConserves(d.wallets, FindWallet(d.wallets, caller).value, fs, Repayments.Due(inst), inst.loan, now);
  }

  /** A settled payment keeps the wallets sound and the transactions on existing wallets. */
  lemma {:induction false} PayKeepsWallets(ws: seq<Wallet>, ts: seq<Txn>, users: nat, bw: WalletId, fs: seq<Funding>,
                        due: real, total: real, loan: LoanId, now: Time)
    requires WalletsSound(ws, users) && TxnsOfWallets(ts, |ws|)
    requires bw < |ws| && 0.0 <= due <= ws[bw].balance && total > 0.0 && AllPositive(fs)
    ensures var p := Repayments.Settle(ws, bw, fs, due, total, loan, now);
      && WalletsSound(p.wallets, users)
      && TxnsOfWallets(ts + [Txn(bw, "LoanRepayment", due, RWF, Some(loan), now)] + p.txns, |p.wallets|)
  {
    SettleKeepsSound(ws, bw, fs, due, total, loan, now, users);
    var p := Repayments.Settle(ws, bw, fs, due, total, loan, now);
    Repayments.DistributeLogs(Adjust(ws, bw, -due, now), fs, due, total, loan, now);
    TxnsAppended(ts, [Txn(bw, "LoanRepayment", due, RWF, Some(loan), now)] + p.txns, |ws|, |p.wallets|);
    assert ts + [Txn(bw, "LoanRepayment", due, RWF, Some(loan), now)] + p.txns
        == ts + ([Txn(bw, "LoanRepayment", due, RWF, Some(loan), now)] + p.txns);
  }

  /** A deposit keeps the database consistent. */
  lemma {:induction false} DepositKeepsConsistent(d: Snapshot, owner: UserId, amount: real, now: Time)
    requires Consistent(d) && owner < |d.users| && amount >= 0.0
    ensures Consistent(DepositEffect(d, owner, amount, now))
  {
    var ws := CreditOrOpen(d.wallets, owner, amount, now);
    CreditOrOpenKeepsSound(d.wallets, owner, amount, now, |d.users|);
    CreditOrOpenKeepsLenders(d.wallets, owner, amount, now, d.fundings);
    TxnsAppended(d.txns, [Txn(FindWallet(ws, owner).value, "Deposit", amount, RWF, None, now)], |d.wallets|, |ws|);
  }

  /** Deciding a pending request keeps the database consistent. */
  lemma {:induction false} DecideKeepsConsistent(d: Snapshot, loan: LoanId, action: string, admin: UserId, now: Time)
    requires Consistent(d) && loan < |d.loans| && d.loans[loan].status == LoanStatus.Pending
    ensures Consistent(d.(loans := d.loans[loan := Approvals.Decide(d.loans[loan], action, admin, now)]))
  {
    LifecycleAfterDecide(d.loans, d.fundings, d.repayments, loan, action, admin, now);
  }

  /** A new pending request of a registered borrower keeps the database consistent. */
  lemma {:induction false} CreateKeepsConsistent(d: Snapshot, x: Loan)
    requires Consistent(d) && x.borrower < |d.users|
    requires x.amountRequested > 0.0 && x.interestRate >= 0.0 && x.status == LoanStatus.Pending
    ensures Consistent(d.(loans := d.loans + [x]))
  {
    LifecycleAfterCreate(d.loans, d.fundings, d.repayments, x);
  }

  /**
   * Registering a user under a fresh e-mail address, whose row fits the table's columns, with
   * their wallet and profile, keeps the database consistent.
   */
  lemma {:induction false} RegisterKeepsConsistent(d: Snapshot, u: User, now: Time)
    requires Consistent(d)
    requires forall i :: 0 <= i < |d.users| ==> d.users[i].email != u.email
    requires FitsUserColumns(u)
    ensures Consistent(d.(users := d.users + [u],
                          wallets := d.wallets + [NewWallet(|d.users|, now)],
                          profiles := d.profiles + [UserProfile(|d.users|)]))
  {
    var ws' := d.wallets + [NewWallet(|d.users|, now)];
    forall u | FindWallet(d.wallets, u).Some? ensures FindWallet(ws', u).Some? {
      AppendedWalletLookup(d.wallets, NewWallet(|d.users|, now), u);
    }
    HoldersKeepWallets(d.wallets, ws', d.fundings);
  }

  /** Reviewing a document, or adding a document of a registered user, keeps the database consistent. */
  lemma {:induction false} DocumentsKeepConsistent(d: Snapshot, docs: seq<KycDoc>)
    requires Consistent(d) && DocsOfUsers(docs, |d.users|)
    ensures Consistent(d.(kycDocs := docs))
  {
  }
}
