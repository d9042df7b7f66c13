/**
 * The LendSecure database and the request handlers that change it. Each table is a
 * sequence field of one Store object, and each POST handler is a method that validates its
 * input, then updates the tables in place, in the order the handler does. The caller and
 * their role are parameters (what the session holds), and so is the current time.
 */
module Ledger {
  import opened Models
  import opened Tables
  import opened LoanFunding
  import opened Invariants
  import Repayments
  import Validation
  import Approvals
  import Kyc

  /** How Deposit's OnPostAsync ends. */
  datatype DepositOutcome = InvalidAmount | Deposited

  /** How Create's OnPostAsync ends; a created request is the new last row of the table. */
  datatype CreateOutcome = NotBorrower | InvalidRequest | Created(loan: LoanId)

  /**
   * How Register's OnPostAsync ends; a new user is the new last row of the table. SaveFailed
   * is the error page shown when the database refuses the new rows, a text column of the
   * user being wider than the table allows.
   */
  datatype RegisterOutcome = InvalidForm | EmailTaken | SaveFailed | Registered(user: UserId)

  class Store {
    var users: seq<User>
    var profiles: seq<UserProfile>
    var wallets: seq<Wallet>
    var txns: seq<Txn>
    var loans: seq<Loan>
    var fundings: seq<Funding>
    var repayments: seq<Repayment>
    var kycDocs: seq<KycDoc>

    /** The database as one value. */
    function Rows(): Snapshot
      reads this
    {
      Snapshot(users, profiles, wallets, txns, loans, fundings, repayments, kycDocs)
    }

    predicate Valid()
      reads this
    {
      Consistent(Rows())
    }

    /** An empty database. */
    constructor ()
      ensures Valid()
      ensures users == [] && profiles == [] && wallets == [] && txns == []
      ensures loans == [] && fundings == [] && repayments == [] && kycDocs == []
    {
      users, profiles, wallets, txns := [], [], [], [];
      loans, fundings, repayments, kycDocs := [], [], [], [];
    }

    // ---------------------------------------------------------------- Fund

    /**
     * Fund's OnPostAsync: the lender contributes `amount` to the loan. The checks are those of
     * FundDecision; an accepted contribution changes the database as FundEffect says.
     */
    method Fund(lender: UserId, loan: LoanId, amount: real, now: Time) returns (r: FundOutcome)
      requires Valid()
      modifies this
      ensures Valid()
      ensures r == FundDecision(old(loans), old(fundings), old(wallets), loan, lender, amount)
      ensures !r.Contributed? ==> unchanged(this)
      ensures r.Contributed? ==> Rows() == FundEffect(old(Rows()), loan, lender, amount, now)
      ensures TotalBalance(wallets) == TotalBalance(old(wallets))
    {
      r := FundDecision(loans, fundings, wallets, loan, lender, amount);
      if r.Contributed? {
        FundKeepsConsistent(Rows(), loan, lender, amount, now);
        TransferConserves(wallets, FindWallet(wallets, lender).value, loans[loan].borrower, amount, now);
        Contribute(lender, loan, amount, now);
      }
    }

    /**
     * The changes an accepted contribution makes, in the handler's order: the funding row, the
     * transfer, the two transactions, then the Funded status and the schedule when the loan is
     * fully funded.
     */
    method Contribute(lender: UserId, loan: LoanId, amount: real, now: Time)
      requires FundDecision(loans, fundings, wallets, loan, lender, amount).Contributed?
      modifies this
      ensures Rows() == FundEffect(old(Rows()), loan, lender, amount, now)
    {
      var full := FundDecision(loans, fundings, wallets, loan, lender, amount).fullyFunded;
      var x := loans[loan];
      var lw := FindWallet(wallets, lender).value;
      fundings := fundings + [Funding(loan, lender, amount, now)];
      var bw := MoveFunds(lw, x.borrower, amount, now);
      txns := txns + [Txn(lw, "Debit", amount, RWF, Some(loan), now), Txn(bw, "Credit", amount, RWF, Some(loan), now)];
      if full {
        loans := loans[loan := x.(status := LoanStatus.Funded, approvedAt := Some(now))];
        AddSchedule(loan, x.amountRequested, x.interestRate, now);
      }
    }

    /**
     * The wallet steps of a contribution: `lenderWallet.Balance -= amount`, then the borrower's
     * wallet is looked up (and opened with balance 0 when missing) and credited. Returns the
     * borrower's wallet.
     */
    method MoveFunds(lw: WalletId, borrower: UserId, amount: real, now: Time) returns (bw: WalletId)
      requires lw < |wallets|
      modifies this
      ensures wallets == Transfer(old(wallets), lw, borrower, amount, now)
      ensures FindWallet(wallets, borrower) == Some(bw) && |wallets| >= |old(wallets)|
      ensures users == old(users) && profiles == old(profiles) && txns == old(txns) && loans == old(loans)
      ensures fundings == old(fundings) && repayments == old(repayments) && kycDocs == old(kycDocs)
    {
      wallets := Adjust(wallets, lw, -amount, now);
      bw := Credit(borrower, amount, now);
    }

    /**
     * Credits the owner's wallet, first adding a wallet with balance 0 when the owner has
     * none (Fund for the borrower, Deposit for the caller). Returns the credited wallet.
     */
    method Credit(owner: UserId, amount: real, now: Time) returns (w: WalletId)
      modifies this
      ensures wallets == CreditOrOpen(old(wallets), owner, amount, now)
      ensures FindWallet(wallets, owner) == Some(w)
      ensures users == old(users) && profiles == old(profiles) && txns == old(txns) && loans == old(loans)
      ensures fundings == old(fundings) && repayments == old(repayments) && kycDocs == old(kycDocs)
    {
      var found := FindWallet(wallets, owner);
      if found.None? {
        AppendedWalletLookup(wallets, EmptyWallet(owner, now), owner);
        wallets := wallets + [EmptyWallet(owner, now)];
        w := |wallets| - 1;
      } else {
        w := found.value;
      }
      SameOwnersSameLookup(Adjust(wallets, w, amount, now), wallets, owner);
      wallets := Adjust(wallets, w, amount, now);
    }

    /**
     * The loop that generates the schedule: for i from 1 to 4, an installment of a quarter of
     * the principal and a quarter of the total interest, due 7·i days from now.
     */
    method AddSchedule(loan: LoanId, amount: real, rate: real, now: Time)
      modifies this
      ensures repayments == old(repayments) + Schedule(loan, amount, rate, now)
      ensures users == old(users) && profiles == old(profiles) && wallets == old(wallets) && txns == old(txns)
      ensures loans == old(loans) && fundings == old(fundings) && kycDocs == old(kycDocs)
    {
      var weeklyPrincipal := amount / 4.0;
      var weeklyInterest := TotalInterest(amount, rate) / 4.0;
      ghost var schedule := Schedule(loan, amount, rate, now);
      for i := 1 to 5
        invariant repayments == old(repayments) + schedule[..i - 1]
        invariant users == old(users) && profiles == old(profiles) && wallets == old(wallets) && txns == old(txns)
        invariant loans == old(loans) && fundings == old(fundings) && kycDocs == old(kycDocs)
      {
        repayments := repayments + [NewRepayment(loan, now + i * 7 * TicksPerDay, weeklyPrincipal, weeklyInterest)];
        assert schedule[..i] == schedule[..i - 1] + [schedule[i - 1]];
      }
      assert schedule[..4] == schedule;
    }

    // ---------------------------------------------------------------- paying an installment

    /**
     * Schedule's OnPostAsync: the borrower pays installment `id`. The checks are those of
     * PayDecision; a settled payment changes the database as PayEffect says.
     */
    method PayInstallment(caller: UserId, role: string, id: RepaymentId, now: Time) returns (r: Repayments.PayOutcome)
      requires Valid()
      modifies this
      ensures Valid()
      ensures r == Repayments.PayDecision(old(loans), old(repayments), old(wallets), id, caller, role)
      ensures r != Repayments.Settled ==> unchanged(this)
      ensures r == Repayments.Settled ==> Rows() == PayEffect(old(Rows()), id, caller, now)
      ensures TotalBalance(wallets) == TotalBalance(old(wallets))
    {
      r := Repayments.PayDecision(loans, repayments, wallets, id, caller, role);
      if r == Repayments.Settled {
        PayKeepsConsistent(Rows(), id, caller, now);
        PayConserves(Rows(), id, caller, now);
        Repay(caller, id, now);
      }
    }

    /**
     * The changes a settled payment makes, in the handler's order: the payer's debit and its
     * transaction, the lenders' shares, the installment marked paid, and the loan's status.
     */
    method Repay(caller: UserId, id: RepaymentId, now: Time)
      requires Repayments.InstallmentsOfLoans(repayments, |loans|) && AllPositive(fundings)
      requires Repayments.PayDecision(loans, repayments, wallets, id, caller, "Borrower") == Repayments.Settled
      modifies this
      ensures Rows() == PayEffect(old(Rows()), id, caller, now)
    {
      ghost var d := Rows();
      var inst := repayments[id];
      var loan := inst.loan;
      var bw := FindWallet(wallets, caller).value;
      var due := inst.principal + inst.interest;
      var fs := FundingsOf(fundings, loan);
      var total := SumAmounts(fs);
      FundedTotalPositive(fundings, loan);
      ChargeAndDistribute(bw, fs, due, total, loan, now);
      CloseInstallment(id, now);
    }

    /**
     * The installment is marked paid at `now`, and its loan becomes "Completed" when every
     * installment of the loan is now paid, "Repaying" otherwise.
     */
    method CloseInstallment(id: RepaymentId, now: Time)
      requires id < |repayments| && repayments[id].loan < |loans|
      modifies this
      ensures var inst := old(repayments)[id];
        && repayments == old(repayments)[id := inst.(status := RepaymentStatus.Paid, paidAt := Some(now))]
        && loans == old(loans)[inst.loan := old(loans)[inst.loan].(status :=
             if AllPaid(repayments, inst.loan) then LoanStatus.Completed else LoanStatus.Repaying)]
      ensures users == old(users) && profiles == old(profiles) && wallets == old(wallets)
      ensures txns == old(txns) && fundings == old(fundings) && kycDocs == old(kycDocs)
    {
      var inst := repayments[id];
      repayments := repayments[id := inst.(status := RepaymentStatus.Paid, paidAt := Some(now))];
      var allPaid := AllPaid(repayments, inst.loan);
      loans := loans[inst.loan := loans[inst.loan].(status := if allPaid then LoanStatus.Completed else LoanStatus.Repaying)];
    }

    /**
     * The money movement of a settled payment: the payer's wallet at bw is debited with the
     * amount due, the debit is logged, and the amount is distributed to the lenders.
     */
    method ChargeAndDistribute(bw: WalletId, fs: seq<Funding>, due: real, total: real, loan: LoanId, now: Time)
      requires bw < |wallets| && (|fs| > 0 ==> total != 0.0)
      modifies this
      ensures wallets == Repayments.Settle(old(wallets), bw, fs, due, total, loan, now).wallets
      ensures txns == old(txns) + [Txn(bw, "LoanRepayment", due, RWF, Some(loan), now)]
                       + Repayments.Settle(old(wallets), bw, fs, due, total, loan, now).txns
      ensures users == old(users) && profiles == old(profiles) && loans == old(loans)
      ensures fundings == old(fundings) && repayments == old(repayments) && kycDocs == old(kycDocs)
    {
      wallets := Adjust(wallets, bw, -due, now);
      txns := txns + [Txn(bw, "LoanRepayment", due, RWF, Some(loan), now)];
      PayLenders(fs, due, total, loan, now);
    }

    /**
     * The distribution loop of a settled payment: every funding of the loan, in table order,
     * credits its lender's wallet (when there is one) with the share `payment · amount / total`
     * and logs the credit.
     */
    method PayLenders(fs: seq<Funding>, payment: real, total: real, loan: LoanId, now: Time)
      requires |fs| > 0 ==> total != 0.0
      modifies this
      ensures wallets == Repayments.Distribute(old(wallets), fs, payment, total, loan, now).wallets
      ensures txns == old(txns) + Repayments.Distribute(old(wallets), fs, payment, total, loan, now).txns
      ensures users == old(users) && profiles == old(profiles) && loans == old(loans)
      ensures fundings == old(fundings) && repayments == old(repayments) && kycDocs == old(kycDocs)
    {
      var ws, ts := wallets, [];
      var k := 0;
      while k < |fs|
        invariant 0 <= k <= |fs|
        invariant ws == Repayments.Distribute(wallets, fs[..k], payment, total, loan, now).wallets
        invariant ts == Repayments.Distribute(wallets, fs[..k], payment, total, loan, now).txns
      {
        var f := fs[k];
        var share := Repayments.Share(payment, f.amount, total);
        var lw := FindWallet(ws, f.lender);
        assert fs[..k + 1][..k] == fs[..k];
        if lw.Some? {
          ws := Adjust(ws, lw.value, share, now);
          ts := ts + [Txn(lw.value, "LoanRepayment", share, RWF, Some(loan), now)];
        }
        k := k + 1;
      }
      assert fs[..k] == fs;
      wallets, txns := ws, txns + ts;
    }

    // ---------------------------------------------------------------- Deposit

    /**
     * Deposit's OnPostAsync: an amount within the form's range is credited to the caller's
     * wallet, which is opened with balance 0 when missing, and logged as a Deposit with no
     * related loan. An amount outside the range changes nothing.
     */
    method Deposit(caller: UserId, amount: real, now: Time) returns (r: DepositOutcome)
      requires Valid() && caller < |users|
      modifies this
      ensures Valid()
      ensures r == Deposited <==> Validation.DepositAmountValid(amount)
      ensures r == InvalidAmount ==> unchanged(this)
      ensures r == Deposited ==> Rows() == DepositEffect(old(Rows()), caller, amount, now)
      ensures r == Deposited ==> TotalBalance(wallets) == TotalBalance(old(wallets)) + amount
    {
      if !(Validation.DepositMin as real <= amount <= Validation.DepositMax as real) {
        return InvalidAmount;
      }
      DepositKeepsConsistent(Rows(), caller, amount, now);
      CreditOrOpenTotal(wallets, caller, amount, now);
      var w := Credit(caller, amount, now);
      txns := txns + [Txn(w, "Deposit", amount, RWF, None, now)];
      r := Deposited;
    }

    // ---------------------------------------------------------------- deciding a loan request

    /**
     * LoanApprovals' OnPostAsync: an administrator approves or rejects a pending request.
     * The checks are those of DecisionCheck; on a pending request the decision is Decide.
     */
    method DecideLoan(caller: UserId, role: string, loan: LoanId, action: string, now: Time)
      returns (r: Approvals.DecisionOutcome)
      requires Valid()
      modifies this
      ensures Valid()
      ensures r == Approvals.DecisionCheck(old(loans), loan, role)
      ensures r != Approvals.Proceed ==> unchanged(this)
      ensures r == Approvals.Proceed ==>
        && loans == old(loans)[loan := Approvals.Decide(old(loans)[loan], action, caller, now)]
        && users == old(users) && profiles == old(profiles) && wallets == old(wallets) && txns == old(txns)
        && fundings == old(fundings) && repayments == old(repayments) && kycDocs == old(kycDocs)
    {
      if role != "Admin" {
        return Approvals.Forbidden;
      }
      if loan >= |loans| {
        return Approvals.RequestNotFound;
      }
      if loans[loan].status != LoanStatus.Pending {
        return Approvals.AlreadyProcessed;
      }
      ghost var before := Rows();
      var l := loans[loan];
      if action == "approve" {
        l := l.(status := LoanStatus.Approved, approvedAt := Some(now), approver := Some(caller));
      } else if action == "reject" {
        l := l.(status := LoanStatus.Rejected, approvedAt := Some(now), approver := Some(caller));
      }
      loans := loans[loan := l];
      r := Approvals.Proceed;
      DecideKeepsConsistent(before, loan, action, caller, now);
    }

    // ---------------------------------------------------------------- creating a loan request

    /**
     * Create's OnPostAsync: a borrower whose form passes validation gets a new pending
     * request for the amount, purpose and rate they entered, with the term rounded up to
     * whole months. Anyone else, or an invalid form, creates nothing.
     */
    method CreateLoan(caller: UserId, role: string, input: Validation.LoanInput, now: Time) returns (r: CreateOutcome)
      requires Valid() && caller < |users|
      modifies this
      ensures Valid()
      ensures r == NotBorrower <==> role != "Borrower"
      ensures r.Created? <==> role == "Borrower" && Validation.LoanInputValid(input)
      ensures !r.Created? ==> unchanged(this)
      ensures r.Created? ==>
        && r.loan == |old(loans)|
        && loans == old(loans) + [NewLoanRequest(caller, input.amount, input.purpose,
                                                 Validation.TermMonths(input.termWeeks), input.rate, now)]
        && 1 <= loans[r.loan].termMonths <= 13
        && users == old(users) && profiles == old(profiles) && wallets == old(wallets) && txns == old(txns)
        && fundings == old(fundings) && repayments == old(repayments) && kycDocs == old(kycDocs)
    {
      if role != "Borrower" {
        return NotBorrower;
      }
      if !Validation.LoanInputValid(input) {
        return InvalidRequest;
      }
      ghost var before := Rows();
      var months := (input.termWeeks + 3) / 4;
      Validation.TermMonthsOfValidInput(input.termWeeks);
      var l := NewLoanRequest(caller, input.amount, input.purpose, months, input.rate, now);
      loans := loans + [l];
      r := Created(|loans| - 1);
      CreateKeepsConsistent(before, l);
    }

    // ---------------------------------------------------------------- registration

    /**
     * Register's OnPostAsync: a valid form under an e-mail address no account uses creates
     * the user with the role as submitted, their wallet with the opening balance, and an
     * empty profile, all saved together; when the user's row does not fit the table's
     * columns the save fails and nothing is stored. `passwordHash` is what the hashing
     * library returns for the password.
     */
    method Register(input: Validation.RegisterInput, passwordHash: string, now: Time) returns (r: RegisterOutcome)
      requires Valid()
      modifies this
      ensures Valid()
      ensures r == InvalidForm <==> !Validation.RegisterInputValid(input)
      ensures r == EmailTaken <==> Validation.RegisterInputValid(input)
                                   && exists i :: 0 <= i < |old(users)| && old(users)[i].email == input.email
      ensures r == SaveFailed <==> Validation.RegisterInputValid(input)
                                   && (forall i :: 0 <= i < |old(users)| ==> old(users)[i].email != input.email)
                                   && !FitsUserColumns(User(input.email, passwordHash, input.role, false, now, now))
      ensures !r.Registered? ==> unchanged(this)
      ensures r.Registered? ==>
        && r.user == |old(users)|
        && users == old(users) + [User(input.email, passwordHash, input.role, false, now, now)]
        && wallets == old(wallets) + [NewWallet(r.user, now)]
        && profiles == old(profiles) + [UserProfile(r.user)]
        && txns == old(txns) && loans == old(loans) && fundings == old(fundings)
        && repayments == old(repayments) && kycDocs == old(kycDocs)
    {
      if !Validation.RegisterInputValid(input) {
        return InvalidForm;
      }
      var i := 0;
      while i < |users|
        invariant 0 <= i <= |users|
        invariant forall j :: 0 <= j < i ==> users[j].email != input.email
      {
        if users[i].email == input.email {
          return EmailTaken;
        }
        i := i + 1;
      }
      var u := User(input.email, passwordHash, input.role, false, now, now);
      if !FitsUserColumns(u) {
        return SaveFailed;
      }
      ghost var before := Rows();
      var id := |users|;
      users := users + [u];
      wallets := wallets + [NewWallet(id, now)];
      profiles := profiles + [UserProfile(id)];
      r := Registered(id);
      RegisterKeepsConsistent(before, u, now);
    }

    // ---------------------------------------------------------------- KYC documents

    /**
     * The row Upload's OnPostAsync inserts once the file is stored: a pending document of the
     * caller.
     */
    method AddKycDocument(caller: UserId, docType: string, filePath: string) returns (d: DocId)
      requires Valid() && caller < |users|
      modifies this
      ensures Valid()
      ensures d == |old(kycDocs)| && kycDocs == old(kycDocs) + [NewKycDoc(caller, docType, filePath)]
      ensures users == old(users) && profiles == old(profiles) && wallets == old(wallets) && txns == old(txns)
      ensures loans == old(loans) && fundings == old(fundings) && repayments == old(repayments)
    {
      ghost var before := Rows();
      kycDocs := kycDocs + [NewKycDoc(caller, docType, filePath)];
      d := |kycDocs| - 1;
      DocumentsKeepConsistent(before, kycDocs);
    }

    /**
     * KYCReview's OnPostAsync: an administrator reviews a document. The checks are those of
     * ReviewCheck; the review itself is Review, whatever the document's current status.
     */
    method ReviewKyc(caller: UserId, role: string, doc: DocId, action: string, now: Time) returns (r: Kyc.ReviewOutcome)
      requires Valid()
      modifies this
      ensures Valid()
      ensures r == Kyc.ReviewCheck(old(kycDocs), doc, role)
      ensures r != Kyc.Proceed ==> unchanged(this)
      ensures r == Kyc.Proceed ==>
        && kycDocs == old(kycDocs)[doc := Kyc.Review(old(kycDocs)[doc], action, caller, now)]
        && users == old(users) && profiles == old(profiles) && wallets == old(wallets) && txns == old(txns)
        && loans == old(loans) && fundings == old(fundings) && repayments == old(repayments)
    {
      if role != "Admin" {
        return Kyc.NotAdmin;
      }
      if doc >= |kycDocs| {
        return Kyc.DocNotFound;
      }
      ghost var before := Rows();
      var d := kycDocs[doc];
      if action == "approve" {
        d := d.(status := KycStatus.Approved);
      } else if action == "reject" {
        d := d.(status := KycStatus.Rejected);
      }
      d := d.(reviewer := Some(caller), reviewedAt := Some(now));
      kycDocs := kycDocs[doc := d];
      r := Kyc.Proceed;
      DocumentsKeepConsistent(before, kycDocs);
    }
  }
}
