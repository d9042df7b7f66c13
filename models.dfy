/**
 * The entities of the LendSecure platform, with the default field values their
 * C# initialisers give them, and the decimal(12,2) money format.
 *
 * Every table of the database is modelled as an append-only sequence of rows, and a
 * row's identifier (a Guid in the source) is its position in that sequence.
 */
module Models {

  type UserId = nat
  type LoanId = nat
  type WalletId = nat
  type RepaymentId = nat
  type DocId = nat

  /** An instant, as the number of 100 ns ticks since DateTime.MinValue. */
  type Time = nat

  const TicksPerDay: nat := 864_000_000_000

  datatype Option<T> = None | Some(value: T)

  /** The only currency the platform uses. */
  const RWF := "RWF"

  /** LoanRequest.Status. */
  datatype LoanStatus = Pending | Approved | Funded | Repaying | Completed | Rejected {
    function Name(): string {
      match this
      case Pending => "Pending"
      case Approved => "Approved"
      case Funded => "Funded"
      case Repaying => "Repaying"
      case Completed => "Completed"
      case Rejected => "Rejected"
    }
  }

  /** Repayment.Status ("Overdue" is part of the vocabulary but nothing sets it). */
  datatype RepaymentStatus = Pending | Paid | Overdue

  /** KYCDocument.Status. */
  datatype KycStatus = Pending | Approved | Rejected {
    function Name(): string {
      match this
      case Pending => "Pending"
      case Approved => "Approved"
      case Rejected => "Rejected"
    }
  }

  datatype User = User(email: string, passwordHash: string, role: string, mfaEnabled: bool,
                       createdAt: Time, updatedAt: Time)

  /** The widths of the Users table's text columns: Email and PasswordHash 255, Role 50. */
  const EmailWidth: nat := 255
  const PasswordHashWidth: nat := 255
  const RoleWidth: nat := 50

  /** A user row the database stores: every text column within its width. */
  predicate FitsUserColumns(u: User) {
    |u.email| <= EmailWidth && |u.passwordHash| <= PasswordHashWidth && |u.role| <= RoleWidth
  }

  /** An empty profile: the name, phone, birth date and address columns are all null. */
  datatype UserProfile = UserProfile(user: UserId)

  datatype KycDoc = KycDoc(user: UserId, docType: string, filePath: string, status: KycStatus,
                           reviewer: Option<UserId>, reviewedAt: Option<Time>)

  datatype Loan = Loan(borrower: UserId, amountRequested: real, currency: string, purpose: string,
                       termMonths: int, interestRate: real, status: LoanStatus, createdAt: Time,
                       approvedAt: Option<Time>, approver: Option<UserId>)

  datatype Funding = Funding(loan: LoanId, lender: UserId, amount: real, fundedAt: Time)

  datatype Repayment = Repayment(loan: LoanId, scheduledDate: Time, principal: real, interest: real,
                                 status: RepaymentStatus, paidAt: Option<Time>)

  datatype Wallet = Wallet(owner: UserId, balance: real, currency: string, updatedAt: Time)

  /** A wallet transaction; `kind` is the TxnType column, written by the handlers as free text. */
  datatype Txn = Txn(wallet: WalletId, kind: string, amount: real, currency: string,
                     relatedLoan: Option<LoanId>, createdAt: Time)

  /** The demo opening balance every new wallet gets unless the creator overrides it. */
  const OpeningBalance: real := 10000.00

  /** `new Wallet { UserId = owner }`: balance and currency take their declared defaults. */
  function NewWallet(owner: UserId, now: Time): (w: Wallet)
    ensures w.owner == owner && w.balance == OpeningBalance && w.currency == RWF
    ensures IsMoney(w.balance)
  {
    Wallet(owner, OpeningBalance, RWF, now)
  }

  /** A new loan request: undecided (no approval time, no approver) and in RWF. */
  function NewLoanRequest(borrower: UserId, amount: real, purpose: string, termMonths: int,
                          rate: real, now: Time): (l: Loan)
    ensures l.status == LoanStatus.Pending && l.approvedAt == None && l.approver == None
    ensures l.currency == RWF && l.borrower == borrower && l.createdAt == now
  {
    Loan(borrower, amount, RWF, purpose, termMonths, rate, LoanStatus.Pending, now, None, None)
  }

  /** A new installment: due, and not paid. */
  function NewRepayment(loan: LoanId, date: Time, principal: real, interest: real): (r: Repayment)
    ensures r.status == RepaymentStatus.Pending && r.paidAt == None && r.loan == loan
  {
    Repayment(loan, date, principal, interest, RepaymentStatus.Pending, None)
  }

  /** A newly uploaded KYC document: waiting for review, with no reviewer and no review time. */
  function NewKycDoc(user: UserId, docType: string, filePath: string): (d: KycDoc)
    ensures d.status == KycStatus.Pending && d.reviewer == None && d.reviewedAt == None
  {
    KycDoc(user, docType, filePath, KycStatus.Pending, None, None)
  }

  /** A value with at most two fractional digits. */
  predicate HasCents(x: real) {
    (x * 100.0).Floor as real == x * 100.0
  }

  /** A value a decimal(12,2) column can hold: two fractional digits and ten integral ones. */
  predicate IsMoney(x: real) {
    HasCents(x) && -10_000_000_000.0 < x < 10_000_000_000.0
  }

  /**
   * Sums and differences of amounts in cents stay in cents, so the ledger's additions and
   * subtractions never need rounding; only its divisions can.
   */
  lemma {:induction false} CentsClosedUnderAddition(a: real, b: real)
    requires HasCents(a) && HasCents(b)
    ensures HasCents(a + b) && HasCents(a - b)
  {
    var m, n := (a * 100.0).Floor, (b * 100.0).Floor;
    assert a * 100.0 == m as real && b * 100.0 == n as real;
    assert (a + b) * 100.0 == (m + n) as real;
    assert ((m + n) as real).Floor == m + n;
    assert (a - b) * 100.0 == (m - n) as real;
    assert ((m - n) as real).Floor == m - n;
  }

  /** Dividing an amount in cents by four can leave the cents: 1000.10 / 4 = 250.025. */
  lemma {:induction false} QuarterMayLeaveCents()
    ensures IsMoney(1000.10) && !HasCents(1000.10 / 4.0)
  {
    assert 1000.10 * 100.0 == 100010.0;
    assert (1000.10 / 4.0) * 100.0 == 25002.5;
    assert (25002.5).Floor == 25002;
  }
}
