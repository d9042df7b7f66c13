# LendSecure ledger and loan lifecycle, in Dafny

LendSecure is a peer-to-peer lending web application. Borrowers request loans. An
administrator approves or rejects each request. Lenders fund loans from their wallets, and
borrowers repay in four weekly installments, each split among the lenders in proportion to
what they contributed. This project models the request handlers that change the database:

- registration;
- loan request creation, approval and rejection;
- funding;
- installment payment;
- deposits;
- KYC document upload and review.

It also models the figures the funding, schedule and approval pages compute.

Layout:

- `models.dfy` (`Models`): the entities, their default values and the decimal(12,2)
  money format.
- `tables.dfy` (`Tables`): queries and single-row updates over the wallet, funding and
  installment tables.
- `funding.dfy` (`LoanFunding`): the funding page, its checks, the wallet transfer and the
  repayment schedule.
- `repayment.dfy` (`Repayments`): the payment checks, the proportional distribution to
  lenders and the schedule page.
- `approvals.dfy` (`Approvals`): the approval page's counts and listing, and the decision on
  a request.
- `kyc.dfy` (`Kyc`): document review and the KYC status shown on the loan request page.
- `validation.dfy` (`Validation`): the data-annotation rules of the three input forms.
- `ordering.dfy` (`Ordering`): `OrderBy` as a sort on one key.
- `invariants.dfy` (`Invariants`): the database as one `Snapshot` value, its consistency
  predicate, the effect of each handler on it, and one lemma per handler showing that
  consistency is kept.
- `ledger.dfy` (`Ledger`): the database as a `Store` object with one `seq` field per table,
  and one method per POST handler.

Each table is an append-only sequence. A row's identifier (a Guid in the application) is its
position in that sequence. The caller's id and role (what the session holds) and the current
time are parameters.

Money is `real`, which is exact. The application's `decimal` is exact for the sums and
differences the handlers compute, so only the divisions differ; the properties that depend on
them are stated "under exact arithmetic".

Each state-changing handler method ensures three things:

- the outcome equals a decision function of the old tables (`FundDecision`, `PayDecision`,
  `DecisionCheck`, `ReviewCheck`, or the form rules);
- a refused request changes nothing;
- an accepted request leaves the tables equal to an effect function of the old tables, and
  consistency (`Store.Valid`) is preserved.

The properties the application promises are proved as lemmas about those functions:

- conservation of money in a transfer and in a payment;
- the shares each lender receives;
- no over-funding;
- an installment is paid at most once;
- the loan status machine.

## Model

| member | source | states |
|---|---|---|
| Models.NewWallet | Models/Models.cs:212-226 | A new wallet holds the demo opening balance 10000.00, in RWF, and that balance is valid decimal(12,2) money |
| Models.NewLoanRequest | Models/Models.cs:106-135 | A new loan request is Pending, in RWF, with no approval time and no approver |
| Models.NewRepayment | Models/Models.cs:180-202 | A new installment is Pending and has no payment time |
| Models.NewKycDoc | Models/Models.cs:74-93 | A new KYC document is Pending, with no reviewer and no review time |
| Models.CentsClosedUnderAddition | Models/Models.cs:115-116 | Sums and differences of two-decimal amounts keep two decimals, so the ledger's additions and subtractions are exact in decimal(12,2) |
| Models.QuarterMayLeaveCents | Models/Models.cs:192-197 | A valid amount (1000.10) divided by four has a third decimal, which the column cannot hold |
| Tables.FindWallet | Pages/Loan/Fund.cshtml.cs:84-85 | The wallet lookup by owner returns a wallet of that owner (the first in table order, the only one under the one-wallet-per-user invariant), and nothing exactly when the owner has no wallet |
| Tables.Adjust | Pages/Loan/Fund.cshtml.cs:118-119 | A balance update changes the chosen wallet's balance by exactly delta, keeps every wallet's owner and leaves every other row as it was |
| Tables.AdjustTotal | Pages/Loan/Fund.cshtml.cs:118-119 | A balance update changes the money held in all wallets by exactly delta |
| Tables.EmptyWallet | Pages/Loan/Fund.cshtml.cs:122-127 | The wallet opened for a user who has none holds 0 in RWF |
| Tables.CreditOrOpen | Pages/Wallet/Deposit.cshtml.cs:64-82 | After crediting a user, opening their wallet if it is missing, the user holds a wallet and no wallet was removed |
| Tables.CreditOrOpenTotal | Pages/Wallet/Deposit.cshtml.cs:64-82 | Crediting a user raises the money held in all wallets by exactly the amount, whether or not a wallet had to be opened |
| Tables.CreditOrOpenEffect | Pages/Wallet/Deposit.cshtml.cs:64-82 | The credited user's balance rises by exactly the amount, so a wallet opened by the credit holds exactly the amount; every other user keeps their wallet and balance |
| Tables.FundingsOf | Pages/Repayment/Schedule.cshtml.cs:138-140 | A loan's fundings are exactly the funding rows that refer to it |
| Tables.FundingsOfCounts | Pages/Repayment/Schedule.cshtml.cs:138-140 | Each funding row of the loan occurs in the loan's fundings as often as in the table, and no other row occurs |
| Tables.FundingsOfKeepsOrder | Pages/Repayment/Schedule.cshtml.cs:138-140 | The loan's fundings keep table order: the fundings of any prefix of the table are a prefix of the loan's fundings |
| Tables.FundedAmountAppend | Pages/Loan/Fund.cshtml.cs:107-114 | A new funding row raises its own loan's funded total by its amount and leaves every other loan's total unchanged |
| Tables.FundedAmountUnreferenced | Pages/Loan/Fund.cshtml.cs:81-82 | A loan that no funding row refers to has received 0 |
| LoanFunding.Min | Pages/Loan/Fund.cshtml.cs:58 | `Math.Min` returns one of its arguments, and that argument is not larger than the other |
| LoanFunding.FundPage | Pages/Loan/Fund.cshtml.cs:31-61 | An unknown loan shows nothing. Otherwise the page shows as funded the sum of the loan's funding rows and as remaining the amount requested less that sum, the lender's balance (0 without a wallet), and an offer that is the smaller of the remaining amount and the balance |
| LoanFunding.FundDecision | Pages/Loan/Fund.cshtml.cs:74-104 | A contribution is accepted exactly when the loan exists, the lender has a wallet, and 0 < amount <= balance and amount <= remaining. It completes the funding exactly when it equals the remaining amount. Each refusal (unknown loan; no lender wallet; amount not positive; amount above the balance; amount above the remaining amount) is returned exactly when its check is the first to fail. Status and role are not checked |
| LoanFunding.FullyFundedAcceptsNothing | Pages/Loan/Fund.cshtml.cs:90-104 | A loan with nothing left to fund accepts no contribution |
| LoanFunding.OfferIsAccepted | Pages/Loan/Fund.cshtml.cs:50-104 | A positive pre-filled offer passes every check of the post handler, and completes the funding exactly when it is the remaining amount |
| LoanFunding.Transfer | Pages/Loan/Fund.cshtml.cs:118-130 | After the transfer the borrower holds a wallet, and no wallet is removed |
| LoanFunding.TransferConserves | Pages/Loan/Fund.cshtml.cs:118-130 | The transfer moves money between wallets and neither creates nor destroys any |
| LoanFunding.TransferEffect | Pages/Loan/Fund.cshtml.cs:84-130 | The lender loses exactly the amount and the borrower gains exactly the amount; when they are the same user the two steps hit one wallet and nothing changes. Every other user keeps their wallet and balance |
| LoanFunding.MarkFunded | Pages/Loan/Fund.cshtml.cs:154-157 | On full funding the loan becomes Funded and its ApprovedAt is overwritten with the funding time; amount, rate, borrower and approver are kept |
| LoanFunding.FourTotals | Pages/Loan/Fund.cshtml.cs:173-184 | The principal and interest totals of a four-installment list are the sums of its four entries |
| LoanFunding.ScheduleRepaysLoan | Pages/Loan/Fund.cshtml.cs:166-184 | The schedule has four Pending, unpaid installments of the loan, due 7, 14, 21 and 28 days on. Under exact arithmetic their principals sum to the amount requested and their interests to amount · rate / 100; both are non-negative for a non-negative amount and rate |
| Repayments.PayDecision | Pages/Repayment/Schedule.cshtml.cs:78-118 | A payment goes through exactly when the caller is a Borrower, the installment exists and belongs to one of the caller's loans, it is not Paid, and the caller's wallet covers principal + interest. Each refusal (not a Borrower; unknown or someone else's installment; already paid; no wallet; balance short of the amount due) is returned exactly when its check is the first to fail |
| Repayments.NoDoublePayment | Pages/Repayment/Schedule.cshtml.cs:97-101 | Once an installment is settled, the next attempt to pay it is refused as already paid |
| Repayments.Distribute | Pages/Repayment/Schedule.cshtml.cs:140-166 | Distributing shares never moves, adds or removes a wallet |
| Repayments.DistributeLogs | Pages/Repayment/Schedule.cshtml.cs:154-164 | The distribution logs at most one transaction per funding. Each is a "LoanRepayment" in RWF, related to the loan, on an existing wallet |
| Repayments.DistributeAddsCredited | Pages/Repayment/Schedule.cshtml.cs:140-166 | The money in wallets rises by exactly the shares credited to the lenders that hold a wallet |
| Repayments.CreditedAll | Pages/Repayment/Schedule.cshtml.cs:140-151 | When every lender holds a wallet, the credited shares add up to the share of the sum of the fundings |
| Repayments.ShareOfSum | Pages/Repayment/Schedule.cshtml.cs:143-144 | The share of a sum of contributions is the sum of their shares |
| Repayments.ShareOfWhole | Pages/Repayment/Schedule.cshtml.cs:143-144 | The share of the whole funded amount is the whole payment |
| Repayments.FullPaymentPassedOn | Pages/Repayment/Schedule.cshtml.cs:138-166 | Under exact arithmetic, when every lender holds a wallet, the lenders receive the whole payment between them |
| Repayments.LenderReceivesShares | Pages/Repayment/Schedule.cshtml.cs:140-151 | A lender with a wallet gains the sum of the shares of their fundings |
| Repayments.SharesProportional | Pages/Repayment/Schedule.cshtml.cs:143-144 | The sum of one lender's shares is payment · (their total contribution / total funded) |
| Repayments.LenderReceivesShare | Pages/Repayment/Schedule.cshtml.cs:140-151 | A lender with a wallet gains payment · (their contribution / total funded), however many fundings they made. A user without a wallet gets nothing and is given no wallet |
| Repayments.DistributeKeepsNoOverdraft | Pages/Repayment/Schedule.cshtml.cs:150-151 | Crediting non-negative shares leaves no balance negative |
| Repayments.SettleConserves | Pages/Repayment/Schedule.cshtml.cs:121-166 | When every lender holds a wallet, a payment moves money between wallets and creates none |
| Repayments.SettleKeepsLenders | Pages/Repayment/Schedule.cshtml.cs:121-151 | A payment moves no wallet, so every lender that held a wallet still holds one |
| Repayments.SettlePayerBalance | Pages/Repayment/Schedule.cshtml.cs:121-151 | The payer loses exactly the amount due, less their own share when they also funded the loan |
| Repayments.SettleOthers | Pages/Repayment/Schedule.cshtml.cs:140-151 | Every other user with a wallet gains exactly their share. A user without one still has no money |
| Repayments.SettleUnfunded | Pages/Repayment/Schedule.cshtml.cs:121-138 | On a loan without fundings the payer loses the amount due, no lender transaction is logged, and the money in wallets falls by the amount due |
| Repayments.InstallmentsOf | Pages/Repayment/Schedule.cshtml.cs:46-49 | A loan's installments are exactly the installment rows that refer to it |
| Repayments.InstallmentsOfCounts | Pages/Repayment/Schedule.cshtml.cs:46-49 | Each installment row of the loan occurs in the loan's installments as often as in the table, and no other row occurs |
| Repayments.InstallmentsOfKeepsOrder | Pages/Repayment/Schedule.cshtml.cs:46-49 | The loan's installments keep table order: the installments of any prefix of the table are a prefix of the loan's installments |
| Repayments.PaidOfConcat | Pages/Repayment/Schedule.cshtml.cs:62-63 | The paid count and the paid total of two lists laid end to end are the sums of those of the parts |
| Repayments.PaidOfReorder | Pages/Repayment/Schedule.cshtml.cs:55-63 | The paid count and the paid total do not depend on the order of the installments, so sorting by date before counting changes neither |
| Repayments.PaidCountBounds | Pages/Repayment/Schedule.cshtml.cs:62 | The paid count is at most the number of installments, and equals it exactly when all are Paid |
| Repayments.PaidTotalNonNegative | Pages/Repayment/Schedule.cshtml.cs:63 | The total paid is never negative for installments with non-negative amounts |
| Repayments.SchedulePage | Pages/Repayment/Schedule.cshtml.cs:33-71 | A non-borrower is redirected. The page shows a loan exactly when it is the caller's, listing its installments in date order. TotalRepayment = amount + interest, TotalPaid is the sum of principal + interest over the loan's Paid installments and PaidCount their number, TotalRemaining = TotalRepayment − TotalPaid, and PaidCount reaches the count exactly when all are Paid. The weekly payment is the earliest installment's principal + interest, or 0 without installments. The balance is the caller's |
| Ordering.SortBy | Pages/Repayment/Schedule.cshtml.cs:55 | The result is ordered by the key and is a permutation of the input (the order of equal keys is not stated) |
| Ordering.SortKeepsMembers | Pages/Admin/LoanApprovals.cshtml.cs:72-74 | Sorting neither adds nor drops an element |
| Approvals.FilterOf | Pages/Admin/LoanApprovals.cshtml.cs:58-70 | The filters "Pending", "Approved" and "Rejected" select their status, and any other filter selects every loan |
| Approvals.Selected | Pages/Admin/LoanApprovals.cshtml.cs:58-70 | The filtered list holds every loan the filter matches exactly once, in table order, and its length is the tab count |
| Approvals.ApprovalsPage | Pages/Admin/LoanApprovals.cshtml.cs:27-77 | Anyone but an Admin is sent away. An Admin sees each tab count equal to the number of loans in that status, the total number of loans, and exactly the matching loans, newest first |
| Approvals.NewestFirstListing | Pages/Admin/LoanApprovals.cshtml.cs:58-74 | The sorted listing holds exactly the loans the filter matches, and creation times do not increase along it |
| Approvals.CountAllIsTotal | Pages/Admin/LoanApprovals.cshtml.cs:51 | The "All" count is the number of loans |
| Approvals.TabsWithinTotal | Pages/Admin/LoanApprovals.cshtml.cs:39-51 | The three tab counts add up to at most the total, and to the total exactly when no loan is Funded, Repaying or Completed |
| Approvals.DecisionCheck | Pages/Admin/LoanApprovals.cshtml.cs:85-108 | A decision proceeds exactly when the caller is an Admin and the loan exists and is Pending. A non-Admin is forbidden and an unknown id is not found |
| Approvals.Decide | Pages/Admin/LoanApprovals.cshtml.cs:110-124 | "approve" sets Approved and "reject" sets Rejected, each stamping ApprovedAt and the approver. Any other action leaves the loan unchanged. Amount, rate, borrower, term and creation time are kept |
| Approvals.DecidedOnce | Pages/Admin/LoanApprovals.cshtml.cs:104-124 | After an approval or a rejection, a second decision on the loan is refused as already processed, and the Pending count drops by one |
| Approvals.CountAfterUpdate | Pages/Admin/LoanApprovals.cshtml.cs:39-49 | Replacing one loan changes a tab count only by that loan's own old and new match |
| Kyc.LatestDoc | Pages/Loan/Create.cshtml.cs:148-151 | The chosen document is the user's document with the latest review time (an unreviewed one counts as reviewed at the earliest time), the later row winning a tie. There is none exactly when the user has no document |
| Kyc.KycStatusShown | Pages/Loan/Create.cshtml.cs:139-155 | An unknown user shows nothing. "Not Submitted" is shown exactly when the user has no document; otherwise the status shown is the name of the status of the document LatestDoc picks |
| Kyc.ReviewCheck | Pages/Admin/KYCReview.cshtml.cs:64-80 | A review proceeds exactly when the caller is an Admin and the document exists, whatever its current status |
| Kyc.Review | Pages/Admin/KYCReview.cshtml.cs:83-95 | "approve" sets Approved and "reject" sets Rejected; any other action keeps the status. The reviewer and the review time are stamped for every action |
| Kyc.ReviewDecidesShownStatus | Pages/Loan/Create.cshtml.cs:148-153 | A review later than every other review of the user's documents makes that document the one shown, with its new status |
| Validation.RequiredMeansNonBlank | Pages/Account/Register.cshtml.cs:24-41 | [Required] rejects exactly the empty and the all-blank strings, and a string made of two parts passes exactly when one of the parts does: one non-blank character anywhere is enough, and "   " fails |
| Validation.IndexOf | Pages/Account/Register.cshtml.cs:26-28 | The result is the first position of the character, or nothing when it does not occur |
| Validation.LastIndexOf | Pages/Account/Register.cshtml.cs:26-28 | The result is the last position of the character, or nothing when it does not occur |
| Validation.EmailAddressExactlyOneAt | Pages/Account/Register.cshtml.cs:26-28 | [EmailAddress] accepts exactly the strings with one '@' that is neither the first nor the last character |
| Validation.RoundHalfEven | Pages/Wallet/Deposit.cshtml.cs:24 | Conversion to an integer rounds to the nearest integer, and a value exactly halfway goes to the even neighbour |
| Validation.RangeAsWritten | Pages/Wallet/Deposit.cshtml.cs:24 | [Range] with integer bounds on a decimal overflows exactly when the rounded value is outside 32 bits |
| Validation.RangeAsWrittenWindow | Pages/Loan/Create.cshtml.cs:28-43 | [Range(lo, hi)] on a decimal accepts exactly the values above lo − ½ and below hi + ½, and the value exactly ½ outside a bound when that bound is even |
| Validation.InRangeIsAccepted | Pages/Loan/Create.cshtml.cs:28-43 | Every value in [lo, hi] passes [Range(lo, hi)] |
| Validation.DepositHalfBelowMinimumAccepted | Pages/Wallet/Deposit.cshtml.cs:24 | The deposit attribute accepts 99.5, below the 100 minimum |
| Validation.LoanAmountHalfBelowMinimumAccepted | Pages/Loan/Create.cshtml.cs:28 | The loan amount attribute accepts 999.5, below the 1000 minimum |
| Validation.RateOutsideRangeAccepted | Pages/Loan/Create.cshtml.cs:43 | The interest rate attribute accepts 0.6 and 20.4, outside [1, 20] |
| Validation.DepositAmountPositive | Pages/Wallet/Deposit.cshtml.cs:24 | A valid deposit is at least 100, so it is positive |
| Validation.TermMonths | Pages/Loan/Create.cshtml.cs:97 | The term in months is the ceiling of weeks / 4: 4·(m − 1) < weeks <= 4·m |
| Validation.TermMonthsOfValidInput | Pages/Loan/Create.cshtml.cs:97 | A valid term of 4 to 52 weeks is 1 to 13 months, which fits the 16-bit column |
| Invariants.InstallmentMeansFunded | Pages/Repayment/Schedule.cshtml.cs:138-144 | A loan with an installment has been fully funded by at least one funding row, so the division by the funded total is defined |
| Invariants.FundedTotalPositive | Pages/Repayment/Schedule.cshtml.cs:138 | The funded total is never negative, and it is positive when the loan has a funding row |
| Invariants.LifecycleAfterFund | Pages/Loan/Fund.cshtml.cs:107-184 | A contribution keeps the loan lifecycle: the loan is never over-funded, and reaching the requested amount marks it Funded with exactly four unpaid installments |
| Invariants.LifecycleAfterPay | Pages/Repayment/Schedule.cshtml.cs:169-184 | A payment keeps the loan lifecycle: the loan is Completed when all its installments are Paid, and Repaying otherwise |
| Invariants.LifecycleAfterDecide | Pages/Admin/LoanApprovals.cshtml.cs:104-124 | Deciding a Pending request keeps the loan lifecycle |
| Invariants.LifecycleAfterCreate | Pages/Loan/Create.cshtml.cs:99-112 | A new Pending request, with no funding and no installment, keeps the loan lifecycle |
| Invariants.CreditOrOpenKeepsSound | Pages/Wallet/Deposit.cshtml.cs:64-82 | Crediting a registered user keeps every wallet owned, non-negative and one per user |
| Invariants.FundKeepsWallets | Pages/Loan/Fund.cshtml.cs:118-151 | A covered transfer keeps the wallets sound, and the Debit and Credit transactions refer to existing wallets |
| Invariants.PayKeepsWallets | Pages/Repayment/Schedule.cshtml.cs:121-164 | A covered payment keeps the wallets sound, and every logged transaction refers to an existing wallet |
| Invariants.FundKeepsConsistent | Pages/Loan/Fund.cshtml.cs:107-184 | An accepted contribution keeps the whole database consistent |
| Invariants.PayKeepsConsistent | Pages/Repayment/Schedule.cshtml.cs:121-184 | A settled payment keeps the whole database consistent |
| Invariants.DepositKeepsConsistent | Pages/Wallet/Deposit.cshtml.cs:64-94 | A deposit keeps the whole database consistent |
| Invariants.DecideKeepsConsistent | Pages/Admin/LoanApprovals.cshtml.cs:110-124 | Deciding a Pending request keeps the whole database consistent |
| Invariants.CreateKeepsConsistent | Pages/Loan/Create.cshtml.cs:99-112 | A new request by a registered borrower keeps the whole database consistent |
| Invariants.HoldersKeepWallets | Pages/Loan/Fund.cshtml.cs:84-90 | A change of wallets in which every holder keeps a wallet keeps every lender's wallet |
| Invariants.CreditOrOpenKeepsLenders | Pages/Wallet/Deposit.cshtml.cs:64-82 | Crediting a user, opening their wallet if need be, takes no lender's wallet away |
| Invariants.LendersOfLoan | Pages/Repayment/Schedule.cshtml.cs:138-151 | When every lender of the table holds a wallet, so does every lender of one loan |
| Invariants.FundKeepsLenders | Pages/Loan/Fund.cshtml.cs:84-130 | After a contribution every lender, the new one included, holds a wallet |
| Invariants.PayConserves | Pages/Repayment/Schedule.cshtml.cs:121-166 | In a consistent database a settled payment moves money between wallets and creates or destroys none: the lenders, who all hold wallets, receive the whole amount due |
| Invariants.RegisterKeepsConsistent | Pages/Account/Register.cshtml.cs:57-101 | A user under a fresh e-mail address whose row fits the Users columns, with their wallet and profile, keeps the whole database consistent, e-mails staying unique |
| Invariants.DocumentsKeepConsistent | Pages/Admin/KYCReview.cshtml.cs:83-95 | Reviewing or adding a registered user's document keeps the whole database consistent |
| Ledger.Store.Fund | Pages/Loan/Fund.cshtml.cs:63-190 | The outcome is FundDecision. A refusal changes nothing. An accepted contribution leaves the tables as FundEffect says: the funding row; the transfer; a Debit and a Credit transaction for the amount, related to the loan; and on full funding, Funded status and the schedule. The money in wallets is unchanged. Consistency is kept |
| Ledger.Store.Contribute | Pages/Loan/Fund.cshtml.cs:107-184 | The handler's steps in order produce exactly FundEffect of the old tables |
| Ledger.Store.MoveFunds | Pages/Loan/Fund.cshtml.cs:118-130 | The wallets become the transfer of the old wallets, the returned wallet is the borrower's, and no other table changes |
| Ledger.Store.Credit | Pages/Wallet/Deposit.cshtml.cs:64-82 | The wallets become the credit (opening the wallet when missing) of the old wallets, the returned wallet is the owner's, and no other table changes |
| Ledger.Store.AddSchedule | Pages/Loan/Fund.cshtml.cs:173-184 | The loop appends exactly the four installments of the schedule, and no other table changes |
| Ledger.Store.PayInstallment | Pages/Repayment/Schedule.cshtml.cs:73-203 | The outcome is PayDecision. A refusal changes nothing. A settled payment leaves the tables as PayEffect says: the payer's debit and its "LoanRepayment" transaction, the lenders' shares and their transactions, the installment Paid at now, and the loan Completed or Repaying. The money in wallets is unchanged. Consistency is kept |
| Ledger.Store.Repay | Pages/Repayment/Schedule.cshtml.cs:111-184 | The handler's steps in order produce exactly PayEffect of the old tables |
| Ledger.Store.ChargeAndDistribute | Pages/Repayment/Schedule.cshtml.cs:111-166 | The wallets become Settle of the old wallets, and the payer's transaction followed by the lenders' is appended to the log |
| Ledger.Store.PayLenders | Pages/Repayment/Schedule.cshtml.cs:140-166 | The loop over the fundings leaves the wallets and the new transactions equal to Distribute of the old wallets |
| Ledger.Store.CloseInstallment | Pages/Repayment/Schedule.cshtml.cs:169-184 | The installment becomes Paid at now, and its loan becomes Completed when every installment of the loan is Paid and Repaying otherwise |
| Ledger.Store.Deposit | Pages/Wallet/Deposit.cshtml.cs:50-116 | With the evidently intended exact range check, a deposit is accepted exactly when the amount lies in [100, 1000000]; otherwise nothing changes. The attribute as written accepts more (Validation.RangeAsWritten, first row of Findings). An accepted deposit credits the caller's wallet, opened with 0 when missing, raises the money in wallets by exactly the amount, and appends one "Deposit" transaction of the amount with no related loan. Consistency is kept |
| Ledger.Store.DecideLoan | Pages/Admin/LoanApprovals.cshtml.cs:79-142 | The outcome is DecisionCheck. A refusal changes nothing. Otherwise only the loan changes, as Decide says. Consistency is kept |
| Ledger.Store.CreateLoan | Pages/Loan/Create.cshtml.cs:77-137 | A non-borrower or an invalid form creates nothing; the form's amount and rate are checked with the evidently intended exact ranges, where the attributes as written accept more (Validation.RangeAsWritten, Findings). Otherwise one Pending RWF request of the caller is appended, copying amount, purpose and rate, with the term rounded up to 1 to 13 months. Consistency is kept |
| Ledger.Store.Register | Pages/Account/Register.cshtml.cs:49-130 | An invalid form or a used e-mail inserts nothing. A user whose e-mail or password hash is longer than 255 characters or whose role is longer than 50 makes the save fail, and nothing is stored. Otherwise exactly one user is added, with the role as submitted, plus a wallet with the opening balance and a profile, both referring to the new user; no transaction is logged. Consistency is kept |
| Ledger.Store.AddKycDocument | Pages/KYC/Upload.cshtml.cs:127-138 | One Pending document of the caller is appended, and nothing else changes |
| Ledger.Store.ReviewKyc | Pages/Admin/KYCReview.cshtml.cs:58-113 | The outcome is ReviewCheck. A refusal changes nothing. Otherwise only the document changes, as Review says. Consistency is kept |

## Left out

- Sessions, redirects, TempData messages and ModelState plumbing are not modelled. The
  caller's id and role are parameters, and a handler's outcome datatype stands for the page
  it returns.
- Audit log rows are not modelled. They record IP address and user agent and have no effect
  on the ledger.
- Persistence and concurrency are not modelled. Each handler is one atomic step, and races
  between simultaneous requests are out of scope.
- Rounding to two decimals when a value is saved is not modelled. Money is exact, and the
  divisions by 4 and by the funded total are exact; `Models.QuarterMayLeaveCents` shows a
  value the column would round.
- `Guid.NewGuid` and `DateTime.UtcNow` are not modelled. A row's id is its position, and the
  current time is a parameter.
- Kyc.LatestDoc: a tie in review time goes to the later row, where the application compares
  Guid DocIds, whose order has nothing to do with insertion order.
- Password hashing is not modelled. The hash is a parameter of `Ledger.Store.Register`,
  since it comes from the BCrypt library.
- The file handling of the KYC upload page is not modelled (checking the upload, writing the
  file, building the path). Only the row it inserts is modelled.
- The login page, the read-only dashboards and listings, and the application startup
  configuration are not part of this model.
- Ledger.Store.Register: the e-mail comparison is exact character equality; the database
  collation may compare addresses differently.
- Integer widths are not modelled. The 32-bit conversion in [Range] is modelled, and the
  16-bit term column is shown to be enough for valid input.
- Repayments.SettleConserves and Repayments.FullPaymentPassedOn assume that every lender
  holds a wallet. The consistency predicate includes that fact, every handler keeps it, and
  `Invariants.PayConserves` derives conservation for every settled payment from it. Without
  it a lender would be skipped and their share would leave the ledger
  (`Repayments.LenderReceivesShare`).
- Ledger.Store.Deposit and Ledger.Store.CreateLoan check the exact ranges the attributes
  evidently intend, not the attributes as written. The as-written acceptance window is
  `Validation.RangeAsWritten`. As written, a value whose rounding falls outside 32 bits throws
  an OverflowException that no handler catches, so the request ends in a server error.
  `Validation.RangeAsWritten` shows when that happens, but no handler method models it.
- Balances of 10^10 or more do not fit the decimal(12,2) Balance column. The database would
  then refuse the save and the unhandled error would end the request, but the model
  accepts such a balance. `Models.IsMoney` states the column's range and holds for the
  opening balance. The invariant does not require it, since repeated deposits can reach
  the limit.
- Column widths are counted in Dafny characters, where the database counts UTF-16 code
  units. A character outside the Basic Multilingual Plane counts once here and twice
  there, so an e-mail or role near its limit may be accepted here and refused by the
  database.

Where the application differs from what its description suggests, the model follows the
code, except for the range checks of Deposit and CreateLoan, which are listed under Findings:

- Funding does not check that the loan is Approved, nor that the caller is a Lender.
- Its transactions are named "Debit" and "Credit".
- On full funding it overwrites ApprovedAt.
- A borrower who funds their own loan moves money from their wallet to the same wallet.
- Registration logs no transaction for the opening balance.
- A KYC document can be reviewed again after it has been reviewed.

## Findings

| source | as written | input that shows it | evidently intended | confidence | as-written member | corrected member |
|---|---|---|---|---|---|---|
| Pages/Wallet/Deposit.cshtml.cs:24 | `[Range(100, 1000000)]` on a decimal amount converts it to a 32-bit integer, rounding half to even, before comparing | a deposit of 99.5 (it rounds to 100) | amounts below 100 are refused | not executed | Validation.DepositHalfBelowMinimumAccepted | Ledger.Store.Deposit |
| Pages/Loan/Create.cshtml.cs:28 | `[Range(1000, 10000000)]` on the decimal loan amount rounds before comparing | a request for 999.5 (it rounds to 1000) | amounts below 1000 are refused | not executed | Validation.LoanAmountHalfBelowMinimumAccepted | Ledger.Store.CreateLoan |
| Pages/Loan/Create.cshtml.cs:43 | `[Range(1, 20)]` on the decimal interest rate rounds before comparing | rates 0.6 (rounds to 1) and 20.4 (rounds to 20) | rates outside [1, 20] are refused | not executed | Validation.RateOutsideRangeAccepted | Ledger.Store.CreateLoan |
