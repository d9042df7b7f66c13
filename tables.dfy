/**
 * Queries over the tables that several handlers share: the wallet lookup every handler
 * performs, balance updates, the funding sums and the per-loan view of installments.
 */
module Tables {
  import opened Models

  // ---------------------------------------------------------------- wallets

  /**
   * `Wallets.FirstOrDefault(w => w.UserId == owner)`: a wallet the owner holds. The query has
   * no ordering, so the database may return any of them; this picks the first in table
   * order, which is the only one under OneWalletPerUser.
   */
  function FindWallet(ws: seq<Wallet>, owner: UserId): (r: Option<WalletId>)
    ensures r.Some? ==> r.value < |ws| && ws[r.value].owner == owner
    ensures r.Some? ==> forall i :: 0 <= i < r.value ==> ws[i].owner != owner
    ensures r.None? <==> forall i :: 0 <= i < |ws| ==> ws[i].owner != owner
    decreases |ws|
  {
    if |ws| == 0 then None
    else if ws[0].owner == owner then Some(0)
    else match FindWallet(ws[1..], owner)
      case None => None
      case Some(i) => Some(i + 1)
  }

  /** `wallet?.Balance ?? 0`. */
  function BalanceOf(ws: seq<Wallet>, owner: UserId): real {
    match FindWallet(ws, owner)
    case None => 0.0
    case Some(i) => ws[i].balance
  }

  /** All money held in wallets. */
  function TotalBalance(ws: seq<Wallet>): real
    decreases |ws|
  {
    if |ws| == 0 then 0.0 else TotalBalance(ws[..|ws| - 1]) + ws[|ws| - 1].balance
  }

  lemma {:induction false} TotalBalanceUpdate(ws: seq<Wallet>, i: nat, w: Wallet)
    requires i < |ws|
    ensures TotalBalance(ws[i := w]) == TotalBalance(ws) - ws[i].balance + w.balance
    decreases |ws|
  {
    var n := |ws| - 1;
    if i < n {
      assert ws[i := w][..n] == ws[..n][i := w];
      TotalBalanceUpdate(ws[..n], i, w);
    } else {
      assert ws[i := w][..n] == ws[..n];
    }
  }

  /** Two wallet tables with the same owners, position by position. */
  predicate SameOwners(a: seq<Wallet>, b: seq<Wallet>) {
    |a| == |b| && forall i :: 0 <= i < |a| ==> a[i].owner == b[i].owner
  }

  /** Balance changes do not move wallets: every lookup finds the same wallet as before. */
  lemma {:induction false} SameOwnersSameLookup(a: seq<Wallet>, b: seq<Wallet>, owner: UserId)
    requires SameOwners(a, b)
    ensures FindWallet(a, owner) == FindWallet(b, owner)
  {
    var ra, rb := FindWallet(a, owner), FindWallet(b, owner);
    if ra.Some? {
      assert b[ra.value].owner == owner;
    }
    if rb.Some? {
      assert a[rb.value].owner == owner;
    }
  }

  /** Opening a wallet at the end of the table leaves every earlier lookup as it was. */
  lemma {:induction false} AppendedWalletLookup(ws: seq<Wallet>, w: Wallet, owner: UserId)
    ensures FindWallet(ws + [w], owner) ==
      if FindWallet(ws, owner).Some? then FindWallet(ws, owner)
      else if w.owner == owner then Some(|ws|) else None
  {
    var r, r' := FindWallet(ws, owner), FindWallet(ws + [w], owner);
    if r.Some? {
      assert (ws + [w])[r.value] == ws[r.value];
    }
    if r'.Some? && r'.value < |ws| {
      assert ws[r'.value] == (ws + [w])[r'.value];
    }
    assert (ws + [w])[|ws|] == w;
  }

  /** `wallet.Balance += delta` on the wallet at position i (a debit when delta is negative). */
  function Adjust(ws: seq<Wallet>, i: WalletId, delta: real, now: Time): (r: seq<Wallet>)
    requires i < |ws|
    ensures SameOwners(ws, r)
    ensures r[i].balance == ws[i].balance + delta
    ensures forall j :: 0 <= j < |ws| && j != i ==> r[j] == ws[j]
  {
    ws[i := ws[i].(balance := ws[i].balance + delta, updatedAt := now)]
  }

  /** A balance change moves the money in wallets by exactly the change. */
  lemma {:induction false} AdjustTotal(ws: seq<Wallet>, i: WalletId, delta: real, now: Time)
    requires i < |ws|
    ensures TotalBalance(Adjust(ws, i, delta, now)) == TotalBalance(ws) + delta
  {
    TotalBalanceUpdate(ws, i, Adjust(ws, i, delta, now)[i]);
  }

  /** The wallet created when an owner has none: balance 0 in RWF. */
  function EmptyWallet(owner: UserId, now: Time): (w: Wallet)
    ensures w.owner == owner && w.balance == 0.0 && w.currency == RWF
  {
    NewWallet(owner, now).(balance := 0.0)
  }

  /**
   * Credits the owner's wallet, first creating it with balance 0 when the owner has none
   * (Fund for the borrower, Deposit for the caller). Afterwards the owner holds a wallet.
   */
  function CreditOrOpen(ws: seq<Wallet>, owner: UserId, amount: real, now: Time): (r: seq<Wallet>)
    ensures FindWallet(r, owner).Some? && |r| >= |ws|
  {
    var found := FindWallet(ws, owner);
    if found.Some? then
      SameOwnersSameLookup(Adjust(ws, found.value, amount, now), ws, owner);
      Adjust(ws, found.value, amount, now)
    else
      var grown := ws + [EmptyWallet(owner, now)];
      AppendedWalletLookup(ws, EmptyWallet(owner, now), owner);
      SameOwnersSameLookup(Adjust(grown, |ws|, amount, now), grown, owner);
      Adjust(grown, |ws|, amount, now)
  }

  /** Crediting a wallet, opened or not, raises all money in wallets by exactly the amount. */
  lemma {:induction false} CreditOrOpenTotal(ws: seq<Wallet>, owner: UserId, amount: real, now: Time)
    ensures TotalBalance(CreditOrOpen(ws, owner, amount, now)) == TotalBalance(ws) + amount
  {
    var found := FindWallet(ws, owner);
    if found.Some? {
      AdjustTotal(ws, found.value, amount, now);
    } else {
      var grown := ws + [EmptyWallet(owner, now)];
      assert grown[..|ws|] == ws;
      assert TotalBalance(grown) == TotalBalance(ws);
      AdjustTotal(grown, |ws|, amount, now);
    }
  }

  /**
   * What CreditOrOpen does to the wallets: a wallet is opened exactly when the owner had
   * none, the owner's balance (0 for a missing wallet) rises by exactly the amount, and no
   * other wallet changes or moves.
   */
  lemma {:induction false} CreditOrOpenEffect(ws: seq<Wallet>, owner: UserId, amount: real, now: Time)
    ensures var r := CreditOrOpen(ws, owner, amount, now);
      && |r| == |ws| + (if FindWallet(ws, owner).None? then 1 else 0)
      && BalanceOf(r, owner) == BalanceOf(ws, owner) + amount
      && (forall j :: 0 <= j < |ws| && j != FindWallet(r, owner).value ==> r[j] == ws[j])
      && (forall u :: u != owner ==> FindWallet(r, u) == FindWallet(ws, u))
  {
    var r := CreditOrOpen(ws, owner, amount, now);
    var found := FindWallet(ws, owner);
    if found.Some? {
      forall u ensures FindWallet(r, u) == FindWallet(ws, u) {
        SameOwnersSameLookup(r, ws, u);
      }
    } else {
      var grown := ws + [EmptyWallet(owner, now)];
      forall u ensures FindWallet(r, u) == FindWallet(grown, u) {
        SameOwnersSameLookup(r, grown, u);
      }
      forall u ensures FindWallet(grown, u) == if u == owner then Some(|ws|) else FindWallet(ws, u) {
        AppendedWalletLookup(ws, EmptyWallet(owner, now), u);
      }
    }
  }

  /** Every wallet holds a non-negative balance. */
  predicate NoOverdraft(ws: seq<Wallet>) {
    forall i :: 0 <= i < |ws| ==> ws[i].balance >= 0.0
  }

  // ---------------------------------------------------------------- fundings

  /**
   * `Loan.Fundings`: the loan's funding rows, each as often as the table holds it
   * (FundingsOfCounts), in table order (FundingsOfKeepsOrder).
   */
  function FundingsOf(fs: seq<Funding>, loan: LoanId): (r: seq<Funding>)
    ensures |r| <= |fs|
    ensures forall f :: f in r <==> f in fs && f.loan == loan
    decreases |fs|
  {
    if |fs| == 0 then []
    else
      var last := fs[|fs| - 1];
      var prefix := FundingsOf(fs[..|fs| - 1], loan);
      assert fs == fs[..|fs| - 1] + [last];
      if last.loan == loan then prefix + [last] else prefix
  }

  /** The loan's fundings hold each of its rows as many times as the table does, and no other row. */
  lemma {:induction false} FundingsOfCounts(fs: seq<Funding>, loan: LoanId)
    ensures forall f :: multiset(FundingsOf(fs, loan))[f] == if f.loan == loan then multiset(fs)[f] else 0
    decreases |fs|
  {
    if |fs| > 0 {
      var m := |fs| - 1;
      FundingsOfCounts(fs[..m], loan);
      assert fs == fs[..m] + [fs[m]];
    }
  }

  /**
   * Filtering keeps the table's order: the fundings of a prefix of the table are a prefix of
   * the loan's fundings. With the multiplicities above, this determines the result: one row
   * more in the table adds that row at the end when it is the loan's, and nothing otherwise.
   */
  lemma {:induction false} FundingsOfKeepsOrder(fs: seq<Funding>, loan: LoanId, n: nat)
    requires n <= |fs|
    ensures FundingsOf(fs[..n], loan) <= FundingsOf(fs, loan)
    decreases |fs|
  {
    if n < |fs| {
      var m := |fs| - 1;
      var a, b := FundingsOf(fs[..n], loan), FundingsOf(fs[..m], loan);
      var c := FundingsOf(fs, loan);
      assert a <= b by {
        assert fs[..m][..n] == fs[..n];
        FundingsOfKeepsOrder(fs[..m], loan, n);
      }
      assert b <= c by {
        assert c == b + (if fs[m].loan == loan then [fs[m]] else []);
      }
    } else {
      assert fs[..n] == fs;
    }
  }

  /** `Sum(f => f.Amount)`. */
  function SumAmounts(fs: seq<Funding>): real
    decreases |fs|
  {
    if |fs| == 0 then 0.0 else SumAmounts(fs[..|fs| - 1]) + fs[|fs| - 1].amount
  }

  /** Σ of the loan's funding amounts: what the loan has received so far. */
  function FundedAmount(fs: seq<Funding>, loan: LoanId): real {
    SumAmounts(FundingsOf(fs, loan))
  }

  lemma {:induction false} FundedAmountAppend(fs: seq<Funding>, f: Funding, loan: LoanId)
    ensures FundedAmount(fs + [f], loan) == FundedAmount(fs, loan) + (if f.loan == loan then f.amount else 0.0)
  {
    assert (fs + [f])[..|fs|] == fs;
  }

  /** A loan no funding row refers to has received nothing. */
  lemma {:induction false} FundedAmountUnreferenced(fs: seq<Funding>, loan: LoanId)
    requires forall i :: 0 <= i < |fs| ==> fs[i].loan != loan
    ensures FundingsOf(fs, loan) == [] && FundedAmount(fs, loan) == 0.0
    decreases |fs|
  {
    if |fs| > 0 {
      FundedAmountUnreferenced(fs[..|fs| - 1], loan);
    }
  }

  /** All amounts positive. */
  predicate AllPositive(fs: seq<Funding>) {
    forall i :: 0 <= i < |fs| ==> fs[i].amount > 0.0
  }

  lemma {:induction false} SumOfPositives(fs: seq<Funding>)
    requires AllPositive(fs)
    ensures SumAmounts(fs) >= 0.0
    ensures |fs| > 0 ==> SumAmounts(fs) > 0.0
    decreases |fs|
  {
    if |fs| > 0 {
      SumOfPositives(fs[..|fs| - 1]);
    }
  }

  lemma {:induction false} FundingsOfPositive(fs: seq<Funding>, loan: LoanId)
    requires AllPositive(fs)
    ensures AllPositive(FundingsOf(fs, loan))
  {
    var r := FundingsOf(fs, loan);
    forall i | 0 <= i < |r| ensures r[i].amount > 0.0 {
      assert r[i] in r;
      var k :| 0 <= k < |fs| && fs[k] == r[i];
    }
  }

  // ---------------------------------------------------------------- installments

  /** Number of installments of the loan. */
  function CountFor(rs: seq<Repayment>, loan: LoanId): nat
    decreases |rs|
  {
    if |rs| == 0 then 0
    else CountFor(rs[..|rs| - 1], loan) + (if rs[|rs| - 1].loan == loan then 1 else 0)
  }

  lemma {:induction false} CountForConcat(a: seq<Repayment>, b: seq<Repayment>, loan: LoanId)
    ensures CountFor(a + b, loan) == CountFor(a, loan) + CountFor(b, loan)
    decreases |b|
  {
    if |b| > 0 {
      var n := |b| - 1;
      assert (a + b)[..|a| + n] == a + b[..n];
      CountForConcat(a, b[..n], loan);
    } else {
      assert a + b == a;
    }
  }

  /** The count is zero exactly when no installment belongs to the loan. */
  lemma {:induction false} CountForZero(rs: seq<Repayment>, loan: LoanId)
    ensures CountFor(rs, loan) == 0 <==> forall i :: 0 <= i < |rs| ==> rs[i].loan != loan
    decreases |rs|
  {
    if |rs| > 0 {
      var n := |rs| - 1;
      CountForZero(rs[..n], loan);
      assert forall i :: 0 <= i < n ==> rs[..n][i] == rs[i];
    }
  }

  /** Replacing an installment by one of the same loan keeps every loan's count. */
  lemma {:induction false} CountForUpdate(rs: seq<Repayment>, k: nat, r: Repayment, loan: LoanId)
    requires k < |rs| && r.loan == rs[k].loan
    ensures CountFor(rs[k := r], loan) == CountFor(rs, loan)
    decreases |rs|
  {
    var n := |rs| - 1;
    if k < n {
      assert rs[k := r][..n] == rs[..n][k := r];
      CountForUpdate(rs[..n], k, r, loan);
    } else {
      assert rs[k := r][..n] == rs[..n];
    }
  }

  /** `allRepayments.All(r => r.Status == "Paid")` over the loan's installments. */
  predicate AllPaid(rs: seq<Repayment>, loan: LoanId) {
    forall i :: 0 <= i < |rs| && rs[i].loan == loan ==> rs[i].status == RepaymentStatus.Paid
  }

  /** No installment of the loan has been paid yet. */
  predicate NonePaid(rs: seq<Repayment>, loan: LoanId) {
    forall i :: 0 <= i < |rs| && rs[i].loan == loan ==> rs[i].status != RepaymentStatus.Paid
  }
}
