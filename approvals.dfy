/**
 * The administrator's loan approval page (Pages/Admin/LoanApprovals.cshtml.cs): the tab
 * counts, the list of loan requests under the chosen filter, newest first, and the
 * approve / reject decision on a pending request.
 */
module Approvals {
  import opened Models
  import opened Ordering

  /** The status a filter selects: "Pending", "Approved" and "Rejected" select one, anything else all. */
  function FilterOf(filter: string): (f: Option<LoanStatus>)
    ensures f == Some(LoanStatus.Pending) <==> filter == "Pending"
    ensures f == Some(LoanStatus.Approved) <==> filter == "Approved"
    ensures f == Some(LoanStatus.Rejected) <==> filter == "Rejected"
    ensures f.None? <==> filter != "Pending" && filter != "Approved" && filter != "Rejected"
  {
    if filter == "Pending" then Some(LoanStatus.Pending)
    else if filter == "Approved" then Some(LoanStatus.Approved)
    else if filter == "Rejected" then Some(LoanStatus.Rejected)
    else None
  }

  predicate Matches(l: Loan, f: Option<LoanStatus>) {
    f.None? || l.status == f.value
  }

  /** `Where(l => l.Status == …).CountAsync()` (everything when f is None). */
  function CountMatching(loans: seq<Loan>, f: Option<LoanStatus>): nat
    decreases |loans|
  {
    if |loans| == 0 then 0
    else CountMatching(loans[..|loans| - 1], f) + (if Matches(loans[|loans| - 1], f) then 1 else 0)
  }

  /** The loans under the filter, by id in table order. */
  function Selected(loans: seq<Loan>, f: Option<LoanStatus>): (r: seq<LoanId>)
    ensures forall i :: i in r <==> 0 <= i < |loans| && Matches(loans[i], f)
    ensures forall k :: 0 <= k < |r| ==> r[k] < |loans|
    ensures forall a, b :: 0 <= a < b < |r| ==> r[a] < r[b]
    ensures |r| == CountMatching(loans, f)
    decreases |loans|
  {
    if |loans| == 0 then []
    else
      var n := |loans| - 1;
      var prefix := Selected(loans[..n], f);
      assert forall i :: 0 <= i < n ==> loans[..n][i] == loans[i];
      if Matches(loans[n], f) then prefix + [n] else prefix
  }

  /** `OrderByDescending(l => l.CreatedAt)` as an ascending order on the negated time. */
  function NewestFirst(loans: seq<Loan>): LoanId -> int {
    (i: LoanId) => if i < |loans| then -(loans[i].createdAt as int) else 0
  }

  /** What OnGetAsync shows an administrator. */
  datatype ApprovalsView = ApprovalsView(pending: nat, approved: nat, rejected: nat, total: nat,
                                         shown: seq<LoanId>)

  datatype ApprovalsPageResult = NotAdmin | Listed(view: ApprovalsView)

  /**
   * OnGetAsync: anyone but an administrator is sent away; otherwise the three tab counts, the
   * total, and every loan under the filter exactly once, newest first.
   */
  function ApprovalsPage(loans: seq<Loan>, role: string, filter: string): (p: ApprovalsPageResult)
    ensures p.NotAdmin? <==> role != "Admin"
    ensures p.Listed? ==> var v := p.view;
      && v.pending == CountMatching(loans, Some(LoanStatus.Pending))
      && v.approved == CountMatching(loans, Some(LoanStatus.Approved))
      && v.rejected == CountMatching(loans, Some(LoanStatus.Rejected))
      && v.total == |loans|
      && (forall i :: i in v.shown <==> 0 <= i < |loans| && Matches(loans[i], FilterOf(filter)))
      && |v.shown| == CountMatching(loans, FilterOf(filter))
      && (forall a, b :: 0 <= a < b < |v.shown| ==>
            v.shown[a] < |loans| && v.shown[b] < |loans| && loans[v.shown[a]].createdAt >= loans[v.shown[b]].createdAt)
  {
    if role != "Admin" then NotAdmin
    else
      var shown := SortBy<LoanId>(Selected(loans, FilterOf(filter)), NewestFirst(loans));
      NewestFirstListing(loans, FilterOf(filter));
      CountAllIsTotal(loans);
      Listed(ApprovalsView(
        CountMatching(loans, Some(LoanStatus.Pending)),
        CountMatching(loans, Some(LoanStatus.Approved)),
        CountMatching(loans, Some(LoanStatus.Rejected)),
        |loans|,
        shown))
  }

  /** The sorted listing holds every loan under the filter and nothing else, newest first. */
  lemma {:induction false} NewestFirstListing(loans: seq<Loan>, f: Option<LoanStatus>)
    ensures var shown := SortBy<LoanId>(Selected(loans, f), NewestFirst(loans));
      && (forall i :: i in shown <==> 0 <= i < |loans| && Matches(loans[i], f))
      && |shown| == CountMatching(loans, f)
      && (forall a, b :: 0 <= a < b < |shown| ==>
            shown[a] < |loans| && shown[b] < |loans| && loans[shown[a]].createdAt >= loans[shown[b]].createdAt)
  {
    var sel := Selected(loans, f);
    var shown := SortBy<LoanId>(sel, NewestFirst(loans));
    assert forall i :: i in shown <==> i in sel by {
      SortKeepsMembers<LoanId>(sel, NewestFirst(loans));
    }
    assert forall k :: 0 <= k < |shown| ==> shown[k] < |loans| by {
      forall k | 0 <= k < |shown| ensures shown[k] < |loans| {
        assert shown[k] in sel;
      }
    }
    NewestFirstOrder(loans, shown);
  }

  /** A list of existing loans sorted on the negated creation time runs from newest to oldest. */
  lemma {:induction false} NewestFirstOrder(loans: seq<Loan>, shown: seq<LoanId>)
    requires forall k :: 0 <= k < |shown| ==> shown[k] < |loans|
    requires SortedBy(shown, NewestFirst(loans))
    ensures forall a, b :: 0 <= a < b < |shown| ==> loans[shown[a]].createdAt >= loans[shown[b]].createdAt
  {
    forall a, b | 0 <= a < b < |shown| ensures loans[shown[a]].createdAt >= loans[shown[b]].createdAt {
      assert NewestFirst(loans)(shown[a]) <= NewestFirst(loans)(shown[b]);
    }
  }

  /** The "All" tab counts every loan. */
  lemma {:induction false} CountAllIsTotal(loans: seq<Loan>)
    ensures CountMatching(loans, None) == |loans|
    decreases |loans|
  {
    if |loans| > 0 {
      CountAllIsTotal(loans[..|loans| - 1]);
    }
  }

  /**
   * The three tabs never count more than the total, and they count every loan exactly when
   * no loan has reached Funded, Repaying or Completed.
   */
  lemma {:induction false} TabsWithinTotal(loans: seq<Loan>)
    ensures CountMatching(loans, Some(LoanStatus.Pending)) + CountMatching(loans, Some(LoanStatus.Approved))
      + CountMatching(loans, Some(LoanStatus.Rejected)) <= |loans|
    ensures CountMatching(loans, Some(LoanStatus.Pending)) + CountMatching(loans, Some(LoanStatus.Approved))
      + CountMatching(loans, Some(LoanStatus.Rejected)) == |loans|
      <==> forall i :: 0 <= i < |loans| ==> loans[i].status in {LoanStatus.Pending, LoanStatus.Approved, LoanStatus.Rejected}
    decreases |loans|
  {
    if |loans| > 0 {
      var n := |loans| - 1;
      TabsWithinTotal(loans[..n]);
      assert forall i :: 0 <= i < n ==> loans[..n][i] == loans[i];
    }
  }

  // ---------------------------------------------------------------- deciding a request

  /** How OnPostAsync ends before any change. */
  datatype DecisionOutcome = Forbidden | RequestNotFound | AlreadyProcessed | Proceed

  /** The checks of OnPostAsync: an administrator, an existing loan, still pending. */
  function DecisionCheck(loans: seq<Loan>, loan: LoanId, role: string): (r: DecisionOutcome)
    ensures r == Proceed <==> role == "Admin" && loan < |loans| && loans[loan].status == LoanStatus.Pending
    ensures r == Forbidden <==> role != "Admin"
    ensures r == RequestNotFound <==> role == "Admin" && loan >= |loans|
  {
    if role != "Admin" then Forbidden
    else if loan >= |loans| then RequestNotFound
    else if loans[loan].status != LoanStatus.Pending then AlreadyProcessed
    else Proceed
  }

  /**
   * The update of a pending request: "approve" and "reject" set the status and stamp the
   * decision time and the administrator; any other action leaves the request as it was.
   */
  function Decide(l: Loan, action: string, admin: UserId, now: Time): (l': Loan)
    ensures l'.borrower == l.borrower && l'.amountRequested == l.amountRequested
    ensures l'.interestRate == l.interestRate && l'.createdAt == l.createdAt && l'.termMonths == l.termMonths
    ensures action == "approve" || action == "reject" ==>
      && (l'.status == LoanStatus.Approved <==> action == "approve")
      && (l'.status == LoanStatus.Rejected <==> action == "reject")
      && l'.approvedAt == Some(now) && l'.approver == Some(admin)
    ensures action != "approve" && action != "reject" ==> l' == l
  {
    if action == "approve" then l.(status := LoanStatus.Approved, approvedAt := Some(now), approver := Some(admin))
    else if action == "reject" then l.(status := LoanStatus.Rejected, approvedAt := Some(now), approver := Some(admin))
    else l
  }

  /**
   * A request is decided once: after an approval or a rejection every further decision is
   * refused as already processed, and the request has left the pending tab for the tab of
   * its decision.
   */
  lemma {:induction false} DecidedOnce(loans: seq<Loan>, loan: LoanId, action: string, admin: UserId, now: Time)
    requires DecisionCheck(loans, loan, "Admin") == Proceed
    requires action == "approve" || action == "reject"
    ensures var loans' := loans[loan := Decide(loans[loan], action, admin, now)];
      && DecisionCheck(loans', loan, "Admin") == AlreadyProcessed
      && CountMatching(loans', Some(LoanStatus.Pending)) == CountMatching(loans, Some(LoanStatus.Pending)) - 1
  {
    var loans' := loans[loan := Decide(loans[loan], action, admin, now)];
    CountAfterUpdate(loans, loan, loans'[loan], Some(LoanStatus.Pending));
  }

  /** Replacing one loan changes a count only by that loan's own match. */
  lemma {:induction false} CountAfterUpdate(loans: seq<Loan>, k: nat, l: Loan, f: Option<LoanStatus>)
    requires k < |loans|
    ensures CountMatching(loans[k := l], f)
      == CountMatching(loans, f) - (if Matches(loans[k], f) then 1 else 0) + (if Matches(l, f) then 1 else 0)
    decreases |loans|
  {
    var n := |loans| - 1;
    if k < n {
      assert loans[k := l][..n] == loans[..n][k := l];
      CountAfterUpdate(loans[..n], k, l, f);
    } else {
      assert loans[k := l][..n] == loans[..n];
    }
  }
}
