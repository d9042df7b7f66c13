/**
 * KYC documents: the administrator's review (Pages/Admin/KYCReview.cshtml.cs) and the status
 * the loan request page shows a borrower (Pages/Loan/Create.cshtml.cs), taken from their
 * most recently reviewed document.
 */
module Kyc {
  import opened Models

  /** `ReviewedAt ?? DateTime.MinValue`: an unreviewed document counts as reviewed at tick 0. */
  function ReviewTime(d: KycDoc): Time {
    match d.reviewedAt
    case None => 0
    case Some(t) => t
  }

  /**
   * `OrderByDescending(k => k.ReviewedAt ?? MinValue).ThenByDescending(k => k.DocId).FirstOrDefault()`
   * over the user's documents: the one reviewed last, the larger id winning a tie.
   */
  function LatestDoc(docs: seq<KycDoc>, user: UserId): (r: Option<DocId>)
    ensures r.None? <==> forall j :: 0 <= j < |docs| ==> docs[j].user != user
    ensures r.Some? ==> r.value < |docs| && docs[r.value].user == user
    ensures r.Some? ==> forall j :: 0 <= j < |docs| && docs[j].user == user ==>
      ReviewTime(docs[j]) < ReviewTime(docs[r.value])
      || (ReviewTime(docs[j]) == ReviewTime(docs[r.value]) && j <= r.value)
    decreases |docs|
  {
    if |docs| == 0 then None
    else
      var n := |docs| - 1;
      var prev := LatestDoc(docs[..n], user);
      assert forall j :: 0 <= j < n ==> docs[..n][j] == docs[j];
      if docs[n].user != user then prev
      else if prev.None? || ReviewTime(docs[prev.value]) <= ReviewTime(docs[n]) then Some(n)
      else prev
  }

  /**
   * The KYC status the loan request page shows: nothing for an unknown user, "Not Submitted"
   * for a user without documents, else the status of their latest document.
   */
  function KycStatusShown(users: seq<User>, docs: seq<KycDoc>, user: UserId): (s: Option<string>)
    ensures s.None? <==> user >= |users|
    ensures s == Some("Not Submitted") <==> user < |users| && forall j :: 0 <= j < |docs| ==> docs[j].user != user
    ensures s.Some? && LatestDoc(docs, user).Some? ==> s.value == docs[LatestDoc(docs, user).value].status.Name()
  {
    if user >= |users| then None
    else match LatestDoc(docs, user)
      case None => Some("Not Submitted")
      case Some(k) => Some(docs[k].status.Name())
  }

  /** How OnPostAsync ends before any change. */
  datatype ReviewOutcome = NotAdmin | DocNotFound | Proceed

  /**
   * The checks of OnPostAsync: an administrator and an existing document. The document's
   * current status is not consulted, so a reviewed document can be reviewed again.
   */
  function ReviewCheck(docs: seq<KycDoc>, doc: DocId, role: string): (r: ReviewOutcome)
    ensures r == Proceed <==> role == "Admin" && doc < |docs|
    ensures r == NotAdmin <==> role != "Admin"
  {
    if role != "Admin" then NotAdmin
    else if doc >= |docs| then DocNotFound
    else Proceed
  }

  /**
   * The review of a document: "approve" and "reject" set the status, any other action keeps
   * it; the reviewer and the review time are stamped whatever the action.
   */
  function Review(d: KycDoc, action: string, admin: UserId, now: Time): (d': KycDoc)
    ensures d'.user == d.user && d'.docType == d.docType && d'.filePath == d.filePath
    ensures d'.reviewer == Some(admin) && d'.reviewedAt == Some(now)
    ensures d'.status == KycStatus.Approved <==> action == "approve" || (action != "reject" && d.status == KycStatus.Approved)
    ensures d'.status == KycStatus.Rejected <==> action == "reject" || (action != "approve" && d.status == KycStatus.Rejected)
  {
    var status :=
      if action == "approve" then KycStatus.Approved
      else if action == "reject" then KycStatus.Rejected
      else d.status;
    d.(status := status, reviewer := Some(admin), reviewedAt := Some(now))
  }

  /**
   * A review later than every other review of the user's documents decides what the loan
   * request page shows: the reviewed document becomes the latest one, and its new status is
   * the one displayed.
   */
  lemma {:induction false} ReviewDecidesShownStatus(users: seq<User>, docs: seq<KycDoc>, k: DocId,
                                                    action: string, admin: UserId, now: Time)
    requires k < |docs| && docs[k].user < |users|
    requires forall j :: 0 <= j < |docs| && j != k && docs[j].user == docs[k].user ==> ReviewTime(docs[j]) < now
    ensures var docs' := docs[k := Review(docs[k], action, admin, now)];
      && LatestDoc(docs', docs[k].user) == Some(k)
      && KycStatusShown(users, docs', docs[k].user) == Some(docs'[k].status.Name())
  {
    var u := docs[k].user;
    var docs' := docs[k := Review(docs[k], action, admin, now)];
    var r := LatestDoc(docs', u);
    assert docs'[k].user == u;
    assert r.Some?;
  }
}
