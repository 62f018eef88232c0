/**
 * The requester and approver dashboard (public/dash.js): purpose shortening, the
 * status a claim is shown with, the three approver queues the page keeps, the
 * approver table's search, and the role and landing tab it picks.
 */
module Dash {
  import opened Text
  import opened Seqs
  import opened Identity
  import C = Chain

  /** Purposes are cut to this many characters in every table. */
  const MAX_PURPOSE := 24
  const ELLIPSIS: char := '…'

  datatype Shortened = Shortened(short: string, truncated: bool)

  /** The end index `str.slice(0, e)` stops at: a negative `e` counts back from the length. */
  function SliceEnd(len: nat, e: int): (r: nat)
    ensures r <= len
    ensures 0 <= e <= len ==> r == e
  {
    if e < 0 then (if len + e < 0 then 0 else len + e)
    else if e > len then len
    else e
  }

  /** `shortify(str, max)` (public/dash.js:91-94). */
  function Shortify(s: string, max: int): Shortened {
    if |s| <= max then Shortened(s, false)
    else Shortened(s[..SliceEnd(|s|, max - 1)] + [ELLIPSIS], true)
  }

  /**
   * A string that fits is kept whole; a longer one becomes its first `max - 1`
   * characters and an ellipsis, exactly `max` characters in all.
   */
  lemma ShortifySpec(s: string, max: int)
    requires max >= 1
    ensures var r := Shortify(s, max);
      && (!r.truncated <==> |s| <= max)
      && (!r.truncated ==> r.short == s)
      && (r.truncated ==> |r.short| == max && r.short[..max - 1] == s[..max - 1] && r.short[max - 1] == ELLIPSIS)
  {
  }

  /** A shortened purpose is short enough: shortening it again changes nothing. */
  lemma ShortifyIdempotent(s: string, max: int)
    requires max >= 1
    ensures var r := Shortify(s, max);
      Shortify(r.short, max) == Shortened(r.short, false)
  {
    ShortifySpec(s, max);
  }

  /**
   * With no room at all the slice end is negative and counts back from the end:
   * a budget of 0 keeps all but one character and adds the ellipsis.
   */
  lemma ShortifyZeroBudget(s: string)
    requires |s| >= 1
    ensures Shortify(s, 0).short == s[..|s| - 1] + [ELLIPSIS]
    ensures |Shortify(s, 0).short| == |s|
  {
  }

  /* ---------------- derived status ---------------- */

  datatype Derived = Draft | Pending | Approved | Rejected

  predicate AllAccepted(steps: seq<C.Step>) {
    forall i :: 0 <= i < |steps| ==> steps[i].status == C.Accepted
  }

  predicate AnyRejected(steps: seq<C.Step>) {
    exists i :: 0 <= i < |steps| && steps[i].status == C.Rejected
  }

  /** The status shown for a claim in `applyUserFilters` (public/dash.js:226-230, 257-259). */
  function DashStatus(ap: C.Approval): Derived {
    if AllAccepted(ap.approvers) then Approved
    else if AnyRejected(ap.approvers) then Rejected
    else if ap.isDraft then Draft
    else Pending
  }

  /** Every status a step can take under the schema. */
  predicate EnumStatuses(steps: seq<C.Step>) {
    forall i :: 0 <= i < |steps| ==> steps[i].status in {C.Pending, C.Accepted, C.Rejected}
  }

  /**
   * For a chain with schema statuses, the claim is shown as open (Draft or Pending)
   * exactly when it has a Pending step and no Rejected one.
   */
  lemma DashStatusOpenIff(ap: C.Approval)
    requires EnumStatuses(ap.approvers)
    ensures DashStatus(ap) in {Draft, Pending} <==> C.FirstPending(ap.approvers) != -1 && !AnyRejected(ap.approvers)
  {
    var steps := ap.approvers;
    var fp := C.FirstPending(steps);
    if fp != -1 {
      assert steps[fp].status != C.Accepted;
    } else if !AllAccepted(steps) {
      var i :| 0 <= i < |steps| && steps[i].status != C.Accepted;
      assert steps[i].status == C.Rejected;
    }
  }

  /** A chain with no steps, or a draft whose every step is Accepted, is shown as Approved. */
  lemma AcceptedDraftShownApproved(ap: C.Approval)
    requires ap.isDraft && AllAccepted(ap.approvers)
    ensures DashStatus(ap) == Approved
  {
  }

  /* ---------------- approver queues ---------------- */

  /**
   * `PENDING_LIST`'s test (public/dash.js:326-335): no step is Rejected, and the first
   * step whose lower-cased name is `myName` is the first Pending one.
   */
  predicate InPendingList(ap: C.Approval, myName: string) {
    var myIdx := C.ExactIndex(ap.approvers, myName);
    !AnyRejected(ap.approvers) && myIdx != -1 && C.FirstPending(ap.approvers) == myIdx
  }

  /** `APPROVED_LIST`'s test (public/dash.js:337-339): some step of mine is Accepted. */
  predicate InApprovedList(ap: C.Approval, myName: string) {
    exists i :: 0 <= i < |ap.approvers| && LowerStr(ap.approvers[i].name) == myName && ap.approvers[i].status == C.Accepted
  }

  /** `REJECT_LIST`'s test (public/dash.js:341-343): some step of mine is Rejected. */
  predicate InRejectList(ap: C.Approval, myName: string) {
    exists i :: 0 <= i < |ap.approvers| && LowerStr(ap.approvers[i].name) == myName && ap.approvers[i].status == C.Rejected
  }

  function PendingList(all: seq<C.Approval>, myName: string): seq<C.Approval> {
    Filter(all, ap => InPendingList(ap, myName))
  }

  function ApprovedList(all: seq<C.Approval>, myName: string): seq<C.Approval> {
    Filter(all, ap => InApprovedList(ap, myName))
  }

  function RejectList(all: seq<C.Approval>, myName: string): seq<C.Approval> {
    Filter(all, ap => InRejectList(ap, myName))
  }

  /**
   * Where the queue and the server's turn rule agree: a claim in the queue whose
   * earlier steps do not tolerant-match the caller is one the server lets the caller
   * decide.
   */
  lemma PendingListIsServerTurn(ap: C.Approval, username: string)
    requires username != "" && InPendingList(ap, LowerStr(username))
    requires forall j :: 0 <= j < C.FirstPending(ap.approvers) ==> !TurnMatch(ap.approvers[j].name, LowerStr(username))
    ensures C.IsMyTurn(ap.approvers, username)
  {
    var steps := ap.approvers;
    var k := C.FirstPending(steps);
    assert TurnMatch(steps[k].name, LowerStr(username));
    C.IsMyTurnIff(steps, username);
  }

  /**
   * Conversely, when it is the caller's turn on the server, the chain has no Rejected
   * step and the turn step carries the caller's name up to case, the claim is queued.
   */
  lemma ServerTurnIsInPendingList(ap: C.Approval, username: string)
    requires C.IsMyTurn(ap.approvers, username) && !AnyRejected(ap.approvers)
    requires LowerStr(ap.approvers[C.FirstPending(ap.approvers)].name) == LowerStr(username)
    ensures InPendingList(ap, LowerStr(username))
  {
    var steps := ap.approvers;
    var k := C.FirstPending(steps);
    var me := LowerStr(username);
    C.IsMyTurnIff(steps, username);
    forall j | 0 <= j < k
      ensures LowerStr(steps[j].name) != me
    {
      if LowerStr(steps[j].name) == me {
        assert TurnMatch(steps[j].name, me);
      }
    }
    FindIndexUnique(steps, (s: C.Step) => LowerStr(s.name) == me, k);
  }

  /**
   * The queue drops claims the server would still let the caller decide: after
   * `[A: Accepted, B: Rejected, C: Pending]` the server gives C the turn, the
   * dashboard does not list the claim for C.
   */
  lemma RejectedChainLeavesQueue(ap: C.Approval, a: C.Step, b: C.Step, c: C.Step)
    requires ap.approvers == [a, b, c]
    requires a.status == C.Accepted && b.status == C.Rejected && c.status == C.Pending && c.name != ""
    requires !TurnMatch(a.name, LowerStr(c.name)) && !TurnMatch(b.name, LowerStr(c.name))
    ensures C.IsMyTurn(ap.approvers, c.name)
    ensures !InPendingList(ap, LowerStr(c.name))
  {
    C.RejectionDoesNotHalt(a, b, c);
    assert ap.approvers[1].status == C.Rejected;
  }

  /** The queues the page keeps between renders. */
  class DashState {
    var userApprovals: seq<C.Approval>
    var pendingList: seq<C.Approval>
    var approvedList: seq<C.Approval>
    var rejectList: seq<C.Approval>

    constructor()
      ensures userApprovals == [] && pendingList == [] && approvedList == [] && rejectList == []
    {
      userApprovals := [];
      pendingList := [];
      approvedList := [];
      rejectList := [];
    }

    /** `renderUserRequests` stores the requester's claims for filtering (public/dash.js:206). */
    method LoadUserRequests(list: seq<C.Approval>)
      modifies this
      ensures userApprovals == list
      ensures pendingList == old(pendingList) && approvedList == old(approvedList) && rejectList == old(rejectList)
    {
      userApprovals := list;
    }

    /** `renderApproverQueues` reassigns the three queues (public/dash.js:323-343). */
    method RenderApproverQueues(all: seq<C.Approval>, username: string)
      modifies this
      ensures var myName := LowerStr(username);
        pendingList == PendingList(all, myName)
        && approvedList == ApprovedList(all, myName)
        && rejectList == RejectList(all, myName)
      ensures userApprovals == old(userApprovals)
    {
      var myName := LowerStr(username);
      pendingList := PendingList(all, myName);
      approvedList := ApprovedList(all, myName);
      rejectList := RejectList(all, myName);
    }
  }

  /* ---------------- approver table search ---------------- */

  /** `filterAndRenderApproverTable`'s test (public/dash.js:413-423). */
  predicate TableHit(ap: C.Approval, search: string, typ: string) {
    var q := LowerStr(Trim(search));
    (typ == "" || ap.reimbursementType == typ)
    && (q == "" || Contains(LowerStr(ap.uniqueNumber), q) || Contains(LowerStr(ap.purpose), q)
        || Contains(LowerStr(ap.reimbursementType), q) || Contains(LowerStr(ap.createdBy), q))
  }

  function ApproverTable(list: seq<C.Approval>, search: string, typ: string): seq<C.Approval> {
    Filter(list, ap => TableHit(ap, search, typ))
  }

  /** With no search text and no type every queued claim is shown, in order. */
  lemma ApproverTableUnfiltered(list: seq<C.Approval>, search: string)
    requires Trim(search) == ""
    ensures ApproverTable(list, search, "") == list
  {
    FilterKeepsAll(list, ap => TableHit(ap, search, ""));
  }

  /** The search ignores the case of what is typed. */
  lemma TableHitIgnoresCase(ap: C.Approval, search: string, typ: string)
    ensures TableHit(ap, LowerStr(search), typ) == TableHit(ap, search, typ)
  {
    TrimLower(search);
    LowerStrIsLower(Trim(search));
  }

  /* ---------------- role and landing tab ---------------- */

  const DASH_HR_EMAIL := "hr@adventz.zuarimoney.com"
  const ACC_EMAILS := ["accounts@adventz.zuarimoney.com", "accounts.team@adventz.com"]

  /** The role the page mounts with (public/dash.js:557-564). */
  function EffectiveRole(username: string, role: string): string {
    var lowerUser := LowerStr(username);
    if lowerUser == DASH_HR_EMAIL then "hr-master"
    else if lowerUser in ACC_EMAILS then "accounts"
    else role
  }

  const APPROVER_LIKE_ROLES := ["approver", "hr", "hr-master", "accounts", "finance"]

  datatype Tab = ApproverDash | UserRequests

  /** The tab shown first (public/dash.js:535-539). */
  function DefaultTab(role: string): Tab {
    var r := LowerStr(role);
    if r in APPROVER_LIKE_ROLES || r == "master" then ApproverDash else UserRequests
  }

  lemma FixedRolesLower()
    ensures LowerStr("hr-master") == "hr-master" && LowerStr("accounts") == "accounts"
  {
    assert IsLowerStr("hr-master");
    assert IsLowerStr("accounts");
    LowerOfLower("hr-master");
    LowerOfLower("accounts");
  }

  /**
   * HR and both Accounts addresses always land on the approver queue, whatever role
   * the server returned; any other user keeps the server's role.
   */
  lemma FixedApproversLandOnQueue(username: string, role: string)
    ensures var u := LowerStr(username);
      (u == DASH_HR_EMAIL || u in ACC_EMAILS ==> DefaultTab(EffectiveRole(username, role)) == ApproverDash)
      && (u != DASH_HR_EMAIL && u !in ACC_EMAILS ==> EffectiveRole(username, role) == role)
  {
    FixedRolesLower();
  }

  /**
   * The dashboard knows both Accounts addresses: the one the form proposes and the
   * one the server puts at the end of a submitted chain.
   */
  lemma DashKnowsBothAccountsEmails()
    ensures C.ACCOUNTS_EMAIL in ACC_EMAILS
    ensures "accounts@adventz.zuarimoney.com" in ACC_EMAILS
    ensures C.HR_EMAIL == DASH_HR_EMAIL
  {
  }
}
