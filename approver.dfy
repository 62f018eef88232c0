/**
 * The approver's own queue page (public/approverDashboard.js): which claims it
 * lists, the caller's status on each, the search and type filter, and the export
 * guard.
 */
module ApproverDash {
  import opened Text
  import opened Seqs
  import C = Chain
  import D = Dash

  /** The boot filter (public/approverDashboard.js:144-149): my first step by lower-cased name is the first Pending one, and the claim is no draft. */
  predicate InQueue(ap: C.Approval, username: string) {
    var myIdx := C.ExactIndex(ap.approvers, LowerStr(username));
    myIdx != -1 && myIdx == C.FirstPending(ap.approvers) && !ap.isDraft
  }

  function Queue(apps: seq<C.Approval>, username: string): seq<C.Approval> {
    Filter(apps, ap => InQueue(ap, username))
  }

  const UNKNOWN := "(unknown)"

  /** `getMyStatus` (public/approverDashboard.js:53-58): the status of my first step, or `(unknown)`. */
  function MyStatus(steps: seq<C.Step>, me: string): string {
    var i := FindIndex(steps, (s: C.Step) => LowerStr(s.name) == LowerStr(me));
    if i != -1 && C.StatusText(steps[i].status) != "" then C.StatusText(steps[i].status) else UNKNOWN
  }

  /** Every listed claim shows the caller's status as Pending. */
  lemma QueuedShowsPending(ap: C.Approval, username: string)
    requires InQueue(ap, username)
    ensures MyStatus(ap.approvers, username) == "Pending"
  {
    var p := (s: C.Step) => LowerStr(s.name) == LowerStr(username);
    assert C.ExactIndex(ap.approvers, LowerStr(username)) == FindIndex(ap.approvers, p);
  }

  /** A caller with no step of their own sees `(unknown)`. */
  lemma NoStepUnknown(steps: seq<C.Step>, me: string)
    requires forall i :: 0 <= i < |steps| ==> LowerStr(steps[i].name) != LowerStr(me)
    ensures MyStatus(steps, me) == UNKNOWN
  {
  }

  /**
   * This page and the dashboard's `PENDING_LIST` list the same non-draft claims as
   * long as no step is Rejected; a draft is listed only by the dashboard.
   */
  lemma QueueAgreesWithDash(ap: C.Approval, username: string)
    ensures InQueue(ap, username) && !D.AnyRejected(ap.approvers) ==> D.InPendingList(ap, LowerStr(username))
    ensures D.InPendingList(ap, LowerStr(username)) && !ap.isDraft ==> InQueue(ap, username)
  {
  }

  /**
   * This page keeps claims with a Rejected step: after `[x: Rejected, me: Pending]`
   * the claim is listed here and not on the dashboard.
   */
  lemma QueueKeepsRejectedChains(ap: C.Approval, x: C.Step, mine: C.Step, username: string)
    requires ap.approvers == [x, mine] && !ap.isDraft
    requires x.status == C.Rejected && LowerStr(x.name) != LowerStr(username)
    requires mine.status == C.Pending && LowerStr(mine.name) == LowerStr(username)
    ensures InQueue(ap, username) && !D.InPendingList(ap, LowerStr(username))
  {
    FindIndexUnique(ap.approvers, (s: C.Step) => s.status == C.Pending, 1);
    FindIndexUnique(ap.approvers, (s: C.Step) => LowerStr(s.name) == LowerStr(username), 1);
    assert ap.approvers[0].status == C.Rejected;
  }

  /**
   * `applyFilters`' test (public/approverDashboard.js:86-98): the lower-cased and trimmed
   * search occurs in `uniqueNumber purpose createdBy`, and the type matches up to case.
   */
  predicate FilterHit(ap: C.Approval, search: string, typ: string) {
    var q := Trim(LowerStr(search));
    var t := Trim(typ);
    var txt := LowerStr(ap.uniqueNumber + " " + ap.purpose + " " + ap.createdBy);
    (q == "" || Contains(txt, q)) && (t == "" || LowerStr(ap.reimbursementType) == LowerStr(t))
  }

  function Filtered(queue: seq<C.Approval>, search: string, typ: string): seq<C.Approval> {
    Filter(queue, ap => FilterHit(ap, search, typ))
  }

  /** A blank search and a blank type keep the whole queue, in order. */
  lemma FilterUnfiltered(queue: seq<C.Approval>, search: string, typ: string)
    requires Trim(search) == "" && Trim(typ) == ""
    ensures Filtered(queue, search, typ) == queue
  {
    TrimLower(search);
    FilterKeepsAll(queue, ap => FilterHit(ap, search, typ));
  }

  /** The type filter ignores case; so does the search. */
  lemma FilterHitIgnoresCase(ap: C.Approval, search: string, typ: string)
    ensures FilterHit(ap, search, LowerStr(typ)) == FilterHit(ap, search, typ)
    ensures FilterHit(ap, LowerStr(search), typ) == FilterHit(ap, search, typ)
  {
    TrimLower(typ);
    LowerStrIsLower(Trim(typ));
    LowerStrIsLower(search);
  }

  datatype Export = NothingToExport | Rows(rows: seq<C.Approval>)

  /** The page's queue and the rows currently shown. */
  class ApproverPage {
    var allQueue: seq<C.Approval>
    var filtered: seq<C.Approval>

    constructor()
      ensures allQueue == [] && filtered == []
    {
      allQueue := [];
      filtered := [];
    }

    /** Boot (public/approverDashboard.js:144-151): keep my turns, then apply the filters. */
    method Load(apps: seq<C.Approval>, username: string, search: string, typ: string)
      modifies this
      ensures allQueue == Queue(apps, username)
      ensures filtered == Filtered(allQueue, search, typ)
    {
      allQueue := Queue(apps, username);
      filtered := Filtered(allQueue, search, typ);
    }

    /** `applyFilters` reassigns the shown rows from the queue. */
    method ApplyFilters(search: string, typ: string)
      modifies this
      ensures filtered == Filtered(allQueue, search, typ)
      ensures allQueue == old(allQueue)
    {
      filtered := Filtered(allQueue, search, typ);
    }

    /** `exportVisible` (public/approverDashboard.js:101-102): nothing when nothing is shown, else the shown rows. */
    method ExportVisible() returns (e: Export)
      ensures e == NothingToExport <==> filtered == []
      ensures e.Rows? ==> e.rows == filtered && |e.rows| >= 1
    {
      if |filtered| == 0 {
        return NothingToExport;
      }
      e := Rows(filtered);
    }
  }
}
