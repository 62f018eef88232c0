/**
 * The approval chain (server.js): an approval's ordered list of approver steps, the
 * turn rule `isMyTurn`, and the fixed manager -> HR -> Accounts chain.
 */
module Chain {
  import opened Wrappers
  import opened Text
  import opened Seqs
  import opened Identity

  /**
   * A step status. The schema's enum is Pending/Accepted/Rejected, but a draft is
   * written without validators and keeps whatever text the client sent (`Other`).
   */
  datatype Status = Pending | Accepted | Rejected | Other(text: string)

  /** The stored status string read as a `Status`. */
  function StatusOf(s: string): (st: Status)
    ensures st.Other? <==> s != "Pending" && s != "Accepted" && s != "Rejected"
  {
    if s == "Pending" then Pending
    else if s == "Accepted" then Accepted
    else if s == "Rejected" then Rejected
    else Other(s)
  }

  function StatusText(st: Status): string {
    match st
    case Pending => "Pending"
    case Accepted => "Accepted"
    case Rejected => "Rejected"
    case Other(t) => t
  }

  lemma StatusTextOf(s: string)
    ensures StatusText(StatusOf(s)) == s
  {
  }

  /** `{ name, status, comment, updatedAt }`; a missing comment is "", a null date `None`. */
  datatype Step = Step(name: string, status: Status, comment: string, updatedAt: Option<int>)

  /** The fields of an Approval document the workflow reads or writes. */
  datatype Approval = Approval(
    uniqueNumber: string,
    isDraft: bool,
    purpose: string,
    reimbursementType: string,
    approvers: seq<Step>,
    createdBy: string)

  /**
   * The schema's validators (server.js:450-462), which every `save()` runs over the
   * whole document, stored fields included: the required strings are non-empty and
   * every step has a name and one of the three enum statuses. (`budget` is not a
   * field of this model.)
   */
  predicate PassesSchema(ap: Approval) {
    RequiredSet(ap) && forall i :: 0 <= i < |ap.approvers| ==> ap.approvers[i].name != "" && !ap.approvers[i].status.Other?
  }

  /** The approval's own required strings are set. */
  predicate RequiredSet(ap: Approval) {
    ap.uniqueNumber != "" && ap.reimbursementType != "" && ap.createdBy != ""
  }

  const HR_EMAIL := "hr@adventz.zuarimoney.com"
  const ACCOUNTS_EMAIL := "accounts.team@adventz.com"

  /** `findIndex(a => a.status === 'Pending')`. */
  function FirstPending(steps: seq<Step>): int {
    FindIndex(steps, (s: Step) => s.status == Pending)
  }

  /** The index `isMyTurn` attributes to `username`: the first step tolerant-matching it. */
  function TurnIndex(steps: seq<Step>, username: string): int {
    var me := LowerStr(username);
    FindIndex(steps, (s: Step) => TurnMatch(s.name, me))
  }

  /** `isMyTurn(ap, username)` (server.js:496-513). */
  predicate IsMyTurn(steps: seq<Step>, username: string) {
    FirstPending(steps) != -1 && TurnIndex(steps, username) == FirstPending(steps)
  }

  /** `findIndex(a => String(a.name || '').toLowerCase() === nameLc)`: the first exact match. */
  function ExactIndex(steps: seq<Step>, nameLc: string): int {
    FindIndex(steps, (s: Step) => LowerStr(s.name) == nameLc)
  }

  /**
   * The turn rule in words: it is `username`'s turn exactly when some step is
   * Pending, every step before it has left Pending, that step tolerant-matches
   * `username`, and no earlier step does.
   */
  lemma IsMyTurnIff(steps: seq<Step>, username: string)
    ensures IsMyTurn(steps, username) <==>
      exists k :: 0 <= k < |steps| && steps[k].status == Pending && TurnMatch(steps[k].name, LowerStr(username))
        && forall j :: 0 <= j < k ==> steps[j].status != Pending && !TurnMatch(steps[j].name, LowerStr(username))
  {
    var me := LowerStr(username);
    var fp := FirstPending(steps);
    if IsMyTurn(steps, username) {
      assert steps[fp].status == Pending && TurnMatch(steps[fp].name, me);
    }
    if exists k :: 0 <= k < |steps| && steps[k].status == Pending && TurnMatch(steps[k].name, me)
        && forall j :: 0 <= j < k ==> steps[j].status != Pending && !TurnMatch(steps[j].name, me) {
      var k :| 0 <= k < |steps| && steps[k].status == Pending && TurnMatch(steps[k].name, me)
        && forall j :: 0 <= j < k ==> steps[j].status != Pending && !TurnMatch(steps[j].name, me);
      FindIndexUnique(steps, (s: Step) => s.status == Pending, k);
      FindIndexUnique(steps, (s: Step) => TurnMatch(s.name, me), k);
    }
  }

  /** With no Pending step it is nobody's turn. */
  lemma NoPendingNoTurn(steps: seq<Step>, username: string)
    requires forall i :: 0 <= i < |steps| ==> steps[i].status != Pending
    ensures !IsMyTurn(steps, username)
  {
  }

  /** Only one step can hold the turn: every identity whose turn it is maps to the first Pending step. */
  lemma OneActingStep(steps: seq<Step>, u1: string, u2: string)
    requires IsMyTurn(steps, u1) && IsMyTurn(steps, u2)
    ensures TurnIndex(steps, u1) == TurnIndex(steps, u2) == FirstPending(steps)
    ensures steps[FirstPending(steps)].status == Pending
  {
  }

  /**
   * `isMyTurn` only skips non-Pending steps, and a Rejected step is one of them: after
   * `[A: Accepted, B: Rejected, C: Pending]` it is still C's turn.
   */
  lemma RejectionDoesNotHalt(a: Step, b: Step, c: Step)
    requires a.status == Accepted && b.status == Rejected && c.status == Pending && c.name != ""
    requires !TurnMatch(a.name, LowerStr(c.name)) && !TurnMatch(b.name, LowerStr(c.name))
    ensures IsMyTurn([a, b, c], c.name)
  {
    var steps := [a, b, c];
    TurnMatchSelf(c.name);
    assert steps[2] == c;
    assert FirstPending(steps) == 2;
  }

  /**
   * Changing a step's status leaves the turn index of every identity alone (names are
   * untouched), so once the turn holder's step leaves Pending, the same identity no
   * longer holds the turn.
   */
  lemma TurnIndexIgnoresStatus(steps: seq<Step>, i: int, st: Step, username: string)
    requires 0 <= i < |steps| && st.name == steps[i].name
    ensures TurnIndex(steps[i := st], username) == TurnIndex(steps, username)
  {
    var me := LowerStr(username);
    var p := (s: Step) => TurnMatch(s.name, me);
    FindIndexCongruent(steps[i := st], p, steps, p);
  }

  /** The same holds for the exact-name index. */
  lemma ExactIndexIgnoresStatus(steps: seq<Step>, i: int, st: Step, nameLc: string)
    requires 0 <= i < |steps| && st.name == steps[i].name
    ensures ExactIndex(steps[i := st], nameLc) == ExactIndex(steps, nameLc)
  {
    var p := (s: Step) => LowerStr(s.name) == nameLc;
    FindIndexCongruent(steps[i := st], p, steps, p);
  }

  /** `isMyTurn` lower-cases its argument, so lower-casing first changes nothing. */
  lemma IsMyTurnLower(steps: seq<Step>, username: string)
    ensures TurnIndex(steps, LowerStr(username)) == TurnIndex(steps, username)
    ensures IsMyTurn(steps, LowerStr(username)) == IsMyTurn(steps, username)
  {
    LowerStrIsLower(username);
  }

  lemma TurnLeavesDecidedStep(steps: seq<Step>, username: string, st: Step)
    requires IsMyTurn(steps, username)
    requires st.name == steps[TurnIndex(steps, username)].name && st.status != Pending
    ensures !IsMyTurn(steps[TurnIndex(steps, username) := st], username)
  {
    var i := TurnIndex(steps, username);
    TurnIndexIgnoresStatus(steps, i, st, username);
  }

  lemma HrAccountsLower()
    ensures LowerStr(HR_EMAIL) == HR_EMAIL && LowerStr(ACCOUNTS_EMAIL) == ACCOUNTS_EMAIL
  {
    assert IsLowerStr(HR_EMAIL);
    assert IsLowerStr(ACCOUNTS_EMAIL);
    LowerOfLower(HR_EMAIL);
    LowerOfLower(ACCOUNTS_EMAIL);
  }

  /** `buildFixedApprovalChain(managerEmail)` (server.js:40-46). */
  function BuildFixedApprovalChain(managerEmail: string): (r: seq<Step>)
    ensures |r| == 3
    ensures forall i :: 0 <= i < 3 ==> r[i].status == Pending && r[i].comment == "" && r[i].updatedAt == None
    ensures r[0].name == LowerStr(managerEmail) && r[1].name == HR_EMAIL && r[2].name == ACCOUNTS_EMAIL
  {
    HrAccountsLower();
    [ Step(LowerStr(managerEmail), Pending, "", None),
      Step(LowerStr(HR_EMAIL), Pending, "", None),
      Step(LowerStr(ACCOUNTS_EMAIL), Pending, "", None) ]
  }

  /**
   * Installing the fixed chain for a non-empty manager never breaks the step
   * validators: the document then passes the schema exactly when its required
   * fields are set.
   */
  lemma FixedChainPassesSchema(ap: Approval, managerEmail: string)
    requires managerEmail != ""
    ensures PassesSchema(ap.(approvers := BuildFixedApprovalChain(managerEmail))) <==> RequiredSet(ap)
  {
    var chain := BuildFixedApprovalChain(managerEmail);
    assert chain[0].name != "" by { assert |chain[0].name| == |managerEmail|; }
    assert chain[1].name != "" && chain[2].name != "" by { assert HR_EMAIL[0] == 'h' && ACCOUNTS_EMAIL[0] == 'a'; }
  }

  /**
   * A freshly built chain gives the turn to the manager: for every caller, it is
   * their turn exactly when they tolerant-match the manager's email.
   */
  lemma FixedChainTurn(managerEmail: string, username: string)
    requires managerEmail != ""
    ensures var chain := BuildFixedApprovalChain(managerEmail);
      FirstPending(chain) == 0
      && (IsMyTurn(chain, username) <==> TurnMatch(managerEmail, LowerStr(username)))
  {
    var chain := BuildFixedApprovalChain(managerEmail);
    LowerStrIsLower(managerEmail);
    assert LowerStr(chain[0].name) == LowerStr(managerEmail);
    assert TurnMatch(chain[0].name, LowerStr(username)) == TurnMatch(managerEmail, LowerStr(username));
    assert FirstPending(chain) == 0;
  }
}
