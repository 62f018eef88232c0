/**
 * GET /api/approvals/needs-my-action (server.js:1227-1288): the approvals whose first
 * Pending step is the caller's, found through a set of name candidates.
 */
module ActionQueue {
  import opened Wrappers
  import opened Text
  import opened Seqs
  import opened Identity
  import opened Chain

  /**
   * The candidate names for lower-cased `me` (server.js:1231-1248): the email, its
   * local part, the local part's simple form, and the directory display name and its
   * simple form when the directory has one; empty candidates are dropped.
   */
  function Candidates(me: string, dirName: Option<string>): (c: seq<string>)
    ensures forall i :: 0 <= i < |c| ==> c[i] != ""
    ensures me != "" ==> me in c
  {
    var local := Before(me, '@');
    var simple := NormalizeSimple(local);
    var fromDir := if dirName.Some? && dirName.value != "" then [LowerStr(dirName.value), Squeeze(LowerStr(dirName.value))] else [];
    Filter([me, local, simple] + fromDir, (x: string) => x != "")
  }

  /** The filter's tolerant test of one step name against `me` (server.js:1260-1268). */
  predicate ActionMatch(stepName: string, me: string, dirName: Option<string>) {
    var n := LowerStr(stepName);
    var local := Before(me, '@');
    var simple := NormalizeSimple(local);
    n != "" &&
    (n == me || n == local || n == simple
     || (dirName.Some? && dirName.value != "" && n == LowerStr(dirName.value))
     || Squeeze(n) == simple)
  }

  /** The database query: some step's stored name is exactly one of the candidates. */
  predicate Listed(ap: Approval, cands: seq<string>) {
    FindIndex(ap.approvers, (s: Step) => s.name in cands) != -1
  }

  /** The caller's step in the filter's sense: the first step `ActionMatch` accepts. */
  function MyIndex(steps: seq<Step>, me: string, dirName: Option<string>): int {
    FindIndex(steps, (s: Step) => ActionMatch(s.name, me, dirName))
  }

  predicate NeedsMe(ap: Approval, me: string, dirName: Option<string>) {
    var fp := FirstPending(ap.approvers);
    fp != -1 && MyIndex(ap.approvers, me, dirName) == fp && !ap.isDraft
  }

  function NeedsMyAction(approvals: seq<Approval>, username: string, dirName: Option<string>): (r: seq<Approval>)
    ensures forall i :: 0 <= i < |r| ==>
              r[i] in approvals && Listed(r[i], Candidates(LowerStr(username), dirName))
              && !r[i].isDraft && FirstPending(r[i].approvers) != -1
              && MyIndex(r[i].approvers, LowerStr(username), dirName) == FirstPending(r[i].approvers)
    ensures forall i ::
              (0 <= i < |approvals| && Listed(approvals[i], Candidates(LowerStr(username), dirName))
               && NeedsMe(approvals[i], LowerStr(username), dirName)) ==> approvals[i] in r
  {
    var me := LowerStr(username);
    var cands := Candidates(me, dirName);
    Filter(approvals, (ap: Approval) => Listed(ap, cands) && NeedsMe(ap, me, dirName))
  }

  /**
   * The filter keeps the order of what the query returns, newest first: the action
   * list of two runs of approvals one after the other is the two lists one after the
   * other.
   */
  lemma NeedsMyActionKeepsOrder(older: seq<Approval>, newer: seq<Approval>, username: string, dirName: Option<string>)
    ensures NeedsMyAction(newer + older, username, dirName)
         == NeedsMyAction(newer, username, dirName) + NeedsMyAction(older, username, dirName)
  {
    var me := LowerStr(username);
    var cands := Candidates(me, dirName);
    FilterAppend(newer, older, (ap: Approval) => Listed(ap, cands) && NeedsMe(ap, me, dirName));
  }

  /**
   * Without a directory name, and for a caller whose email has a non-empty local part,
   * the filter's test is exactly `isMyTurn`'s.
   */
  lemma ActionMatchIsTurnMatch(stepName: string, me: string)
    requires IsLowerStr(me) && Before(me, '@') != ""
    ensures ActionMatch(stepName, me, None) <==> TurnMatch(stepName, me)
  {
    var n := LowerStr(stepName);
    var local := Before(me, '@');
    var simple := NormalizeSimple(local);
    LowerStrIsLower(stepName);
    assert NormalizeSimple(n) == Squeeze(n);
    assert MeSimple(me) == simple;
    if n == simple {
      NormalizeSimpleIdempotent(local);
    }
  }

  /**
   * Under the same conditions an approval the query lists is in the queue exactly when
   * it is not a draft and `isMyTurn` holds for the caller.
   */
  lemma NeedsMyActionIsMyTurn(approvals: seq<Approval>, username: string)
    requires Before(LowerStr(username), '@') != ""
    ensures var r := NeedsMyAction(approvals, username, None);
      var cands := Candidates(LowerStr(username), None);
      forall i :: 0 <= i < |approvals| && Listed(approvals[i], cands) ==>
        (approvals[i] in r <==> !approvals[i].isDraft && IsMyTurn(approvals[i].approvers, username))
  {
    var me := LowerStr(username);
    LowerStrIsLower(username);
    var r := NeedsMyAction(approvals, username, None);
    var cands := Candidates(me, None);
    forall i | 0 <= i < |approvals| && Listed(approvals[i], cands)
      ensures approvals[i] in r <==> !approvals[i].isDraft && IsMyTurn(approvals[i].approvers, username)
    {
      var steps := approvals[i].approvers;
      forall j | 0 <= j < |steps|
        ensures ActionMatch(steps[j].name, me, None) == TurnMatch(steps[j].name, LowerStr(username))
      {
        ActionMatchIsTurnMatch(steps[j].name, me);
      }
      FindIndexCongruent(steps, (s: Step) => ActionMatch(s.name, me, None), steps, (s: Step) => TurnMatch(s.name, LowerStr(username)));
      assert NeedsMe(approvals[i], me, None) <==> !approvals[i].isDraft && IsMyTurn(steps, username);
      if approvals[i] in r {
        var k :| 0 <= k < |r| && r[k] == approvals[i];
      }
    }
  }
}
