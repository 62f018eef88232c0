/**
 * Recording an approver's decision (server.js): the in-app PATCH, the one-click mail
 * link, the comment page's POST, the mail token they carry, and where the follow-up
 * notice goes. Each handler is a function of the approval it looked up; the store
 * (store.dfy) does the lookup and the write-back.
 */
module Decisions {
  import opened Wrappers
  import opened Text
  import opened Seqs
  import opened Identity
  import opened Chain

  /** Why a decision request is refused; one per message the handlers send back. */
  datatype Refusal =
    | InvalidStatus     // 'Invalid status'
    | NotFound          // 'Not found' / 'Request not found.'
    | NotYourApproval   // 'Not your approval to act on' / 'Not an approver for this request.'
    | NotYourTurn       // 'Not your turn'
    | InvalidLink       // the signature or expiry check threw, or 'Bad token'
    | AlreadyUsed       // 'This link was already used.'
    | SchemaRejected    // save() failed validation: a required field is missing or a status is outside the enum

  /** The payload of a signed mail token. */
  datatype Claims = Claims(kind: string, jti: string, uniqueNumber: string, approver: string, action: string, exp: int)

  const ONE_CLICK_KIND := "mail-oneclick"
  /** `expiresIn: '7d'`, in seconds. */
  const ONE_CLICK_LIFETIME := 7 * 24 * 60 * 60

  predicate IsDecision(status: string) {
    status == "Accepted" || status == "Rejected"
  }

  /**
   * `makeOneClickToken` (server.js:322-329): the approver is lower-cased; `jti` is the
   * random id and `nowSec` the signing time, both supplied by the caller.
   */
  function MakeOneClickToken(uniqueNumber: string, approver: string, action: string, jti: string, nowSec: int): (c: Claims)
    ensures c.kind == ONE_CLICK_KIND && c.jti == jti && c.uniqueNumber == uniqueNumber && c.action == action
    ensures IsLowerStr(c.approver) && c.approver == LowerStr(approver)
    ensures c.exp - nowSec == ONE_CLICK_LIFETIME
  {
    LowerStrIsLower(approver);
    Claims(ONE_CLICK_KIND, jti, uniqueNumber, LowerStr(approver), action, nowSec + ONE_CLICK_LIFETIME)
  }

  /** Writing a decision on step `idx`: its status, comment and time change, nothing else does. */
  function RecordDecision(ap: Approval, idx: int, st: Status, comment: string, now: int): (r: Approval)
    requires 0 <= idx < |ap.approvers|
    ensures |r.approvers| == |ap.approvers|
    ensures forall j :: 0 <= j < |ap.approvers| && j != idx ==> r.approvers[j] == ap.approvers[j]
    ensures r.approvers[idx] == Step(ap.approvers[idx].name, st, comment, Some(now))
    ensures r.(approvers := ap.approvers) == ap
  {
    ap.(approvers := ap.approvers[idx := Step(ap.approvers[idx].name, st, comment, Some(now))])
  }

  /**
   * The guard the three handlers apply, as written: `me` names some step exactly
   * (`idx`, the first such step) and `isMyTurn(ap, me)` holds. The turn is found by
   * the tolerant match and the write goes to the exact match, and nothing ties the two.
   */
  predicate MayDecideAsWritten(steps: seq<Step>, me: string) {
    ExactIndex(steps, me) != -1 && IsMyTurn(steps, me)
  }

  /**
   * The guard the workflow needs: in addition, the step `me` names is the step whose
   * turn it is, so the step written is the one that was Pending.
   */
  predicate MayDecide(steps: seq<Step>, me: string) {
    MayDecideAsWritten(steps, me) && ExactIndex(steps, me) == FirstPending(steps)
  }

  /**
   * As written, the guard lets a caller re-decide: with a local-part step `a` pending
   * before a full-address step `a@b` that is already Accepted, `a@b` holds the turn
   * through `a` but writes to `a@b`, and after the write still holds the turn.
   */
  lemma RedecisionAsWritten()
    ensures var steps := [Step("a", Pending, "", None), Step("a@b", Accepted, "", None)];
      MayDecideAsWritten(steps, "a@b")
      && steps[ExactIndex(steps, "a@b")].status == Accepted
      && MayDecideAsWritten(steps[1 := Step("a@b", Rejected, "", Some(0))], "a@b")
  {
    var steps := [Step("a", Pending, "", None), Step("a@b", Accepted, "", None)];
    var me := "a@b";
    assert LowerStr(me) == me by { assert IsLowerStr(me); LowerOfLower(me); }
    assert LowerStr("a") == "a" by { assert IsLowerStr("a"); LowerOfLower("a"); }
    assert Before(me, '@') == "a" by {
      assert me == "a" + "@b";
      assert me[0] == 'a' && me[1] == '@';
    }
    assert TurnMatch("a", me);
    assert TurnIndex(steps, me) == 0;
    assert FirstPending(steps) == 0;
    assert LowerStr(steps[0].name) != me;
    assert ExactIndex(steps, me) == 1;
    var after := steps[1 := Step("a@b", Rejected, "", Some(0))];
    TurnIndexIgnoresStatus(steps, 1, after[1], me);
    ExactIndexIgnoresStatus(steps, 1, after[1], me);
    assert FirstPending(after) == 0;
  }

  /** Under the corrected guard the written step was Pending, and the decision is final for that caller. */
  lemma DecisionIsFinal(steps: seq<Step>, me: string, st: Step)
    requires MayDecide(steps, me)
    requires st.name == steps[ExactIndex(steps, me)].name && st.status != Pending
    ensures steps[ExactIndex(steps, me)].status == Pending
    ensures !MayDecide(steps[ExactIndex(steps, me) := st], me)
  {
    var i := ExactIndex(steps, me);
    assert TurnIndex(steps, me) == i;
    TurnLeavesDecidedStep(steps, me, st);
  }

  /**
   * Which turn check a decision handler applies: the source's (`AsWritten`), or the
   * corrected one that also requires the caller's step to be the first Pending one
   * (`Intended`). The store runs the handlers `AsWritten`.
   */
  datatype Guard = AsWritten | Intended

  predicate Allowed(g: Guard, steps: seq<Step>, me: string) {
    match g
    case AsWritten => MayDecideAsWritten(steps, me)
    case Intended => MayDecide(steps, me)
  }

  /** The approval with the first step named exactly `me` decided; the handlers write there. */
  function Decided(ap: Approval, me: string, st: Status, comment: string, now: int): Approval
    requires ExactIndex(ap.approvers, me) != -1
  {
    RecordDecision(ap, ExactIndex(ap.approvers, me), st, comment, now)
  }

  /**
   * A decision saves whenever the approval did: it writes an enum status and keeps the
   * name. It never repairs a missing required field, so on an approval without a
   * reimbursement type (a draft saved on a new number) every save fails.
   */
  lemma DecisionSaves(ap: Approval, idx: int, st: Status, comment: string, now: int)
    requires 0 <= idx < |ap.approvers| && !st.Other?
    ensures PassesSchema(ap) ==> PassesSchema(RecordDecision(ap, idx, st, comment, now))
    ensures PassesSchema(RecordDecision(ap, idx, st, comment, now)) ==> RequiredSet(ap)
  {
    var r := RecordDecision(ap, idx, st, comment, now);
    if PassesSchema(ap) {
      forall j | 0 <= j < |r.approvers| ensures r.approvers[j].name != "" && !r.approvers[j].status.Other? {
        if j != idx {
          assert r.approvers[j] == ap.approvers[j];
        }
      }
    }
  }

  /**
   * PATCH /api/approvals/:uniqueNumber/approver (server.js:962-983). `found` is the
   * approval the URL names, `username` the caller's session identity. The write goes
   * to the first step named exactly like the caller, and `save()` then validates the
   * document; this route has no catch, so a failed save (`SchemaRejected`) writes
   * nothing and sends no reply.
   */
  function DecideInApp(g: Guard, found: Option<Approval>, username: string, approverName: string, status: string, comment: string, now: int): (r: Result<Approval, Refusal>)
    ensures !IsDecision(status) ==> r == Err(InvalidStatus)
    ensures IsDecision(status) && found.None? ==> r == Err(NotFound)
    ensures IsDecision(status) && found.Some?
            && (ExactIndex(found.value.approvers, LowerStr(approverName)) == -1 || LowerStr(approverName) != LowerStr(username))
      ==> r == Err(NotYourApproval)
    ensures r.Ok? <==>
      IsDecision(status) && found.Some? && LowerStr(approverName) == LowerStr(username)
      && Allowed(g, found.value.approvers, LowerStr(username))
      && PassesSchema(Decided(found.value, LowerStr(username), StatusOf(status), comment, now))
    ensures r.Ok? ==> r.value == Decided(found.value, LowerStr(username), StatusOf(status), comment, now)
    ensures r.Err? && IsDecision(status) && found.Some? && LowerStr(approverName) == LowerStr(username)
            && ExactIndex(found.value.approvers, LowerStr(username)) != -1
      ==> r == (if Allowed(g, found.value.approvers, LowerStr(username)) then Err(SchemaRejected) else Err(NotYourTurn))
  {
    var me := LowerStr(username);
    var nameLc := LowerStr(approverName);
    if !IsDecision(status) then Err(InvalidStatus)
    else if found.None? then Err(NotFound)
    else
      var ap := found.value;
      var idx := ExactIndex(ap.approvers, nameLc);
      if idx == -1 || nameLc != me then Err(NotYourApproval)
      else if !Allowed(g, ap.approvers, me) then Err(NotYourTurn)
      else
        var written := RecordDecision(ap, idx, StatusOf(status), comment, now);
        if !PassesSchema(written) then Err(SchemaRejected) else Ok(written)
  }

  /**
   * GET /mail-oneclick/:token (server.js:1022-1049). `token` is what signature and expiry
   * verification yields (`None` when it throws), `used` the recorded `jti`s, `found`
   * the approval the token's `uniqueNumber` names. The token's action is written as
   * it stands, and a failed save is caught and reported. The store records the `jti`
   * after a successful write.
   */
  function RedeemOneClick(g: Guard, token: Option<Claims>, used: set<string>, found: Option<Approval>, now: int): (r: Result<Approval, Refusal>)
    ensures token.None? || token.value.kind != ONE_CLICK_KIND ==> r == Err(InvalidLink)
    ensures token.Some? && token.value.kind == ONE_CLICK_KIND && token.value.jti in used ==> r == Err(AlreadyUsed)
    ensures r.Ok? <==>
      token.Some? && token.value.kind == ONE_CLICK_KIND && token.value.jti !in used && found.Some?
      && Allowed(g, found.value.approvers, LowerStr(token.value.approver))
      && PassesSchema(Decided(found.value, LowerStr(token.value.approver), StatusOf(token.value.action), "", now))
    ensures r.Ok? ==>
      r.value == Decided(found.value, LowerStr(token.value.approver), StatusOf(token.value.action), "", now)
  {
    if token.None? || token.value.kind != ONE_CLICK_KIND then Err(InvalidLink)
    else if token.value.jti in used then Err(AlreadyUsed)
    else if found.None? then Err(NotFound)
    else
      var ap := found.value;
      var approver := LowerStr(token.value.approver);
      if ExactIndex(ap.approvers, approver) == -1 then Err(NotYourApproval)
      else if !Allowed(g, ap.approvers, approver) then Err(NotYourTurn)
      else
        var written := RecordDecision(ap, ExactIndex(ap.approvers, approver), StatusOf(token.value.action), "", now);
        if !PassesSchema(written) then Err(SchemaRejected) else Ok(written)
  }

  /**
   * POST /mail-action/:token (server.js:1150-1174): the action and comment come from
   * the form. Neither the token's kind nor the used-`jti` registry is consulted; a
   * failed save is caught and reported.
   */
  function DecideOnCommentPage(g: Guard, token: Option<Claims>, found: Option<Approval>, action: string, comment: string, now: int): (r: Result<Approval, Refusal>)
    ensures token.None? ==> r == Err(InvalidLink)
    ensures token.Some? && found.None? ==> r == Err(NotFound)
    ensures r.Ok? <==>
      token.Some? && found.Some? && IsDecision(action)
      && Allowed(g, found.value.approvers, LowerStr(token.value.approver))
      && PassesSchema(Decided(found.value, LowerStr(token.value.approver), StatusOf(action), comment, now))
    ensures r.Ok? ==>
      r.value == Decided(found.value, LowerStr(token.value.approver), StatusOf(action), comment, now)
  {
    if token.None? then Err(InvalidLink)
    else if found.None? then Err(NotFound)
    else
      var ap := found.value;
      var me := LowerStr(token.value.approver);
      var idx := ExactIndex(ap.approvers, me);
      if idx == -1 then Err(NotYourApproval)
      else if !IsDecision(action) then Err(InvalidStatus)
      else if !Allowed(g, ap.approvers, me) then Err(NotYourTurn)
      else
        var written := RecordDecision(ap, idx, StatusOf(action), comment, now);
        if !PassesSchema(written) then Err(SchemaRejected) else Ok(written)
  }

  /** A mail to send: the recipient, and whether the mail asks for one-click buttons. */
  datatype Notice = Notice(to: string, withButtons: bool)

  /**
   * The notice after a decision (server.js:985-1014): a rejection goes to the requester;
   * an acceptance goes, with buttons, to the first step still Pending, or to the
   * requester once none is.
   */
  function NoticeAfter(ap: Approval, decided: Status): (n: Notice)
    ensures n.withButtons <==> decided != Rejected && FirstPending(ap.approvers) != -1
    ensures n.withButtons ==> n.to == ap.approvers[FirstPending(ap.approvers)].name
    ensures !n.withButtons ==> n.to == ap.createdBy
  {
    if decided == Rejected then Notice(ap.createdBy, false)
    else
      var next := FirstPending(ap.approvers);
      if next >= 0 then Notice(ap.approvers[next].name, true)
      else Notice(ap.createdBy, false)
  }

  /** `buildMailForApproval` (server.js:341-345): buttons only for an exact step name whose turn it is. */
  predicate EmbedsButtons(ap: Approval, to: string, requested: bool) {
    var toLc := LowerStr(to);
    requested && ExactIndex(ap.approvers, toLc) != -1 && IsMyTurn(ap.approvers, toLc)
  }

  /**
   * The follow-up mail carries buttons exactly when its recipient's name is not empty
   * and no earlier step tolerant-matches it.
   */
  lemma ButtonsReachNextApprover(ap: Approval, decided: Status)
    requires NoticeAfter(ap, decided).withButtons
    ensures var n := NoticeAfter(ap, decided);
      var fp := FirstPending(ap.approvers);
      EmbedsButtons(ap, n.to, true) <==>
        LowerStr(n.to) != "" && forall j :: 0 <= j < fp ==> !TurnMatch(ap.approvers[j].name, LowerStr(n.to))
  {
    var n := NoticeAfter(ap, decided);
    var fp := FirstPending(ap.approvers);
    var toLc := LowerStr(n.to);
    LowerStrIsLower(n.to);
    IsMyTurnLower(ap.approvers, n.to);
    assert LowerStr(ap.approvers[fp].name) == toLc;
    if toLc != "" && forall j :: 0 <= j < fp ==> !TurnMatch(ap.approvers[j].name, toLc) {
      assert TurnMatch(ap.approvers[fp].name, toLc);
      FindIndexUnique(ap.approvers, (s: Step) => TurnMatch(s.name, LowerStr(toLc)), fp);
    }
  }

  /**
   * The buttons a follow-up mail carries work: on the approval just saved, redeeming
   * either fresh link decides the recipient's step, which is the first Pending one,
   * under either guard.
   */
  lemma MailedButtonsWork(g: Guard, ap: Approval, decided: Status, action: string, jti: string, nowSec: int, used: set<string>, now: int)
    requires PassesSchema(ap)
    requires EmbedsButtons(ap, NoticeAfter(ap, decided).to, NoticeAfter(ap, decided).withButtons)
    requires IsDecision(action) && jti !in used
    ensures var n := NoticeAfter(ap, decided);
      var token := MakeOneClickToken(ap.uniqueNumber, n.to, action, jti, nowSec);
      var r := RedeemOneClick(g, Some(token), used, Some(ap), now);
      r.Ok? && r.value == RecordDecision(ap, FirstPending(ap.approvers), StatusOf(action), "", now)
  {
    var n := NoticeAfter(ap, decided);
    var fp := FirstPending(ap.approvers);
    var toLc := LowerStr(n.to);
    LowerStrIsLower(n.to);
    LowerOfLower(toLc);
    IsMyTurnLower(ap.approvers, n.to);
    var k := ExactIndex(ap.approvers, toLc);
    assert LowerStr(ap.approvers[fp].name) == toLc;
    assert k <= fp;
    if k < fp {
      LowerStrIsLower(ap.approvers[k].name);
      TurnMatchSelf(ap.approvers[k].name);
      assert TurnMatch(ap.approvers[k].name, toLc);
      assert false;
    }
    DecisionSaves(ap, k, StatusOf(action), "", now);
  }

  /** A redeemed link is refused from then on, whatever the approval then looks like. */
  lemma OneClickSingleUse(g: Guard, c: Claims, used: set<string>, found: Option<Approval>, now: int, later: Option<Approval>, now2: int)
    requires RedeemOneClick(g, Some(c), used, found, now).Ok?
    ensures RedeemOneClick(g, Some(c), used + {c.jti}, later, now2) == Err(AlreadyUsed)
  {
  }

  /**
   * The one-click link and the in-app action agree: a fresh link minted for `username`
   * with a decision does what that user's in-app decision without a comment does.
   */
  lemma OneClickAgreesWithInApp(g: Guard, ap: Approval, username: string, action: string, jti: string, nowSec: int, used: set<string>, now: int)
    requires IsDecision(action) && jti !in used
    ensures RedeemOneClick(g, Some(MakeOneClickToken(ap.uniqueNumber, username, action, jti, nowSec)), used, Some(ap), now)
      == DecideInApp(g, Some(ap), username, username, action, "", now)
  {
    LowerStrIsLower(username);
  }

  /** The comment page agrees with the in-app action for the token's approver. */
  lemma CommentPageAgreesWithInApp(g: Guard, c: Claims, ap: Approval, action: string, comment: string, now: int)
    requires IsDecision(action)
    ensures DecideOnCommentPage(g, Some(c), Some(ap), action, comment, now)
      == DecideInApp(g, Some(ap), c.approver, c.approver, action, comment, now)
  {
  }

  /**
   * As written, the in-app handler lets a decided step be decided again: on
   * `[a: Pending, a@b: Accepted]` the caller `a@b` turns the Accepted step into a
   * rejection and then back into an acceptance, while the manager's step `a` stays
   * Pending throughout; the corrected guard refuses the first request.
   */
  lemma InAppRedecisionAsWritten()
    ensures var ap := Approval("ZFL202501", false, "", "Travel", [Step("a", Pending, "", None), Step("a@b", Accepted, "", None)], "u@x");
      var r1 := DecideInApp(AsWritten, Some(ap), "a@b", "a@b", "Rejected", "", 0);
      r1.Ok? && r1.value.approvers == [Step("a", Pending, "", None), Step("a@b", Rejected, "", Some(0))]
      && DecideInApp(AsWritten, Some(r1.value), "a@b", "a@b", "Accepted", "", 1).Ok?
      && DecideInApp(Intended, Some(ap), "a@b", "a@b", "Rejected", "", 0) == Err(NotYourTurn)
  {
    var steps := [Step("a", Pending, "", None), Step("a@b", Accepted, "", None)];
    var ap := Approval("ZFL202501", false, "", "Travel", steps, "u@x");
    RedecisionAsWritten();
    assert LowerStr("a@b") == "a@b" by { assert IsLowerStr("a@b"); LowerOfLower("a@b"); }
    var after := steps[1 := Step("a@b", Rejected, "", Some(0))];
    assert after == [Step("a", Pending, "", None), Step("a@b", Rejected, "", Some(0))];
    assert PassesSchema(ap.(approvers := after));
    ExactIndexIgnoresStatus(steps, 1, after[1], "a@b");
    var again := after[1 := Step("a@b", Accepted, "", Some(1))];
    assert PassesSchema(ap.(approvers := again));
  }

  /**
   * With the corrected guard, after a successful in-app decision the same request is
   * refused as out of turn.
   */
  lemma InAppRepeatRefused(ap: Approval, username: string, approverName: string, status: string, comment: string, now: int,
                           status2: string, comment2: string, now2: int)
    requires DecideInApp(Intended, Some(ap), username, approverName, status, comment, now).Ok?
    requires IsDecision(status2)
    ensures var ap1 := DecideInApp(Intended, Some(ap), username, approverName, status, comment, now).value;
      DecideInApp(Intended, Some(ap1), username, approverName, status2, comment2, now2) == Err(NotYourTurn)
  {
    var me := LowerStr(username);
    var i := ExactIndex(ap.approvers, me);
    var st := Step(ap.approvers[i].name, StatusOf(status), comment, Some(now));
    DecisionIsFinal(ap.approvers, me, st);
    ExactIndexIgnoresStatus(ap.approvers, i, st, me);
  }
}
