/**
 * The other writes to an approval (server.js): saving and submitting drafts, direct
 * creation, the master's override / reassign / reset, the HR + Accounts backfill,
 * the display-name-to-email migration, and the role gate in front of the admin routes.
 * Each is specified here on values; store.dfy applies them to the collection.
 */
module Workflow {
  import opened Wrappers
  import opened Text
  import opened Seqs
  import opened Identity
  import opened Chain

  /** Why a request is refused. */
  datatype Failure =
    | NotFound          // 404 'Not found' / 'Draft not found'
    | Forbidden         // 403 'Forbidden'
    | MissingManager    // 400 'Draft missing manager email'
    | MissingType       // 400 'reimbursementType is required'
    | MissingApprovers  // 400 'approvers list is required'
    | ValidationFailed  // 400 'Validation failed'
    | ServerError       // 500, e.g. a duplicate uniqueNumber
    | InvalidStatus     // 400 'Invalid status'
    | ApproverNotFound  // 400 'Approver not found'
    | InvalidList       // 400 'Invalid approvers list'
    | SaveFailed        // save() failed validation; the route has no catch, so nothing is written and no reply is sent

  /** An approver row as a client sends it; "" stands for a missing field. */
  datatype StepInput = StepInput(name: string, status: Option<string>, comment: string)

  /** `requireRole(...allowed)` (server.js:129-137): case-insensitive membership of the caller's role. */
  predicate RequireRole(role: string, allowed: seq<string>) {
    LowerStr(role) in seq(|allowed|, i requires 0 <= i < |allowed| => LowerStr(allowed[i]))
  }

  /** The gate ignores case on both sides. */
  lemma RequireRoleIgnoresCase(role: string, allowed: seq<string>)
    ensures RequireRole(role, allowed) <==> exists i :: 0 <= i < |allowed| && LowerStr(allowed[i]) == LowerStr(role)
    ensures RequireRole(LowerStr(role), allowed) == RequireRole(role, allowed)
  {
    LowerStrIsLower(role);
    var lowered := seq(|allowed|, i requires 0 <= i < |allowed| => LowerStr(allowed[i]));
    if RequireRole(role, allowed) {
      var i :| 0 <= i < |lowered| && lowered[i] == LowerStr(role);
    }
    if exists i :: 0 <= i < |allowed| && LowerStr(allowed[i]) == LowerStr(role) {
      var i :| 0 <= i < |allowed| && LowerStr(allowed[i]) == LowerStr(role);
      assert lowered[i] == LowerStr(role);
    }
  }

  /* ---------------- drafts ---------------- */

  /**
   * One approver row of a saved draft (server.js:665-673): the name resolved through
   * the directory and lower-cased, the client's status kept (Pending when missing), the
   * comment kept, and the time of the save.
   */
  function DraftStep(a: StepInput, dir: map<string, string>, now: int): Step {
    Step(LowerStr(ResolveApproverToEmail(a.name, dir)), StatusOf(OrPending(a.status)), a.comment, Some(now))
  }

  /** `status || 'Pending'`: a missing or empty status reads as Pending. */
  function OrPending(status: Option<string>): (r: string)
    ensures r == "Pending" <==> status.None? || status.value in {"", "Pending"}
    ensures status.Some? && status.value != "" ==> r == status.value
  {
    if status.None? || status.value == "" then "Pending" else status.value
  }

  /** The extra lower-casing changes nothing: a draft row is named by the resolved email. */
  lemma DraftStepResolves(a: StepInput, dir: map<string, string>, now: int)
    ensures DraftStep(a, dir, now).name == ResolveApproverToEmail(a.name, dir)
    ensures DraftStep(a, dir, now).status == (if a.status.None? || a.status.value == "" then Pending else StatusOf(a.status.value))
  {
    ResolveApproverToEmailFacts(a.name, dir);
    LowerOfLower(ResolveApproverToEmail(a.name, dir));
  }

  /** Every row of a saved draft resolved. */
  function DraftSteps(rows: seq<StepInput>, dir: map<string, string>, now: int): (r: seq<Step>)
    ensures |r| == |rows| && forall j :: 0 <= j < |rows| ==> r[j] == DraftStep(rows[j], dir, now)
  {
    seq(|rows|, j requires 0 <= j < |rows| => DraftStep(rows[j], dir, now))
  }

  lemma DraftStepsSnoc(rows: seq<StepInput>, row: StepInput, dir: map<string, string>, now: int)
    ensures DraftSteps(rows + [row], dir, now) == DraftSteps(rows, dir, now) + [DraftStep(row, dir, now)]
  {
    var a, b := DraftSteps(rows + [row], dir, now), DraftSteps(rows, dir, now) + [DraftStep(row, dir, now)];
    assert |a| == |b|;
    forall j | 0 <= j < |a| ensures a[j] == b[j] {
      if j < |rows| {
        assert (rows + [row])[j] == rows[j];
      }
    }
  }

  /** A draft keeps a status string the schema would refuse: drafts are saved without validators. */
  lemma DraftKeepsClientStatus(dir: map<string, string>, now: int)
    ensures DraftStep(StepInput("x", Some("Done"), ""), dir, now).status == Other("Done")
  {
  }

  /**
   * The upsert of a draft save (server.js:675-688): the approval with that number, or a
   * new one, becomes a draft by the caller with the given purpose and approvers. The
   * match is on the number alone, so a submitted approval saved again as a draft is
   * turned back into one.
   */
  function SavedDraft(existing: Option<Approval>, uniqueNumber: string, purpose: string, steps: seq<Step>, username: string): (r: Approval)
    ensures r.uniqueNumber == uniqueNumber && r.isDraft && r.purpose == purpose && r.approvers == steps
    ensures r.createdBy == LowerStr(username)
    ensures r.reimbursementType == (if existing.Some? then existing.value.reimbursementType else "")
  {
    var base := if existing.Some? then existing.value else Approval(uniqueNumber, true, "", "", [], "");
    base.(uniqueNumber := uniqueNumber, isDraft := true, purpose := purpose, approvers := steps, createdBy := LowerStr(username))
  }

  /** What a submit handler leaves in the store and answers. */
  datatype Submitted = Submitted(stored: Approval, reply: Result<string, Failure>)

  /**
   * The manager's email a submit resolves (server.js:775-778): the first step's name
   * through the directory, or "" when the draft has no steps.
   */
  function ManagerEmail(ap: Approval, dir: map<string, string>): string {
    if |ap.approvers| > 0 then ResolveApproverToEmail(ap.approvers[0].name, dir) else ""
  }

  /**
   * PATCH /api/drafts/:uniqueNumber/submit as written (server.js:766-798), on the
   * draft it found: the draft flag is cleared and saved before the manager's email
   * is checked, then the fixed chain is saved. Each save validates the whole
   * document. The reply's text is the first approver to notify, with buttons.
   */
  function SubmitDraftAsWritten(draft: Approval, username: string, role: string, dir: map<string, string>): (r: Submitted)
    ensures role == "user" && draft.createdBy != username ==> r == Submitted(draft, Err(Forbidden))
    ensures !(role == "user" && draft.createdBy != username) && !PassesSchema(draft) ==> r == Submitted(draft, Err(SaveFailed))
    ensures r.reply == Err(MissingManager) <==>
      !(role == "user" && draft.createdBy != username) && PassesSchema(draft) && ManagerEmail(draft, dir) == ""
    ensures r.reply == Err(MissingManager) ==> r.stored == draft.(isDraft := false)
    ensures r.reply.Ok? <==>
      !(role == "user" && draft.createdBy != username) && PassesSchema(draft) && ManagerEmail(draft, dir) != ""
    ensures r.reply.Ok? ==>
      r.stored == draft.(isDraft := false, approvers := BuildFixedApprovalChain(ManagerEmail(draft, dir)))
      && r.reply.value == LowerStr(ManagerEmail(draft, dir))
  {
    if role == "user" && draft.createdBy != username then Submitted(draft, Err(Forbidden))
    else
      var flipped := draft.(isDraft := false);
      if !PassesSchema(flipped) then Submitted(draft, Err(SaveFailed))
      else
        var manager := ManagerEmail(draft, dir);
        if manager == "" then Submitted(flipped, Err(MissingManager))
        else
          var chain := BuildFixedApprovalChain(manager);
          var submitted := flipped.(approvers := chain);
          FixedChainPassesSchema(flipped, manager);
          if !PassesSchema(submitted) then Submitted(flipped, Err(SaveFailed))
          else Submitted(submitted, Ok(chain[0].name))
  }

  /**
   * As written, a draft that passes the schema but has no approver is refused, yet
   * is no longer a draft: the first save already went through.
   */
  lemma SubmitHalfDone(draft: Approval, username: string, dir: map<string, string>)
    requires draft.isDraft && draft.approvers == [] && draft.createdBy == username
    requires PassesSchema(draft)
    ensures var r := SubmitDraftAsWritten(draft, username, "user", dir);
      r.reply == Err(MissingManager) && !r.stored.isDraft && r.stored.approvers == []
  {
  }

  /**
   * The submit the route evidently intends: checks first, then one write that clears
   * the draft flag and installs the fixed chain, validated as a whole.
   */
  function SubmitDraft(draft: Approval, username: string, role: string, dir: map<string, string>): (r: Submitted)
    ensures r.reply.Err? ==> r.stored == draft
    ensures r.reply.Ok? <==>
      !(role == "user" && draft.createdBy != username) && ManagerEmail(draft, dir) != "" && RequiredSet(draft)
    ensures r.reply.Ok? ==>
      r.stored == draft.(isDraft := false, approvers := BuildFixedApprovalChain(ManagerEmail(draft, dir)))
      && r.reply.value == LowerStr(ManagerEmail(draft, dir))
  {
    if role == "user" && draft.createdBy != username then Submitted(draft, Err(Forbidden))
    else
      var manager := ManagerEmail(draft, dir);
      if manager == "" then Submitted(draft, Err(MissingManager))
      else
        var chain := BuildFixedApprovalChain(manager);
        var submitted := draft.(isDraft := false, approvers := chain);
        FixedChainPassesSchema(draft.(isDraft := false), manager);
        if !PassesSchema(submitted) then Submitted(draft, Err(SaveFailed))
        else Submitted(submitted, Ok(chain[0].name))
  }

  /**
   * The corrected submit never leaves a half-done write: whatever it refuses stays a
   * draft, and whatever it accepts is stored submitted, with a chain that passes the
   * schema.
   */
  lemma SubmitAllOrNothing(draft: Approval, username: string, role: string, dir: map<string, string>)
    requires draft.isDraft
    ensures var r := SubmitDraft(draft, username, role, dir);
      (r.reply.Err? ==> r.stored.isDraft) && (r.reply.Ok? ==> !r.stored.isDraft && PassesSchema(r.stored))
  {
    if SubmitDraft(draft, username, role, dir).reply.Ok? {
      FixedChainPassesSchema(draft.(isDraft := false), ManagerEmail(draft, dir));
    }
  }

  /**
   * The draft route reads a `department` field that the form no longer sends and never
   * sets `reimbursementType` (server.js:663-683), so a draft saved on a new number
   * has no type, and the submit's first save refuses it: nothing changes, whoever
   * submits it and whatever its steps.
   */
  lemma FreshDraftNeverSubmits(uniqueNumber: string, purpose: string, steps: seq<Step>, owner: string,
                               username: string, role: string, dir: map<string, string>)
    ensures var draft := SavedDraft(None, uniqueNumber, purpose, steps, owner);
      var r := SubmitDraftAsWritten(draft, username, role, dir);
      r.reply.Err? && r.stored == draft && r.stored.isDraft
  {
  }

  /**
   * The draft upsert as evidently intended: it also keeps the reimbursement type
   * the form sends (public/app.js:1043-1075); everything else is as in `SavedDraft`.
   */
  function SavedDraftTyped(existing: Option<Approval>, uniqueNumber: string, purpose: string, reimbursementType: string,
                           steps: seq<Step>, username: string): (r: Approval)
    ensures r.reimbursementType == reimbursementType
    ensures r.(reimbursementType := "") == SavedDraft(existing, uniqueNumber, purpose, steps, username).(reimbursementType := "")
  {
    SavedDraft(existing, uniqueNumber, purpose, steps, username).(reimbursementType := reimbursementType)
  }

  /**
   * With the type kept, a fresh draft whose steps are well formed and whose first
   * step resolves to a manager is submitted by its owner, even by the submit as
   * written: the fixed chain is stored and the manager is notified.
   */
  lemma TypedDraftSubmits(uniqueNumber: string, purpose: string, reimbursementType: string, steps: seq<Step>,
                          username: string, dir: map<string, string>)
    requires uniqueNumber != "" && reimbursementType != "" && username != "" && LowerStr(username) == username
    requires forall i :: 0 <= i < |steps| ==> steps[i].name != "" && !steps[i].status.Other?
    requires |steps| > 0 && ResolveApproverToEmail(steps[0].name, dir) != ""
    ensures var draft := SavedDraftTyped(None, uniqueNumber, purpose, reimbursementType, steps, username);
      var r := SubmitDraftAsWritten(draft, username, "user", dir);
      r.reply.Ok? && r.stored == draft.(isDraft := false, approvers := BuildFixedApprovalChain(ResolveApproverToEmail(steps[0].name, dir)))
  {
    var draft := SavedDraftTyped(None, uniqueNumber, purpose, reimbursementType, steps, username);
    assert draft.approvers == steps;
    assert PassesSchema(draft);
    FixedChainPassesSchema(draft.(isDraft := false), ResolveApproverToEmail(steps[0].name, dir));
  }

  /**
   * A successful submit hands the turn to the manager and to no one else, and the
   * manager's notice carries working buttons.
   */
  lemma SubmitGivesManagerTheTurn(draft: Approval, username: string, role: string, dir: map<string, string>, caller: string)
    requires SubmitDraft(draft, username, role, dir).reply.Ok?
    ensures var r := SubmitDraft(draft, username, role, dir);
      var manager := ManagerEmail(draft, dir);
      !r.stored.isDraft
      && (IsMyTurn(r.stored.approvers, caller) <==> TurnMatch(manager, LowerStr(caller)))
      && IsMyTurn(r.stored.approvers, r.reply.value)
  {
    var manager := ManagerEmail(draft, dir);
    FixedChainTurn(manager, caller);
    FixedChainTurn(manager, manager);
    TurnMatchSelf(manager);
    LowerStrIsLower(manager);
    IsMyTurnLower(BuildFixedApprovalChain(manager), manager);
  }

  /* ---------------- direct creation ---------------- */

  /**
   * A client row stored as given (server.js:829-838): only a missing status takes the
   * schema default; an empty one is kept, and the enum validator then refuses it.
   */
  function CreatedStep(a: StepInput): (r: Step)
    ensures r.name == a.name && r.comment == a.comment
    ensures a.status.None? ==> r.status == Pending
    ensures a.status.Some? ==> StatusText(r.status) == a.status.value
  {
    Step(a.name, if a.status.None? then Pending else StatusOf(a.status.value), a.comment, None)
  }

  /** A client row the schema accepts: a name, and a status that is missing or in the enum. */
  predicate RowPassesSchema(a: StepInput) {
    a.name != "" && (a.status.None? || a.status.value in {"Pending", "Accepted", "Rejected"})
  }

  /** The approval a direct creation builds from the request, before it is saved. */
  function CreatedApproval(uniqueNumber: string, reimbursementType: string, purpose: string,
                           rows: seq<StepInput>, username: string): (ap: Approval)
    ensures PassesSchema(ap) <==>
      uniqueNumber != "" && reimbursementType != "" && username != ""
      && forall i :: 0 <= i < |rows| ==> RowPassesSchema(rows[i])
  {
    var steps := seq(|rows|, i requires 0 <= i < |rows| => CreatedStep(rows[i]));
    var ap := Approval(uniqueNumber, false, purpose, reimbursementType, steps, LowerStr(username));
    assert forall i :: 0 <= i < |rows| ==> (!steps[i].status.Other? <==> (rows[i].status.None? || rows[i].status.value in {"Pending", "Accepted", "Rejected"}));
    ap
  }

  /** The first approver a new approval notifies (server.js:846-851). */
  function FirstApproverOf(ap: Approval, dir: map<string, string>): string
    requires |ap.approvers| > 0
  {
    var first := LowerStr(ap.approvers[0].name);
    if '@' in first then first else ResolveApproverToEmail(first, dir)
  }

  /**
   * POST /api/approvals (server.js:802-885). `taken` says whether the number is
   * already stored (the unique index then fails the insert); `approvers` is `None`
   * when the body's list is not an array. The client's rows are stored as given: the
   * fixed chain is not applied.
   */
  function CreateApproval(taken: bool, uniqueNumber: string, reimbursementType: string, purpose: string,
                          approvers: Option<seq<StepInput>>, username: string, dir: map<string, string>): (r: Result<(Approval, string), Failure>)
    ensures Trim(reimbursementType) == "" ==> r == Err(MissingType)
    ensures Trim(reimbursementType) != "" && (approvers.None? || approvers.value == []) ==> r == Err(MissingApprovers)
    ensures Trim(reimbursementType) != "" && approvers.Some? && approvers.value != []
            && !PassesSchema(CreatedApproval(uniqueNumber, reimbursementType, purpose, approvers.value, username))
      ==> r == Err(ValidationFailed)
    ensures Trim(reimbursementType) != "" && approvers.Some? && approvers.value != []
            && PassesSchema(CreatedApproval(uniqueNumber, reimbursementType, purpose, approvers.value, username)) && taken
      ==> r == Err(ServerError)
    ensures r.Ok? <==>
      !taken && Trim(reimbursementType) != "" && approvers.Some? && approvers.value != []
      && uniqueNumber != "" && username != ""
      && forall i :: 0 <= i < |approvers.value| ==> RowPassesSchema(approvers.value[i])
    ensures r.Ok? ==> var ap := r.value.0;
      !taken && PassesSchema(ap) && !ap.isDraft && ap.uniqueNumber == uniqueNumber
      && ap.createdBy == LowerStr(username) && approvers.Some?
      && |ap.approvers| == |approvers.value| > 0
      && (forall i :: 0 <= i < |ap.approvers| ==> ap.approvers[i] == CreatedStep(approvers.value[i]))
      && r.value.1 == FirstApproverOf(ap, dir)
  {
    if Trim(reimbursementType) == "" then Err(MissingType)
    else if approvers.None? || approvers.value == [] then Err(MissingApprovers)
    else
      var ap := CreatedApproval(uniqueNumber, reimbursementType, purpose, approvers.value, username);
      if !PassesSchema(ap) then Err(ValidationFailed)
      else if taken then Err(ServerError)
      else Ok((ap, FirstApproverOf(ap, dir)))
  }

  /**
   * A direct creation refuses a row whose status is an empty string, which a saved
   * draft reads as Pending.
   */
  lemma CreateRefusesEmptyStatus(taken: bool, uniqueNumber: string, reimbursementType: string, purpose: string,
                                 name: string, username: string, dir: map<string, string>, now: int)
    requires Trim(reimbursementType) != ""
    ensures CreateApproval(taken, uniqueNumber, reimbursementType, purpose, Some([StepInput(name, Some(""), "")]), username, dir)
         == Err(ValidationFailed)
    ensures DraftStep(StepInput(name, Some(""), ""), dir, now).status == Pending
  {
    var ap := CreatedApproval(uniqueNumber, reimbursementType, purpose, [StepInput(name, Some(""), "")], username);
    assert !RowPassesSchema(StepInput(name, Some(""), ""));
  }

  /**
   * A created approval's chain is the client's: with the single row `x`, the turn is
   * whoever tolerant-matches `x`'s name, whatever manager the fixed chain would name.
   */
  lemma CreateGivesRowTheTurn(taken: bool, uniqueNumber: string, reimbursementType: string, purpose: string,
                              x: StepInput, username: string, dir: map<string, string>, caller: string)
    requires CreateApproval(taken, uniqueNumber, reimbursementType, purpose, Some([x]), username, dir).Ok?
    requires x.status.None? || x.status == Some("Pending")
    ensures var ap := CreateApproval(taken, uniqueNumber, reimbursementType, purpose, Some([x]), username, dir).value.0;
      (IsMyTurn(ap.approvers, caller) <==> TurnMatch(x.name, LowerStr(caller))) && IsMyTurn(ap.approvers, x.name)
  {
    var ap := CreateApproval(taken, uniqueNumber, reimbursementType, purpose, Some([x]), username, dir).value.0;
    assert ap.approvers == [CreatedStep(x)];
    assert FirstPending(ap.approvers) == 0;
    TurnMatchSelf(x.name);
  }

  /* ---------------- master controls ---------------- */

  /** The master's write of one step's status and time; its name and comment stay. */
  function SetStatus(ap: Approval, idx: int, st: Status, now: int): (r: Approval)
    requires 0 <= idx < |ap.approvers|
    ensures r.(approvers := ap.approvers) == ap && |r.approvers| == |ap.approvers|
    ensures forall j :: 0 <= j < |ap.approvers| && j != idx ==> r.approvers[j] == ap.approvers[j]
    ensures r.approvers[idx] == Step(ap.approvers[idx].name, st, ap.approvers[idx].comment, Some(now))
  {
    ap.(approvers := ap.approvers[idx := ap.approvers[idx].(status := st, updatedAt := Some(now))])
  }

  /**
   * PATCH .../master/override (server.js:1191-1206): the first step whose name matches
   * `approverName` ignoring case gets the status and the time, and `save()` validates
   * the result (no catch: a failed save writes nothing).
   */
  function Override(found: Option<Approval>, approverName: string, status: string, now: int): (r: Result<Approval, Failure>)
    ensures status != "Pending" && status != "Accepted" && status != "Rejected" ==> r == Err(InvalidStatus)
    ensures !StatusOf(status).Other? && found.None? ==> r == Err(NotFound)
    ensures !StatusOf(status).Other? && found.Some? && ExactIndex(found.value.approvers, LowerStr(approverName)) == -1
      ==> r == Err(ApproverNotFound)
    ensures r.Ok? <==>
      !StatusOf(status).Other? && found.Some? && ExactIndex(found.value.approvers, LowerStr(approverName)) != -1
      && PassesSchema(SetStatus(found.value, ExactIndex(found.value.approvers, LowerStr(approverName)), StatusOf(status), now))
    ensures r.Ok? ==> r.value == SetStatus(found.value, ExactIndex(found.value.approvers, LowerStr(approverName)), StatusOf(status), now)
  {
    if status != "Pending" && status != "Accepted" && status != "Rejected" then Err(InvalidStatus)
    else if found.None? then Err(NotFound)
    else
      var ap := found.value;
      var idx := ExactIndex(ap.approvers, LowerStr(approverName));
      if idx == -1 then Err(ApproverNotFound)
      else
        var written := SetStatus(ap, idx, StatusOf(status), now);
        if !PassesSchema(written) then Err(SaveFailed) else Ok(written)
  }

  /**
   * An override on an approval that passes the schema always saves; on one whose
   * required fields are not all set (a draft saved on a new number) it never does.
   */
  lemma OverrideSaves(ap: Approval, idx: int, st: Status, now: int)
    requires 0 <= idx < |ap.approvers| && !st.Other?
    ensures PassesSchema(ap) ==> PassesSchema(SetStatus(ap, idx, st, now))
    ensures !RequiredSet(ap) ==> !PassesSchema(SetStatus(ap, idx, st, now))
  {
    var r := SetStatus(ap, idx, st, now);
    if PassesSchema(ap) {
      forall j | 0 <= j < |r.approvers| ensures r.approvers[j].name != "" && !r.approvers[j].status.Other? {
        if j != idx {
          assert r.approvers[j] == ap.approvers[j];
        }
      }
    }
  }

  /** The chain a reassign installs: the names lower-cased, all Pending, in order. */
  function ReassignedSteps(names: seq<string>, now: int): (r: seq<Step>)
    ensures |r| == |names| && forall i :: 0 <= i < |names| ==> r[i] == Step(LowerStr(names[i]), Pending, "", Some(now))
  {
    seq(|names|, i requires 0 <= i < |names| => Step(LowerStr(names[i]), Pending, "", Some(now)))
  }

  /**
   * PATCH .../master/reassign (server.js:1313-1325): a new chain of lower-cased names,
   * all Pending, in the given order. `names` is `None` when the body is not an array
   * of strings. The save refuses an empty name (no catch: nothing is written).
   */
  function Reassign(found: Option<Approval>, names: Option<seq<string>>, now: int): (r: Result<Approval, Failure>)
    ensures names.None? ==> r == Err(InvalidList)
    ensures names.Some? && found.None? ==> r == Err(NotFound)
    ensures r.Ok? <==>
      names.Some? && found.Some? && RequiredSet(found.value)
      && forall i :: 0 <= i < |names.value| ==> names.value[i] != ""
    ensures r.Ok? ==>
      r.value.(approvers := found.value.approvers) == found.value
      && |r.value.approvers| == |names.value|
      && forall i :: 0 <= i < |names.value| ==>
           r.value.approvers[i] == Step(LowerStr(names.value[i]), Pending, "", Some(now))
  {
    if names.None? then Err(InvalidList)
    else if found.None? then Err(NotFound)
    else
      var written := found.value.(approvers := ReassignedSteps(names.value, now));
      if !PassesSchema(written) then Err(SaveFailed) else Ok(written)
  }

  /** After a reassign the first listed name holds the turn. */
  lemma ReassignHandsTurnToFirst(found: Approval, names: seq<string>, now: int)
    requires |names| > 0 && RequiredSet(found) && forall i :: 0 <= i < |names| ==> names[i] != ""
    ensures var r := Reassign(Some(found), Some(names), now);
      r.Ok? && FirstPending(r.value.approvers) == 0 && IsMyTurn(r.value.approvers, names[0])
  {
    var r := Reassign(Some(found), Some(names), now);
    var steps := r.value.approvers;
    TurnMatchSelf(names[0]);
    LowerStrIsLower(names[0]);
    assert TurnMatch(steps[0].name, LowerStr(names[0]));
  }

  /** PATCH .../master/reset (server.js:1327-1334) on one step: back to Pending, name and comment kept. */
  function ResetStep(s: Step, now: int): (r: Step)
    ensures r.name == s.name && r.comment == s.comment && r.status == Pending && r.updatedAt == Some(now)
  {
    s.(status := Pending, updatedAt := Some(now))
  }

  /** Every step reset. */
  function ResetAll(steps: seq<Step>, now: int): (r: seq<Step>)
    ensures |r| == |steps| && forall i :: 0 <= i < |steps| ==> r[i] == ResetStep(steps[i], now)
  {
    seq(|steps|, i requires 0 <= i < |steps| => ResetStep(steps[i], now))
  }

  /**
   * The save after a reset succeeds exactly when the approval's required fields are
   * set and no step has an empty name: the reset itself repairs any status outside
   * the enum.
   */
  lemma ResetSaves(ap: Approval, now: int)
    ensures PassesSchema(ap.(approvers := ResetAll(ap.approvers, now)))
        <==> RequiredSet(ap) && forall i :: 0 <= i < |ap.approvers| ==> ap.approvers[i].name != ""
  {
  }

  /** After a reset the turn is back with whoever the first step names. */
  lemma ResetRestartsChain(steps: seq<Step>, now: int, username: string)
    requires |steps| > 0
    ensures FirstPending(ResetAll(steps, now)) == 0
    ensures IsMyTurn(ResetAll(steps, now), username) <==> TurnMatch(steps[0].name, LowerStr(username))
  {
    assert ResetAll(steps, now)[0].status == Pending;
  }

  /* ---------------- backfill ---------------- */

  const BACKFILL_HR_EMAIL := "hr@adventz.zuarimoney.com"
  const BACKFILL_ACCOUNTS_EMAIL := "accounts@adventz.zuarimoney.com"

  /** `names.includes(x)` over the lower-cased step names. */
  predicate Names(steps: seq<Step>, x: string) {
    ExactIndex(steps, x) != -1
  }

  function AppendedStep(name: string): Step {
    Step(name, Pending, "", None)
  }

  /**
   * The steps the backfill (server.js:1384-1430) appends to one approval: none for a
   * draft, for an empty chain or when the first step is not Accepted; otherwise the
   * HR step if missing, then the Accounts step if missing, both Pending.
   */
  function BackfillSteps(ap: Approval): (r: seq<Step>)
    ensures |r| <= 2
    ensures r != [] ==> !ap.isDraft && |ap.approvers| >= 1 && ap.approvers[0].status == Accepted
    ensures forall i :: 0 <= i < |r| ==> r[i].status == Pending && r[i].comment == "" && r[i].updatedAt == None
  {
    if ap.isDraft || |ap.approvers| < 1 || ap.approvers[0].status != Accepted then []
    else
      var steps := ap.approvers;
      (if Names(steps, BACKFILL_HR_EMAIL) then [] else [AppendedStep(BACKFILL_HR_EMAIL)])
      + (if Names(steps, BACKFILL_ACCOUNTS_EMAIL) then [] else [AppendedStep(BACKFILL_ACCOUNTS_EMAIL)])
  }

  function Backfilled(ap: Approval): (r: Approval)
    ensures r.(approvers := ap.approvers) == ap
    ensures BackfillSteps(ap) == [] ==> r == ap
  {
    var r := ap.(approvers := ap.approvers + BackfillSteps(ap));
    assert BackfillSteps(ap) == [] ==> ap.approvers + BackfillSteps(ap) == ap.approvers;
    r
  }

  lemma BackfillConstantsLower()
    ensures LowerStr(BACKFILL_HR_EMAIL) == BACKFILL_HR_EMAIL
    ensures LowerStr(BACKFILL_ACCOUNTS_EMAIL) == BACKFILL_ACCOUNTS_EMAIL
  {
    assert IsLowerStr(BACKFILL_HR_EMAIL);
    assert IsLowerStr(BACKFILL_ACCOUNTS_EMAIL);
    LowerOfLower(BACKFILL_HR_EMAIL);
    LowerOfLower(BACKFILL_ACCOUNTS_EMAIL);
  }

  /** A name present before an append is still present after it. */
  lemma NamesAppend(steps: seq<Step>, extra: seq<Step>, x: string)
    requires Names(steps, x)
    ensures Names(steps + extra, x)
  {
    var k := ExactIndex(steps, x);
    assert (steps + extra)[k] == steps[k];
  }

  lemma NamesAppended(steps: seq<Step>, extra: seq<Step>, k: int, x: string)
    requires 0 <= k < |extra| && LowerStr(extra[k].name) == x
    ensures Names(steps + extra, x)
  {
    assert (steps + extra)[|steps| + k] == extra[k];
  }

  /** The backfill keeps every existing step and a second run appends nothing. */
  lemma BackfillIdempotent(ap: Approval)
    ensures Backfilled(ap).approvers[..|ap.approvers|] == ap.approvers
    ensures BackfillSteps(Backfilled(ap)) == []
    ensures Backfilled(Backfilled(ap)) == Backfilled(ap)
  {
    var extra := BackfillSteps(ap);
    var steps := ap.approvers + extra;
    if extra != [] {
      BackfillConstantsLower();
      assert steps[0] == ap.approvers[0];
      if Names(ap.approvers, BACKFILL_HR_EMAIL) {
        NamesAppend(ap.approvers, extra, BACKFILL_HR_EMAIL);
      } else {
        NamesAppended(ap.approvers, extra, 0, BACKFILL_HR_EMAIL);
      }
      if Names(ap.approvers, BACKFILL_ACCOUNTS_EMAIL) {
        NamesAppend(ap.approvers, extra, BACKFILL_ACCOUNTS_EMAIL);
      } else {
        NamesAppended(ap.approvers, extra, |extra| - 1, BACKFILL_ACCOUNTS_EMAIL);
      }
    }
    assert steps + [] == steps;
  }

  /**
   * The backfill and the chain builder name different Accounts addresses, so a
   * fixed chain whose manager accepted gains a second Accounts step.
   */
  lemma BackfillAddsSecondAccountsStep(manager: string)
    requires manager != "" && LowerStr(manager) != BACKFILL_ACCOUNTS_EMAIL
    ensures var chain := BuildFixedApprovalChain(manager);
      var ap := Approval("n", false, "", "t", chain[0 := chain[0].(status := Accepted)], "u");
      BackfillSteps(ap) == [AppendedStep(BACKFILL_ACCOUNTS_EMAIL)]
      && |Backfilled(ap).approvers| == 4
  {
    var chain := BuildFixedApprovalChain(manager);
    var steps := chain[0 := chain[0].(status := Accepted)];
    HrAccountsLower();
    assert LowerStr(steps[1].name) == BACKFILL_HR_EMAIL;
    assert Names(steps, BACKFILL_HR_EMAIL);
    assert LowerStr(steps[0].name) != BACKFILL_ACCOUNTS_EMAIL by { LowerStrIsLower(manager); }
    assert LowerStr(steps[2].name) != BACKFILL_ACCOUNTS_EMAIL by {
      assert steps[2].name[8] == '.' && BACKFILL_ACCOUNTS_EMAIL[8] == '@';
    }
    assert LowerStr(steps[1].name) != BACKFILL_ACCOUNTS_EMAIL by {
      assert steps[1].name[0] == 'h';
    }
    assert !Names(steps, BACKFILL_ACCOUNTS_EMAIL);
  }

  /* ---------------- migration ---------------- */

  /**
   * The migration's treatment of one step name (server.js:1351-1361): a name with no
   * `@` that the resolver changes takes the resolved email and marks the approval
   * dirty; every other name is lower-cased.
   */
  function MigratedName(raw: string, dir: map<string, string>): (string, bool) {
    if '@' !in raw then
      var resolved := ResolveApproverToEmail(raw, dir);
      if resolved != "" && resolved != LowerStr(raw) then (resolved, true) else (LowerStr(raw), false)
    else (LowerStr(raw), false)
  }

  function MigratedStep(s: Step, dir: map<string, string>): Step {
    s.(name := MigratedName(s.name, dir).0)
  }

  /** Every step's name migrated. */
  function MigratedSteps(steps: seq<Step>, dir: map<string, string>): (r: seq<Step>)
    ensures |r| == |steps| && forall i :: 0 <= i < |steps| ==> r[i] == MigratedStep(steps[i], dir)
  {
    seq(|steps|, i requires 0 <= i < |steps| => MigratedStep(steps[i], dir))
  }

  lemma MigratedStepsSnoc(steps: seq<Step>, s: Step, dir: map<string, string>)
    ensures MigratedSteps(steps + [s], dir) == MigratedSteps(steps, dir) + [MigratedStep(s, dir)]
  {
    var a, b := MigratedSteps(steps + [s], dir), MigratedSteps(steps, dir) + [MigratedStep(s, dir)];
    forall j | 0 <= j < |a| ensures a[j] == b[j] {
      if j < |steps| {
        assert (steps + [s])[j] == steps[j];
      }
    }
  }

  /** Some step of the approval is rewritten by the resolver. */
  predicate Dirty(steps: seq<Step>, dir: map<string, string>) {
    steps != [] && (MigratedName(steps[0].name, dir).1 || Dirty(steps[1..], dir))
  }

  lemma {:induction false} DirtyIff(steps: seq<Step>, dir: map<string, string>)
    ensures Dirty(steps, dir) <==> exists i :: 0 <= i < |steps| && MigratedName(steps[i].name, dir).1
  {
    if steps != [] {
      DirtyIff(steps[1..], dir);
      if exists i :: 0 <= i < |steps| && MigratedName(steps[i].name, dir).1 {
        var i :| 0 <= i < |steps| && MigratedName(steps[i].name, dir).1;
        if i > 0 {
          assert steps[1..][i - 1] == steps[i];
        }
      }
    }
  }

  /** What the migration stores for one approval: all names migrated if any is dirty, else nothing. */
  function Migrated(ap: Approval, dir: map<string, string>): (r: Approval)
    ensures r.(approvers := ap.approvers) == ap && |r.approvers| == |ap.approvers|
    ensures !Dirty(ap.approvers, dir) ==> r == ap
    ensures forall i :: 0 <= i < |ap.approvers| ==>
      r.approvers[i].(name := ap.approvers[i].name) == ap.approvers[i]
  {
    if Dirty(ap.approvers, dir) then ap.(approvers := MigratedSteps(ap.approvers, dir)) else ap
  }

  lemma AtMapsToAt(s: string)
    ensures ('@' in LowerStr(s)) <==> ('@' in s)
  {
    if '@' in s {
      var i :| 0 <= i < |s| && s[i] == '@';
      assert LowerStr(s)[i] == '@';
    }
  }

  /** The resolver does not care about the case of its argument. */
  lemma ResolveIgnoresCase(raw: string, dir: map<string, string>)
    ensures ResolveApproverToEmail(LowerStr(raw), dir) == ResolveApproverToEmail(raw, dir)
  {
    TrimLower(raw);
    LowerStrIsLower(Trim(raw));
    AtMapsToAt(Trim(raw));
  }

  /** A name the migration left alone (only lower-cased) is left alone again. */
  lemma CleanNameStable(raw: string, dir: map<string, string>)
    requires !MigratedName(raw, dir).1
    ensures MigratedName(LowerStr(raw), dir) == (LowerStr(raw), false)
  {
    LowerStrIsLower(raw);
    AtMapsToAt(raw);
    if '@' !in raw {
      ResolveIgnoresCase(raw, dir);
    }
  }

  /** A name the resolver rewrote is either an email or already resolves to itself. */
  lemma RewrittenNameStable(raw: string, dir: map<string, string>)
    requires forall k :: k in dir ==> '@' in dir[k]
    requires MigratedName(raw, dir).1
    ensures var m := MigratedName(raw, dir).0;
      MigratedName(m, dir) == (m, false)
  {
    var m := MigratedName(raw, dir).0;
    var t := Trim(raw);
    ResolveApproverToEmailFacts(raw, dir);
    LowerOfLower(m);
    if m != LowerStr(t) {
      AtMapsToAt(dir[LowerStr(t)]);
    } else if '@' !in m {
      AtMapsToAt(t);
      TrimFacts(raw);
      TrimLower(t);
      TrimNoSpaceEnds(t);
      LowerStrIsLower(t);
      assert Trim(m) == m && LowerStr(m) == m;
      if m in dir && dir[m] != "" {
        AtMapsToAt(dir[m]);
        assert false;
      }
      assert ResolveApproverToEmail(m, dir) == m;
    }
  }

  /** One name migrated twice: the second pass changes nothing and marks nothing dirty. */
  lemma MigratedNameStable(raw: string, dir: map<string, string>)
    requires forall k :: k in dir ==> '@' in dir[k]
    ensures var m := MigratedName(raw, dir).0;
      MigratedName(m, dir) == (m, false)
  {
    if MigratedName(raw, dir).1 {
      RewrittenNameStable(raw, dir);
    } else {
      CleanNameStable(raw, dir);
    }
  }

  /**
   * With a directory whose entries are all email addresses, the migration is
   * idempotent: a second run finds nothing dirty.
   */
  lemma MigrationIdempotent(ap: Approval, dir: map<string, string>)
    requires forall k :: k in dir ==> '@' in dir[k]
    ensures !Dirty(Migrated(ap, dir).approvers, dir)
    ensures Migrated(Migrated(ap, dir), dir) == Migrated(ap, dir)
  {
    var m := Migrated(ap, dir);
    if Dirty(ap.approvers, dir) {
      forall i | 0 <= i < |m.approvers|
        ensures !MigratedName(m.approvers[i].name, dir).1
      {
        MigratedNameStable(ap.approvers[i].name, dir);
      }
      DirtyIff(m.approvers, dir);
    }
  }
}
