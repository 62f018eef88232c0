/**
 * The server's persistent state: the Approval collection, in natural order, and the
 * registry of redeemed one-click token ids. Each route handler is a method that looks
 * the approval up, applies the Decisions / Workflow function and writes the result back.
 */
module Store {
  import opened Wrappers
  import opened Seqs
  import opened Chain
  import D = Decisions
  import W = Workflow

  /** `Approval.findOne({ uniqueNumber })`: the position of the approval with that number, or -1. */
  function IndexOf(approvals: seq<Approval>, uniqueNumber: string): int {
    FindIndex(approvals, (a: Approval) => a.uniqueNumber == uniqueNumber)
  }

  function Lookup(approvals: seq<Approval>, uniqueNumber: string): (r: Option<Approval>)
    ensures r.None? <==> forall i :: 0 <= i < |approvals| ==> approvals[i].uniqueNumber != uniqueNumber
    ensures r.Some? ==> r.value in approvals && r.value.uniqueNumber == uniqueNumber
  {
    var i := IndexOf(approvals, uniqueNumber);
    if i == -1 then None else Some(approvals[i])
  }

  /** The unique index on `uniqueNumber`. */
  predicate UniqueNumbers(approvals: seq<Approval>) {
    forall i, j :: 0 <= i < j < |approvals| ==> approvals[i].uniqueNumber != approvals[j].uniqueNumber
  }

  /** Replacing an approval by one with the same number keeps the numbers unique. */
  lemma ReplaceKeepsUnique(approvals: seq<Approval>, i: int, ap: Approval)
    requires UniqueNumbers(approvals) && 0 <= i < |approvals| && ap.uniqueNumber == approvals[i].uniqueNumber
    ensures UniqueNumbers(approvals[i := ap])
  {
  }

  /** Number of approvals the backfill extends. */
  function CountBackfilled(aps: seq<Approval>): nat {
    if aps == [] then 0 else (if W.BackfillSteps(aps[0]) != [] then 1 else 0) + CountBackfilled(aps[1..])
  }

  /** Number of approvals the migration rewrites. */
  function CountDirty(aps: seq<Approval>, dir: map<string, string>): nat {
    if aps == [] then 0 else (if W.Dirty(aps[0].approvers, dir) then 1 else 0) + CountDirty(aps[1..], dir)
  }

  /** Number of steps over all approvals. */
  function CountSteps(aps: seq<Approval>): nat {
    if aps == [] then 0 else |aps[0].approvers| + CountSteps(aps[1..])
  }

  const ADMIN_ROLES := ["master", "hr"]

  /** Two collections holding the same numbers at the same positions. */
  predicate SameNumbers(a: seq<Approval>, b: seq<Approval>) {
    |a| == |b| && forall j :: 0 <= j < |a| ==> a[j].uniqueNumber == b[j].uniqueNumber
  }

  lemma SameNumbersUnique(a: seq<Approval>, b: seq<Approval>)
    requires UniqueNumbers(a) && SameNumbers(a, b)
    ensures UniqueNumbers(b)
  {
  }

  /** The backfill applied to every approval. */
  function BackfillAll(aps: seq<Approval>): (r: seq<Approval>)
    ensures |r| == |aps| && forall j :: 0 <= j < |aps| ==> r[j] == W.Backfilled(aps[j])
  {
    seq(|aps|, j requires 0 <= j < |aps| => W.Backfilled(aps[j]))
  }

  /** The migration applied to every approval. */
  function MigrateAll(aps: seq<Approval>, dir: map<string, string>): (r: seq<Approval>)
    ensures |r| == |aps| && forall j :: 0 <= j < |aps| ==> r[j] == W.Migrated(aps[j], dir)
  {
    seq(|aps|, j requires 0 <= j < |aps| => W.Migrated(aps[j], dir))
  }

  /** The backfill's count peels off one approval at a time. */
  lemma BackfillCountStep(aps: seq<Approval>, n: int, updated: int)
    requires 0 <= n < |aps|
    requires updated + CountBackfilled(aps[n..]) == CountBackfilled(aps)
    ensures W.BackfillSteps(aps[n]) != [] ==> (updated + 1) + CountBackfilled(aps[n + 1..]) == CountBackfilled(aps)
    ensures W.BackfillSteps(aps[n]) == [] ==> updated + CountBackfilled(aps[n + 1..]) == CountBackfilled(aps)
  {
    assert aps[n..][1..] == aps[n + 1..];
  }

  /** Backfilling position `n` of a collection backfilled up to `n` backfills it up to `n + 1`. */
  lemma BackfillStateStep(all: seq<Approval>, n: int)
    requires 0 <= n < |all|
    ensures (BackfillAll(all[..n]) + all[n..])[n] == all[n]
    ensures |BackfillAll(all[..n]) + all[n..]| == |all|
    ensures (BackfillAll(all[..n]) + all[n..])[n := W.Backfilled(all[n])] == BackfillAll(all[..n + 1]) + all[n + 1..]
  {
    var before := BackfillAll(all[..n]) + all[n..];
    var after := BackfillAll(all[..n + 1]) + all[n + 1..];
    assert |before| == |after| == |all|;
    forall j | 0 <= j < |all| ensures before[n := W.Backfilled(all[n])][j] == after[j] {
      if j < n {
        assert all[..n][j] == all[..n + 1][j];
      }
    }
  }

  /** The whole collection backfilled keeps its numbers unique. */
  lemma BackfilledEvery(all: seq<Approval>)
    requires UniqueNumbers(all)
    ensures BackfillAll(all[..|all|]) + all[|all|..] == BackfillAll(all)
    ensures UniqueNumbers(BackfillAll(all))
  {
    assert all[..|all|] == all;
    SameNumbersUnique(all, BackfillAll(all));
  }

  /** The counts of the migration peel off one approval at a time. */
  lemma MigrateCountsStep(aps: seq<Approval>, n: int, dir: map<string, string>, changed: int, inspected: int)
    requires 0 <= n < |aps|
    requires changed + CountDirty(aps[n..], dir) == CountDirty(aps, dir)
    requires inspected + CountSteps(aps[n..]) == CountSteps(aps)
    ensures W.Dirty(aps[n].approvers, dir) ==> (changed + 1) + CountDirty(aps[n + 1..], dir) == CountDirty(aps, dir)
    ensures !W.Dirty(aps[n].approvers, dir) ==> changed + CountDirty(aps[n + 1..], dir) == CountDirty(aps, dir)
    ensures (inspected + |aps[n].approvers|) + CountSteps(aps[n + 1..]) == CountSteps(aps)
  {
    assert aps[n..][1..] == aps[n + 1..];
  }

  /** Migrating position `n` of a collection migrated up to `n` migrates it up to `n + 1`. */
  lemma MigrateStateStep(all: seq<Approval>, n: int, dir: map<string, string>)
    requires 0 <= n < |all|
    ensures (MigrateAll(all[..n], dir) + all[n..])[n] == all[n]
    ensures |MigrateAll(all[..n], dir) + all[n..]| == |all|
    ensures (MigrateAll(all[..n], dir) + all[n..])[n := W.Migrated(all[n], dir)] == MigrateAll(all[..n + 1], dir) + all[n + 1..]
  {
    var before := MigrateAll(all[..n], dir) + all[n..];
    var after := MigrateAll(all[..n + 1], dir) + all[n + 1..];
    assert |before| == |after| == |all|;
    forall j | 0 <= j < |all| ensures before[n := W.Migrated(all[n], dir)][j] == after[j] {
      if j < n {
        assert all[..n][j] == all[..n + 1][j];
      }
    }
  }

  /** The whole collection migrated keeps its numbers unique. */
  lemma MigratedEvery(all: seq<Approval>, dir: map<string, string>)
    requires UniqueNumbers(all)
    ensures MigrateAll(all[..|all|], dir) + all[|all|..] == MigrateAll(all, dir)
    ensures UniqueNumbers(MigrateAll(all, dir))
  {
    assert all[..|all|] == all;
    SameNumbersUnique(all, MigrateAll(all, dir));
  }

  class ApprovalStore {
    var approvals: seq<Approval>
    var usedJtis: set<string>

    ghost predicate Valid()
      reads this
    {
      UniqueNumbers(approvals)
    }

    constructor ()
      ensures Valid() && approvals == [] && usedJtis == {}
    {
      approvals := [];
      usedJtis := {};
    }

    /** Writes back a decision's result, keeping the unique index. */
    method Put(i: int, ap: Approval)
      requires Valid() && 0 <= i < |approvals| && ap.uniqueNumber == approvals[i].uniqueNumber
      modifies this
      ensures Valid() && approvals == old(approvals)[i := ap] && usedJtis == old(usedJtis)
    {
      ReplaceKeepsUnique(approvals, i, ap);
      approvals := approvals[i := ap];
    }

    /**
     * PATCH /api/approvals/:uniqueNumber/approver (server.js:962-1017), as written: the
     * turn check is the one at server.js:972-977, so a step already decided can be
     * decided again.
     */
    method DecideInApp(uniqueNumber: string, username: string, approverName: string, status: string, comment: string, now: int)
      returns (reply: Result<D.Notice, D.Refusal>)
      requires Valid()
      modifies this
      ensures Valid() && usedJtis == old(usedJtis)
      ensures var r := D.DecideInApp(D.AsWritten, Lookup(old(approvals), uniqueNumber), username, approverName, status, comment, now);
        (r.Err? ==> reply == Err(r.error) && approvals == old(approvals))
        && (r.Ok? ==> approvals == old(approvals)[IndexOf(old(approvals), uniqueNumber) := r.value]
                      && reply == Ok(D.NoticeAfter(r.value, StatusOf(status))))
    {
      var i := IndexOf(approvals, uniqueNumber);
      var r := D.DecideInApp(D.AsWritten, Lookup(approvals, uniqueNumber), username, approverName, status, comment, now);
      if r.Err? {
        return Err(r.error);
      }
      Put(i, r.value);
      reply := Ok(D.NoticeAfter(r.value, StatusOf(status)));
    }

    /**
     * GET /mail-oneclick/:token (server.js:1022-1094), as written: the decision is
     * written first, the token's id recorded after it.
     */
    method RedeemOneClick(token: Option<D.Claims>, now: int) returns (reply: Result<D.Notice, D.Refusal>)
      requires Valid()
      modifies this
      ensures Valid()
      ensures var found := if token.Some? then Lookup(old(approvals), token.value.uniqueNumber) else None;
        var r := D.RedeemOneClick(D.AsWritten, token, old(usedJtis), found, now);
        (r.Err? ==> reply == Err(r.error) && approvals == old(approvals) && usedJtis == old(usedJtis))
        && (r.Ok? ==> approvals == old(approvals)[IndexOf(old(approvals), token.value.uniqueNumber) := r.value]
                      && usedJtis == old(usedJtis) + {token.value.jti}
                      && reply == Ok(D.NoticeAfter(r.value, StatusOf(token.value.action))))
    {
      var found := if token.Some? then Lookup(approvals, token.value.uniqueNumber) else None;
      var r := D.RedeemOneClick(D.AsWritten, token, usedJtis, found, now);
      if r.Err? {
        return Err(r.error);
      }
      Put(IndexOf(approvals, token.value.uniqueNumber), r.value);
      usedJtis := usedJtis + {token.value.jti};
      reply := Ok(D.NoticeAfter(r.value, StatusOf(token.value.action)));
    }

    /** POST /mail-action/:token (server.js:1150-1186), as written: the registry is neither read nor written. */
    method DecideOnCommentPage(token: Option<D.Claims>, action: string, comment: string, now: int)
      returns (reply: Result<D.Notice, D.Refusal>)
      requires Valid()
      modifies this
      ensures Valid() && usedJtis == old(usedJtis)
      ensures var found := if token.Some? then Lookup(old(approvals), token.value.uniqueNumber) else None;
        var r := D.DecideOnCommentPage(D.AsWritten, token, found, action, comment, now);
        (r.Err? ==> reply == Err(r.error) && approvals == old(approvals))
        && (r.Ok? ==> approvals == old(approvals)[IndexOf(old(approvals), token.value.uniqueNumber) := r.value]
                      && reply == Ok(D.NoticeAfter(r.value, StatusOf(action))))
    {
      var found := if token.Some? then Lookup(approvals, token.value.uniqueNumber) else None;
      var r := D.DecideOnCommentPage(D.AsWritten, token, found, action, comment, now);
      if r.Err? {
        return Err(r.error);
      }
      Put(IndexOf(approvals, token.value.uniqueNumber), r.value);
      reply := Ok(D.NoticeAfter(r.value, StatusOf(action)));
    }

    /**
     * POST /api/drafts (server.js:660-697): the rows are resolved one by one, then the
     * draft is upserted by number.
     */
    method SaveDraft(uniqueNumber: string, purpose: string, rows: seq<W.StepInput>, username: string,
                     dir: map<string, string>, now: int)
      requires Valid()
      modifies this
      ensures Valid() && usedJtis == old(usedJtis)
      ensures var steps := W.DraftSteps(rows, dir, now);
        var i := IndexOf(old(approvals), uniqueNumber);
        if i == -1 then approvals == old(approvals) + [W.SavedDraft(None, uniqueNumber, purpose, steps, username)]
        else approvals == old(approvals)[i := W.SavedDraft(Some(old(approvals)[i]), uniqueNumber, purpose, steps, username)]
    {
      var steps := DraftRows(rows, dir, now);
      var i := IndexOf(approvals, uniqueNumber);
      if i == -1 {
        approvals := approvals + [W.SavedDraft(None, uniqueNumber, purpose, steps, username)];
      } else {
        Put(i, W.SavedDraft(Some(approvals[i]), uniqueNumber, purpose, steps, username));
      }
    }

    /**
     * PATCH /api/drafts/:uniqueNumber/submit (server.js:764-798), as written: the draft
     * flag is cleared and saved before the manager is resolved, so a draft without a
     * manager is left submitted with its old steps; a draft that fails validation is
     * left as it was. On success the reply names the manager to notify.
     */
    method SubmitDraft(uniqueNumber: string, username: string, role: string, dir: map<string, string>)
      returns (reply: Result<string, W.Failure>)
      requires Valid()
      modifies this
      ensures Valid() && usedJtis == old(usedJtis)
      ensures var i := IndexOf(old(approvals), uniqueNumber);
        if i == -1 || !old(approvals)[i].isDraft then reply == Err(W.NotFound) && approvals == old(approvals)
        else
          var r := W.SubmitDraftAsWritten(old(approvals)[i], username, role, dir);
          reply == r.reply && approvals == old(approvals)[i := r.stored]
    {
      var i := IndexOf(approvals, uniqueNumber);
      if i == -1 || !approvals[i].isDraft {
        return Err(W.NotFound);
      }
      var r := W.SubmitDraftAsWritten(approvals[i], username, role, dir);
      Put(i, r.stored);
      reply := r.reply;
    }

    /** POST /api/approvals (server.js:802-885); the reply names the first approver to notify. */
    method CreateApproval(uniqueNumber: string, reimbursementType: string, purpose: string,
                          rows: Option<seq<W.StepInput>>, username: string, dir: map<string, string>)
      returns (reply: Result<string, W.Failure>)
      requires Valid()
      modifies this
      ensures Valid() && usedJtis == old(usedJtis)
      ensures var r := W.CreateApproval(IndexOf(old(approvals), uniqueNumber) != -1, uniqueNumber, reimbursementType,
                                         purpose, rows, username, dir);
        (r.Err? ==> reply == Err(r.error) && approvals == old(approvals))
        && (r.Ok? ==> reply == Ok(r.value.1) && approvals == old(approvals) + [r.value.0])
    {
      var r := W.CreateApproval(IndexOf(approvals, uniqueNumber) != -1, uniqueNumber, reimbursementType,
                                purpose, rows, username, dir);
      if r.Err? {
        return Err(r.error);
      }
      approvals := approvals + [r.value.0];
      reply := Ok(r.value.1);
    }

    /** PATCH .../master/override (server.js:1191-1206). */
    method Override(uniqueNumber: string, approverName: string, status: string, now: int)
      returns (reply: Result<(), W.Failure>)
      requires Valid()
      modifies this
      ensures Valid() && usedJtis == old(usedJtis)
      ensures var r := W.Override(Lookup(old(approvals), uniqueNumber), approverName, status, now);
        (r.Err? ==> reply == Err(r.error) && approvals == old(approvals))
        && (r.Ok? ==> reply == Ok(()) && approvals == old(approvals)[IndexOf(old(approvals), uniqueNumber) := r.value])
    {
      var r := W.Override(Lookup(approvals, uniqueNumber), approverName, status, now);
      if r.Err? {
        return Err(r.error);
      }
      Put(IndexOf(approvals, uniqueNumber), r.value);
      reply := Ok(());
    }

    /** PATCH .../master/reassign (server.js:1313-1325). */
    method Reassign(uniqueNumber: string, names: Option<seq<string>>, now: int)
      returns (reply: Result<(), W.Failure>)
      requires Valid()
      modifies this
      ensures Valid() && usedJtis == old(usedJtis)
      ensures var r := W.Reassign(Lookup(old(approvals), uniqueNumber), names, now);
        (r.Err? ==> reply == Err(r.error) && approvals == old(approvals))
        && (r.Ok? ==> reply == Ok(()) && approvals == old(approvals)[IndexOf(old(approvals), uniqueNumber) := r.value])
    {
      var r := W.Reassign(Lookup(approvals, uniqueNumber), names, now);
      if r.Err? {
        return Err(r.error);
      }
      Put(IndexOf(approvals, uniqueNumber), r.value);
      reply := Ok(());
    }

    /**
     * PATCH .../master/reset (server.js:1327-1334): every step, one at a time, back to
     * Pending; the save validates the result and writes nothing when it fails.
     */
    method Reset(uniqueNumber: string, now: int) returns (reply: Result<(), W.Failure>)
      requires Valid()
      modifies this
      ensures Valid() && usedJtis == old(usedJtis)
      ensures var i := IndexOf(old(approvals), uniqueNumber);
        if i == -1 then reply == Err(W.NotFound) && approvals == old(approvals)
        else
          var reset := old(approvals)[i].(approvers := W.ResetAll(old(approvals)[i].approvers, now));
          if PassesSchema(reset) then reply == Ok(()) && approvals == old(approvals)[i := reset]
          else reply == Err(W.SaveFailed) && approvals == old(approvals)
    {
      var i := IndexOf(approvals, uniqueNumber);
      if i == -1 {
        return Err(W.NotFound);
      }
      var steps := approvals[i].approvers;
      var k := 0;
      while k < |steps|
        invariant 0 <= k <= |steps| && |steps| == |approvals[i].approvers|
        invariant forall j :: 0 <= j < k ==> steps[j] == W.ResetStep(approvals[i].approvers[j], now)
        invariant forall j :: k <= j < |steps| ==> steps[j] == approvals[i].approvers[j]
      {
        steps := steps[k := W.ResetStep(steps[k], now)];
        k := k + 1;
      }
      assert steps == W.ResetAll(approvals[i].approvers, now);
      if !PassesSchema(approvals[i].(approvers := steps)) {
        return Err(W.SaveFailed);
      }
      Put(i, approvals[i].(approvers := steps));
      reply := Ok(());
    }

    /**
     * POST /_admin/backfill-hr-accounts (server.js:1384-1430), for master and hr: every
     * approval of a snapshot is inspected and the missing HR / Accounts steps appended.
     * The reply counts the approvals inspected and those extended.
     */
    method Backfill(role: string) returns (reply: Result<(nat, nat), W.Failure>)
      requires Valid()
      modifies this
      ensures Valid() && usedJtis == old(usedJtis)
      ensures !W.RequireRole(role, ADMIN_ROLES) ==> reply == Err(W.Forbidden) && approvals == old(approvals)
      ensures W.RequireRole(role, ADMIN_ROLES) ==>
        reply == Ok((|old(approvals)|, CountBackfilled(old(approvals)))) && approvals == BackfillAll(old(approvals))
    {
      if !W.RequireRole(role, ADMIN_ROLES) {
        return Err(W.Forbidden);
      }
      var inspected, updated := BackfillEach();
      reply := Ok((inspected, updated));
    }

    /** The backfill's pass over a snapshot of the collection. */
    method BackfillEach() returns (inspected: nat, updated: nat)
      requires Valid()
      modifies this
      ensures Valid() && usedJtis == old(usedJtis)
      ensures inspected == |old(approvals)| && updated == CountBackfilled(old(approvals))
      ensures approvals == BackfillAll(old(approvals))
    {
      var all := approvals;
      inspected, updated := 0, 0;
      assert all[0..] == all;
      while inspected < |all|
        invariant 0 <= inspected <= |all| == |approvals|
        invariant usedJtis == old(usedJtis)
        invariant updated + CountBackfilled(all[inspected..]) == CountBackfilled(all)
        invariant approvals == BackfillAll(all[..inspected]) + all[inspected..]
      {
        updated := BackfillAt(all, inspected, updated);
        inspected := inspected + 1;
      }
      BackfilledEvery(all);
    }

    /**
     * POST /_admin/migrate-approvers-to-email (server.js:1342-1374), for master and hr:
     * each approval's steps are migrated one by one and the approval rewritten only if
     * one of them was dirty. The reply counts the steps inspected and the approvals changed.
     */
    method Migrate(role: string, dir: map<string, string>) returns (reply: Result<(nat, nat), W.Failure>)
      requires Valid()
      modifies this
      ensures Valid() && usedJtis == old(usedJtis)
      ensures !W.RequireRole(role, ADMIN_ROLES) ==> reply == Err(W.Forbidden) && approvals == old(approvals)
      ensures W.RequireRole(role, ADMIN_ROLES) ==>
        reply == Ok((CountSteps(old(approvals)), CountDirty(old(approvals), dir))) && approvals == MigrateAll(old(approvals), dir)
    {
      if !W.RequireRole(role, ADMIN_ROLES) {
        return Err(W.Forbidden);
      }
      var inspected, changed := MigrateEach(dir);
      reply := Ok((inspected, changed));
    }

    /** The migration's pass over a snapshot of the collection. */
    method MigrateEach(dir: map<string, string>) returns (inspected: nat, changed: nat)
      requires Valid()
      modifies this
      ensures Valid() && usedJtis == old(usedJtis)
      ensures inspected == CountSteps(old(approvals)) && changed == CountDirty(old(approvals), dir)
      ensures approvals == MigrateAll(old(approvals), dir)
    {
      var all := approvals;
      changed, inspected := 0, 0;
      var n := 0;
      assert all[0..] == all;
      while n < |all|
        invariant 0 <= n <= |all| == |approvals|
        invariant usedJtis == old(usedJtis)
        invariant changed + CountDirty(all[n..], dir) == CountDirty(all, dir)
        invariant inspected + CountSteps(all[n..]) == CountSteps(all)
        invariant approvals == MigrateAll(all[..n], dir) + all[n..]
      {
        changed, inspected := MigrateAt(all, n, dir, changed, inspected);
        n := n + 1;
      }
      MigratedEvery(all, dir);
    }

    /** One approval of the backfill: the missing steps appended, and the count advanced past it. */
    method BackfillAt(all: seq<Approval>, n: int, updated: nat) returns (updated': nat)
      requires 0 <= n < |all| && approvals == BackfillAll(all[..n]) + all[n..]
      requires updated + CountBackfilled(all[n..]) == CountBackfilled(all)
      modifies this
      ensures usedJtis == old(usedJtis)
      ensures approvals == BackfillAll(all[..n + 1]) + all[n + 1..]
      ensures updated' + CountBackfilled(all[n + 1..]) == CountBackfilled(all)
    {
      BackfillCountStep(all, n, updated);
      BackfillStateStep(all, n);
      var extended, ap := BackfillOne(approvals[n]);
      if extended {
        approvals := approvals[n := ap];
        updated' := updated + 1;
      } else {
        assert approvals == approvals[n := ap];
        updated' := updated;
      }
    }

    /**
     * One approval of the migration: its steps migrated, the approval rewritten only if
     * dirty, and both counts advanced past it.
     */
    method MigrateAt(all: seq<Approval>, n: int, dir: map<string, string>, changed: nat, inspected: nat)
      returns (changed': nat, inspected': nat)
      requires 0 <= n < |all| && approvals == MigrateAll(all[..n], dir) + all[n..]
      requires changed + CountDirty(all[n..], dir) == CountDirty(all, dir)
      requires inspected + CountSteps(all[n..]) == CountSteps(all)
      modifies this
      ensures usedJtis == old(usedJtis)
      ensures approvals == MigrateAll(all[..n + 1], dir) + all[n + 1..]
      ensures changed' + CountDirty(all[n + 1..], dir) == CountDirty(all, dir)
      ensures inspected' + CountSteps(all[n + 1..]) == CountSteps(all)
    {
      MigrateCountsStep(all, n, dir, changed, inspected);
      MigrateStateStep(all, n, dir);
      var ap := approvals[n];
      var dirty, newApprovers, count := MigrateSteps(ap.approvers, dir);
      inspected' := inspected + count;
      if dirty {
        approvals := approvals[n := ap.(approvers := newApprovers)];
        changed' := changed + 1;
      } else {
        assert approvals == approvals[n := ap];
        changed' := changed;
      }
    }
  }

  /** The rows of a draft, resolved one at a time (server.js:667-675). */
  method DraftRows(rows: seq<W.StepInput>, dir: map<string, string>, now: int) returns (steps: seq<Step>)
    ensures steps == W.DraftSteps(rows, dir, now)
  {
    steps := [];
    var k := 0;
    while k < |rows|
      invariant 0 <= k <= |rows| && steps == W.DraftSteps(rows[..k], dir, now)
    {
      W.DraftStepsSnoc(rows[..k], rows[k], dir, now);
      assert rows[..k + 1] == rows[..k] + [rows[k]];
      steps := steps + [W.DraftStep(rows[k], dir, now)];
      k := k + 1;
    }
    assert rows[..k] == rows;
  }

  /** The backfill's check and append for one approval. */
  method BackfillOne(ap: Approval) returns (extended: bool, r: Approval)
    ensures extended == (W.BackfillSteps(ap) != []) && r == W.Backfilled(ap)
  {
    var toAppend := W.BackfillSteps(ap);
    extended := toAppend != [];
    r := ap.(approvers := ap.approvers + toAppend);
  }

  /** The inner loop of the migration: one approval's steps, one at a time. */
  method MigrateSteps(steps: seq<Step>, dir: map<string, string>) returns (dirty: bool, migrated: seq<Step>, inspected: nat)
    ensures dirty == W.Dirty(steps, dir) && inspected == |steps|
    ensures migrated == W.MigratedSteps(steps, dir)
  {
    dirty, migrated, inspected := false, [], 0;
    assert steps[0..] == steps;
    while inspected < |steps|
      invariant 0 <= inspected <= |steps|
      invariant migrated == W.MigratedSteps(steps[..inspected], dir)
      invariant (dirty || W.Dirty(steps[inspected..], dir)) == W.Dirty(steps, dir)
    {
      MigrateOneMore(steps, inspected, dir);
      var m := W.MigratedName(steps[inspected].name, dir);
      dirty := dirty || m.1;
      migrated := migrated + [steps[inspected].(name := m.0)];
      inspected := inspected + 1;
    }
    assert steps[..inspected] == steps;
  }

  /** Migrating one more step extends the migrated prefix and peels one step off the dirty test. */
  lemma MigrateOneMore(steps: seq<Step>, k: int, dir: map<string, string>)
    requires 0 <= k < |steps|
    ensures W.MigratedSteps(steps[..k + 1], dir) == W.MigratedSteps(steps[..k], dir) + [W.MigratedStep(steps[k], dir)]
    ensures W.Dirty(steps[k..], dir) == (W.MigratedName(steps[k].name, dir).1 || W.Dirty(steps[k + 1..], dir))
  {
    assert steps[k..][1..] == steps[k + 1..];
    W.MigratedStepsSnoc(steps[..k], steps[k], dir);
    assert steps[..k + 1] == steps[..k] + [steps[k]];
  }
}
