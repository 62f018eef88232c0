/**
 * The second directory import script (uploads/1753775853738-223801080.js): the
 * same spreadsheet reading as ImportDirectory over a smaller document, upserting
 * by email or by employee code, with insert-only and dry-run switches. The
 * `directories` collection is modelled as a sequence of records in natural order.
 */
module UploadImport {
  import opened Wrappers
  import opened Text
  import opened Seqs
  import Cli
  import ID = ImportDirectory

  datatype DirRecord = DirRecord(ecode: string, name: string, email: string, mobile: string, impactLevel: string, business: string)

  const ECODE_HEADERS := ["e.code", "ecode", "emp code", "employee code", "employee id"]
  const NAME_HEADERS := ["name", "employee name", "emp name", "full name"]
  const EMAIL_HEADERS := ["email id", "email", "email address", "mail", "official email"]
  const MOBILE_HEADERS := ["mobile no.", "mobile", "phone", "contact", "contact no"]
  const IMPACT_HEADERS := ["impact level", "impactlevel", "level"]
  const BUSINESS_HEADERS := ["business", "company", "unit", "bu", "department"]

  /** `mapRowToDoc` (uploads/1753775853738-223801080.js:74-101). */
  function MapRowToDoc(row: ID.Row): DirRecord {
    DirRecord(
      Trim(ID.GetBy(row, ECODE_HEADERS)),
      Trim(ID.GetBy(row, NAME_HEADERS)),
      LowerStr(Trim(ID.GetBy(row, EMAIL_HEADERS))),
      Trim(ID.GetBy(row, MOBILE_HEADERS)),
      Trim(ID.GetBy(row, IMPACT_HEADERS)),
      Trim(ID.GetBy(row, BUSINESS_HEADERS)))
  }

  /** Every field of a mapped row is trimmed and the email is lower case. */
  lemma MapRowToDocSpec(row: ID.Row)
    ensures var d := MapRowToDoc(row);
      && ID.Trimmed(d.ecode) && ID.Trimmed(d.name) && ID.Trimmed(d.email) && ID.Trimmed(d.mobile)
      && ID.Trimmed(d.impactLevel) && ID.Trimmed(d.business) && IsLowerStr(d.email)
  {
    ID.TrimTrimmed(ID.GetBy(row, ECODE_HEADERS));
    ID.TrimTrimmed(ID.GetBy(row, NAME_HEADERS));
    ID.LowerTrimTrimmed(ID.GetBy(row, EMAIL_HEADERS));
    ID.TrimTrimmed(ID.GetBy(row, MOBILE_HEADERS));
    ID.TrimTrimmed(ID.GetBy(row, IMPACT_HEADERS));
    ID.TrimTrimmed(ID.GetBy(row, BUSINESS_HEADERS));
  }

  /** `diffChanged` (uploads/1753775853738-223801080.js:104-107). */
  predicate DiffChanged(existing: DirRecord, incoming: DirRecord) {
    existing.ecode != incoming.ecode || existing.name != incoming.name || existing.email != incoming.email
    || existing.mobile != incoming.mobile || existing.impactLevel != incoming.impactLevel
    || existing.business != incoming.business
  }

  /** The six fields are the whole record: an update changes something exactly when the records differ. */
  lemma DiffChangedIff(existing: DirRecord, incoming: DirRecord)
    ensures DiffChanged(existing, incoming) <==> existing != incoming
  {
  }

  /* ---------------- settings ---------------- */

  /**
   * `KEY` (uploads/1753775853738-223801080.js:45): the `--key` value lower-cased, "email"
   * when it is absent or empty. A bare `--key` is the value `true`, which has no
   * `toLowerCase`: the script stops before reading anything (`None`).
   */
  function KeySetting(args: Cli.Args): Option<string> {
    if "key" !in args.named then Some("email")
    else match args.named["key"]
      case Flag => None
      case Value(v) => if v == "" then Some("email") else Some(LowerStr(v))
  }

  /** `KEY` is lower case and never empty; an unnamed key means "email". */
  lemma KeySettingSpec(args: Cli.Args)
    ensures KeySetting(args) == None <==> "key" in args.named && args.named["key"].Flag?
    ensures KeySetting(args).Some? ==> KeySetting(args).value != "" && IsLowerStr(KeySetting(args).value)
    ensures "key" !in args.named ==> KeySetting(args) == Some("email")
  {
    if "key" in args.named && args.named["key"].Value? && args.named["key"].v != "" {
      LowerStrIsLower(args.named["key"].v);
    } else if KeySetting(args).Some? {
      assert IsLowerStr("email");
    }
  }

  datatype KeyMode = ByEmail | ByEcode | Unknown

  function ModeOf(key: string): KeyMode {
    if key == "email" then ByEmail else if key == "ecode" then ByEcode else Unknown
  }

  /* ---------------- one row ---------------- */

  datatype Outcome = Inserted | Updated | Unchanged | SkippedNoEmail | SkippedNoKey | SkippedOnlyNew | Conflict | Abort

  predicate HasEmail(d: DirRecord) {
    d.email != "" && '@' in d.email
  }

  /** `findOne({ email })`. */
  function FindByEmail(store: seq<DirRecord>, email: string): int {
    FindIndex(store, (r: DirRecord) => r.email == email)
  }

  /** `findOne({ ecode })`. */
  function FindByEcode(store: seq<DirRecord>, ecode: string): int {
    FindIndex(store, (r: DirRecord) => r.ecode == ecode)
  }

  /** `findOne({ email, _id: { $ne } })`: a record other than the `i`-th holds `email`. */
  predicate OwnedByOther(store: seq<DirRecord>, email: string, i: int) {
    exists j :: 0 <= j < |store| && j != i && store[j].email == email
  }

  /** The write an insert (`i == -1`) or an update of the `i`-th record makes. */
  function Write(store: seq<DirRecord>, doc: DirRecord, i: int): seq<DirRecord>
    requires -1 <= i < |store|
  {
    if i == -1 then store + [doc] else store[i := doc]
  }

  /** What the loop body does with one document (uploads/1753775853738-223801080.js:143-230). */
  function Step(store: seq<DirRecord>, doc: DirRecord, mode: KeyMode, onlyNew: bool, dryRun: bool): (Outcome, seq<DirRecord>) {
    if !HasEmail(doc) then (SkippedNoEmail, store)
    else match mode
      case ByEmail =>
        var i := FindByEmail(store, doc.email);
        if i == -1 then (Inserted, if dryRun then store else Write(store, doc, -1))
        else if onlyNew then (SkippedOnlyNew, store)
        else if !DiffChanged(store[i], doc) then (Unchanged, store)
        else (Updated, if dryRun then store else Write(store, doc, i))
      case ByEcode =>
        if doc.ecode == "" then (SkippedNoKey, store)
        else
          var i := FindByEcode(store, doc.ecode);
          if i == -1 then
            if FindByEmail(store, doc.email) != -1 then (Conflict, store)
            else (Inserted, if dryRun then store else Write(store, doc, -1))
          else if onlyNew then (SkippedOnlyNew, store)
          else if store[i].email != doc.email && OwnedByOther(store, doc.email, i) then (Conflict, store)
          else if !DiffChanged(store[i], doc) then (Unchanged, store)
          else (Updated, if dryRun then store else Write(store, doc, i))
      case Unknown => (Abort, store)
  }

  /** The unique index on `email`. */
  predicate UniqueEmails(store: seq<DirRecord>) {
    forall i, j :: 0 <= i < j < |store| ==> store[i].email != store[j].email
  }

  /** The record written over has the document's email when it was found by email. */
  lemma FoundByEmail(store: seq<DirRecord>, email: string)
    ensures FindByEmail(store, email) != -1 ==> store[FindByEmail(store, email)].email == email
    ensures FindByEmail(store, email) == -1 <==> forall j :: 0 <= j < |store| ==> store[j].email != email
  {
    var p := (r: DirRecord) => r.email == email;
    if FindIndex(store, p) != -1 {
      assert p(store[FindIndex(store, p)]);
    } else {
      assert forall j :: 0 <= j < |store| ==> !p(store[j]);
    }
  }

  /** Writing a document keeps the index satisfied exactly when no other record holds its email. */
  lemma WriteUniqueIff(store: seq<DirRecord>, doc: DirRecord, i: int)
    requires UniqueEmails(store) && -1 <= i < |store|
    ensures UniqueEmails(Write(store, doc, i)) <==> !OwnedByOther(store, doc.email, i)
  {
    var s := Write(store, doc, i);
    if OwnedByOther(store, doc.email, i) {
      var j :| 0 <= j < |store| && j != i && store[j].email == doc.email;
      if i == -1 {
        assert s[j].email == s[|store|].email;
      } else if j < i {
        assert s[j].email == s[i].email;
      } else {
        assert s[i].email == s[j].email;
      }
    }
  }

  /** A record that already holds the document's email is the only one holding it. */
  lemma SameEmailNotOwned(store: seq<DirRecord>, doc: DirRecord, i: int)
    requires UniqueEmails(store) && 0 <= i < |store| && store[i].email == doc.email
    ensures !OwnedByOther(store, doc.email, i)
  {
  }

  /**
   * In ecode mode a document with an email and a code is refused as a Conflict exactly
   * when writing it would put its email on two records; the check never lets a
   * duplicate through and never refuses a write the index would accept.
   */
  lemma EcodeConflictIff(store: seq<DirRecord>, doc: DirRecord, onlyNew: bool, dryRun: bool)
    requires UniqueEmails(store) && HasEmail(doc) && doc.ecode != ""
    requires onlyNew ==> FindByEcode(store, doc.ecode) == -1
    ensures Step(store, doc, ByEcode, onlyNew, dryRun).0 == Conflict <==>
      !UniqueEmails(Write(store, doc, FindByEcode(store, doc.ecode)))
  {
    var i := FindByEcode(store, doc.ecode);
    WriteUniqueIff(store, doc, i);
    FoundByEmail(store, doc.email);
    if i != -1 && store[i].email == doc.email {
      SameEmailNotOwned(store, doc, i);
    }
  }

  /** In email mode a document with an email is inserted exactly when no record holds its email yet. */
  lemma EmailModeInsertIff(store: seq<DirRecord>, doc: DirRecord, onlyNew: bool, dryRun: bool)
    requires HasEmail(doc)
    ensures Step(store, doc, ByEmail, onlyNew, dryRun).0 == Inserted <==>
      forall j :: 0 <= j < |store| ==> store[j].email != doc.email
    ensures Step(store, doc, ByEmail, onlyNew, dryRun).0 != Conflict
  {
    FoundByEmail(store, doc.email);
  }

  /** One step keeps the unique index satisfied, in either key mode. */
  lemma StepKeepsUnique(store: seq<DirRecord>, doc: DirRecord, mode: KeyMode, onlyNew: bool, dryRun: bool)
    requires UniqueEmails(store)
    ensures UniqueEmails(Step(store, doc, mode, onlyNew, dryRun).1)
  {
    if HasEmail(doc) && !dryRun {
      if mode.ByEmail? {
        var i := FindByEmail(store, doc.email);
        FoundByEmail(store, doc.email);
        WriteUniqueIff(store, doc, i);
        if i != -1 {
          SameEmailNotOwned(store, doc, i);
        }
      } else if mode.ByEcode? && doc.ecode != "" {
        var i := FindByEcode(store, doc.ecode);
        FoundByEmail(store, doc.email);
        WriteUniqueIff(store, doc, i);
        if i != -1 && store[i].email == doc.email {
          SameEmailNotOwned(store, doc, i);
        }
      }
    }
  }

  /* ---------------- the whole sheet ---------------- */

  datatype Counters = Counters(
    inserted: nat, updated: nat, noChange: nat, skippedNoEmail: nat,
    skippedNoKey: nat, skippedOnlyNew: nat, conflicts: nat, errors: nat)

  function Total(c: Counters): nat {
    c.inserted + c.updated + c.noChange + c.skippedNoEmail + c.skippedNoKey + c.skippedOnlyNew + c.conflicts + c.errors
  }

  /** The counter an outcome increments; an abort increments none. */
  function Bump(c: Counters, o: Outcome): Counters {
    match o
    case Inserted => c.(inserted := c.inserted + 1)
    case Updated => c.(updated := c.updated + 1)
    case Unchanged => c.(noChange := c.noChange + 1)
    case SkippedNoEmail => c.(skippedNoEmail := c.skippedNoEmail + 1)
    case SkippedNoKey => c.(skippedNoKey := c.skippedNoKey + 1)
    case SkippedOnlyNew => c.(skippedOnlyNew := c.skippedOnlyNew + 1)
    case Conflict => c.(conflicts := c.conflicts + 1)
    case Abort => c
  }

  /** The counters, the collection, and whether the script has exited on an unknown key. */
  datatype RunState = RunState(counters: Counters, records: seq<DirRecord>, aborted: bool)

  /** The documents the loop maps the rows to, one per row. */
  function Docs(rows: seq<ID.Row>): (docs: seq<DirRecord>)
    ensures |docs| == |rows| && forall i :: 0 <= i < |rows| ==> docs[i] == MapRowToDoc(rows[i])
  {
    seq(|rows|, i requires 0 <= i < |rows| => MapRowToDoc(rows[i]))
  }

  /** One pass of the loop body over the state; nothing happens after an abort. */
  function Next(st: RunState, doc: DirRecord, mode: KeyMode, onlyNew: bool, dryRun: bool): RunState {
    if st.aborted then st
    else
      var r := Step(st.records, doc, mode, onlyNew, dryRun);
      RunState(Bump(st.counters, r.0), r.1, r.0 == Abort)
  }

  /** The state after the loop has read `docs` in order. */
  function RunAll(store: seq<DirRecord>, docs: seq<DirRecord>, mode: KeyMode, onlyNew: bool, dryRun: bool): RunState {
    if docs == [] then RunState(Counters(0, 0, 0, 0, 0, 0, 0, 0), store, false)
    else Next(RunAll(store, docs[..|docs| - 1], mode, onlyNew, dryRun), docs[|docs| - 1], mode, onlyNew, dryRun)
  }

  /* Facts about one pass, used by the inductions below. */

  lemma NextCounts(st: RunState, doc: DirRecord, mode: KeyMode, onlyNew: bool, dryRun: bool)
    ensures var st' := Next(st, doc, mode, onlyNew, dryRun);
      && st'.counters.errors == st.counters.errors
      && (st.aborted ==> st' == st)
      && (!st.aborted && !st'.aborted ==> Total(st'.counters) == Total(st.counters) + 1)
      && (!st.aborted && st'.aborted ==> Total(st'.counters) == Total(st.counters))
  {
  }

  lemma NextDryRun(st: RunState, doc: DirRecord, mode: KeyMode, onlyNew: bool)
    ensures Next(st, doc, mode, onlyNew, true).records == st.records
  {
  }

  lemma NextAbortIff(st: RunState, doc: DirRecord, mode: KeyMode, onlyNew: bool, dryRun: bool)
    ensures Next(st, doc, mode, onlyNew, dryRun).aborted <==> st.aborted || (mode == Unknown && HasEmail(doc))
  {
  }

  lemma NextOnlyNew(st: RunState, doc: DirRecord, mode: KeyMode, dryRun: bool)
    ensures var st' := Next(st, doc, mode, true, dryRun);
      && (st'.records == st.records || st'.records == st.records + [doc])
      && st'.counters.updated == st.counters.updated && st'.counters.noChange == st.counters.noChange
  {
  }

  lemma NextEmailMode(st: RunState, doc: DirRecord, onlyNew: bool, dryRun: bool)
    ensures var st' := Next(st, doc, ByEmail, onlyNew, dryRun);
      && st'.counters.conflicts == st.counters.conflicts && st'.counters.skippedNoKey == st.counters.skippedNoKey
      && st'.aborted == st.aborted
  {
  }

  /** Every document read increments exactly one counter; a finished run reads every document; errors stay 0. */
  lemma {:induction false} RunAllCounts(store: seq<DirRecord>, docs: seq<DirRecord>, mode: KeyMode, onlyNew: bool, dryRun: bool)
    ensures var st := RunAll(store, docs, mode, onlyNew, dryRun);
      && (!st.aborted ==> Total(st.counters) == |docs|)
      && (st.aborted ==> Total(st.counters) < |docs|)
      && st.counters.errors == 0
  {
    if docs != [] {
      var init := docs[..|docs| - 1];
      RunAllCounts(store, init, mode, onlyNew, dryRun);
      NextCounts(RunAll(store, init, mode, onlyNew, dryRun), docs[|docs| - 1], mode, onlyNew, dryRun);
    }
  }

  /** A dry run writes nothing. */
  lemma {:induction false} RunAllDryRun(store: seq<DirRecord>, docs: seq<DirRecord>, mode: KeyMode, onlyNew: bool)
    ensures RunAll(store, docs, mode, onlyNew, true).records == store
  {
    if docs != [] {
      var init := docs[..|docs| - 1];
      RunAllDryRun(store, init, mode, onlyNew);
      NextDryRun(RunAll(store, init, mode, onlyNew, true), docs[|docs| - 1], mode, onlyNew);
    }
  }

  /** The unique index on `email` holds after every document, so no write fails on it. */
  lemma {:induction false} RunAllUnique(store: seq<DirRecord>, docs: seq<DirRecord>, mode: KeyMode, onlyNew: bool, dryRun: bool)
    requires UniqueEmails(store)
    ensures UniqueEmails(RunAll(store, docs, mode, onlyNew, dryRun).records)
  {
    if docs != [] {
      RunAllUnique(store, docs[..|docs| - 1], mode, onlyNew, dryRun);
      var st := RunAll(store, docs[..|docs| - 1], mode, onlyNew, dryRun);
      if !st.aborted {
        StepKeepsUnique(st.records, docs[|docs| - 1], mode, onlyNew, dryRun);
      }
    }
  }

  /** With `--only-new` no record is updated: the old records stay as they were, in front. */
  lemma {:induction false} OnlyNewKeepsRecords(store: seq<DirRecord>, docs: seq<DirRecord>, mode: KeyMode, dryRun: bool)
    ensures var st := RunAll(store, docs, mode, true, dryRun);
      && |store| <= |st.records| && st.records[..|store|] == store
      && st.counters.updated == 0 && st.counters.noChange == 0
  {
    if docs != [] {
      var init := docs[..|docs| - 1];
      OnlyNewKeepsRecords(store, init, mode, dryRun);
      var st := RunAll(store, init, mode, true, dryRun);
      NextOnlyNew(st, docs[|docs| - 1], mode, dryRun);
      var s := Next(st, docs[|docs| - 1], mode, true, dryRun).records;
      assert s[..|store|] == st.records[..|store|];
    }
  }

  /** The script exits only on an unknown key, and then at the first document that has an email. */
  lemma {:induction false} AbortIff(store: seq<DirRecord>, docs: seq<DirRecord>, mode: KeyMode, onlyNew: bool, dryRun: bool)
    ensures RunAll(store, docs, mode, onlyNew, dryRun).aborted <==>
      mode == Unknown && exists i :: 0 <= i < |docs| && HasEmail(docs[i])
  {
    if docs != [] {
      var init := docs[..|docs| - 1];
      AbortIff(store, init, mode, onlyNew, dryRun);
      NextAbortIff(RunAll(store, init, mode, onlyNew, dryRun), docs[|docs| - 1], mode, onlyNew, dryRun);
      if exists i :: 0 <= i < |init| && HasEmail(init[i]) {
        var i :| 0 <= i < |init| && HasEmail(init[i]);
        assert docs[i] == init[i];
      }
      if exists i :: 0 <= i < |docs| && HasEmail(docs[i]) {
        var i :| 0 <= i < |docs| && HasEmail(docs[i]);
        if i < |init| {
          assert init[i] == docs[i];
        }
      }
    }
  }

  /** Email mode never counts a missing key or a conflict, and never exits. */
  lemma {:induction false} EmailModeNoConflicts(store: seq<DirRecord>, docs: seq<DirRecord>, onlyNew: bool, dryRun: bool)
    ensures var st := RunAll(store, docs, ByEmail, onlyNew, dryRun);
      st.counters.conflicts == 0 && st.counters.skippedNoKey == 0 && !st.aborted
  {
    if docs != [] {
      var init := docs[..|docs| - 1];
      EmailModeNoConflicts(store, init, onlyNew, dryRun);
      NextEmailMode(RunAll(store, init, ByEmail, onlyNew, dryRun), docs[|docs| - 1], onlyNew, dryRun);
    }
  }

  /** The `directories` collection, as this script reads and writes it. */
  class UploadStore {
    var records: seq<DirRecord>

    constructor(initial: seq<DirRecord>)
      ensures records == initial
    {
      records := initial;
    }

    /** The loop body for one document (uploads/1753775853738-223801080.js:146-230). */
    method ProcessRow(doc: DirRecord, mode: KeyMode, onlyNew: bool, dryRun: bool) returns (o: Outcome)
      modifies this
      ensures (o, records) == Step(old(records), doc, mode, onlyNew, dryRun)
    {
      if !HasEmail(doc) {
        return SkippedNoEmail;
      }
      match mode {
        case ByEmail =>
          var existing := FindByEmail(records, doc.email);
          if existing == -1 {
            if !dryRun {
              records := records + [doc];
            }
            o := Inserted;
          } else if onlyNew {
            o := SkippedOnlyNew;
          } else if !DiffChanged(records[existing], doc) {
            o := Unchanged;
          } else {
            if !dryRun {
              records := records[existing := doc];
            }
            o := Updated;
          }
        case ByEcode =>
          if doc.ecode == "" {
            return SkippedNoKey;
          }
          var existingByCode := FindByEcode(records, doc.ecode);
          if existingByCode == -1 {
            if FindByEmail(records, doc.email) != -1 {
              return Conflict;
            }
            if !dryRun {
              records := records + [doc];
            }
            o := Inserted;
          } else if onlyNew {
            o := SkippedOnlyNew;
          } else if records[existingByCode].email != doc.email && OwnedByOther(records, doc.email, existingByCode) {
            o := Conflict;
          } else if !DiffChanged(records[existingByCode], doc) {
            o := Unchanged;
          } else {
            if !dryRun {
              records := records[existingByCode := doc];
            }
            o := Updated;
          }
        case Unknown =>
          o := Abort;
      }
    }

    /** One pass of the loop body: the row's outcome bumps its counter; `stop` when the script exits. */
    method Advance(c: Counters, doc: DirRecord, mode: KeyMode, onlyNew: bool, dryRun: bool) returns (c': Counters, stop: bool)
      modifies this
      ensures RunState(c', records, stop) == Next(RunState(c, old(records), false), doc, mode, onlyNew, dryRun)
    {
      var o := ProcessRow(doc, mode, onlyNew, dryRun);
      c' := Bump(c, o);
      stop := o == Abort;
    }

    /** The row loop (uploads/1753775853738-223801080.js:141-236): it stops at the first abort. */
    method Run(rows: seq<ID.Row>, mode: KeyMode, onlyNew: bool, dryRun: bool) returns (c: Counters, aborted: bool)
      modifies this
      ensures RunState(c, records, aborted) == RunAll(old(records), Docs(rows), mode, onlyNew, dryRun)
    {
      ghost var initial := records;
      var docs := Docs(rows);  // `mapRowToDoc` is pure, so mapping up front reads the same documents
      c := Counters(0, 0, 0, 0, 0, 0, 0, 0);
      aborted := false;
      var i := 0;
      while i < |rows|
        invariant 0 <= i <= |rows|
        invariant RunState(c, records, false) == RunAll(initial, docs[..i], mode, onlyNew, dryRun)
      {
        RunAllPrefix(initial, docs, i, mode, onlyNew, dryRun);
        var stop;
        c, stop := Advance(c, docs[i], mode, onlyNew, dryRun);
        i := i + 1;
        if stop {
          aborted := true;
          RunAbortedStays(initial, docs, i, mode, onlyNew, dryRun);
          return;
        }
      }
      assert docs[..i] == docs;
    }
  }

  /** Reading one more document is one more pass. */
  lemma RunAllPrefix(store: seq<DirRecord>, docs: seq<DirRecord>, i: nat, mode: KeyMode, onlyNew: bool, dryRun: bool)
    requires i < |docs|
    ensures RunAll(store, docs[..i + 1], mode, onlyNew, dryRun)
      == Next(RunAll(store, docs[..i], mode, onlyNew, dryRun), docs[i], mode, onlyNew, dryRun)
  {
    assert docs[..i + 1][..i] == docs[..i];
  }

  /** Once the run has aborted after the first `k` documents, reading more changes nothing. */
  lemma {:induction false} RunAbortedStays(store: seq<DirRecord>, docs: seq<DirRecord>, k: nat, mode: KeyMode, onlyNew: bool, dryRun: bool)
    requires k <= |docs| && RunAll(store, docs[..k], mode, onlyNew, dryRun).aborted
    ensures RunAll(store, docs, mode, onlyNew, dryRun) == RunAll(store, docs[..k], mode, onlyNew, dryRun)
  {
    if k < |docs| {
      var init := docs[..|docs| - 1];
      assert init[..k] == docs[..k];
      RunAbortedStays(store, init, k, mode, onlyNew, dryRun);
    } else {
      assert docs[..k] == docs;
    }
  }
}
