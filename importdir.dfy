/**
 * The directory import script (importDirectory.js): spreadsheet rows become
 * directory documents, managers' emails are looked up by name among the rows, and
 * each document is inserted, updated or left alone in the `directories`
 * collection, which is modelled as a sequence of documents in natural order.
 */
module ImportDirectory {
  import opened Text
  import opened Seqs

  /** A spreadsheet row: header and cell text, in the sheet's column order. */
  type Row = seq<(string, string)>

  /** A header is a candidate when its trimmed, lower-cased form is in the list. */
  predicate HeaderIs(header: string, candidates: seq<string>) {
    LowerStr(Trim(header)) in candidates
  }

  /** `getBy(candidates)` (importDirectory.js:79-85): the cell of the first candidate header, else "". */
  function GetBy(row: Row, candidates: seq<string>): (r: string)
    ensures (forall j :: 0 <= j < |row| ==> !HeaderIs(row[j].0, candidates)) ==> r == ""
    ensures forall k ::
      (0 <= k < |row| && HeaderIs(row[k].0, candidates) && forall j :: 0 <= j < k ==> !HeaderIs(row[j].0, candidates))
      ==> r == row[k].1
  {
    var i := FindIndex(row, (p: (string, string)) => HeaderIs(p.0, candidates));
    if i == -1 then "" else row[i].1
  }

  /** Headers are matched whatever their case: lower-casing every header changes no lookup. */
  lemma GetByIgnoresHeaderCase(row: Row, candidates: seq<string>)
    ensures GetBy(seq(|row|, i requires 0 <= i < |row| => (LowerStr(row[i].0), row[i].1)), candidates) == GetBy(row, candidates)
  {
    var lowered := seq(|row|, i requires 0 <= i < |row| => (LowerStr(row[i].0), row[i].1));
    forall i | 0 <= i < |row|
      ensures HeaderIs(lowered[i].0, candidates) == HeaderIs(row[i].0, candidates)
    {
      TrimLower(row[i].0);
      LowerStrIsLower(Trim(row[i].0));
    }
    var p := (q: (string, string)) => HeaderIs(q.0, candidates);
    FindIndexCongruent(lowered, p, row, p);
  }

  datatype DirDoc = DirDoc(
    empCode: string,
    name: string,
    email: string,
    designation: string,
    department: string,
    managerName: string,
    managerEmail: string,
    company: string,
    phone: string)

  const EMP_CODE_HEADERS := ["employee number", "emp number", "employee no", "emp no", "employee id", "emp id"]
  const NAME_HEADERS := ["employee name", "name", "emp name", "full name"]
  const EMAIL_HEADERS := ["email", "email id", "email address", "official email"]
  const DESIGNATION_HEADERS := ["curr.designation", "designation", "current designation"]
  const DEPARTMENT_HEADERS := ["curr.department", "department", "current department"]
  const MANAGER_HEADERS := ["manager name", "reporting manager", "manager"]
  const COMPANY_HEADERS := ["curr.company", "company", "organisation", "organization"]
  const PHONE_HEADERS := ["phone", "mobile", "mobile no", "contact", "contact no"]

  /** `mapRowToDoc` (importDirectory.js:76-109). */
  function MapRowToDoc(row: Row): DirDoc {
    DirDoc(
      Trim(GetBy(row, EMP_CODE_HEADERS)),
      Trim(GetBy(row, NAME_HEADERS)),
      LowerStr(Trim(GetBy(row, EMAIL_HEADERS))),
      Trim(GetBy(row, DESIGNATION_HEADERS)),
      Trim(GetBy(row, DEPARTMENT_HEADERS)),
      Trim(GetBy(row, MANAGER_HEADERS)),
      "",
      Trim(GetBy(row, COMPANY_HEADERS)),
      Trim(GetBy(row, PHONE_HEADERS)))
  }

  /** No surrounding whitespace. */
  predicate Trimmed(s: string) {
    Trim(s) == s
  }

  lemma TrimTrimmed(s: string)
    ensures Trimmed(Trim(s))
  {
    TrimFacts(s);
    TrimNoSpaceEnds(Trim(s));
  }

  lemma LowerTrimTrimmed(s: string)
    ensures Trimmed(LowerStr(Trim(s))) && IsLowerStr(LowerStr(Trim(s)))
  {
    TrimLower(Trim(s));
    TrimTrimmed(s);
    LowerStrIsLower(Trim(s));
  }

  /** Every field of a mapped row is trimmed, the email is lower case, the manager's email is still empty. */
  lemma MapRowToDocSpec(row: Row)
    ensures var d := MapRowToDoc(row);
      && Trimmed(d.empCode) && Trimmed(d.name) && Trimmed(d.email) && Trimmed(d.designation)
      && Trimmed(d.department) && Trimmed(d.managerName) && Trimmed(d.company) && Trimmed(d.phone)
      && IsLowerStr(d.email) && d.managerEmail == ""
  {
    TrimTrimmed(GetBy(row, EMP_CODE_HEADERS));
    TrimTrimmed(GetBy(row, NAME_HEADERS));
    LowerTrimTrimmed(GetBy(row, EMAIL_HEADERS));
    TrimTrimmed(GetBy(row, DESIGNATION_HEADERS));
    TrimTrimmed(GetBy(row, DEPARTMENT_HEADERS));
    TrimTrimmed(GetBy(row, MANAGER_HEADERS));
    TrimTrimmed(GetBy(row, COMPANY_HEADERS));
    TrimTrimmed(GetBy(row, PHONE_HEADERS));
  }

  /** `diffChanged` (importDirectory.js:112-125): some listed field differs; a missing field is "". */
  predicate DiffChanged(existing: DirDoc, incoming: DirDoc) {
    existing.empCode != incoming.empCode || existing.name != incoming.name || existing.email != incoming.email
    || existing.designation != incoming.designation || existing.department != incoming.department
    || existing.managerName != incoming.managerName || existing.managerEmail != incoming.managerEmail
    || existing.company != incoming.company || existing.phone != incoming.phone
  }

  /** The nine fields are the whole document: an update changes something exactly when the documents differ. */
  lemma DiffChangedIff(existing: DirDoc, incoming: DirDoc)
    ensures DiffChanged(existing, incoming) <==> existing != incoming
  {
  }

  /** A document the import keeps: its email contains `@`. */
  predicate HasEmail(d: DirDoc) {
    d.email != "" && '@' in d.email
  }

  /** The rows mapped and filtered (importDirectory.js:149-151). */
  function Docs(rows: seq<Row>): seq<DirDoc> {
    Filter(seq(|rows|, i requires 0 <= i < |rows| => MapRowToDoc(rows[i])), HasEmail)
  }

  /* ---------------- manager back-fill ---------------- */

  /** `s.trim().toLowerCase().replace(/\s+/g, ' ')`. */
  function NameKey(s: string): string {
    CollapseSpaces(LowerStr(Trim(s)))
  }

  /** A document that contributes to the name map. */
  predicate Named(d: DirDoc) {
    d.name != "" && d.email != ""
  }

  /** The name map after reading `docs` in order; an existing key is never replaced. */
  function NameMapOf(docs: seq<DirDoc>): map<string, string> {
    if docs == [] then map[]
    else
      var m := NameMapOf(docs[..|docs| - 1]);
      var d := docs[|docs| - 1];
      if Named(d) && NameKey(d.name) !in m then m[NameKey(d.name) := d.email] else m
  }

  /** The loop that builds `nameToEmail` (importDirectory.js:154-162). */
  method BuildNameToEmail(docs: seq<DirDoc>) returns (nameToEmail: map<string, string>)
    ensures nameToEmail == NameMapOf(docs)
  {
    nameToEmail := map[];
    var i := 0;
    while i < |docs|
      invariant 0 <= i <= |docs|
      invariant nameToEmail == NameMapOf(docs[..i])
    {
      var d := docs[i];
      assert docs[..i + 1][..i] == docs[..i];
      if d.name != "" && d.email != "" {
        var key := NameKey(d.name);
        if key !in nameToEmail {
          nameToEmail := nameToEmail[key := d.email];
        }
      }
      i := i + 1;
    }
    assert docs[..i] == docs;
  }

  /** The first named document with a given key decides that key's email. */
  lemma {:induction false} NameMapFirstWins(docs: seq<DirDoc>, i: nat)
    requires i < |docs| && Named(docs[i])
    requires forall j :: 0 <= j < i && Named(docs[j]) ==> NameKey(docs[j].name) != NameKey(docs[i].name)
    ensures NameKey(docs[i].name) in NameMapOf(docs) && NameMapOf(docs)[NameKey(docs[i].name)] == docs[i].email
  {
    var init := docs[..|docs| - 1];
    var key := NameKey(docs[i].name);
    if i < |docs| - 1 {
      NameMapFirstWins(init, i);
    } else {
      NameMapOnlyFromDocs(init, key);
    }
  }

  /** Every key of the map comes from some named document. */
  lemma {:induction false} NameMapOnlyFromDocs(docs: seq<DirDoc>, key: string)
    ensures key in NameMapOf(docs) ==> exists j :: 0 <= j < |docs| && Named(docs[j]) && NameKey(docs[j].name) == key
  {
    if docs != [] {
      var init := docs[..|docs| - 1];
      NameMapOnlyFromDocs(init, key);
      if key in NameMapOf(init) {
        var j :| 0 <= j < |init| && Named(init[j]) && NameKey(init[j].name) == key;
        assert docs[j] == init[j];
      }
    }
  }

  /** The back-fill of one document (importDirectory.js:166-171). */
  function FilledDoc(d: DirDoc, nameToEmail: map<string, string>): DirDoc {
    var key := NameKey(d.managerName);
    if d.managerName != "" && d.managerEmail == "" && key in nameToEmail && nameToEmail[key] != ""
    then d.(managerEmail := nameToEmail[key])
    else d
  }

  /**
   * The back-fill touches only `managerEmail`, and sets it exactly when the manager's
   * name is given, no email is set yet, and the name is known to the map.
   */
  lemma FilledDocSpec(d: DirDoc, nameToEmail: map<string, string>)
    ensures var f := FilledDoc(d, nameToEmail);
      && f.(managerEmail := d.managerEmail) == d
      && (f != d <==> d.managerName != "" && d.managerEmail == "" && NameKey(d.managerName) in nameToEmail
                      && nameToEmail[NameKey(d.managerName)] != "")
      && (f != d ==> f.managerEmail == nameToEmail[NameKey(d.managerName)])
  {
  }

  /** The loop that fills `managerEmail` in place (importDirectory.js:165-173). */
  method FillManagerEmails(docs: array<DirDoc>, nameToEmail: map<string, string>)
    modifies docs
    ensures forall i :: 0 <= i < docs.Length ==> docs[i] == FilledDoc(old(docs[i]), nameToEmail)
  {
    var i := 0;
    while i < docs.Length
      invariant 0 <= i <= docs.Length
      invariant forall j :: 0 <= j < i ==> docs[j] == FilledDoc(old(docs[j]), nameToEmail)
      invariant forall j :: i <= j < docs.Length ==> docs[j] == old(docs[j])
    {
      var d := docs[i];
      if d.managerName != "" && d.managerEmail == "" {
        var key := NameKey(d.managerName);
        if key in nameToEmail && nameToEmail[key] != "" {
          docs[i] := d.(managerEmail := nameToEmail[key]);
        }
      }
      i := i + 1;
    }
  }

  /* ---------------- insert / update / unchanged ---------------- */

  datatype Counters = Counters(inserted: nat, updated: nat, noChange: nat, skippedNoEmail: nat, errors: nat)

  function Total(c: Counters): nat {
    c.inserted + c.updated + c.noChange + c.skippedNoEmail + c.errors
  }

  datatype Outcome = Inserted | Updated | Unchanged | SkippedNoEmail

  function Bump(c: Counters, o: Outcome): Counters {
    match o
    case Inserted => c.(inserted := c.inserted + 1)
    case Updated => c.(updated := c.updated + 1)
    case Unchanged => c.(noChange := c.noChange + 1)
    case SkippedNoEmail => c.(skippedNoEmail := c.skippedNoEmail + 1)
  }

  /** `Directory.findOne({ email })`: the first stored document with that email, or -1. */
  function FindByEmail(store: seq<DirDoc>, email: string): int {
    FindIndex(store, (r: DirDoc) => r.email == email)
  }

  /** What one pass of the import loop does with a document (importDirectory.js:185-207). */
  function ImportOne(store: seq<DirDoc>, doc: DirDoc, dryRun: bool): (Outcome, seq<DirDoc>) {
    if !HasEmail(doc) then (SkippedNoEmail, store)
    else
      var i := FindByEmail(store, doc.email);
      if i == -1 then (Inserted, if dryRun then store else store + [doc])
      else if !DiffChanged(store[i], doc) then (Unchanged, store)
      else (Updated, if dryRun then store else store[i := doc])
  }

  /** The counters and the collection after importing `docs` in order. */
  function ImportAll(store: seq<DirDoc>, docs: seq<DirDoc>, dryRun: bool): (Counters, seq<DirDoc>) {
    if docs == [] then (Counters(0, 0, 0, 0, 0), store)
    else
      var (c, s) := ImportAll(store, docs[..|docs| - 1], dryRun);
      var (o, s') := ImportOne(s, docs[|docs| - 1], dryRun);
      (Bump(c, o), s')
  }

  /** The emails a collection holds. */
  function Emails(store: seq<DirDoc>): set<string> {
    set r | r in store :: r.email
  }

  /** The unique index on `email`. */
  predicate UniqueEmails(store: seq<DirDoc>) {
    forall i, j :: 0 <= i < j < |store| ==> store[i].email != store[j].email
  }

  /** The emails the documents bring with them, read in order. */
  function DocEmails(docs: seq<DirDoc>): set<string> {
    if docs == [] then {}
    else DocEmails(docs[..|docs| - 1]) + (if HasEmail(docs[|docs| - 1]) then {docs[|docs| - 1].email} else {})
  }

  /** `DocEmails` is the set of emails of the documents that have one. */
  lemma {:induction false} DocEmailsAre(docs: seq<DirDoc>, e: string)
    ensures e in DocEmails(docs) <==> exists i :: 0 <= i < |docs| && HasEmail(docs[i]) && docs[i].email == e
  {
    if docs != [] {
      var init := docs[..|docs| - 1];
      DocEmailsAre(init, e);
      if e in DocEmails(init) {
        var i :| 0 <= i < |init| && HasEmail(init[i]) && init[i].email == e;
        assert docs[i] == init[i];
      }
    }
  }

  /** An update writes the document over one with the same email. */
  lemma UpdateKeepsEmail(store: seq<DirDoc>, doc: DirDoc)
    requires FindByEmail(store, doc.email) != -1
    ensures store[FindByEmail(store, doc.email)].email == doc.email
  {
    var p := (r: DirDoc) => r.email == doc.email;
    assert p(store[FindIndex(store, p)]);
  }

  /** One import step keeps the unique index satisfied. */
  lemma ImportOneUnique(store: seq<DirDoc>, doc: DirDoc, dryRun: bool)
    requires UniqueEmails(store)
    ensures UniqueEmails(ImportOne(store, doc, dryRun).1)
  {
    if HasEmail(doc) && !dryRun && FindByEmail(store, doc.email) != -1 {
      UpdateKeepsEmail(store, doc);
    }
  }

  /** One import step adds the document's email to the collection's emails and no other. */
  lemma ImportOneEmails(store: seq<DirDoc>, doc: DirDoc)
    ensures Emails(ImportOne(store, doc, false).1) == Emails(store) + (if HasEmail(doc) then {doc.email} else {})
  {
    var s := ImportOne(store, doc, false).1;
    if HasEmail(doc) {
      var i := FindByEmail(store, doc.email);
      if i == -1 {
        assert forall r :: r in s <==> r in store || r == doc;
      } else if DiffChanged(store[i], doc) {
        UpdateKeepsEmail(store, doc);
        forall e | e in Emails(store) ensures e in Emails(s) {
          var k :| 0 <= k < |store| && store[k].email == e;
          assert s[k].email == e;
        }
        forall e | e in Emails(s) ensures e in Emails(store) {
          var k :| 0 <= k < |s| && s[k].email == e;
          assert store[k].email == e;
        }
      }
    }
  }

  /** Every document ends up in exactly one counter; the error counter stays 0. */
  lemma {:induction false} ImportAllCounts(store: seq<DirDoc>, docs: seq<DirDoc>, dryRun: bool)
    ensures Total(ImportAll(store, docs, dryRun).0) == |docs| && ImportAll(store, docs, dryRun).0.errors == 0
  {
    if docs != [] {
      ImportAllCounts(store, docs[..|docs| - 1], dryRun);
    }
  }

  /** A dry run leaves the collection as it was. */
  lemma {:induction false} ImportAllDryRun(store: seq<DirDoc>, docs: seq<DirDoc>)
    ensures ImportAll(store, docs, true).1 == store
  {
    if docs != [] {
      ImportAllDryRun(store, docs[..|docs| - 1]);
    }
  }

  /** The import keeps the unique index on `email` satisfied, so no insert or update can fail on it. */
  lemma {:induction false} ImportAllUnique(store: seq<DirDoc>, docs: seq<DirDoc>, dryRun: bool)
    requires UniqueEmails(store)
    ensures UniqueEmails(ImportAll(store, docs, dryRun).1)
  {
    if docs != [] {
      ImportAllUnique(store, docs[..|docs| - 1], dryRun);
      ImportOneUnique(ImportAll(store, docs[..|docs| - 1], dryRun).1, docs[|docs| - 1], dryRun);
    }
  }

  /** After a real run the collection holds exactly its old emails and those of the documents. */
  lemma {:induction false} ImportAllEmails(store: seq<DirDoc>, docs: seq<DirDoc>)
    ensures Emails(ImportAll(store, docs, false).1) == Emails(store) + DocEmails(docs)
  {
    if docs != [] {
      ImportAllEmails(store, docs[..|docs| - 1]);
      ImportOneEmails(ImportAll(store, docs[..|docs| - 1], false).1, docs[|docs| - 1]);
    }
  }

  /** The script filters before the loop, so no document is ever skipped for a missing email. */
  lemma {:induction false} FilteredDocsNeverSkipped(store: seq<DirDoc>, docs: seq<DirDoc>, dryRun: bool)
    requires forall i :: 0 <= i < |docs| ==> HasEmail(docs[i])
    ensures ImportAll(store, docs, dryRun).0.skippedNoEmail == 0
  {
    if docs != [] {
      FilteredDocsNeverSkipped(store, docs[..|docs| - 1], dryRun);
    }
  }

  /** The documents of `Docs(rows)` all carry an email. */
  lemma DocsHaveEmails(rows: seq<Row>)
    ensures forall i :: 0 <= i < |Docs(rows)| ==> HasEmail(Docs(rows)[i])
  {
  }

  /** The `directories` collection, as the import loop reads and writes it. */
  class DirectoryStore {
    var records: seq<DirDoc>

    constructor(initial: seq<DirDoc>)
      ensures records == initial
    {
      records := initial;
    }

    /** The import loop (importDirectory.js:178-212). */
    method Import(docs: seq<DirDoc>, dryRun: bool) returns (c: Counters)
      modifies this
      ensures (c, records) == ImportAll(old(records), docs, dryRun)
    {
      ghost var initial := records;
      c := Counters(0, 0, 0, 0, 0);
      var k := 0;
      while k < |docs|
        invariant 0 <= k <= |docs|
        invariant (c, records) == ImportAll(initial, docs[..k], dryRun)
      {
        var doc := docs[k];
        assert docs[..k + 1][..k] == docs[..k];
        if !HasEmail(doc) {
          c := c.(skippedNoEmail := c.skippedNoEmail + 1);
        } else {
          var i := FindByEmail(records, doc.email);
          if i == -1 {
            if !dryRun {
              records := records + [doc];
            }
            c := c.(inserted := c.inserted + 1);
          } else if !DiffChanged(records[i], doc) {
            c := c.(noChange := c.noChange + 1);
          } else {
            if !dryRun {
              records := records[i := doc];
            }
            c := c.(updated := c.updated + 1);
          }
        }
        k := k + 1;
      }
      assert docs[..k] == docs;
    }
  }
}
