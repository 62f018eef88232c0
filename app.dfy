/**
 * The claim form's copies of the workflow rules (public/app.js): the fixed approver
 * chain it proposes, its own turn check, the people search behind the approver and
 * mention pickers, and the approver rows it sends.
 */
module ClientApp {
  import opened Wrappers
  import opened Text
  import opened Seqs
  import opened Identity
  import opened Chain

  const HR_APPROVER_EMAIL := "hr@adventz.zuarimoney.com"
  const FINANCE_APPROVER_EMAIL := "accounts@adventz.zuarimoney.com"

  /** An approver row as the form sends it: a name and a status string. */
  datatype Approver = Approver(name: string, status: string)

  /** Both constants are already lower case, so the form's `toLowerCase()` leaves them alone. */
  lemma ClientConstantsLower()
    ensures LowerStr(HR_APPROVER_EMAIL) == HR_APPROVER_EMAIL
    ensures LowerStr(FINANCE_APPROVER_EMAIL) == FINANCE_APPROVER_EMAIL
  {
    assert IsLowerStr(HR_APPROVER_EMAIL);
    assert IsLowerStr(FINANCE_APPROVER_EMAIL);
    LowerOfLower(HR_APPROVER_EMAIL);
    LowerOfLower(FINANCE_APPROVER_EMAIL);
  }

  /**
   * The emails `getFixedApprovers` collects before de-duplication, lower-cased: the
   * manager's only if non-empty, then HR and Finance (lower case already, by
   * `ClientConstantsLower`).
   */
  function ChainEmails(managerEmail: string): seq<string> {
    ChainOf(LowerStr(managerEmail), HR_APPROVER_EMAIL, FINANCE_APPROVER_EMAIL)
  }

  function ChainOf(m: string, hr: string, fin: string): seq<string> {
    if m != "" then [m, hr, fin] else [hr, fin]
  }

  /** Every name of a chain, Pending. */
  function PendingRows(names: seq<string>): (r: seq<Approver>)
    ensures |r| == |names| && forall i :: 0 <= i < |names| ==> r[i] == Approver(names[i], "Pending")
  {
    seq(|names|, i requires 0 <= i < |names| => Approver(names[i], "Pending"))
  }

  /** The chain the form proposes: the non-empty emails, first occurrence kept, all Pending. */
  function FixedChain(managerEmail: string): seq<Approver> {
    PendingRows(Dedupe(Filter(ChainEmails(managerEmail), NonEmpty)))
  }

  /**
   * `getFixedApprovers` (public/app.js:149-172), with the loop over the collected
   * emails that skips empty ones and ones already seen.
   */
  method FixedApprovers(managerEmail: string) returns (r: seq<Approver>)
    ensures r == FixedChain(managerEmail)
  {
    var chainEmails: seq<string> := [];
    var m := LowerStr(managerEmail);
    if m != "" {
      chainEmails := chainEmails + [m];
    }
    chainEmails := chainEmails + [HR_APPROVER_EMAIL];
    chainEmails := chainEmails + [FINANCE_APPROVER_EMAIL];
    assert chainEmails == ChainEmails(managerEmail);

    var unique := UniqueNonEmpty(chainEmails);
    r := PendingRows(unique);
  }

  /**
   * What the loop of `getFixedApprovers` keeps, read from the end: the emails in
   * order, each non-empty one at its first occurrence.
   */
  function KeptEmails(emails: seq<string>): seq<string> {
    if emails == [] then []
    else
      var kept := KeptEmails(emails[..|emails| - 1]);
      var e := emails[|emails| - 1];
      if e == "" || e in kept then kept else kept + [e]
  }

  /** The loop keeps what `[...new Set(emails.filter(Boolean))]` would. */
  lemma {:induction false} KeptEmailsIsDedupeFilter(emails: seq<string>)
    ensures KeptEmails(emails) == Dedupe(Filter(emails, NonEmpty))
  {
    if emails != [] {
      var prefix := emails[..|emails| - 1];
      var e := emails[|emails| - 1];
      assert emails == prefix + [e];
      KeptEmailsIsDedupeFilter(prefix);
      var before := Filter(prefix, NonEmpty);
      FilterSnoc(prefix, e, NonEmpty);
      DedupeSnoc(before, e);
      DedupeMembers(before, e);
    }
  }

  /**
   * The loop of `getFixedApprovers` (public/app.js:160-169): walks the emails, skips
   * empty ones and ones already in the `seen` set, keeps the rest in order.
   */
  method UniqueNonEmpty(chainEmails: seq<string>) returns (unique: seq<string>)
    ensures unique == Dedupe(Filter(chainEmails, NonEmpty))
  {
    var seen: set<string> := {};
    unique := [];
    var k := 0;
    while k < |chainEmails|
      invariant 0 <= k <= |chainEmails|
      invariant unique == KeptEmails(chainEmails[..k])
      invariant forall x :: x in seen <==> x in unique
    {
      var e := chainEmails[k];
      assert chainEmails[..k + 1][..k] == chainEmails[..k];
      if e != "" && e !in seen {
        seen := seen + {e};
        unique := unique + [e];
      }
      k := k + 1;
    }
    assert chainEmails[..k] == chainEmails;
    KeptEmailsIsDedupeFilter(chainEmails);
  }

  lemma DedupeRepeatFirst(a: string, b: string)
    requires a != b
    ensures Dedupe([a, a, b]) == [a, b]
  {
    assert [a, a, b] == [a, a] + [b];
    DedupeSnoc([a, a], b);
    assert [a, a] == [a] + [a];
    DedupeSnoc([a], a);
    DedupeDistinct([a]);
  }

  lemma DedupeRepeatLast(a: string, b: string)
    requires a != b
    ensures Dedupe([a, b, a]) == [a, b]
  {
    assert [a, b, a] == [a, b] + [a];
    DedupeSnoc([a, b], a);
    DedupeDistinct([a, b]);
  }

  lemma KeepsNonEmpty(all: seq<string>)
    requires forall i :: 0 <= i < |all| ==> all[i] != ""
    ensures Filter(all, NonEmpty) == all
  {
    FilterKeepsAll(all, NonEmpty);
  }

  /** The de-duplication of a three-email chain, for any two distinct non-empty fixed emails. */
  lemma ChainDedupe(m: string, hr: string, fin: string)
    requires hr != "" && fin != "" && hr != fin
    ensures Dedupe(Filter(ChainOf(m, hr, fin), NonEmpty)) ==
        if m == "" || m == hr then [hr, fin]
        else if m == fin then [fin, hr]
        else [m, hr, fin]
  {
    var all := ChainOf(m, hr, fin);
    KeepsNonEmpty(all);
    if m == "" {
      DedupeDistinct(all);
    } else {
      if m == hr {
        DedupeRepeatFirst(hr, fin);
      } else if m == fin {
        DedupeRepeatLast(fin, hr);
      } else {
        DedupeDistinct(all);
      }
    }
  }

  /**
   * The proposed chain in every case: HR and Finance after the manager; no manager
   * step when the manager email is empty or is HR's; Finance first when the manager
   * email is Finance's.
   */
  lemma FixedChainCases(managerEmail: string)
    ensures var m := LowerStr(managerEmail);
      var names := Dedupe(Filter(ChainEmails(managerEmail), NonEmpty));
      names == if m == "" || m == HR_APPROVER_EMAIL then [HR_APPROVER_EMAIL, FINANCE_APPROVER_EMAIL]
        else if m == FINANCE_APPROVER_EMAIL then [FINANCE_APPROVER_EMAIL, HR_APPROVER_EMAIL]
        else [m, HR_APPROVER_EMAIL, FINANCE_APPROVER_EMAIL]
  {
    assert HR_APPROVER_EMAIL[0] != FINANCE_APPROVER_EMAIL[0];
    ChainDedupe(LowerStr(managerEmail), HR_APPROVER_EMAIL, FINANCE_APPROVER_EMAIL);
  }

  /**
   * The form and the server disagree on Accounts: for an ordinary manager the form's
   * last step is `accounts@adventz.zuarimoney.com`, the chain the server stores on
   * submit ends with `accounts.team@adventz.com`.
   */
  lemma ClientChainEndsElsewhere(managerEmail: string)
    requires var m := LowerStr(managerEmail); m != "" && m != HR_APPROVER_EMAIL && m != FINANCE_APPROVER_EMAIL
    ensures var r := FixedChain(managerEmail); |r| == 3 && r[2].name == FINANCE_APPROVER_EMAIL
    ensures BuildFixedApprovalChain(managerEmail)[2].name == ACCOUNTS_EMAIL != FINANCE_APPROVER_EMAIL
  {
    FixedChainCases(managerEmail);
    AccountsEmailsDiffer();
  }

  lemma AccountsEmailsDiffer()
    ensures ACCOUNTS_EMAIL != FINANCE_APPROVER_EMAIL
  {
    assert ACCOUNTS_EMAIL[8] != FINANCE_APPROVER_EMAIL[8];
  }

  /** `isMyTurnClient` (public/app.js:257-261): the first step named exactly `username` is the first Pending one. */
  predicate IsMyTurnClient(steps: seq<Step>, username: string) {
    var firstPending := FirstPending(steps);
    var myIdx := FindIndex(steps, (s: Step) => s.name == username);
    firstPending != -1 && myIdx == firstPending
  }

  /**
   * The turn rule in words: some step is Pending and named exactly `username`, and
   * every step before it has left Pending and has another name.
   */
  lemma IsMyTurnClientIff(steps: seq<Step>, username: string)
    ensures IsMyTurnClient(steps, username) <==>
      exists k :: 0 <= k < |steps| && steps[k].status == Pending && steps[k].name == username
        && forall j :: 0 <= j < k ==> steps[j].status != Pending && steps[j].name != username
  {
    var fp := FirstPending(steps);
    var p := (s: Step) => s.name == username;
    var mi := FindIndex(steps, p);
    if exists k :: 0 <= k < |steps| && steps[k].status == Pending && steps[k].name == username
        && forall j :: 0 <= j < k ==> steps[j].status != Pending && steps[j].name != username {
      var k :| 0 <= k < |steps| && steps[k].status == Pending && steps[k].name == username
        && forall j :: 0 <= j < k ==> steps[j].status != Pending && steps[j].name != username;
      FindIndexUnique(steps, (s: Step) => s.status == Pending, k);
      FindIndexUnique(steps, p, k);
    }
  }

  /**
   * Where the client and the server agree: when the caller's exact name holds the
   * turn and no earlier step matches the caller tolerantly, the server agrees.
   */
  lemma ClientTurnIsServerTurn(steps: seq<Step>, username: string)
    requires IsMyTurnClient(steps, username) && username != ""
    requires forall j :: 0 <= j < FirstPending(steps) ==> !TurnMatch(steps[j].name, LowerStr(username))
    ensures IsMyTurn(steps, username)
  {
    var k := FirstPending(steps);
    IsMyTurnClientIff(steps, username);
    assert steps[k].name == username;
    LowerStrIsLower(username);
    assert TurnMatch(steps[k].name, LowerStr(username)) by {
      TurnMatchSelf(username);
    }
    IsMyTurnIff(steps, username);
  }

  /**
   * Where they part: an earlier Accepted step named in another case holds the
   * server's tolerant match, so the server refuses a turn the client offers.
   */
  lemma ClientOffersTurnServerRefuses()
    ensures var steps := [Step("Ann", Accepted, "", None), Step("ann", Pending, "", None)];
      IsMyTurnClient(steps, "ann") && !IsMyTurn(steps, "ann")
  {
    var steps := [Step("Ann", Accepted, "", None), Step("ann", Pending, "", None)];
    assert "Ann" != "ann" by {
      assert "Ann"[0] != "ann"[0];
    }
    assert LowerStr("Ann") == "ann";
    assert LowerStr("ann") == "ann";
    FindIndexUnique(steps, (s: Step) => s.status == Pending, 1);
    FindIndexUnique(steps, (s: Step) => s.name == "ann", 1);
    FindIndexUnique(steps, (s: Step) => TurnMatch(s.name, LowerStr("ann")), 0);
  }

  /* ---------------- people search ---------------- */

  /** A directory entry of the people cache: display label, lower-cased email, lower-cased label. */
  datatype Person = Person(display: string, value: string, labelLc: string)

  function PersonOf(display: string, value: string): Person {
    Person(display, LowerStr(value), LowerStr(display))
  }

  /** Some word of the lower-cased label, or the email, starts with the query. */
  predicate PersonHit(p: Person, q: string) {
    (exists w :: w in Words(p.labelLc) && StartsWith(w, q)) || StartsWith(p.value, q)
  }

  const PEOPLE_LIMIT := 12

  /** `filterPeople` (public/app.js:437-447). */
  function FilterPeople(cache: seq<Person>, query: string): (r: seq<Person>)
    ensures LowerStr(Trim(query)) == "" ==> r == []
    ensures |r| <= PEOPLE_LIMIT
    ensures forall i :: 0 <= i < |r| ==> r[i] in cache && PersonHit(r[i], LowerStr(Trim(query)))
    ensures LowerStr(Trim(query)) != "" && |Filter(cache, p => PersonHit(p, LowerStr(Trim(query))))| <= PEOPLE_LIMIT ==>
      forall p :: p in cache && PersonHit(p, LowerStr(Trim(query))) ==> p in r
  {
    var q := LowerStr(Trim(query));
    if q == "" then []
    else
      var hits := Filter(cache, p => PersonHit(p, q));
      if |hits| <= PEOPLE_LIMIT then hits else hits[..PEOPLE_LIMIT]
  }

  /**
   * The hits keep the cache's order and none is skipped: the result is exactly the
   * first twelve hits of the cache, or all of them when there are fewer.
   */
  lemma FilterPeopleKeepsOrder(cache: seq<Person>, query: string)
    requires LowerStr(Trim(query)) != ""
    ensures var hits := Filter(cache, p => PersonHit(p, LowerStr(Trim(query))));
      FilterPeople(cache, query) <= hits
      && |FilterPeople(cache, query)| == (if |hits| < PEOPLE_LIMIT then |hits| else PEOPLE_LIMIT)
  {
  }

  /* ---------------- approver rows ---------------- */

  /**
   * The approvers `collectFormData` sends (public/app.js:1051-1070): each selected
   * name trimmed and lower-cased, empty ones dropped; the fixed chain when none is left.
   */
  function CollectedApprovers(selected: seq<string>, managerEmail: string): seq<Approver> {
    var names := SelectedNames(selected);
    if names != [] then PendingRows(names) else FixedChain(managerEmail)
  }

  /** Each selected value trimmed and lower-cased, empty ones dropped. */
  function SelectedNames(selected: seq<string>): seq<string> {
    Filter(seq(|selected|, i requires 0 <= i < |selected| => LowerStr(Trim(selected[i]))), NonEmpty)
  }

  /** The proposed chain has two or three steps, all Pending, none with an empty name. */
  lemma FixedChainShape(managerEmail: string)
    ensures var r := FixedChain(managerEmail);
      2 <= |r| <= 3 && forall i :: 0 <= i < |r| ==> r[i].status == "Pending" && r[i].name != ""
  {
    ChainNamesShape(managerEmail);
  }

  /** The de-duplicated emails: two or three, none empty. */
  lemma ChainNamesShape(managerEmail: string)
    ensures var names := Dedupe(Filter(ChainEmails(managerEmail), NonEmpty));
      2 <= |names| <= 3 && forall i :: 0 <= i < |names| ==> names[i] != ""
  {
    var emails := ChainEmails(managerEmail);
    var kept := Filter(emails, NonEmpty);
    var names := Dedupe(kept);
    assert HR_APPROVER_EMAIL[0] != FINANCE_APPROVER_EMAIL[0];
    var h := if LowerStr(managerEmail) != "" then 1 else 0;
    assert emails[h] == HR_APPROVER_EMAIL && emails[h + 1] == FINANCE_APPROVER_EMAIL;
    assert NonEmpty(emails[h]) && NonEmpty(emails[h + 1]);
    DedupeMembers(kept, HR_APPROVER_EMAIL);
    DedupeMembers(kept, FINANCE_APPROVER_EMAIL);
    TwoMembers(names, HR_APPROVER_EMAIL, FINANCE_APPROVER_EMAIL);
    assert forall i :: 0 <= i < |names| ==> names[i] in kept && names[i] != "";
  }

  /** A sequence holding two different values has at least two elements. */
  lemma TwoMembers(s: seq<string>, a: string, b: string)
    requires a in s && b in s && a != b
    ensures |s| >= 2
  {
    var i :| 0 <= i < |s| && s[i] == a;
    var j :| 0 <= j < |s| && s[j] == b;
    assert i != j;
  }

  /** The form never sends an empty chain, and every row it sends is Pending with a non-empty name. */
  lemma CollectedApproversShape(selected: seq<string>, managerEmail: string)
    ensures var r := CollectedApprovers(selected, managerEmail);
      |r| >= 1 && forall i :: 0 <= i < |r| ==> r[i].status == "Pending" && r[i].name != ""
  {
    if SelectedNames(selected) == [] {
      FixedChainShape(managerEmail);
    }
  }
}
