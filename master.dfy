/**
 * The HR master dashboard (public/masterDashboard.js): who may open it, the status
 * it shows for each claim, and the approver labels. Its `escapeHtml` is the
 * client escape of module Html.
 */
module MasterDash {
  import opened Text
  import C = Chain
  import D = Dash

  const HR_EMAILS := ["hr@adventz.zuarimoney.com"]
  const ALLOWED_ROLES := ["master", "hr", "hr-master", "admin"]

  /** `ensureAllowed` (public/masterDashboard.js:41-47): by role or by HR email, both lower-cased. */
  predicate Allowed(role: string, username: string) {
    LowerStr(role) in ALLOWED_ROLES || LowerStr(username) in HR_EMAILS
  }

  /** Access does not depend on the case of the role or of the username. */
  lemma AllowedIgnoresCase(role: string, username: string)
    ensures Allowed(LowerStr(role), LowerStr(username)) == Allowed(role, username)
  {
    LowerStrIsLower(role);
    LowerStrIsLower(username);
  }

  /**
   * A plain user is let in only with the HR address; the HR address is let in
   * whatever its role.
   */
  lemma UserRoleNeedsHrEmail(username: string, role: string)
    ensures Allowed("user", username) <==> LowerStr(username) == C.HR_EMAIL
    ensures LowerStr(username) == C.HR_EMAIL ==> Allowed(role, username)
  {
    assert IsLowerStr("user");
    LowerOfLower("user");
    assert "user" != "master" && "user" != "hr" && "user" != "admin";
    assert "user"[0] != "hr-master"[0];
  }

  /** `a.name || a.email || '—'` (public/masterDashboard.js:145). */
  function ApproverLabel(name: string, email: string): string {
    if name != "" then name else if email != "" then email else "—"
  }

  /** `a.status || '—'` (public/masterDashboard.js:146). */
  function StatusLabel(status: string): string {
    if status != "" then status else "—"
  }

  /** A label is never blank, and it is the name whenever there is one, else the email. */
  lemma LabelsNeverBlank(name: string, email: string, status: string)
    ensures ApproverLabel(name, email) != "" && StatusLabel(status) != ""
    ensures ApproverLabel(name, email) in {name, email, "—"}
    ensures name == "" && email != "" ==> ApproverLabel(name, email) == email
  {
  }

  /** The status column (public/masterDashboard.js:150-152): a draft is a Draft first of all. */
  function MasterStatus(ap: C.Approval): D.Derived {
    if ap.isDraft then D.Draft
    else if D.AllAccepted(ap.approvers) then D.Approved
    else if D.AnyRejected(ap.approvers) then D.Rejected
    else D.Pending
  }

  /**
   * The master dashboard and the requester's dashboard show the same status except
   * for a draft whose chain is all Accepted or has a Rejected step: the requester
   * then sees Approved or Rejected, the master sees Draft.
   */
  lemma StatusesAgreeIff(ap: C.Approval)
    ensures MasterStatus(ap) == D.DashStatus(ap) <==>
      !(ap.isDraft && (D.AllAccepted(ap.approvers) || D.AnyRejected(ap.approvers)))
    ensures ap.isDraft ==> MasterStatus(ap) == D.Draft
  {
  }
}
