# Claim-Reimbursement approval workflow in Dafny

This project models the core of the Claim-Reimbursement service in Dafny and proves properties about it. The service routes a reimbursement claim through an ordered chain of approver steps: a manager, then HR, then Accounts. Each step is Pending, Accepted or Rejected. The model covers these parts:

- **Server rules** (`server.js`):
  - whose turn it is, using the tolerant identity match;
  - the three ways to decide a step: in the app, by a one-click mail link, or on a comment page. One-click links are single-use through a registry of used token ids;
  - who is notified after a decision;
  - the fixed three-step chain installed on draft submit;
  - the master's override, reassign and reset;
  - the HR/Accounts backfill and the name-to-email migration;
  - chat mentions, the next claim number, sign-up OTPs, HTML escaping and the needs-my-action queue.
- **Browser mirrors** of the same rules (`public/app.js`, `public/dash.js`, `public/masterDashboard.js`, `public/approverDashboard.js`):
  - the form's fixed chain;
  - the client turn check;
  - the people picker;
  - the mention tokenizer and highlighter;
  - status labels, queues and table filters;
  - the role and tab rules.
- **The two directory import scripts** (`importDirectory.js`, `uploads/1753775853738-223801080.js`):
  - argument parsing;
  - header-tolerant row mapping and field diffs;
  - manager-email back-fill;
  - the insert/update/unchanged/conflict classification.

Modules follow the program's structure:

| module | contents |
|---|---|
| `Wrappers`, `Text`, `Seqs` | generic helpers: Option/Result, ASCII lower-casing, trimming, `findIndex`/`filter`/dedupe |
| `Html` | `escapeHtml` and its inverse |
| `Identity` | `normalizeSimple`, the tolerant match, `resolveApproverToEmail` |
| `Chain` | steps, approvals, `isMyTurn`, the fixed chain |
| `Decisions` | the three decision paths and notification routing |
| `Workflow` | drafts, submit, create, the master operations, backfill and migration |
| `Store` | a class over the approvals collection and the used-token registry, one method per handler |
| `NextId`, `Mentions`, `Otp`, `ActionQueue` | the smaller server helpers |
| `ClientApp`, `Dash`, `MasterDash`, `ApproverDash` | the browser scripts |
| `Cli`, `ImportDirectory`, `UploadImport` | the import scripts |

Where the browser scripts and the server differ, lemmas state the difference and give the input that shows it:

- A Rejected step does not stop the chain on the server, but the dashboard's queue drops such claims (`Dash.RejectedChainLeavesQueue`). The approver page keeps them (`ApproverDash.QueueKeepsRejectedChains`).
- The client's turn check is exact and case-sensitive. The server's check is tolerant (`ClientApp.ClientOffersTurnServerRefuses`).
- The form ends the chain with `accounts@adventz.zuarimoney.com`. The server's chain builder ends it with `accounts.team@adventz.com` (`ClientApp.ClientChainEndsElsewhere`). The backfill uses the first address, so it appends a second Accounts step to a submitted chain (`Workflow.BackfillAddsSecondAccountsStep`).
- The master dashboard shows a draft as Draft. The requester's dashboard shows an all-Accepted draft as Approved (`MasterDash.StatusesAgreeIff`).

Other behaviours of the code that the model keeps as written:

- Every `save()` validates the whole approval against the schema: the number, the type and the creator must be set, and every step needs a name and a status from the enum (`Chain.PassesSchema`). A failed save writes nothing. The in-app, submit and master routes have no catch around it, so they send no reply. The mail routes answer with an error page (`Decisions.Refusal.SchemaRejected`).
- No decision path checks `isDraft`. A draft saved on a new number has no type, so a decision on it fails at the save. A draft that has a type can be decided.
- Drafts are saved without schema validation, so a draft step keeps any status text the client sent (`Chain.Status.Other`).
- Direct creation (`POST /api/approvals`) stores the client's approver rows as given, without the fixed chain. Only a missing status takes the default; an empty one is kept and fails validation, while a draft reads it as Pending (`Workflow.CreateRefusesEmptyStatus`).
- The comment page (`POST /mail-action/:token`) neither checks the token's kind nor reads or writes the used-token registry.
- Sign-up looks up existing users by the email as typed, while accounts are stored lower-cased.
- The browser highlighter drops the punctuation it strips from a mention.
- `shortify` with a budget of 0 or less follows JavaScript's negative `slice` end.
- A bare `--key` flag makes the upload script throw before reading anything.

## Model

| member | source | states |
|---|---|---|
| Chain.StatusOf | server.js:459 | a stored status string is one of the three enum values, or else kept as `Other` text |
| Chain.StatusTextOf | server.js:459 | reading a status and writing it back gives the same text |
| Chain.IsMyTurnIff | server.js:496-513 | it is `u`'s turn iff some step is Pending, every earlier step is not Pending and does not tolerant-match `u`, and that step matches `u` |
| Chain.NoPendingNoTurn | server.js:496-513 | with no Pending step, `isMyTurn` is false for everyone |
| Chain.OneActingStep | server.js:496-513 | any two identities whose turn it is both map to the first Pending step, so only one step can act |
| Chain.RejectionDoesNotHalt | server.js:500-512 | after `[A: Accepted, B: Rejected, C: Pending]` it is still C's turn |
| Chain.TurnIndexIgnoresStatus | server.js:502-510 | writing a step's status does not move any identity's turn index |
| Chain.ExactIndexIgnoresStatus | server.js:972 | writing a step's status does not move the exact-name index used for the write |
| Chain.IsMyTurnLower | server.js:497 | `isMyTurn` lower-cases the caller, so lower-casing first changes nothing |
| Chain.TurnLeavesDecidedStep | server.js:496-513 | once the turn-holder's step leaves Pending, that identity no longer holds the turn |
| Chain.HrAccountsLower | server.js:24-25 | the HR and Accounts constants are already lower case, as the chain builder's `toLowerCase` assumes |
| Chain.BuildFixedApprovalChain | server.js:40-46 | exactly three Pending steps, with empty comment and no date: the lower-cased manager, HR, then Accounts |
| Chain.FixedChainPassesSchema | server.js:450-462 | an approval given the fixed chain passes the schema iff its number, type and creator are set |
| Chain.FixedChainTurn | server.js:40-46 | on a fresh fixed chain the turn is the manager's: it is `u`'s turn iff `u` tolerant-matches the manager |
| Identity.Squeeze | server.js:488-494 | the squeezed string is no longer than the input and holds no whitespace, `.`, `_` or `-` |
| Identity.NormalizeSimpleIdempotent | server.js:488-494 | normalising twice is normalising once |
| Identity.TurnMatchSelf | server.js:502-510 | a non-empty step name tolerant-matches itself lower-cased |
| Identity.ResolveApproverToEmailFacts | server.js:478-485 | the result is lower case; it is empty only for an empty name; a name with `@` is returned trimmed and lower-cased; any other result is the directory's email for that name |
| Html.Escape | server.js:63 | the output is never shorter than the input and never contains `<`, `>`, `"` or `'` |
| Html.EscapeRoundTrip | server.js:63 | decoding the five entities gives back the input, for both the server's `&#39;` and the browser's `&#039;` |
| Html.EscapePlain | public/app.js:563-565 | text without the five special characters is unchanged |
| Html.EscapeConcat | public/masterDashboard.js:170-174 | escaping works character by character, so it distributes over concatenation |
| Decisions.MakeOneClickToken | server.js:322-329 | the token carries kind `mail-oneclick`, the number, the lower-cased approver, the action and a 7-day expiry |
| Decisions.RecordDecision | server.js:979-981 | only the decided step's status, comment and date change |
| Decisions.RedecisionAsWritten | server.js:972-983 | as written, `[a: Pending, a@b: Accepted]` lets `a@b` pass the guard, write an already Accepted step, and pass again afterwards |
| Decisions.DecisionIsFinal | server.js:972-983 | under the corrected guard the written step was Pending, and once written the same caller is refused |
| Decisions.DecideInApp | server.js:962-983 | succeeds iff all of these hold: the status is Accepted/Rejected; the approval exists; the caller names itself; the guard passes (as written, the tolerant turn check; the corrected guard requires the caller's own step to be the first Pending one); the written approval passes the schema. Otherwise it refuses with the matching error. Success writes the caller's first exactly named step |
| Decisions.RedeemOneClick | server.js:1022-1049 | refuses a bad token, then an already-used id, then a missing approval, a guard failure or a failed save; success writes the token's action with an empty comment at the approver's first exactly named step |
| Decisions.DecideOnCommentPage | server.js:1150-1174 | refuses a bad token; succeeds iff the approval exists, the form action is a decision, the token's approver passes the guard and the save validates, whatever the token's kind and registry state |
| Decisions.DecisionSaves | server.js:979-982 | a decision on an approval that passes the schema saves; one on an approval missing its number, type or creator cannot |
| Decisions.InAppRedecisionAsWritten | server.js:962-983 | as written, on `[a: Pending, a@b: Accepted]` the caller `a@b` turns its Accepted step into Rejected and can then decide it again; the corrected guard refuses the first request |
| Decisions.NoticeAfter | server.js:985-1014 | a rejection goes to the requester without buttons; an acceptance goes with buttons to the first Pending step, or to the requester once none is left |
| Decisions.ButtonsReachNextApprover | server.js:341-345 | the follow-up mail carries buttons iff its recipient is non-empty and no earlier step tolerant-matches it |
| Decisions.MailedButtonsWork | server.js:1022-1049 | on an approval that passes the schema, a fresh link from a mail that embeds buttons is redeemable, under either guard, and writes the first Pending step |
| Decisions.OneClickSingleUse | server.js:1046-1049 | once a link has been redeemed and its id recorded, it is refused as already used, whatever the approval now holds |
| Decisions.OneClickAgreesWithInApp | server.js:1022-1049 | a fresh link does exactly what the same user's in-app decision without a comment does |
| Decisions.CommentPageAgreesWithInApp | server.js:1150-1174 | the comment page does exactly what the in-app decision does for the token's approver |
| Decisions.InAppRepeatRefused | server.js:976-977 | under the corrected guard, after a successful in-app decision, the same caller's next decision is refused as not their turn (as written it is not: Decisions.InAppRedecisionAsWritten) |
| Workflow.RequireRoleIgnoresCase | server.js:129-137 | the role gate passes iff some allowed role equals the caller's role up to case |
| Workflow.DraftStepResolves | server.js:665-673 | a draft row is named by the resolved email and keeps the client's status, Pending when missing or empty |
| Workflow.DraftSteps | server.js:665-673 | one resolved step per client row, in order |
| Workflow.DraftKeepsClientStatus | server.js:672 | a draft keeps a status outside the enum, e.g. `Done` |
| Workflow.SavedDraft | server.js:675-688 | the upsert gives a draft by the lower-cased caller with the given number, purpose and steps, and keeps an existing type |
| Workflow.SubmitDraftAsWritten | server.js:766-798 | as written: another user's draft is refused; a draft failing the schema is left unchanged; a draft with no manager is stored as no longer a draft and refused; otherwise the fixed chain is stored and the manager named, iff that save validates |
| Workflow.SubmitHalfDone | server.js:770-782 | as written, a draft that passes the schema but has no approvers is refused and yet stored as submitted |
| Workflow.SubmitDraft | server.js:764-798 | the corrected submit: refusals store nothing; success, iff the caller may submit, the manager resolves and the number, type and creator are set, installs the fixed chain and clears the draft flag in one write |
| Workflow.SubmitAllOrNothing | server.js:764-798 | with the corrected submit a draft either stays a draft or is submitted with a chain that passes the schema |
| Workflow.FreshDraftNeverSubmits | server.js:660-688 | as written, a draft saved on a new number is never submitted: whoever submits it, it stays unchanged as a draft and the reply is an error |
| Workflow.SavedDraftTyped | server.js:675-688 | the intended upsert keeps the type the form sends and otherwise stores what the as-written upsert stores |
| Workflow.TypedDraftSubmits | server.js:764-798 | with the type kept, a fresh draft whose steps are well formed and whose first step resolves to a manager is submitted by its owner with the fixed chain |
| Workflow.SubmitGivesManagerTheTurn | server.js:775-786 | after a successful submit the turn is the resolved manager's and no one else's |
| Workflow.CreateApproval | server.js:802-885 | refuses a blank type, then a missing or empty approver list, then a request failing validation, then a taken number. Succeeds iff the number is free, the type is not blank, the list is non-empty, the number and caller are set, and every row has a name and a status that is missing or in the enum. Success stores the client rows as given and notifies the first approver |
| Workflow.CreatedStep | server.js:829-838 | a client row keeps its name, comment and status text; only a missing status becomes Pending |
| Workflow.CreatedApproval | server.js:829-838 | the built approval passes the schema iff the number, type and caller are set and every row has a name and a missing or enum status |
| Workflow.CreateRefusesEmptyStatus | server.js:829-838 | a row with an empty status makes creation fail validation, while a draft reads the same row as Pending |
| Workflow.CreateGivesRowTheTurn | server.js:829-851 | after a create with the single row `x`, the turn is whoever tolerant-matches `x`'s name, the fixed chain playing no part |
| Workflow.Override | server.js:1191-1206 | refuses a non-enum status, then a missing approval, then an unknown approver; succeeds iff the status is in the enum, the approval exists, some step is named by the approver up to case and the result passes the schema; success changes only that first step's status and date |
| Workflow.OverrideSaves | server.js:1200-1203 | an override of an approval that passes the schema saves; one of an approval missing its number, type or creator cannot |
| Workflow.Reassign | server.js:1313-1325 | refuses a non-list, then a missing approval; succeeds iff the approval's number, type and creator are set and no given name is empty; success replaces the chain by the names lower-cased, all Pending, in order |
| Workflow.ReassignHandsTurnToFirst | server.js:1313-1325 | after a reassign that saves, the first listed name holds the turn |
| Workflow.ResetStep | server.js:1331 | a reset step is Pending and keeps its name and comment |
| Workflow.ResetAll | server.js:1327-1334 | every step is reset, one for one |
| Workflow.ResetSaves | server.js:1327-1334 | the save after a reset succeeds iff the number, type and creator are set and every step has a name; the reset repairs statuses outside the enum |
| Workflow.ResetRestartsChain | server.js:1327-1334 | after a reset, the turn is back with whoever the first step names |
| Workflow.BackfillSteps | server.js:1393-1413 | at most two Pending steps are appended, and only to a non-draft whose first step is Accepted |
| Workflow.Backfilled | server.js:1384-1430 | only the chain changes, and nothing changes when nothing is missing |
| Workflow.BackfillIdempotent | server.js:1384-1430 | existing steps are kept as a prefix, and a second run appends nothing |
| Workflow.BackfillAddsSecondAccountsStep | server.js:1381 | a fixed chain whose manager accepted gains a second Accounts step |
| Workflow.MigratedSteps | server.js:1351-1361 | every step's name is migrated, one for one |
| Workflow.DirtyIff | server.js:1351-1361 | an approval is dirty iff the resolver rewrites one of its names |
| Workflow.Migrated | server.js:1342-1374 | only step names change, and nothing changes for a clean approval |
| Workflow.ResolveIgnoresCase | server.js:478-485 | the resolver ignores the case of its argument |
| Workflow.MigratedNameStable | server.js:1351-1361 | with a directory of email addresses, a migrated name migrates to itself and is not dirty |
| Workflow.MigrationIdempotent | server.js:1342-1374 | with a directory of email addresses, a second run finds nothing dirty and changes nothing |
| Store.Lookup | server.js:969-970 | the approval with that number, or none when no stored approval has it |
| Store.ReplaceKeepsUnique | server.js:451 | writing back an approval with the same number keeps the unique index |
| Store.BackfillAll | server.js:1387-1421 | every approval is backfilled, one for one |
| Store.MigrateAll | server.js:1345-1367 | every approval is migrated, one for one |
| Store.ApprovalStore.DecideInApp | server.js:962-1017 | runs the in-app decision as written: a refusal leaves the store alone; success writes the decided approval back in place and answers the notice; the registry is untouched |
| Store.ApprovalStore.RedeemOneClick | server.js:1022-1094 | success writes the approval and then adds the token id to the registry; a refusal changes neither |
| Store.ApprovalStore.DecideOnCommentPage | server.js:1150-1186 | like the in-app decision, and the registry is never read or written |
| Store.ApprovalStore.SaveDraft | server.js:660-697 | the resolved draft is upserted by number: appended when new, written in place otherwise |
| Store.ApprovalStore.SubmitDraft | server.js:764-798 | a missing or non-draft number is refused with no change; otherwise the as-written submit's result is stored, a half-done submit included |
| Store.ApprovalStore.CreateApproval | server.js:802-885 | a refusal stores nothing; success appends the new approval |
| Store.ApprovalStore.Override | server.js:1191-1206 | the override's result is written in place; a refusal changes nothing |
| Store.ApprovalStore.Reassign | server.js:1313-1325 | the reassign's result is written in place; a refusal changes nothing |
| Store.ApprovalStore.Reset | server.js:1327-1334 | every step of that approval is reset when the save validates; an unknown number or a failed save changes nothing |
| Store.ApprovalStore.Backfill | server.js:1384-1430 | outside master/hr nothing happens; otherwise every approval is backfilled and the reply counts those inspected and those extended |
| Store.ApprovalStore.Migrate | server.js:1342-1374 | outside master/hr nothing happens; otherwise every approval is migrated and the reply counts the steps inspected and the approvals changed |
| Store.ApprovalStore.BackfillEach | server.js:1386-1423 | the pass over the snapshot: the collection becomes every approval backfilled, the numbers stay unique, and the counts are the approvals inspected and those extended |
| Store.ApprovalStore.BackfillAt | server.js:1389-1423 | one approval: the collection is backfilled one position further and the extended count advances past it |
| Store.ApprovalStore.MigrateEach | server.js:1344-1368 | the pass over the snapshot: the collection becomes every approval migrated, the numbers stay unique, and the counts are the steps inspected and the dirty approvals |
| Store.ApprovalStore.MigrateAt | server.js:1346-1368 | one approval: the collection is migrated one position further and both counts advance past it |
| Store.DraftRows | server.js:667-675 | the loop resolves each row in order |
| Store.BackfillOne | server.js:1390-1421 | one approval: whether steps were appended, and the extended approval |
| Store.MigrateSteps | server.js:1349-1362 | one approval's loop: the migrated steps, whether any was dirty, and how many were inspected |
| NextId.IdPrefix | server.js:594 | the prefix is `ZFL` followed by the year's digits |
| NextId.MaxSerial | server.js:595-602 | an upper bound on every matching serial, attained by one of them unless it is 0 |
| NextId.SuggestionIsSerial | server.js:600-603 | the suggestion is a serial of the year whose value is the maximum plus one |
| NextId.FirstOfTheYear | server.js:599-603 | with no claim that year, the suggestion is serial `01` |
| NextId.NextIdFresh | server.js:592-605 | the corrected suggestion is never an existing number |
| NextId.NextIdAsWrittenFreshBelow99 | server.js:592-605 | as written, the suggestion is fresh while two-digit serials stay below 99 |
| NextId.RepeatAfter99AsWritten | server.js:596 | as written, with `ZFL202599` and `ZFL2025100` stored, the endpoint suggests the existing `ZFL2025100` again |
| Otp.SignupOutcome | server.js:169-188 | refuses mismatched passwords, then an existing user (email as typed); otherwise stores the OTP under the lower-cased email for five minutes and touches nothing else |
| Otp.VerifyOutcome | server.js:190-201 | refuses a missing or expired entry, then a wrong OTP, then an existing account; success creates the account (approver iff in the directory) and removes the entry |
| Otp.OtpValidForTtl | server.js:169-201 | an OTP just sent is accepted exactly until its expiry, inclusive, whatever the case of the email |
| Otp.OtpSingleUse | server.js:199 | once an account is created, the same OTP is refused as expired |
| Otp.SignupMissesMixedCaseDuplicate | server.js:173 | an existing user who signs up again with different case is sent an OTP |
| Otp.SignupStore.Signup | server.js:169-188 | the store's new state is exactly the sign-up outcome |
| Otp.SignupStore.Verify | server.js:190-201 | the store's new state is exactly the verify outcome |
| ActionQueue.Candidates | server.js:1231-1248 | no candidate name is empty, and the caller's own email is one |
| ActionQueue.NeedsMyAction | server.js:1229-1281 | every queued approval is listed for the caller's candidates, is not a draft, and has the caller's step as its first Pending one; every such listed approval is queued |
| ActionQueue.NeedsMyActionKeepsOrder | server.js:1253-1281 | the queue keeps the order the query returns: for two runs one after the other it is their two queues one after the other |
| ActionQueue.ActionMatchIsTurnMatch | server.js:1260-1268 | without a directory name, the queue's match is exactly `isMyTurn`'s tolerant match |
| ActionQueue.NeedsMyActionIsMyTurn | server.js:1229-1281 | a listed approval is queued iff it is not a draft and `isMyTurn` holds |
| Mentions.Segments | server.js:622 | every mention is a non-empty run without whitespace |
| Mentions.SegmentsRoundTrip | server.js:622 | the segments put back together are the message |
| Mentions.MentionsAreMaximal | server.js:622 | a mention always runs up to whitespace or the end |
| Mentions.RawTokensAreWords | server.js:622 | every raw token is non-empty and free of whitespace |
| Mentions.StripTrailing | server.js:623-624 | the result is the token minus its longest run of trailing `),.;:!?` |
| Mentions.CleanFacts | server.js:623-624 | a cleaned token is lower case, free of whitespace, and has no trailing punctuation |
| Mentions.ChatMentionsSpec | server.js:622-625 | the stored mentions are exactly the non-empty cleaned tokens, each once |
| Mentions.PostChat | server.js:616-640 | a blank message is refused; otherwise the trimmed text and its mentions are stored, and every mention other than the author is mailed when the approval exists |
| Mentions.RenderPlain | public/app.js:567-572 | a message with no `@` is rendered unchanged |
| Mentions.HighlightSeesServerTokens | public/app.js:567-572 | on text with no HTML specials, the browser wraps exactly the server's raw tokens, stripped the same way |
| Mentions.MentionTokenRange | public/app.js:675-694 | no token iff the caret's word does not start with `@`; otherwise the token runs from after the `@` to the first stop character |
| Mentions.WordStart | public/app.js:680-684 | the caret's word starts right after whitespace, or at 0, and holds no whitespace up to the caret |
| ClientApp.ClientConstantsLower | public/app.js:149-158 | HR and Finance constants are already lower case |
| ClientApp.FixedApprovers | public/app.js:149-172 | the loop returns the non-empty emails, first occurrence kept, all Pending |
| ClientApp.UniqueNonEmpty | public/app.js:160-169 | the loop keeps what dedupe of the non-empty emails keeps |
| ClientApp.KeptEmailsIsDedupeFilter | public/app.js:160-169 | the loop's result equals `[...new Set(emails.filter(Boolean))]` |
| ClientApp.FixedChainCases | public/app.js:149-172 | manager, HR, Finance; HR and Finance only when the manager is empty or HR; Finance, HR when the manager is Finance |
| ClientApp.FixedChainShape | public/app.js:149-172 | two or three steps, all Pending, none empty |
| ClientApp.ClientChainEndsElsewhere | public/app.js:149-172 | for an ordinary manager the form ends at `accounts@adventz.zuarimoney.com`, the server at `accounts.team@adventz.com` |
| ClientApp.IsMyTurnClientIff | public/app.js:257-261 | the client's turn iff some Pending step is named exactly `u` and every earlier step is neither Pending nor named `u` |
| ClientApp.ClientTurnIsServerTurn | public/app.js:257-261 | when no earlier step tolerant-matches the caller, the client's turn is also the server's |
| ClientApp.ClientOffersTurnServerRefuses | public/app.js:257-261 | with `[Ann: Accepted, ann: Pending]` the client offers `ann` the turn and the server refuses it |
| ClientApp.FilterPeople | public/app.js:437-447 | a blank query gives nothing; otherwise at most 12 hits, each from the cache and matching a name word or the email by prefix, and all of them when there are at most 12 |
| ClientApp.FilterPeopleKeepsOrder | public/app.js:437-447 | the result is exactly the first 12 hits of the filtered cache in cache order, or all of them when there are fewer |
| ClientApp.CollectedApproversShape | public/app.js:1051-1070 | the form never sends an empty chain; every row is Pending with a non-empty name |
| Dash.ShortifySpec | public/dash.js:91-94 | a fitting string is kept; a longer one becomes exactly `max` characters: its first `max-1` and an ellipsis |
| Dash.ShortifyIdempotent | public/dash.js:91-94 | shortening a shortened purpose changes nothing |
| Dash.ShortifyZeroBudget | public/dash.js:91-94 | a budget of 0 keeps all but the last character plus an ellipsis |
| Dash.DashStatusOpenIff | public/dash.js:226-230 | with enum statuses a claim is shown open iff it has a Pending step and no Rejected one |
| Dash.AcceptedDraftShownApproved | public/dash.js:257-259 | an all-Accepted draft, or an empty chain, is shown as Approved |
| Dash.PendingListIsServerTurn | public/dash.js:326-335 | a queued claim whose earlier steps do not tolerant-match the caller is the caller's turn on the server |
| Dash.ServerTurnIsInPendingList | public/dash.js:326-335 | a server turn whose step carries the caller's name, on a chain with no Rejected step, is queued |
| Dash.RejectedChainLeavesQueue | public/dash.js:327 | after `[A: Accepted, B: Rejected, C: Pending]` the server gives C the turn and the queue drops the claim |
| Dash.DashState.LoadUserRequests | public/dash.js:206 | the requester's list is replaced and the queues are kept |
| Dash.DashState.RenderApproverQueues | public/dash.js:323-343 | the three queues are reassigned to the pending, approved and rejected partitions of the caller's name |
| Dash.ApproverTableUnfiltered | public/dash.js:408-423 | a blank search with no type shows every queued claim, in order |
| Dash.TableHitIgnoresCase | public/dash.js:413-423 | the search ignores the case of what is typed |
| Dash.FixedApproversLandOnQueue | public/dash.js:535-564 | HR and both Accounts addresses land on the approver queue; anyone else keeps the server's role |
| Dash.DashKnowsBothAccountsEmails | public/dash.js:558-559 | the dashboard lists both Accounts addresses and the server's HR address |
| MasterDash.AllowedIgnoresCase | public/masterDashboard.js:41-47 | access does not depend on the case of the role or the username |
| MasterDash.UserRoleNeedsHrEmail | public/masterDashboard.js:4-5 | a plain user gets in iff it is the HR address, and the HR address gets in whatever its role |
| MasterDash.LabelsNeverBlank | public/masterDashboard.js:145-146 | labels are never blank: the name, else the email, else `—` |
| MasterDash.StatusesAgreeIff | public/masterDashboard.js:150-152 | the master and requester views agree iff the claim is not a draft that is all Accepted or has a Rejected step |
| ApproverDash.QueuedShowsPending | public/approverDashboard.js:53-58 | every queued claim shows the caller's status as Pending |
| ApproverDash.NoStepUnknown | public/approverDashboard.js:53-58 | a caller with no step sees `(unknown)` |
| ApproverDash.QueueAgreesWithDash | public/approverDashboard.js:144-149 | this queue and the dashboard's agree on non-drafts with no Rejected step |
| ApproverDash.QueueKeepsRejectedChains | public/approverDashboard.js:144-149 | after `[x: Rejected, me: Pending]` this page lists the claim and the dashboard does not |
| ApproverDash.FilterUnfiltered | public/approverDashboard.js:86-98 | a blank search and type keep the whole queue, in order |
| ApproverDash.FilterHitIgnoresCase | public/approverDashboard.js:86-98 | both the type filter and the search ignore case |
| ApproverDash.ApproverPage.Load | public/approverDashboard.js:144-151 | the queue is the caller's turns, and the shown rows are its filtered subset |
| ApproverDash.ApproverPage.ApplyFilters | public/approverDashboard.js:91 | the shown rows are re-filtered from the unchanged queue |
| ApproverDash.ApproverPage.ExportVisible | public/approverDashboard.js:101-102 | nothing to export iff nothing is shown; otherwise exactly the shown rows |
| Cli.ParseArgs | importDirectory.js:29-42 | the loop builds exactly the arguments read in order |
| Cli.PositionalInOrder | uploads/1753775853738-223801080.js:28-30 | the positional list is exactly the non-option arguments, in order |
| Cli.LastOptionWins | importDirectory.js:29-42 | an option takes the value of its last occurrence |
| Cli.UnnamedAbsent | importDirectory.js:29-42 | a key no option names is absent |
| Cli.SecondEqualsDropsRest | uploads/1753775853738-223801080.js:32 | `--key=a=b` sets `key` to `a` |
| ImportDirectory.GetBy | importDirectory.js:79-85 | the cell of the first header whose trimmed lower-cased form is a candidate, else "" |
| ImportDirectory.GetByIgnoresHeaderCase | importDirectory.js:79-85 | headers match whatever their case |
| ImportDirectory.MapRowToDocSpec | importDirectory.js:96-108 | every field is trimmed, the email is lower case, and the manager's email is empty |
| ImportDirectory.DiffChangedIff | importDirectory.js:112-125 | an update changes something iff the documents differ |
| ImportDirectory.BuildNameToEmail | importDirectory.js:154-162 | the loop builds exactly the name map of the documents |
| ImportDirectory.NameMapFirstWins | importDirectory.js:154-162 | the first named document with a key decides that key's email |
| ImportDirectory.NameMapOnlyFromDocs | importDirectory.js:154-162 | every key comes from some named document |
| ImportDirectory.FilledDocSpec | importDirectory.js:165-173 | only the manager's email changes, and it is set iff a name is given, no email is set yet, and the map knows the name |
| ImportDirectory.FillManagerEmails | importDirectory.js:165-173 | every array element is back-filled in place |
| ImportDirectory.DocEmailsAre | importDirectory.js:149-151 | the collected emails are exactly those of the documents with an email |
| ImportDirectory.ImportOneUnique | importDirectory.js:184-207 | one step keeps the unique index on email |
| ImportDirectory.ImportOneEmails | importDirectory.js:184-207 | one step adds the document's email and no other |
| ImportDirectory.ImportAllCounts | importDirectory.js:178-212 | every document lands in exactly one counter, and the error counter stays 0 |
| ImportDirectory.ImportAllDryRun | importDirectory.js:178-212 | a dry run leaves the collection alone |
| ImportDirectory.ImportAllUnique | importDirectory.js:178-212 | the run keeps the unique index on email |
| ImportDirectory.ImportAllEmails | importDirectory.js:178-212 | afterwards the collection holds exactly its old emails plus the documents' emails |
| ImportDirectory.FilteredDocsNeverSkipped | importDirectory.js:149-151 | filtered documents are never skipped for a missing email |
| ImportDirectory.DocsHaveEmails | importDirectory.js:149-151 | every document that reaches the loop has an email |
| ImportDirectory.DirectoryStore.Import | importDirectory.js:178-212 | the counters and the new collection are those of importing the documents in order |
| UploadImport.MapRowToDocSpec | uploads/1753775853738-223801080.js:74-101 | every field is trimmed and the email is lower case |
| UploadImport.DiffChangedIff | uploads/1753775853738-223801080.js:104-107 | an update changes something iff the records differ |
| UploadImport.KeySettingSpec | uploads/1753775853738-223801080.js:45 | the key is lower case and never empty, `email` when absent; a bare `--key` flag crashes |
| UploadImport.FoundByEmail | uploads/1753775853738-223801080.js:152 | a record found by email holds that email, and none is found iff no record holds it |
| UploadImport.WriteUniqueIff | uploads/1753775853738-223801080.js:177-225 | a write keeps the unique index iff no other record holds the email |
| UploadImport.EcodeConflictIff | uploads/1753775853738-223801080.js:177-225 | in ecode mode a row is a conflict iff writing it would put its email on two records |
| UploadImport.EmailModeInsertIff | uploads/1753775853738-223801080.js:151-176 | in email mode a row is inserted iff no record holds its email, and it is never a conflict |
| UploadImport.StepKeepsUnique | uploads/1753775853738-223801080.js:146-230 | one row keeps the unique index on email in either mode |
| UploadImport.Docs | uploads/1753775853738-223801080.js:143 | one mapped document per row, in order |
| UploadImport.NextCounts | uploads/1753775853738-223801080.js:141-236 | each row read bumps exactly one counter, except the one that aborts; nothing happens after an abort |
| UploadImport.NextAbortIff | uploads/1753775853738-223801080.js:226-230 | the run aborts iff the key is unknown and the row has an email |
| UploadImport.RunAllCounts | uploads/1753775853738-223801080.js:141-236 | a finished run counts every row exactly once; an aborted run counts fewer; errors stay 0 |
| UploadImport.RunAllDryRun | uploads/1753775853738-223801080.js:141-236 | a dry run writes nothing |
| UploadImport.RunAllUnique | uploads/1753775853738-223801080.js:141-236 | the unique index on email holds after every row |
| UploadImport.OnlyNewKeepsRecords | uploads/1753775853738-223801080.js:141-236 | with `--only-new` the old records stay as they were, and nothing is updated or counted unchanged |
| UploadImport.AbortIff | uploads/1753775853738-223801080.js:226-230 | the script exits iff the key is unknown and some row has an email |
| UploadImport.EmailModeNoConflicts | uploads/1753775853738-223801080.js:151-176 | email mode never counts a missing key or a conflict, and never exits |
| UploadImport.UploadStore.ProcessRow | uploads/1753775853738-223801080.js:146-230 | the outcome and the new collection are the loop body's for that row |
| UploadImport.UploadStore.Advance | uploads/1753775853738-223801080.js:143-230 | one pass of the loop: the row's outcome bumps its own counter, the collection becomes the loop body's, and `stop` is set iff the script exits |
| UploadImport.UploadStore.Run | uploads/1753775853738-223801080.js:141-236 | the counters, the collection and the abort flag are those of reading the mapped rows in order |

## Left out

- **Infrastructure.** MongoDB/mongoose persistence is modelled as in-memory sequences; Express routing and middleware, cookies and bcrypt are not modelled. Database errors are not modelled either, so the import scripts' `errors` counter is always 0.
- **Tokens.** JWT signing and verification are an oracle: a handler receives the verified claims, or none when verification throws.
- **Deletion of used tokens.** The registry's 30-day TTL deletion is not modelled; neither is the one-click link's own expiry beyond computing `exp`.
- **Mail, PDF and HTML output.** Mail, PDF and HTML page output (`sendMailSafe`, `mailApproval`, `generateApprovalPdf`, `renderMailActionPage`) are not modelled. A mail is reduced to its recipient and whether it carries buttons.
- **Clock and randomness.** Both are parameters: `now`, the OTP and the token id.
- **Case folding.** Lower-casing and trimming are ASCII-only, while JavaScript's `toLowerCase` and `trim` cover Unicode.
- **Browser plumbing.** DOM rendering, fetch calls, polling, XLSX/PDF export and `fetchApprovalsBestEffort` are not modelled. `renderRows` in the master dashboard is not modelled beyond its status and label expressions.
- **Script exits.** In the import scripts, the usage exit, the missing-file exit, the empty-sheet exit, reading the sheet and the summary printing are not modelled. The rows are the input.
- Cli.ParseArgs: `--_=x` would overwrite the positional list in the script; the model keeps positional arguments separate.
- NextId.MaxSerial: the query's descending string sort is modelled as a numeric maximum. The two agree on the two-digit pattern, which is the one the endpoint queries.
- **Concurrency.** Concurrent requests, including a one-click link racing an in-app click, are not modelled: handlers run one at a time on the store.
- **Unmodelled files.** These files are not part of this model: `emailHelper.js`, `public/themeToggle.js`, `public/login.js`, `public/pendingRequests.js`, `check-hr-accounts.js`, `backfill-hr-accounts.js`, `importEmployees.js`, the seed, reset and create scripts, and `uploads/1764675593663-348947532.js`.
- **Corrected versions.** The store runs every handler as written. The corrected versions are separate members, and the properties under Findings are proved about them: the decision guard `Decisions.Guard.Intended`, the submit `Workflow.SubmitDraft`, and the draft upsert `Workflow.SavedDraftTyped`.
- Chain.PassesSchema: `budget` is a required number in the schema but not a field of the model. The model therefore accepts a save that the schema would refuse for a missing budget. `details` is not modelled either.
- ActionQueue.NeedsMyAction: `createdAt` is not a field of the model, so the query's newest-first sort is not modelled. The input is taken in the order the query returns, and `ActionQueue.NeedsMyActionKeepsOrder` shows that the filter keeps that order.
- **String lengths.** Lengths, indices and slices count Unicode code points, while JavaScript counts UTF-16 code units. The two differ only for characters outside the Basic Multilingual Plane, for example in `Dash.Shortify`'s character budget.

## Findings

| source | as written | input that shows it | evidently intended | confidence | as-written member | corrected member |
|---|---|---|---|---|---|---|
| server.js:972-983 | the turn check uses the first tolerant match, the write uses the first exact match (also server.js:1036-1044, 1159-1168) | steps `[a: Pending, a@b: Accepted]`, caller `a@b`: the guard passes and the Accepted step is written again | the step written is the Pending step whose turn it is, so a decision is final | high, not executed | Decisions.InAppRedecisionAsWritten | Decisions.InAppRepeatRefused |
| server.js:592-605 | the query matches only two-digit serials (`^ZFL<year>\d{2}$`) | stored `ZFL202599` and `ZFL2025100`: the endpoint suggests `ZFL2025100` again | the suggestion follows the highest serial of any length | high, not executed | NextId.RepeatAfter99AsWritten | NextId.NextIdFresh |
| server.js:770-782 | the draft flag is cleared and saved before the manager email is checked | an approval created with a type and budget, then saved again as a draft with no approvers (the upsert keeps the type), then submitted by its owner: the reply is 400 yet the approval is no longer a draft | validate first, then clear the flag and install the chain in one write | high, not executed | Workflow.SubmitHalfDone | Workflow.SubmitGivesManagerTheTurn |
| server.js:660-688 | the draft upsert reads `department`, which the form no longer sends (public/app.js:1043-1075), and never sets the required `reimbursementType` | save a draft on a new number with any rows, then submit it from the form (public/app.js:313-317): the first `save()` fails validation, the draft stays a draft and no reply is sent | the draft keeps the type the form sends, so its owner can submit it | high, not executed | Workflow.FreshDraftNeverSubmits | Workflow.TypedDraftSubmits |
