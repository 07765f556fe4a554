# Governance core of the ontology platform

A Dafny model of the API's governance core, with proofs of what it keeps over whole runs: the
hash-chained audit log, the change-request review protocol, the two snapshot diffs, the ontology
version lifecycle, the release line with its merge log, the identity-key upsert of objects, and
four smaller pieces (output comparison, connector secrets, namespace fork, slug search).

Check everything with `dafny verify dfyconfig.toml`.

## How it is built

Every handler is one atomic step on in-memory tables. Where the source updates a row in place, the
model has a class with those fields. Each of its methods follows the handler's own assignments and
is tied, by its `ensures`, to one transition function of the module (`Step`, `Update`, `Upsert`).
What the source promises is then proved about that function and about runs, that is, sequences of
states in which each state is the step of the one before. Besides invariants there are three kinds of
results for the state machines: what a run keeps from happening, what it can always go on to do, and
that each stored column is what the last accepted request about it said. A raised `HTTPException`, and a database
constraint that aborts a request, is a refusal that leaves the state as it was.

| module | source |
|---|---|
| `AuditChain`, `AuditFaults` | `api/auth.py`, `api/audit.py` |
| `ChangeReview` | `api/release.py`, change requests and reviewers |
| `SnapshotDiff` | `api/release.py` and `api/ontologies.py`, both diffs |
| `VersionLifecycle` | `api/ontologies.py`, versions |
| `ReleaseLine` | `api/release_line.py` |
| `ObjectUpsert` | `api/objects.py` |
| `OutputComparison` | `api/validation.py` |
| `ConnectorSecrets` | `core/secrets.py`, `api/connectors.py` |
| `NamespaceFork` | `api/ontologies.py`, fork |
| `SlugSearch` | `api/workspace.py` |

Parameters stand for what the code calls but does not define. The digest `h` is an arbitrary
function of the ten hashed fields; a lemma that needs it to be free of collisions says
`Injective(h)`, and the others hold for every digest. The cipher is a triple (encrypt, decrypt,
text of a value); `Faithful` says that decrypting undoes encrypting, that the text of a string is the
string and that no other value has a text starting with the mark of a stored secret. Clock readings, new primary keys and encryption nonces are arguments. Where a query
leaves the choice of a row open, because two rows tie in its order, the model leaves it open too.

## Where the code and its own description differ

The model follows the code.

- The clock read for an audit row is put together from two readings (`api/auth.py:373-375`), so
  nothing makes it advance. `BuiltLogIsIntactIff` says exactly which logs verify, for any clock.
  `ClockStepBackBreaksChain` shows a clock that steps back, and `TiedClockCanBreakChain` two events
  of one time, of which the writer may name either while the verifier expects the one with the
  greater id.
- `update_change_request` describes the threshold as editable before SUBMITTED; the code allows it
  in every status but MERGED. Quorum claims therefore name the threshold in force at the vote, and
  a CR can be merged below a threshold that was raised after its approval
  (`MergeMeetsThresholdIff`, `RaisedAfterApproval`).
- `assign_reviewer` lists three statuses; the code also accepts APPROVED. `remove_reviewer` is meant
  for CRs that are not approved yet; the code refuses APPROVED alone, so reviewers can still be taken
  off a merged or closed CR.
- A threshold above one blocks the global approve only if the CR has reviewers
  (`ApprovalHasGround`, `ThresholdWithoutReviewers`).
- The branch table is described as having a partial unique index for the default branch; the
  migration says the invariant is left to the handlers. It does hold (`RunKeepsInv`).
- The fast-forward and merge-commit strategies are described in terms of ancestry; the code only
  compares whether the two heads are equal and whether the target has one.
- Merge rows are deleted with the branches they name, so the log of a protected branch can lose its
  thread: `MergeLogReplaysIff` says exactly when it still replays, and `CascadeBreaksReplay` is a run
  of nine requests after which it does not.
- Branches and tags need a project, which an ontology may lack; the handlers do not check, and the
  database refuses the row (`LookupsUnambiguous`).
- The class diff announces name, description and definition; it compares the first two.
- A batch is described as overwriting an object with the same key. A new key that occurs on two
  lines of one batch gives two live objects (`BatchEqualsSequenceIff`, `TwoLinesBreakUnique`), after
  which an upsert with that key and a valid class is refused with a server error
  (`RepeatedKeyIsRefused`).
- A fork into a namespace that ends in `#` leaves its IRIs outside that namespace
  (`ForkStaysInsideIff`), and a reference to a foreign IRI can come out as one of the fork's own
  classes (`ForeignReferenceCapturedIff`, `ForeignDomainIsCaptured`).
- Stored mapping fixtures have no `expected_output` column; reading it raises, so a run counts each
  of them as failed.
- Taking a name off a connector's secret list leaves its stored value as ciphertext, until it is
  listed again (`UpdateMeansOverlayIff`, `DropHidesUntilListed`).

## Model

| member | source | states |
|---|---|---|
| `AuditChain.AuditLog.LatestEntryHash` | apps/api/src/api/auth.py:378-396 | the link it returns is the entry hash of some newest row of the scope, or none exactly for an empty scope; rows of equal time may be picked in any order |
| `AuditChain.AuditLog.RecordAudit` | apps/api/src/api/auth.py:399-467 | appends exactly one row, sealed over its fields and such a link, and changes no other row |
| `AuditChain.AuditLog.VerifyChain` | apps/api/src/api/audit.py:74-115 | only an admin gets an answer; the loop reports Intact with the scope's event count if every link and digest matches, otherwise the id and index of the first event that does not |
| `AuditChain.VerdictUnique` | apps/api/src/api/audit.py:93-115 | at most one verdict fits a chain, so the verdict is determined by the stored rows |
| `AuditChain.LastHashFixesHistory` | apps/api/src/api/audit.py:93-115 | two chains that verify and end in the same entry hash have the same length and at every position the same id, event type, actor, scope, target type and id, time, before, after, link and entry hash |
| `AuditFaults.TablesAgree` | apps/api/src/api/audit.py:82-115 | the same columns agree between the scopes of two whole tables, from two Intact verdicts and one equal last hash |
| `AuditChain.LinksToLast` | apps/api/src/api/auth.py:382-396 | the writer, which sorts by time alone, links to the row the verifier sorts last by time and id, if one row holds the newest time; older rows may tie |
| `AuditChain.LinkIsForcedIff` | apps/api/src/api/auth.py:382-396 | on an intact chain that premise is exact: the writer can link only to the last row if and only if one row holds the newest time |
| `AuditChain.BuiltLogIsIntact` | apps/api/src/api/auth.py:399-467 | every log written only by record_audit, over any interleaving of scopes and with time advancing per scope, is Intact in every scope with `checked` equal to that scope's event count, for any digest |
| `AuditChain.BuiltLogIsIntactIff` | apps/api/src/api/auth.py:399-467 | for every log written only by record_audit, any clock and any choice among tied rows: a scope verifies if and only if its events were appended in the order in which they are read, each naming the one before it; so a broken chain never heals |
| `AuditChain.ClockDecidesIff` | apps/api/src/api/auth.py:373-396 | if no two events of a scope share a time, it verifies if and only if they were appended in the order of their times |
| `AuditChain.VerdictLocal` | apps/api/src/api/auth.py:382-396 | appending in one scope never changes any other scope's verdict, whatever the table holds |
| `AuditChain.RecordKeepsIntactIff` | apps/api/src/api/auth.py:399-467 | one append to an intact chain, whatever its link and time: it stays intact if and only if the row sorts after every stored row of its scope and names the last of them; otherwise the new row is reported where it lands, or, if it names the row before it, the one it displaced |
| `AuditFaults.ClockStepBackBreaksChain` | apps/api/src/api/auth.py:373-375 | whenever the clock steps back between the first two events of a scope, the log record_audit writes is reported broken at its first event |
| `AuditFaults.TiedClockCanBreakChain` | apps/api/src/api/auth.py:382-396 | three events appended in the order in which they are read, two of one time, and a log record_audit may write for them that is reported broken |
| `AuditFaults.RewriteInView` | apps/api/src/api/audit.py:93-115 | the exact verdict on a sealed chain after one event is rewritten in any way |
| `AuditFaults.RewriteUnnoticedIff` | apps/api/src/api/audit.py:93-115 | on an intact chain a rewrite that keeps both hash columns goes unnoticed if and only if nothing changed but actor name, address, user agent, target label and notes |
| `AuditFaults.RewriteIsLocated` | apps/api/src/api/audit.py:93-115 | in the table: rewriting a row without moving it is judged as stated |
| `AuditFaults.TableRewriteUnnoticedIff` | apps/api/src/api/audit.py:93-115 | and with both hash columns kept it goes unnoticed under that same condition |
| `AuditFaults.RemovalInView` | apps/api/src/api/audit.py:93-115 | on an intact chain, removing event i makes the following event the reported one with `checked` = i, and removing the last one goes unnoticed |
| `AuditFaults.RemovalIsLocated` | apps/api/src/api/audit.py:93-115 | the same for a row removed from the table |
| `ChangeReview.ChangeRequest.Create` | apps/api/src/api/release.py:584-645 | a new DRAFT with one pending vote per reviewer, and an aborted request exactly when a reviewer id repeats |
| `ChangeReview.ChangeRequest.UpdateRequest` | apps/api/src/api/release.py:659-681 | the whole new row: threshold and review notes change as sent in every status but MERGED, a null threshold is refused, nothing else changes |
| `ChangeReview.ChangeRequest.SubmitRequest` | apps/api/src/api/release.py:699-754 | from DRAFT or CHANGES_REQUESTED only; every vote is reset and every other field kept |
| `ChangeReview.ChangeRequest.ApproveRequest` | apps/api/src/api/release.py:758-811 | the global approval path with both of its guards |
| `ChangeReview.ChangeRequest.RejectRequest` | apps/api/src/api/release.py:815-866 | the global rejection from SUBMITTED |
| `ChangeReview.ChangeRequest.CloseRequest` | apps/api/src/api/release.py:870-916 | closing from every status but MERGED and CLOSED |
| `ChangeReview.ChangeRequest.MergeRequest` | apps/api/src/api/release.py:920-979 | merging from APPROVED only |
| `ChangeReview.ChangeRequest.AssignReviewer` | apps/api/src/api/release.py:1008-1047 | a pending reviewer is appended, refused on a repeated id and in the final statuses |
| `ChangeReview.ChangeRequest.AutoMerge` | apps/api/src/api/release.py:135-158 | a threshold of zero or less approves at once; otherwise a SUBMITTED CR moves to APPROVED exactly when the approving rows reach the threshold, and nothing else changes |
| `ChangeReview.ChangeRequest.ReviewerApprove` | apps/api/src/api/release.py:1054-1097 | one vote is cast in place, then the quorum decides, and the voter becomes the approver of record |
| `ChangeReview.ChangeRequest.ReviewerReject` | apps/api/src/api/release.py:1104-1148 | one vote is cast in place and the CR goes to CHANGES_REQUESTED |
| `ChangeReview.ChangeRequest.RemoveReviewer` | apps/api/src/api/release.py:1155-1180 | exactly the named reviewer is dropped, in every status but APPROVED |
| `ChangeReview.StepKeepsInv` | apps/api/src/api/release.py:699-1180 | every accepted request keeps: distinct reviewer ids; DRAFT means all votes pending; no rejecting vote in SUBMITTED, APPROVED and MERGED; merge and close stamps set exactly in MERGED and CLOSED |
| `ChangeReview.RunKeepsInv` | apps/api/src/api/release.py:584-1180 | that invariant in every state of every run |
| `ChangeReview.ReviewGoesThrough` | apps/api/src/api/release.py:699-1097 | from every reachable state in which a submit is due, a submit, approving votes of as many different assigned reviewers as the threshold (at least one) and a merge are all accepted; the CR stays SUBMITTED until the last vote makes it APPROVED and ends MERGED |
| `ChangeReview.RejectionSendsBack` | apps/api/src/api/release.py:815-1148 | while a CR is submitted, a rejection by anybody globally or by an assigned reviewer is accepted and leads to CHANGES_REQUESTED |
| `ChangeReview.OpenRequestAccepted` | apps/api/src/api/release.py:870-1180 | until it is final a CR can be closed, edited, takes on exactly those not assigned yet and, unless approved, lets go of exactly those who are |
| `ChangeReview.ZeroThresholdApproves` | apps/api/src/api/release.py:146-151 | at a threshold of zero or less one vote of an assigned reviewer approves |
| `ChangeReview.NewIsDraft` | apps/api/src/api/release.py:584-645 | a new CR is a draft assigned to exactly the ids it was given |
| `ChangeReview.ColumnsTellHistory` | apps/api/src/api/release.py:659-1148 | in every reachable state each column (submission, review, notes, threshold, closing, merging) is what the last accepted request that writes it said, and a CR is closed or merged if and only if a close or a merge was accepted |
| `ChangeReview.ReviewersTellHistory` | apps/api/src/api/release.py:699-1180 | who is assigned, under which name, with which vote, time and comment is in every reachable state what the last accepted request about it said |
| `ChangeReview.ApprovalOnRecord` | apps/api/src/api/release.py:758-1097 | approver and approval time stay those of the approving request, on either path, through to the merge |
| `ChangeReview.FinalAndOnce` | apps/api/src/api/release.py:699-979 | MERGED and CLOSED are never left, and in one run a CR is approved at most once and merged at most once |
| `ChangeReview.MergeHasHistory` | apps/api/src/api/release.py:699-979 | a merged CR was merged by a merge request, preceded by an approval on one of the two paths, preceded by a submit |
| `ChangeReview.CountIsCardinality` | apps/api/src/api/release.py:125-127 | the counter of approving rows counts distinct people |
| `ChangeReview.ApprovalsAreStandingVotes` | apps/api/src/api/release.py:721-726 | within a round a reviewer counts as approving if and only if a vote they cast since the submit still stands, so no vote survives a re-submit or a removal |
| `ChangeReview.QuorumReached` | apps/api/src/api/release.py:1054-1097 | when a vote moves a CR with threshold >= 1 to APPROVED, at least as many distinct, still assigned reviewers as the threshold in force at that vote cast standing approvals since the round's submit |
| `ChangeReview.QuorumIsExact` | apps/api/src/api/release.py:135-158 | if the threshold was not edited during the round, the quorum is met exactly |
| `ChangeReview.OpenRoundIsShort` | apps/api/src/api/release.py:135-158 | with an unedited threshold an open round is always short of it, whoever joins or leaves |
| `ChangeReview.RoundHasNoRejection` | apps/api/src/api/release.py:1104-1148 | no rejection was accepted in a round that is still open or ended in approval |
| `ChangeReview.ApproverIsLastVoter` | apps/api/src/api/release.py:1054-1097 | approver and approval time on record are those of the vote that met the quorum |
| `ChangeReview.ApprovalHasGround` | apps/api/src/api/release.py:699-1097 | over every run, behind an approved or merged CR stands a vote that met the threshold in force, or a global approve while the threshold was at most one or nobody was assigned |
| `ChangeReview.GlobalApproveMeetsQuorumIff` | apps/api/src/api/release.py:758-811 | with an unedited threshold a global approve meets the quorum if and only if the threshold asks for no votes |
| `ChangeReview.ThresholdWithoutReviewers` | apps/api/src/api/release.py:758-811 | a CR with threshold three and no reviewers that one call approves |
| `ChangeReview.MergeMeetsThresholdIff` | apps/api/src/api/release.py:659-979 | a merge goes through with exactly the approvals the CR was approved with; after an approval by vote they meet the threshold in force at the merge if and only if the last edit of it since, if any, does not exceed their number |
| `ChangeReview.RaisedAfterApproval` | apps/api/src/api/release.py:672-677 | a run that merges with one approval at threshold five |
| `SnapshotDiff.KeyByItem` | apps/api/src/api/release.py:1360-1369 | under each key stands the last item that carries it |
| `SnapshotDiff.KeySet` | apps/api/src/api/release.py:1360-1369 | the keys are exactly the IRIs of the list that are not empty |
| `SnapshotDiff.DiffSnapshots` | apps/api/src/api/release.py:1345-1430 | the loops over three kinds give the reported entries in their order, and the running summary is the count of the entries per label; an IRI that cannot be a key, or an IRI or name that is not a text, is a server error |
| `SnapshotDiff.EveryIriOnce` | apps/api/src/api/release.py:1373-1428 | an IRI of a kind has an entry if and only if it is a non-empty IRI of either snapshot, and never two |
| `SnapshotDiff.LabelMeaning` | apps/api/src/api/release.py:1373-1428 | an entry says added if and only if the old snapshot lacks the IRI, removed if and only if the new one does |
| `SnapshotDiff.CommonLabelMeaning` | apps/api/src/api/release.py:1384-1417 | for an IRI of both, label, name and details follow from the two items that stand for it in the snapshots |
| `SnapshotDiff.OneSidedMeaning` | apps/api/src/api/release.py:1373-1428 | an entry of one side only shows the name of the item that stands for its IRI and carries no details |
| `SnapshotDiff.KeysInOrder` | apps/api/src/api/release.py:1360-1369 | keys come in the order of their first occurrence |
| `SnapshotDiff.ReportOrderNew` | apps/api/src/api/release.py:1373-1417 | entries for what the new side has come first, in the order of first occurrence there |
| `SnapshotDiff.ReportOrderOld` | apps/api/src/api/release.py:1418-1428 | removed entries follow, in the order of first occurrence in the old snapshot |
| `SnapshotDiff.KindConserves` | apps/api/src/api/release.py:1373-1428 | per kind, added + modified + unchanged is the number of distinct IRIs of the target, and removed + modified + unchanged that of the source |
| `SnapshotDiff.DiffConserves` | apps/api/src/api/release.py:1359-1430 | the same for the whole summary, whose four counts add up to the number of entries |
| `SnapshotDiff.DiffSwaps` | apps/api/src/api/release.py:1373-1428 | swapping the snapshots swaps the added and removed counts and keeps the other two |
| `SnapshotDiff.DiffEntriesSwap` | apps/api/src/api/release.py:1373-1428 | for each kind and IRI of the whole report: swapping the snapshots reports it again, with the opposite label and before and after exchanged |
| `SnapshotDiff.DetailsArePatch` | apps/api/src/api/release.py:1393-1404 | dropping the before keys and overlaying after turns the old item into the new one under get, the reverse patch recovers the old one, and both parts are empty exactly for items that read alike |
| `SnapshotDiff.ModifiedEntryIsPatch` | apps/api/src/api/release.py:1384-1406 | so for the details of every modified entry, between two items of the snapshots with its IRI |
| `SnapshotDiff.DiffOntologyVersions` | apps/api/src/api/ontologies.py:2198-2346 | not found exactly when a version is missing; a server error exactly when an item cannot be keyed or an entry cannot be built (IRI, name and the optional columns must be texts); otherwise four sections in the reported order |
| `SnapshotDiff.SectionOnce` | apps/api/src/api/ontologies.py:2235-2307 | in every section each key of either side has one entry, which says added or removed exactly when the old or the new side lacks it |
| `SnapshotDiff.SectionCommon` | apps/api/src/api/ontologies.py:2235-2307 | an entry for a key of both sides compares the items that stand for it, whole or by name and description, and shows the new one |
| `SnapshotDiff.TripleIff` | apps/api/src/api/ontologies.py:2291-2292 | two constraints have one key if and only if they agree on target class, property and type, everything falsy being the same |
| `SnapshotDiff.ConstraintsMeaning` | apps/api/src/api/ontologies.py:2294-2307 | the constraint section compares whole constraints by that key |
| `SnapshotDiff.AnsweredMeansTextIris` | apps/api/src/api/ontologies.py:2235-2288 | a diff is answered only if every class, property and relation of both versions has a text as IRI |
| `SnapshotDiff.DiffsAgree` | apps/api/src/api/ontologies.py:2235-2288 | on snapshots with non-empty IRIs, entry by entry: the same labels for properties and relations; for classes the same added and removed, and modified here if and only if the other diff says modified and its details touch name or description |
| `SnapshotDiff.SelfDiffUnchanged` | apps/api/src/api/ontologies.py:2235-2307 | a snapshot against itself is all unchanged in both diffs |
| `VersionLifecycle.Ontology.PublishOntology` | apps/api/src/api/ontologies.py:1473-1574 | the whole new state of publishing the live tables, with its refusals: already published, archived, violations, tag taken |
| `VersionLifecycle.Ontology.CreateDraftVersion` | apps/api/src/api/ontologies.py:2413-2493 | the parent is a newest published version, or none only if there is none; the draft gets its snapshot |
| `VersionLifecycle.Ontology.UpdateVersionContent` | apps/api/src/api/ontologies.py:2500-2563 | only drafts are edited, given sections are replaced and the others kept |
| `VersionLifecycle.Ontology.PublishDraftVersion` | apps/api/src/api/ontologies.py:2570-2631 | a draft is published and the cached tag and counts follow it |
| `VersionLifecycle.StepKeepsSound` | apps/api/src/api/ontologies.py:1473-2631 | tags stay unique and exactly the published versions carry a publication time |
| `VersionLifecycle.PublishedFrozen` | apps/api/src/api/ontologies.py:2524-2540 | no request changes a published version in any field |
| `VersionLifecycle.PublishedForever` | apps/api/src/api/ontologies.py:2524-2540 | a version once published equals itself in every field in all later states of a run |
| `VersionLifecycle.VersionsTellHistory` | apps/api/src/api/ontologies.py:1537-2618 | in every reachable state, section by section: a version holds the live rows of the state in which it was published, or what the last edit that sent the section sent, and before any such edit the section of the head it was drafted from; tag, parent, summary and publication are what their last requests said |
| `VersionLifecycle.PublishedRowsStay` | apps/api/src/api/ontologies.py:1550-1561 | from a publish on, for good, the version equals the rows that were live and both diffs between them are unchanged throughout; right after it the cached tag, status and counts are those of the rows |
| `VersionLifecycle.DraftGoesThrough` | apps/api/src/api/ontologies.py:2413-2631 | from every reachable state a draft with a new id and an unused tag can be made, edited and published, and what the edit sent is what gets published |
| `VersionLifecycle.PublishesOnce` | apps/api/src/api/ontologies.py:1493-1513 | the live rows are published only while the ontology is open and has no violations, and never again without a change of status |
| `VersionLifecycle.CachedHeadAgrees` | apps/api/src/api/ontologies.py:1557-1561 | with advancing publication times, in every reachable state after the first publish the cached tag and both counts are those of the published version with the greatest publication time |
| `VersionLifecycle.PublishAgreesIff` | apps/api/src/api/ontologies.py:2611-2618 | the clock premise is exact: right after a publish the cache agrees if and only if the clock read later than every earlier publication |
| `VersionLifecycle.DraftStartsUnchanged` | apps/api/src/api/ontologies.py:2449-2470 | a draft just made differs from its parent in neither diff, and is empty without a parent |
| `ReleaseLine.ReleaseLines.GetDefaultBranch` | apps/api/src/api/release_line.py:116-144 | the branch returned is a default of its ontology; `main` is created only if there was none and the ontology has a project |
| `ReleaseLine.ReleaseLines.CreateBranch` | apps/api/src/api/release_line.py:358-438 | the first branch becomes the default; taken names, foreign heads and ontologies without a project are refused |
| `ReleaseLine.ReleaseLines.UpdateBranch` | apps/api/src/api/release_line.py:469-507 | description and protection change as given, nothing else |
| `ReleaseLine.ReleaseLines.DeleteBranch` | apps/api/src/api/release_line.py:514-546 | default and protected branches stay; any other goes, with the merge rows that name it if the database cascades |
| `ReleaseLine.ReleaseLines.SetDefaultBranch` | apps/api/src/api/release_line.py:553-597 | the flag moves from every other default of the ontology to the named branch |
| `ReleaseLine.ReleaseLines.SetBranchHead` | apps/api/src/api/release_line.py:604-653 | only an unprotected branch, only to a version of the same ontology |
| `ReleaseLine.ReleaseLines.MergeBranch` | apps/api/src/api/release_line.py:661-776 | the target's head and the one new merge row, with every refusal |
| `ReleaseLine.ReleaseLines.CreateTag` | apps/api/src/api/release_line.py:809-870 | a tag on a version of the ontology under an unused name; an ontology without a project is refused |
| `ReleaseLine.ReleaseLines.DeleteTag` | apps/api/src/api/release_line.py:877-905 | exactly that tag goes |
| `ReleaseLine.StepKeepsInv` | apps/api/src/api/release_line.py:358-905 | every accepted request keeps: one default per ontology with branches, unique branch and tag names, heads and tags on versions of their own ontology, branches and tags only on ontologies with a project |
| `ReleaseLine.RunKeepsInv` | apps/api/src/api/release_line.py:375-421 | that invariant in every reachable state, in which the defaults of an ontology with a branch are exactly one |
| `ReleaseLine.SetDefaultMoves` | apps/api/src/api/release_line.py:553-597 | a set-default is accepted for any branch of the ontology, makes it the one default there, and changes no other default and no other column |
| `ReleaseLine.DefaultTellsHistory` | apps/api/src/api/release_line.py:116-597 | in every reachable state the defaults of an ontology are exactly the branch of the last accepted set-default, or the first branch if there was none |
| `ReleaseLine.BranchesTellHistory` | apps/api/src/api/release_line.py:116-758 | in every reachable state a branch is stored if and only if the last request about its existence made it, and its name, head, protection and description are what the last request about each said, after a merge the head its source had |
| `ReleaseLine.TagsTellHistory` | apps/api/src/api/release_line.py:809-905 | a tag is stored as it was created, until it is deleted |
| `ReleaseLine.LookupsUnambiguous` | apps/api/src/api/release_line.py:122-144 | the one-or-none lookups never find two rows, the lazily created `main` never clashes with a name, and with a new primary key it succeeds if and only if the ontology has a project |
| `ReleaseLine.MergeOutcome` | apps/api/src/api/release_line.py:705-758 | whatever the strategy, the target's head becomes the recorded source head, the row records the head it replaced, the message and the strategy (no-op, merge commit only if forced onto another head), and nothing else moves |
| `ReleaseLine.ProtectedHead` | apps/api/src/api/release_line.py:624-627 | a protected branch survives every request and only a merge into it moves its head |
| `ReleaseLine.MergeLogReplaysIff` | apps/api/src/api/release_line.py:705-758 | over any stretch in which a branch is protected its merges link end to end from its head at the start to its head at the end, and the rows of them still stored do so if and only if every block of rows lost to deletes ends on the head it started from |
| `ReleaseLine.DeleteKeepsLogIff` | apps/api/src/db/release_line.py:204-215 | a cascading delete leaves another branch's log as it was if and only if the deleted branch was never merged into it |
| `ReleaseLine.DeleteKeepsReplayIff` | apps/api/src/db/release_line.py:204-215 | after one cascading delete a log that linked still links if and only if every block of the deleted branch's rows ends on the head it started from, read off the log before the delete |
| `ReleaseLine.CascadeBreaksReplay` | apps/api/src/db/release_line.py:204-215 | a run of nine requests: two merges into a protected branch, a log that replays, and a delete after which it does not |
| `ObjectUpsert.Objects.CreateObject` | apps/api/src/api/objects.py:358-506 | the whole new store: the live object with the key is overwritten, or a row inserted, or a refusal leaves everything |
| `ObjectUpsert.Objects.UpdateObject` | apps/api/src/api/objects.py:581-647 | given fields of a visible object change, nothing else |
| `ObjectUpsert.Objects.SoftDelete` | apps/api/src/api/objects.py:654-707 | a visible object is marked deleted and stays stored |
| `ObjectUpsert.Objects.BulkUpsert` | apps/api/src/api/objects.py:714-813 | stored rows updated in place plus pending rows invisible to later lookups, committed together; inserted + updated + failed is the batch size, with one error per failed line |
| `ObjectUpsert.UpsertKeepsUnique` | apps/api/src/api/objects.py:379-461 | a single upsert keeps at most one live object per project and identity key |
| `ObjectUpsert.UpsertStores` | apps/api/src/api/objects.py:379-461 | one upsert in full: accepted if and only if the class is known and a new row gets a new id; exactly one row is written, the live one with the key or else a new one; name, description, status, type, confidence and class as sent, data field by field replaced or merged, id, source and mapping of an overwritten row kept |
| `ObjectUpsert.SequenceKeepsUnique` | apps/api/src/api/objects.py:379-461 | so does any sequence of them, refused ones skipped |
| `ObjectUpsert.PatchAndDeleteKeepUnique` | apps/api/src/api/objects.py:581-707 | so do partial updates and soft deletes |
| `ObjectUpsert.UpdatesTell` | apps/api/src/api/objects.py:581-647 | over any stretch of partial updates of an object each column is the last value sent for it, what was never sent stays, and so does every other row |
| `ObjectUpsert.DeleteFreesKey` | apps/api/src/api/objects.py:654-707 | a soft delete hides the object from later updates and deletes and frees its key: the next upsert with it adds a row, and the deleted one stays stored as it was |
| `ObjectUpsert.BatchFacts` | apps/api/src/api/objects.py:732-794 | throughout a batch every lookup answers as at its start, and the pending rows are exactly the lines whose key was not live then |
| `ObjectUpsert.BatchEqualsSequenceIff` | apps/api/src/api/objects.py:732-794 | a batch commits to the store the sequence of single upserts leaves if and only if no key that was not live occurs on two of its valid lines, and exactly then it keeps identity keys unique |
| `ObjectUpsert.SequenceTells` | apps/api/src/api/objects.py:379-461 | after any sequence of upserts the object with a key shows what the last valid line with that key sent, and each data field what the last line sent that decides it |
| `ObjectUpsert.BatchTells` | apps/api/src/api/objects.py:732-794 | the same after a batch that repeats no new key, merging over all its lines of a key when data is not replaced |
| `ObjectUpsert.BatchFailures` | apps/api/src/api/objects.py:790-795 | a batch fails exactly on the lines with an unknown class |
| `ObjectUpsert.RepeatBreaksUnique` | apps/api/src/db/connection.py:42-47 | any such repetition leaves two live objects under one key |
| `ObjectUpsert.RepeatedKeyIsRefused` | apps/api/src/api/objects.py:379-392 | after such a batch every upsert with that key and a valid class is refused with a server error |
| `ObjectUpsert.TwoLinesBreakUnique` | apps/api/src/api/objects.py:732-794 | the shortest run: one batch of two lines with one key on an empty store |
| `ObjectUpsert.BatchCounts` | apps/api/src/api/objects.py:725-813 | every line is counted once, and the inserted count is the number of new rows |
| `ObjectUpsert.UniqueUntilRepeat` | apps/api/src/api/objects.py:358-813 | over every run of creates, updates, deletes and batches, keys stay unique until the first batch that repeats a new key, which breaks them |
| `OutputComparison.CompareMeansPaths` | apps/api/src/api/validation.py:551-567 | the comparison holds if and only if every key path of the expected output reaches a value in the actual one that is not None and of the same kind |
| `OutputComparison.CompareTransitive` | apps/api/src/api/validation.py:551-567 | it is transitive |
| `OutputComparison.CompareReflexiveIff` | apps/api/src/api/validation.py:551-567 | an output matches itself if and only if no key path of it ends in None |
| `OutputComparison.CompareMonotone` | apps/api/src/api/validation.py:551-567 | adding keys to the actual output at any depth never breaks a match |
| `OutputComparison.Fixture.Run` | apps/api/src/api/validation.py:461-486 | one fixture: its verdict, stored output, status and error, including the exception on a missing attribute |
| `OutputComparison.PassesIff` | apps/api/src/api/validation.py:457-567 | a fixture passes if and only if it expects nothing but a text as status and a processed part that its input matches |
| `OutputComparison.RunAll` | apps/api/src/api/validation.py:456-492 | the loop counts every fixture once and leaves each with its output and the verdict it earned |
| `OutputComparison.ValidationRun.Execute` | apps/api/src/api/validation.py:419-540 | a running run is refused untouched; a mapping run passes if and only if all fixtures pass, with counts that add up; other targets end in WARNING with zero counts |
| `ConnectorSecrets.EncryptSecretFields` | apps/api/src/core/secrets.py:67-76 | the loop over names gives the encrypted configuration |
| `ConnectorSecrets.DecryptSecretFields` | apps/api/src/core/secrets.py:79-88 | the loop over names gives the revealed configuration |
| `ConnectorSecrets.EncryptAt` | apps/api/src/core/secrets.py:42-76 | field by field: a listed value that is not null is stored marked, once, even if listed twice; everything else is untouched |
| `ConnectorSecrets.DecryptAt` | apps/api/src/core/secrets.py:52-88 | field by field, for any value: decrypted once for each time the list names the field, everything else untouched |
| `ConnectorSecrets.ReencryptedAt` | apps/api/src/core/secrets.py:42-88 | what decrypting and encrypting again stores for a field and what the next view shows, for any value and any list |
| `ConnectorSecrets.Connector.CreateConnector` | apps/api/src/api/connectors.py:337-351 | a fresh row with the encrypted configuration and the given list |
| `ConnectorSecrets.Connector.UpdateConnector` | apps/api/src/api/connectors.py:398-429 | the whole new row of an incremental update, in all four combinations of configuration and list given or not |
| `ConnectorSecrets.CreateStoresEncrypted` | apps/api/src/api/connectors.py:337-344 | after a create every listed value that is not null carries the mark |
| `ConnectorSecrets.UpdateStoresEncrypted` | apps/api/src/api/connectors.py:402-427 | an update keeps that, for any patch |
| `ConnectorSecrets.RunStoresEncrypted` | apps/api/src/api/connectors.py:337-427 | hence in every reachable state |
| `ConnectorSecrets.CreateRoundTrip` | apps/api/src/api/connectors.py:337-344 | the view of a new connector shows unlisted fields as given, and a listed one as its text if and only if the given value is not itself a token that can be decrypted |
| `ConnectorSecrets.UpdateMeansOverlayIff` | apps/api/src/api/connectors.py:402-427 | on values that are not tokens of tokens: the view after an update is the old view overlaid with the patch, listed fields as their text, if and only if no secret that can be decrypted leaves the list without a new value |
| `ConnectorSecrets.RunMeansOverlay` | apps/api/src/api/connectors.py:402-427 | that equivalence for each update of every run, through dropping, listing again and sending tokens back |
| `ConnectorSecrets.PatchedSecretShownIff` | apps/api/src/api/connectors.py:412-416 | without any premise on values: a listed field shows the text of the value it was sent if and only if decrypting that value again changes nothing |
| `ConnectorSecrets.DropHidesUntilListed` | apps/api/src/api/connectors.py:417-424 | a run that creates a secret, drops it from the list and lists it again, with the three views |
| `ConnectorSecrets.UndecryptableStays` | apps/api/src/core/secrets.py:52-64 | a stored secret that can no longer be decrypted survives every update that does not replace it, listed or not, and is shown as it is |
| `ConnectorSecrets.ColumnsTellHistory` | apps/api/src/api/connectors.py:398-429 | along every run name, description, secret list, status and sample limit are the last values sent |
| `NamespaceFork.ForkCollidesIff` | apps/api/src/api/ontologies.py:1954-1962 | two IRIs of the namespace are forked to one if and only if they differ in nothing but separators in front of the local name; on local names the fork is injective |
| `NamespaceFork.ForkRewritesOwn` | apps/api/src/api/ontologies.py:1956-1957 | an IRI of the namespace becomes the stem of the new namespace, one slash and its local name, whatever separators were in between |
| `NamespaceFork.ForkRewritesForeign` | apps/api/src/api/ontologies.py:1958-1961 | a foreign IRI becomes the stem, its last `#`, or its last slash if it has none, and what follows |
| `NamespaceFork.ForkStaysInsideIff` | apps/api/src/api/ontologies.py:1954-1962 | a forked IRI lies in the new namespace if and only if that ends in no separator or in exactly one slash |
| `NamespaceFork.ForkBackIff` | apps/api/src/api/ontologies.py:1954-1962 | for all namespaces: forking back gives the old IRI if and only if the old namespace ends in exactly one slash and the fork stayed in the new namespace or is a path without `#` whose local name is one segment |
| `NamespaceFork.ForeignReferenceCapturedIff` | apps/api/src/api/ontologies.py:1958-1962 | a reference from outside comes out as the fork of local name l if and only if it has no `#` and its last path segment is l |
| `NamespaceFork.ForeignDomainIsCaptured` | apps/api/src/api/ontologies.py:2046-2048 | a property on a foreign class that every fork puts on its own class |
| `NamespaceFork.ForkOntology` | apps/api/src/api/ontologies.py:2009-2118 | row by row, which columns the copies rewrite, keep and leave empty (every foreign key) |
| `NamespaceFork.ForkSameIff` | apps/api/src/api/ontologies.py:1954-1962 | any two IRIs are forked to one if and only if they agree in what is left without the namespaces, whatever the new namespace is |
| `NamespaceFork.SameTailOfLocal` | apps/api/src/api/ontologies.py:1954-1962 | for an IRI of the namespace: that is another IRI with extra separators in front of the local name, or a foreign one without `#` that ends in it |
| `NamespaceFork.RefKeptIff` | apps/api/src/api/ontologies.py:2046-2103 | for every reference and every row: the forked reference hits the forked row exactly if the original hit the original, if and only if the two do not agree in that way while being different |
| `NamespaceFork.ForkKeepsClassReferencesIff` | apps/api/src/api/ontologies.py:2016-2118 | so for each domain, range, relation end and constraint target against each class, with no premise on the tables |
| `NamespaceFork.ForkKeepsPropertyReferencesIff` | apps/api/src/api/ontologies.py:2016-2118 | so for each constrained property against each property |
| `NamespaceFork.ForkOntologyBackIff` | apps/api/src/api/ontologies.py:2009-2118 | forking a fork back gives every row again, with its parent and all attributes and without foreign keys, if and only if each IRI by itself comes back |
| `NamespaceFork.LocalIrisReturn` | apps/api/src/api/ontologies.py:1954-1962 | local names do, between two namespaces that end in exactly one slash |
| `SlugSearch.FindFreeSlug` | apps/api/src/api/workspace.py:168-177 | the loop ends on every finite set of slugs, with the first candidate that is free, after at most one step more than there are slugs |
| `SlugSearch.CandidatesDiffer` | apps/api/src/api/workspace.py:176-177 | no two candidates are the same slug |
| `SlugSearch.DecimalInjective` | apps/api/src/api/workspace.py:177 | no two numbers print alike |
| `SlugSearch.DecimalReadsBack` | apps/api/src/api/workspace.py:177 | reading the printed number gives it again, in digits without a leading zero |

## Left out

- HTTP, dependency injection, request validation, authorization, response conversion, error texts,
  webhooks, cache, sign-on and the front end are plumbing.
- SHA-256, the canonical JSON text and Fernet are parameters with the properties named above.
- Concurrency between requests: every handler is atomic here.
- Python's equality across number types: JSON values carry their kind, so 1, 1.0 and True differ.
- The way the database driver stores and reads back a timestamp with its time zone.
- Audit rows that the proposals handlers write without hashes; chain claims cover `record_audit`.
- The payload of a change request (title, changes, versions, comments), the deletion of a DRAFT, and
  the older statuses that no handler sets.
- Releases, deployments, bundles and preflight reports.
- The per-section totals of the ontology diff.
- Hard deletes and the foreign-key cascades other than the one into the merge log.
- `parent_iri` of classes and the draft snapshot made by a fork: the code does not rewrite them, so
  nothing is claimed about hierarchy or snapshot IRIs after a fork.
- The new ontology row of a fork and the unique IRI column that may refuse it.
- Links between objects, listing, filtering and pagination.
- Action runs, the workflow executor, SHACL and the connector implementations.
- The regular expression that makes the slug base, and the rows inserted once a slug is found.
- Exports and migrations.
- Rows are values in the sequences and maps of the object that owns them, so two references to one
  row are not modelled apart from the session's rule about flushed and pending rows.
- Fixture.Run: the exception text is modelled by its class name alone.
- ReleaseLines.DeleteBranch: whether the database enforces the cascade is an input, because it
  depends on the engine.
- AuditChain.BuiltLogIsIntact: needs time to advance per scope; `BuiltLogIsIntactIff` has no such
  premise, but needs a digest without collisions.
- ConnectorSecrets.UpdateMeansOverlayIff: assumes that no value is a token of a token, because the
  code strips one layer of those at each update (`PatchedSecretShownIff`).
- ConnectorSecrets.DecryptSecretFields: a marked value with characters outside ASCII raises in the
  source; here it counts as one that cannot be decrypted.
- SnapshotDiff.DiffOntologyVersions: entries carry the item they were built from instead of the
  columns copied from it.
