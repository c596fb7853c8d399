# Verification of the workflow backend's core algorithms and protocols

A Dafny model of the parts of this repository whose correctness is an argument
rather than a reading: how workflow graphs are laid out and normalised, how
visibility and references between stored resources are kept consistent, the
protocols that grant autonomy, enrol runners, recover runs, cache logins, wait out
quotas and keep generated code in check, and how artifacts are streamed and paged.

`dafny verify dfyconfig.toml` checks the whole project.

## How the code is modelled

- Code that works step by step is imperative here too: a method with a loop where
  the source has a loop, a class where the source keeps an object whose fields it
  updates. Each such method is proved against a specification, and what the source
  promises is proved about that specification.
- A protocol is a state machine over the pieces of code that run between two awaits.
  The main results are about every possible sequence of its events, so about every
  interleaving.
- Numbers that are floats in the source are `real`; Python's half-even `round` is
  written out (`Rounding`). Hashes are taken to be injective. Clocks, storage, the
  network, the sandbox and the models' answers are parameters or events.
- Python sets are visited in an arbitrary order where the source sorts them, so the
  results hold for any order.

| Files | Subject |
|---|---|
| `StepNormalization` | implicit edges of a workflow definition, and whether writing them out keeps its meaning |
| `Pack`, `Graphs`, `ForwardEdges`, `Depths`, `Components`, `LayerOrder`, `Rounding`, `Layout`, `ApplyLayout`, `Collision`, `Loners` | the canvas layout, from pool-adjacent-violators up to merging with a stored arrangement |
| `Visibility`, `ReferenceStore` | who sees what, and the store-wide invariant over all saves, deletions and grants |
| `Autonomy`, `Probation`, `VetoWindow`, `CaseSweep`, `DecisionWait` | the approval gate |
| `Enrollment`, `Limiter`, `LiveRunners` | runners: enrolment, rate limits, live sessions |
| `CrashLoop` | startup recovery |
| `ExpiringCache`, `LoginCache`, `LoginHistories`, `LoginService` | the login decision cache |
| `QuotaPark` | waiting out usage limits |
| `ComputeLifecycle` | generated sheet transforms |
| `Streaming`, `JsonFraming`, `Paging` | data artifacts |
| `Common` | optional values, minimum and maximum |

## Where the code does not keep what its documentation says

Each of these is a proved statement: the runs or inputs in which the promise fails and,
where the code can meet it at all, the exact condition under which it does.

- A step called "END" changes what normalisation means (`MeaningKept`), and a
  `proceed_or` step that declares an ending mid-list is drawn as an end but runs on
  (`DrawnIsRun`, `ProceedOrRunsPastItsEnd`).
- Seeing a resource means seeing what it uses only for those who see it natively
  (`ClosedExactlyWhenNative`, `FormerMemberIsTheException`).
- Revoking a grant does not check who relies on it (`RevokeIsSafeExactlyWhenNarrowing`).
- A vetoed autonomous decision leaves no trace in the history, whatever came in between
  (`VetoedLeavesNoTrace`), so what the meta-LLM decided alone it may decide alone again
  without a person in between (`VetoRestoresHistory`, `VetoedIsLegalAgain`,
  `VetoedAutonomyCanRepeat`); two such
  decisions are kept apart exactly by one that still stands
  (`SeparatedExactlyUnlessVetoed`).
- Cancelling the open cases of a run stops at the first one somebody else holds, and
  leaves older ones open that nobody has touched (`CancelOpenForRun`,
  `UntouchedCaseStaysOpen`); run as one step it closes all of them exactly when none is
  held.  Among other callers it is refused a case it found exactly when somebody took it,
  before the loop or before its claim (`RefusedExactlyWhenTaken`, `WhatIsLeft`).
- A veto that passed its deadline check can be written after the wait has handed the
  case back as approved (`PendingVetoCanLandLate`,
  `ReturnedIsFinalExactlyWhenNoVetoPending`).
- The probation of generated-code writes can come back after it has ended, with
  approvals of other operations as well (`ProbationCanReturn`, `ReturnsExactlyWhen`).
  The query that would have kept to one operation raises on every backend, as no
  `list` takes an operation
  (app/infrastructure/persistence/approval_backend.py:37-49, 204-216, 347-351), so the
  one made for older backends always answers: the newest approvals of the whole data
  source, looked through afterwards (app/application/approval_service.py:313-331).
- A decision made in the instant a wait times out is recorded, but the caller is told
  nothing (`ApprovedYetNotAnswered`, `NothingIsAnsweredExactlyWhenRaced`).
- A poll between an approval and the saving of its runner uses the request up without
  handing out a credential (`EarlyPollLosesTheCredential`).
- A crash between failing a looping run and disabling its workflow leaves the workflow
  enabled, and unless the run is retried no startup comes back to it
  (`CrashWhileDisabling`); a workflow ends up disabled exactly when fewer such crashes
  happened than runs of it were failed (`DisabledExactlyWhen`, `ExhaustedIsQuarantined`).
- A restart while a prompt runs forgets when the quota wait began
  (`RestartWhileWorkingWaitsLonger`, `WindowSurvivesExactlyWhileSaved`).
- An activation that overlaps a hand edit can undo the edit
  (`OverlappingActivationLosesEdit`, `EditLostExactlyWhen`), and code that failed its
  re-activation runs again after a re-test nobody confirmed
  (`RevivedWithoutConfirmation`, `StaleYetActivatedExactlyWhen`).
- The wrong-code limit does not limit wrong codes.  `approve` and `deny` hit its key
  without asking whether it is blocked (app/application/runners.py:157-169), so any
  number of wrong codes come through there (`MissesAreNeverRefused`); look-ups that
  overlap can exceed it as well (`OverlapExceedsLimit`).  It is kept by every schedule
  exactly when no hit goes unchecked and no two attempts can be past their check at once
  (`LimitHoldsExactlyWhen`).
- The end of a copy is put into the queue from the event loop itself.  When the queue is
  full and the reader has no take under way, that put holds the loop and the download
  stands still for good (`SomebodyCanMove`); an artifact can get there exactly when its
  blocks fill the queue (`StallsExactlyWhenQueueFills`).
- A reader that leaves while the queue is full leaves the copy, and its own clean-up,
  blocked (`LeavingAFullQueueBlocks`, `AbandonedCopyEndsExactlyWhenRoom`).
- Pages read as text can be put together only if none ends inside a character
  (`PagedTextIsWholeExactlyWhen`, `SplitCharacterIsLost`); the last page may announce
  more content that is not there (`PageCount`).

Merging a layout with a stored arrangement promises that a new step is clear of what was
already there, and it is.  New steps among themselves are not covered by the promise:
`NewStepsOverlapExactlyWhen` and `NewStepsCollideExactlyWhen` say exactly when two of them
end up on top of each other, and `StoredOverAStep` and `BranchesCollide` show workflows in
which they do.

## Model

| member | source | states |
|---|---|---|
| StepNormalization.DeclaredEdges | app/application/step_normalization.py:46-72 | exactly the step-to-step edges that the fields read for each step's type declare |
| StepNormalization.DeclaresNothingExactlyWhen | app/application/step_normalization.py:39-43 | a step declares nothing when the fields its type is read by are missing or empty |
| StepNormalization.NeighbourIsNextId | app/application/step_normalization.py:82-101 | the neighbour read off the list of step positions is the next step that has an id |
| StepNormalization.NormalizeEdges | app/application/step_normalization.py:75-101 | the edited copy is the list with the fall-through written out at exactly the steps that declare nothing |
| StepNormalization.NormalizedEdges | app/application/step_normalization.py:75-101 | no declared edge is lost, and every edge added joins a step to its array neighbour |
| StepNormalization.Idempotent | app/application/step_normalization.py:75-101 | normalising a normalised list changes nothing |
| StepNormalization.ImplicitEdges | app/application/step_normalization.py:104-117 | exactly the edges normalisation invents and the document did not declare |
| StepNormalization.NothingLeftImplicit | app/application/step_normalization.py:104-117 | a normalised list has no implicit edge left |
| StepNormalization.MeaningKept | app/infrastructure/orchestration/yaml_graph.py:1319-1405 | every step keeps the destinations the graph builder connects it to, if and only if no step named END captures the marker |
| StepNormalization.DrawnIsRun | app/infrastructure/orchestration/yaml_graph.py:1319-1405 | for a step that declares its edges, the drawn edges are the executed ones if and only if no route hides a next and a proceed_or step names just where it goes |
| StepNormalization.ProceedOrRunsPastItsEnd | app/infrastructure/orchestration/yaml_graph.py:1319-1405 | a proceed_or that declares END mid-list is drawn as an end and executed as an edge to the next step |
| Pack.Pool | app/application/graph_layout.py:194-200 | the pooled blocks hold their means, every prefix of a block has at least the block's mean, and block values do not fall |
| Pack.PooledFits | app/application/graph_layout.py:197-200 | merging two violating neighbours keeps the prefix condition |
| Pack.FitIsBest | app/application/graph_layout.py:185-204 | such blocks, written out, are strictly closer to the wishes than every other non-decreasing vector |
| Pack.Pack | app/application/graph_layout.py:185-204 | the result is separated by the gap and its summed squared distance to the wishes is less than that of every other separated vector |
| Pack.ClosestIsUnique | app/application/graph_layout.py:185-204 | only one vector is closest, so packing is a function of its inputs |
| Pack.SeparatedStaysPut | app/application/graph_layout.py:185-204 | wishes that are already separated are left as they are |
| Pack.CentreKept | app/application/graph_layout.py:24-30 | a packed layer keeps the average of its wishes, so it stays centred on them whatever had to be pushed apart |
| ForwardEdges.Roots | app/application/graph_layout.py:104-110 | the search starts at exactly the nodes nothing points to, or at the first node when there is none |
| ForwardEdges.ForwardWalk.Consider | app/application/graph_layout.py:118-125 | one successor is skipped, kept, or kept and followed; the search state stays consistent and the edge is settled |
| ForwardEdges.ForwardWalk.Visit | app/application/graph_layout.py:116-127 | a visit finishes its node and leaves the open chain as it found it |
| ForwardEdges.ForwardOnly | app/application/graph_layout.py:98-137 | the finish order reverses every kept edge, an edge is left out only if it closes a cycle of kept edges, and leaving them out cuts nothing off: what the starts lead to, kept edges from a start lead to |
| ForwardEdges.BrokenHasNoCycle | app/application/graph_layout.py:98-137 | no walk along kept edges returns to where it began, for any successor map |
| ForwardEdges.KeepsAllExactlyWithoutCycles | app/application/graph_layout.py:98-137 | every edge is kept if and only if the graph has no cycle |
| Depths.SuccessorsAndDegrees | app/application/graph_layout.py:140-146 | the lists and in-degrees represent the forward edges, in whatever order these are taken |
| Depths.ConsumeKeeps | app/application/graph_layout.py:152-158 | consuming one edge keeps the queue invariant: depths are lengths of walks, and the queued nodes are those with no edge left into them |
| Depths.EmptyQueueMeansDone | app/application/graph_layout.py:149-159 | when the queue runs dry every node has been popped |
| Depths.Depths | app/application/graph_layout.py:140-159 | each depth is exactly the number of edges of the longest forward path ending at the node, and every edge goes to a strictly deeper one |
| Depths.LayeredBoundsWalks | app/application/graph_layout.py:140-159 | no walk is longer than the difference of depths of its ends |
| Components.Flood | app/application/graph_layout.py:82-94 | everything linked to the start, directly or not, and nothing else |
| Components.Components | app/application/graph_layout.py:76-95 | the groups partition the ids, each is one whole component in the order of the ids, and the groups come in the order of their first members |
| LayerOrder.Ranks | app/application/graph_layout.py:170-174 | positions in the two adjacent layers, the right one winning |
| LayerOrder.Barycentre | app/application/graph_layout.py:178-180 | the average rank of the neighbours that have one, else the current position |
| LayerOrder.ReorderLayer | app/application/graph_layout.py:175-182 | the layer permuted into the order of barycentres, equal ones in the order they had |
| LayerOrder.SortedIsUnique | app/application/graph_layout.py:182 | such an order is the only one, so a reordering is determined |
| LayerOrder.OrderLayers | app/application/graph_layout.py:162-182 | four sweeps over the layers, forwards and backwards in turn, each putting one layer after the other into the order of its barycentres towards the side the sweep comes from; they only permute each layer |
| LayerOrder.OrderIsDetermined | app/application/graph_layout.py:162-182 | with no node twice in a layer such sweeps can go only one way, so the order is a function of the layers and the edges |
| Rounding.RoundIsNearestEven | app/application/graph_layout.py:241-245 | half-even rounding gives the nearest integer, the even one on a tie, and no other integer is that |
| Rounding.RoundKeepsEvenGap | app/application/graph_layout.py:45 | rounding keeps a separation by an even number of pixels, as the row pitch is |
| Rounding.RoundLosesOddGap | app/application/graph_layout.py:45 | an odd separation can be lost |
| Layout.Graph | app/application/graph_layout.py:53-73 | successor and predecessor lists are mirror images and hold exactly the declared edges of the normalised steps |
| Layout.CollectLayers | app/application/graph_layout.py:218-223 | each layer holds exactly the nodes of its depth, once |
| Layout.PackLayer | app/application/graph_layout.py:233-239 | one layer becomes the closest separated arrangement to its neighbours' averages, and to its own rows where there are none, and no other row moves |
| Layout.SettleRows | app/application/graph_layout.py:226-239 | the rows are those of six alternating passes over predecessors and successors from the initial ones, each layer packed towards the rows its pass has already settled; every layer is separated |
| Layout.SettlePass | app/application/graph_layout.py:227-239 | one pass packs every layer towards the neighbours it faces, from the rows before the pass |
| Layout.RowsAreDetermined | app/application/graph_layout.py:226-239 | the rows after each pass are the only ones such passes can give, so they are a function of the ordered layers |
| Layout.NeighbourLists | app/application/graph_layout.py:212-216 | successor and predecessor lists hold exactly the kept edges, each once |
| Layout.ComponentLayout | app/application/graph_layout.py:207-245 | columns are longest-path depths, edges flow right unless they close a cycle, boxes keep a full column or row apart, a step alone in its column is centred on the steps after it, and a step that all of a column leads to on those, to within a pixel |
| Layout.KeptEdgesFlowRight | app/application/graph_layout.py:98-159 | each edge goes at least one column right unless a walk of step edges leads back |
| Layout.LoneIsCentred | app/application/graph_layout.py:228-244 | rounding moves a node alone in its layer at most one pixel off its successors' average |
| Layout.MeetingRows | app/application/graph_layout.py:24-30 | a layer whose steps all lead to one step is packed around that step's row |
| Layout.BranchesMeet | app/application/graph_layout.py:24-30 | as drawn, such a step is in the middle of the branches arriving at it, to within a pixel |
| Layout.LayoutPositions | app/application/graph_layout.py:248-260 | every step id gets exactly one position, no two boxes overlap, edges go right unless part of a cycle; in each component of the step graph columns are longest-path depths, a step alone in its column is centred on those after it and a step that all of a column leads to on those; and the components are stacked in the order of their first steps, the first with its topmost box at the origin row, each later one with its topmost box exactly one row and the component gap below the lowest box before it |
| Layout.PlacedInTurn | app/application/graph_layout.py:253-259 | placing one more component keeps the stack exact: topmost box and lowest box of everything placed so far |
| Loners.TwoAreStacked | app/application/graph_layout.py:248-260 | two steps that both end the workflow are drawn at (40, 40) and (40, 260) in every layout |
| Layout.StackedAdd | app/application/graph_layout.py:253-259 | a component placed below the others keeps everything apart |
| Layout.DrawnElsewhere | app/application/graph_layout.py:253-259 | moving a component down as a whole keeps its columns and its centring |
| Layout.LayoutIsClear | app/application/graph_layout.py:42-48 | any two distinct steps of a layout do not overlap |
| ApplyLayout.OverlapExactlyWhenShared | app/application/graph_layout.py:263-270 | two positions overlap if and only if the boxes drawn there share a pixel |
| ApplyLayout.FreeSlot | app/application/graph_layout.py:263-270 | the first clear row at or below the wanted one, after at most one push per occupied box |
| ApplyLayout.FirstClearIsUnique | app/application/graph_layout.py:263-270 | there is only one first clear row |
| ApplyLayout.BlockersAreFew | app/application/graph_layout.py:263-270 | each box blocks at most one candidate row, so the search ends |
| ApplyLayout.ApplyLayout | app/application/graph_layout.py:273-310 | usable stored positions are kept, new steps get their first clear row, exactly the step ids are covered, other stored entries stay |
| ApplyLayout.NewStepsAreClear | app/application/graph_layout.py:273-310 | a new step is drawn clear of every kept one, in its computed column |
| ApplyLayout.Idempotent | app/application/graph_layout.py:273-310 | applying the layout to its own result changes nothing |
| ApplyLayout.FreshLayoutUntouched | app/application/graph_layout.py:273-310 | on relayout, or with nothing usable stored, the result is the computed layout |
| ApplyLayout.UnpushedStepsAreApart | app/application/graph_layout.py:273-310 | new steps that no kept box pushes stay where the layout wants them, apart from each other |
| ApplyLayout.NewStepsOverlapExactlyWhen | app/application/graph_layout.py:273-310 | two new steps overlap if and only if they share a column and their distance, corrected by the rows each was pushed, is less than a box |
| ApplyLayout.NewStepsCollideExactlyWhen | app/application/graph_layout.py:263-310 | of two new steps whole rows apart in one column the upper lands on the lower if and only if kept boxes block every row it has above the lower's own, and else they do not overlap |
| ApplyLayout.StoredOverAStep | app/application/graph_layout.py:273-310 | in every layout, storing a third step on a new one that has another right below draws these two at the same place |
| Collision.FanOutIsLayout | app/application/graph_layout.py:207-260 | a parallel step over two branches has a layout with the branches a row apart and the step centred on them |
| Collision.ParallelIsCentred | app/application/graph_layout.py:24-30 | in every layout of that workflow the parallel step stands in the column before its branches and in their middle, to within a pixel |
| Collision.BranchesCollide | app/application/graph_layout.py:273-310 | with the parallel step stored on the upper branch's row, merging draws both branches at one place |
| Visibility.GrantedWhenListed | app/application/visibility.py:158-187 | a grantee has access exactly when some grant names them |
| Visibility.GrantIsFirst | app/application/visibility.py:158-187 | the access granted is that of the first grant that names the grantee |
| Visibility.WhoMay | app/application/visibility.py:251-329 | who may see, manage, edit and rescope a resource, in terms of scope, owner, team and grants |
| Visibility.RightsNest | app/application/visibility.py:251-329 | who may manage may edit and rescope, and who may do either sees |
| Visibility.GrantedThrough | app/application/visibility.py:179-202 | what access a grant gives a resource to another: through one to the workflow itself or to the owner of a private resource, the better of the two |
| Visibility.ScopeCovers | app/application/visibility.py:446-469 | which scopes let one resource use another |
| Visibility.NativeStep | app/application/visibility.py:446-469 | whoever sees a resource natively sees natively whatever scope lets it use |
| Visibility.VisibleAlongChains | app/application/visibility.py:251-261 | seeing a root natively means seeing everything reachable from it by references of any length |
| Visibility.ClosedExactlyWhenNative | app/application/visibility.py:251-271 | a caller sees all that a resource may use by scope if and only if they see it natively |
| Visibility.FormerMemberIsTheException | app/application/visibility.py:251-261 | an owner who left the team sees the team resource but not another one it uses |
| ReferenceStore.CheckReferences | app/application/visibility.py:471-501 | passes exactly when every reference that is neither dangling nor to itself is allowed and no operation written to is under a read grant |
| ReferenceStore.CheckNarrowing | app/application/visibility.py:525-550 | passes exactly when no stored referrer would be broken |
| ReferenceStore.ScopedBackends.Prepare | app/application/visibility.py:638-690 | what would be stored, or why not: both checks run on the submitted resource with its ownership, grants and team rewritten |
| ReferenceStore.ScopedBackends.Create | app/application/visibility.py:700-711 | an id of something the caller does not see is refused, a visible one needs the right to edit and is stored over, and otherwise the prepared resource is added |
| ReferenceStore.ScopedBackends.Update | app/application/visibility.py:713-725 | an invisible resource does not exist, a visible one needs the right to edit, and only this resource changes |
| ReferenceStore.StepStoresWhatIsDue | app/application/visibility.py:700-725 | every accepted create or update step stores what is due, at its own id and nowhere else |
| ReferenceStore.SaveStoresWhatIsDue | app/application/visibility.py:638-690 | an accepted save stores the submitted content; the scope given, else the stored one, else private for a caller with an id and public without; the stored owner, the caller of a new or a taken-over resource; the stored grants, none when new; and the team the rules pick |
| ReferenceStore.TeamIsFirstGiven | app/application/visibility.py:604-636 | a team resource belongs to the first team named by the draft, the stored resource and the caller; any other resource to none |
| ReferenceStore.SavePassesExactlyWhen | app/application/visibility.py:638-690 | a save passes if and only if the scope may be changed, the team exists and is the caller's to use, the references are allowed and no referrer is broken |
| ReferenceStore.ReferencesPassExactlyWhen | app/application/visibility.py:471-501 | a reference passes if and only if the saver sees it or had it, the scope or a grant covers it, and no writing operation is called under a read grant alone |
| ReferenceStore.SavesAreGuarded | app/application/visibility.py:692-725 | who may save over what, by the caller's role, and that a hidden resource answers like a missing one |
| ReferenceStore.DeleteStoresWhatIsDue | app/application/visibility.py:727-739 | who may delete; only the resource goes, and with a workflow the access granted to it and nobody else's |
| ReferenceStore.GrantStoresWhatIsDue | app/application/grants.py:91-203 | who may grant what to whom, with each refusal; the grantee then has exactly that access and everybody else what they had |
| ReferenceStore.ScopedBackends.Delete | app/application/visibility.py:727-739 | the resource goes, and with a workflow every grant made to it |
| ReferenceStore.ScopedBackends.DropWorkflowGrants | app/application/visibility.py:503-523 | no resource keeps a grant to the deleted workflow and nothing else changes |
| ReferenceStore.ScopedBackends.NotShareable | app/application/grants.py:91-104 | who may not manage a resource's grants, and why |
| ReferenceStore.ScopedBackends.Share | app/application/grants.py:157-203 | the grantee's previous grant is replaced, the grantee being one the scope leaves out |
| ReferenceStore.ReplaceIsSafe | app/application/visibility.py:431-501 | storing a resource keeps the store safe if and only if its references and its referrers allow it |
| ReferenceStore.SaveKeepsInvariant | app/application/visibility.py:638-725 | every accepted save keeps the store safe |
| ReferenceStore.DeleteKeepsInvariant | app/application/visibility.py:727-739 | every deletion keeps the store safe |
| ReferenceStore.GrantKeepsInvariant | app/application/grants.py:157-203 | every grant keeps the store safe |
| ReferenceStore.RunsStaySafe | app/application/visibility.py:410-739 | from a safe store any sequence of authenticated creates, updates, deletes and grants leaves a safe store |
| ReferenceStore.HiddenIsUntouched | app/application/visibility.py:588-602 | no step of a caller who cannot see a resource changes or removes it, except for grants dropped with a deleted workflow |
| ReferenceStore.ChangesAreEntitled | app/application/visibility.py:274-337 | each kind of change made to a stored resource is one its caller was entitled to |
| ReferenceStore.RevokeIsSafeExactlyWhenNarrowing | app/application/grants.py:206-214 | revoking a grant keeps the store safe if and only if the narrowing check would have passed |
| ReferenceStore.RevokeCanStrandAReferrer | app/application/grants.py:206-214 | a revocation can leave a workflow using what it no longer may |
| Autonomy.Streak | app/application/approval_service.py:268-288 | the decision and the number of unbroken identical human decisions at the head of the history |
| Autonomy.StreakIsUnique | app/application/approval_service.py:268-288 | a history has only one such streak |
| Autonomy.EarnedMeans | app/application/approval_service.py:345-384 | a decision is earned if and only if the newest entries of the history, as many as the threshold, ten when it is zero, are all a person's decision like it |
| Autonomy.Consult | app/application/approval_service.py:340-384 | a case is decided alone exactly when the streak reaches the threshold and the model says the same: approved only on Approve, rejected only on Reject, and an abstention or a divergence leaves it to a person |
| Autonomy.Bucket.OpenCase | app/application/approval_service.py:120-145 | an earned decision that the model confirms is taken unless the operation is on probation, and no other |
| Autonomy.HistoryEntry | app/infrastructure/persistence/approval_backend.py:251-266 | the i-th history entry is the i-th newest decision that still stands |
| Autonomy.AutonomyIsEarned | app/application/approval_service.py:268-384 | in every log the service can produce, each autonomous decision repeats at least threshold human ones standing unbroken just before it |
| Autonomy.UnvetoedAutonomyIsSeparated | app/application/approval_service.py:229-237 | two autonomous decisions are separated by at least threshold human ones unless the first was vetoed |
| Autonomy.UnreachableAutonomy | app/application/approval_service.py:47 | a threshold beyond the history window means the service never decides alone |
| Autonomy.DecisionJoinsHistory | app/infrastructure/persistence/approval_backend.py:251-266 | a new decision joins the history at its head and the window drops the oldest |
| Autonomy.VetoRestoresHistory | app/application/approval_service.py:450-471 | after any log, an autonomous decision and its veto leave the history exactly as it was |
| Autonomy.VetoedLeavesNoTrace | app/infrastructure/persistence/approval_backend.py:251-266 | in every legal log, with any decisions and vetoes in between, the history is the one of the log without the vetoed decision |
| Autonomy.VetoedIsLegalAgain | app/application/approval_service.py:340-471 | after any legal log, what was decided alone and vetoed, and nothing else, may at once be decided alone again |
| Autonomy.SeparatedExactlyUnlessVetoed | app/application/approval_service.py:268-471 | after any legal log, an autonomous decision and k like human ones, the next autonomous one is legal if and only if k reaches the threshold or the first was vetoed |
| Autonomy.VetoedAutonomyCanRepeat | app/application/approval_service.py:450-471 | for every reachable threshold a veto lets two autonomous decisions follow with no human one in between |
| Probation.MayDecideAlone | app/application/approval_service.py:302-338 | whether at least the required number of the newest approvals of the data source are a person's of this operation |
| Probation.PeopleComeFirst | app/application/approval_service.py:290-338 | however checks, answers and vetoes of all operations overlap, a generated-code write is approved autonomously only after the required number of people have approved it |
| Probation.ReturnsExactlyWhen | app/application/approval_service.py:320-333 | which events bring probation back: exactly an approval that is not a person's of this operation, created late enough to push the last person needed out of the window |
| Probation.ProbationCanReturn | app/application/approval_service.py:320-333 | for every requirement, enough approvals by the model or of other operations, each with probation still off, end on probation |
| Probation.WindowAfter | app/application/approval_service.py:324-330 | what one more approval, wherever it comes in the order of creation, changes in the number of people the window shows |
| VetoWindow.AutonomousIsWellFormed | app/application/approval_service.py:229-237 | an autonomously decided case has the status the verdict says, is well-formed and has a veto deadline, exactly the window ahead, exactly when the window is positive |
| VetoWindow.Cases.Claim | app/application/approval_service.py:431-434 | one claim per pending case, taken once |
| VetoWindow.Cases.Decide | app/application/approval_service.py:421-448 | a human answer closes a case exactly once and it can never be vetoed |
| VetoWindow.Cases.Veto | app/application/approval_service.py:450-471 | cancels only an autonomously decided case, and only until its deadline |
| VetoWindow.Cases.Expire | app/application/approval_service.py:473-483 | closes a pending case as expired, once |
| VetoWindow.Cases.Abandon | app/application/approval_service.py:485-506 | closes a pending case as cancelled, once |
| VetoWindow.Cases.CancelOpenForRun | app/application/approval_service.py:508-527 | as one step, the loop closes from the newest open case of the run down to the first one somebody else holds: all are closed if and only if none is held, nothing closed is older than a held case, and all that is left is no newer than one |
| VetoWindow.Cases.FindOpen | app/infrastructure/persistence/approval_backend.py:268-279 | the newest still-open case of the run, claimed or not |
| VetoWindow.UntouchedCaseStaysOpen | app/application/approval_service.py:508-527 | after cancelling, every open case nobody holds that is older than a held one is still open and untouched |
| CaseSweep.RefusedExactlyWhenTaken | app/application/approval_service.py:508-527 | however other callers come in between, the loop is refused a case it found if and only if somebody had taken it by then |
| CaseSweep.WhatIsLeft | app/application/approval_service.py:508-527 | the loop ends with no case open, or refused with nothing left that is newer than the refused case but what was opened later |
| CaseSweep.LeftAfterRefusal | app/application/approval_service.py:508-527 | in any run that ends refused, every case still open is no newer than the refused one or was opened after that was looked up |
| CaseSweep.LoopEnds | app/application/approval_service.py:511-514 | each round uses up work that only newly opened cases add to |
| CaseSweep.TakenAfterFound | app/application/approval_service.py:508-527 | a case taken between its look-up and its claim leaves an older one open that nobody holds |
| VetoWindow.WrittenVetoIsRespected | app/application/approval_service.py:533-552 | a veto written before the wait returns is returned |
| VetoWindow.VetoCountsUntilDeadline | app/application/approval_service.py:450-552 | a veto passes its check exactly until the deadline, and its write ends the wait at its next poll |
| VetoWindow.WaitSeesDeadline | app/application/approval_service.py:533-552 | the wait sees the deadline exactly from then on, and returns what is stored after it |
| VetoWindow.NothingPassesLate | app/application/approval_service.py:533-552 | after the deadline has been seen no new veto passes its check |
| VetoWindow.ReturnedIsFinalExactlyWhenNoVetoPending | app/application/approval_service.py:450-552 | what the wait handed back can still change if and only if a veto was between its check and its write |
| VetoWindow.PendingVetoCanLandLate | app/application/approval_service.py:450-552 | a run in which an approved case is cancelled after it was handed back |
| VetoWindow.HandedBackIsFinal | app/application/approval_service.py:533-552 | with vetoes atomic, a decision handed back is never cancelled |
| VetoWindow.CancelledStays | app/application/approval_service.py:450-471 | a cancelled case stays cancelled |
| DecisionWait.RunsStayConsistent | app/application/approval_service.py:554-583 | under every interleaving the waiter's view stays true, and a decided case never changes |
| DecisionWait.AnswersAreFinal | app/api/mcp/datasources_server.py:328-345 | an answer handed back is the stored status for good, and the caller goes ahead only on somebody's approval |
| DecisionWait.ExpiryIsDue | app/application/approval_service.py:554-583 | a wait expires a case only past its own deadline |
| DecisionWait.WaitEnds | app/application/approval_service.py:554-583 | past its deadline a wait ends with its next poll: with what was decided, or by expiring a case nobody holds |
| DecisionWait.NothingIsAnsweredExactlyWhenRaced | app/application/approval_service.py:579-582 | in any run, the timed-out caller gets nothing if and only if somebody else holds the case: a reading of the claim |
| DecisionWait.ApprovedYetNotAnswered | app/application/approval_service.py:579-582 | a run in which an approval is stored and the caller does not go ahead |
| Enrollment.EnrollmentService.Transition | app/application/runners.py:201-204 | a status moves on only while it is still the expected one |
| Enrollment.EnrollmentService.Approve | app/application/runners.py:171-207 | an uninterrupted approval succeeds exactly on an open, unexpired request with this code, stores the runner with it, and does what its protocol steps do |
| Enrollment.EnrollmentService.Deny | app/application/runners.py:209-213 | an uninterrupted denial succeeds on the same condition, closes the request, and does what its protocol steps do |
| Enrollment.EnrollmentService.Poll | app/application/runners.py:215-233 | an uninterrupted poll: pending before the expiry and expired from it on, refused, gone, or the credential of the stored runner for good |
| Enrollment.StepKeepsInvariant | app/application/runners.py:106-233 | every step of every call keeps the account of who won which transition |
| Enrollment.OneRunnerPerRequest | app/application/runners.py:171-207 | under every interleaving a request leads to at most one runner |
| Enrollment.OneCredentialPerRequest | app/application/runners.py:215-233 | under every interleaving a request yields at most one credential |
| Enrollment.CredentialIsEarned | app/application/runners.py:215-233 | a credential goes only to a holder of the poll token, for the runner the approval was won with |
| Enrollment.ApprovalNeedsTheCode | app/application/runners.py:157-207 | only a call with the request's own code wins its approval |
| Enrollment.ApprovedOnlyInTime | app/application/runners.py:157-217 | under every interleaving, a request is approved, and yields a credential, only if somebody came with its code before it expired |
| Enrollment.WhatBecomesOf | app/application/runners.py:157-233 | which steps change the status of a request and the stored runners, and how, for every step |
| Enrollment.RequestsOnlyEvolve | app/application/runners.py:171-233 | a denied or consumed request never changes again |
| Enrollment.DeniedYieldsNothing | app/application/runners.py:209-233 | a denied request never yields a credential |
| Enrollment.PollYieldsExactlyWhenRunnerStored | app/application/runners.py:226-233 | a poll that won hands out the credential if and only if the runner is stored when it reads: a reading of its last steps |
| Enrollment.EarlyPollLosesTheCredential | app/application/runners.py:171-233 | a poll before the runner is saved uses the request up and gets nothing |
| Enrollment.EarlyPollCanHappen | app/application/runners.py:171-204 | the state from which this happens is reached from an empty store by a request and an approval |
| Limiter.SlidingWindowLimiter.Blocked | app/application/runners.py:82-89 | blocked exactly when the window that ends now holds the limit, whatever was trimmed before |
| Limiter.SlidingWindowLimiter.Hit | app/application/runners.py:91-93 | the hit is recorded and other keys are untouched |
| Limiter.SlidingWindowLimiter.Admit | app/application/runners.py:113-117 | checked and counted in one go, no window of the key ever exceeds the limit |
| Limiter.TrimIsUnique | app/application/runners.py:82-86 | trimming is exactly the cut between what has left the window and what has not |
| Limiter.TrimTracks | app/application/runners.py:82-89 | the trimmed deque is as long as the number of hits in the window that ends now |
| Limiter.OneMoreWithin | app/application/runners.py:113-117 | a hit after an unblocked check keeps every window within the limit |
| Limiter.WindowsAreBounded | app/application/runners.py:147-155 | with at most c attempts past their check at once, every half-open window holds at most limit + c - 1 hits that had a check, whatever unchecked ones come in between |
| Limiter.AttemptsComeAndGo | app/application/runners.py:82-93 | an attempt is past its check from one that finds room until its hit or its leaving |
| Limiter.CheckedHitsStayWithinLimit | app/application/runners.py:113-117 | when each checked hit directly follows its check, every window holds at most limit hits and the unchecked ones in it |
| Limiter.MissesComeOnTop | app/application/runners.py:147-169 | every hit in a window is a checked one or one of the unchecked ones of the schedule |
| Limiter.MissesAreNeverRefused | app/application/runners.py:157-169 | from any state any number of wrong codes in approve and deny come through, and each counts in its window |
| Limiter.OverlapExceedsLimit | app/application/runners.py:147-155 | two attempts that both check before either hits are let through, and their hits leave a window with one more than the limit |
| Limiter.CrowdExceeds | app/application/runners.py:147-155 | for every limit a schedule of checked attempts, two of them overlapping, fills one moment with one hit more than the limit |
| Limiter.LimitHoldsExactlyWhen | app/application/runners.py:74-169 | no schedule exceeds the limit if and only if no hit goes unchecked and at most one attempt, or at a limit of zero none, can be past its check at a time |
| LiveRunners.RunnerSession.Request | app/application/runners.py:317-323 | refused on a closed session, else a future under an id never used before |
| LiveRunners.RunnerSession.Resolve | app/application/runners.py:330-337 | a response answers only the open request with its id, and only once |
| LiveRunners.RunnerSession.FailAll | app/application/runners.py:339-344 | every open request ends as offline, answered ones keep their answer, none stays pending |
| LiveRunners.RunnerHub.Attach | app/application/runners.py:361-370 | the new session takes its runner's place and a previous one is closed with its requests failed |
| LiveRunners.RunnerHub.AttachAtOnce | app/application/runners.py:361-370 | with nothing at its await, the runner is online through the new session and announced |
| LiveRunners.RunnerHub.Detach | app/application/runners.py:372-376 | a socket that ended removes only its own session |
| LiveRunners.RunnerHub.Drop | app/application/runners.py:378-387 | a revoked runner has no open session |
| LiveRunners.RunnerHub.RequestOf | app/application/runners.py:427-433 | a request goes to the runner's one open session or is refused |
| LiveRunners.OneOpenSession | app/application/runners.py:347-387 | however connections race, a runner has at most one open session, the one in the table, and a closed one has no pending request |
| LiveRunners.OnlineExactlyWhenOpen | app/application/runners.py:357-359 | a runner counts as online if and only if some session of it is open |
| CrashLoop.Recovery.BeginRecovery | app/infrastructure/persistence/mongo.py:123-140 | the attempt is counted before anything runs, and only on an incomplete run |
| CrashLoop.Recovery.RecoverIncompleteRuns | app/core/container.py:794-838 | every candidate is treated as its turn says: resumed below the maximum, else failed and its workflow disabled; nothing else changes |
| CrashLoop.CounterIsResumes | app/core/container.py:797-806 | across any startups, crashes and retries the stored counter is the number of resumes since the run last completed a step or was parked again; a retry keeps it |
| CrashLoop.ResumedAtMostMax | app/core/container.py:797-806 | a run is resumed at most the maximum number of times without a sign of life |
| CrashLoop.FailedExactlyAfterMax | app/core/container.py:806-853 | at its turn in any startup an incomplete run is failed if and only if it had been resumed exactly the maximum number of times since it was created or last showed life, and resumed if and only if it had been less often or there is no maximum |
| CrashLoop.WhatBecomesOf | app/infrastructure/persistence/mongo.py:100-164 | which events change the status and the counter of a run and the disabled workflows, and how, for every event |
| CrashLoop.TurnOf | app/core/container.py:806-853 | the turn of one candidate: a job is closed, an exhausted run failed and its workflow marked, an incomplete one counted and resumed, nothing else touched |
| CrashLoop.StartupDooms | app/core/container.py:826-828 | every startup that finds a workflow run out of attempts incomplete lists it as one to be failed |
| CrashLoop.ExhaustedIsNotResumed | app/core/container.py:823-829 | whatever crashes, restarts and retries follow, a run out of attempts stays so and is not resumed until it shows a sign of life |
| CrashLoop.DisabledExactlyWhen | app/core/container.py:841-876 | over any events but a person switching it, a workflow is disabled if and only if it was before or fewer crashes fell between failing a run of it and writing the flag than runs of it were failed |
| CrashLoop.DoomedIsFailed | app/core/container.py:821-828 | unless the process crashes while it is on the list, a listed run out of attempts is failed, and stays so until it is retried |
| CrashLoop.ExhaustedIsQuarantined | app/core/container.py:841-853 | once the startup got past such a run, it has failed unless it was retried, and its workflow is disabled under exactly that condition, and so whenever no crash cut the disabling short |
| CrashLoop.CrashWhileDisabling | app/core/container.py:852-853 | in every history after a crash between the two without a retry, no startup lists the run again, and its workflow is disabled if and only if another run of it is failed and the flag written then |
| CrashLoop.EndedStaysEnded | app/infrastructure/persistence/mongo.py:100-160 | an ended run stays ended until somebody retries it and a disabled workflow disabled until somebody switches it on |
| CrashLoop.ResumesAreFinite | app/core/container.py:794-838 | without a sign of life all resumes over all restarts and retries use up the attempts left at the start, so they are finite |
| CrashLoop.LoopFollowsProtocol | app/core/container.py:814-838 | the loop's treatment of a candidate, of its run and of its workflow, is what its steps of the protocol add up to |
| ExpiringCache.RememberedKeeps | app/application/login.py:189-193 | after remembering, keys are distinct, at most max_entries are left, and the new entry is there |
| ExpiringCache.EvictedIsOldest | app/application/login.py:178-193 | an entry is evicted only after all entries used longer ago |
| ExpiringCache.BehindRemembered | app/application/login.py:178-193 | an entry stays while fewer other keys are used than there are places |
| LoginCache.EntryEndsWithToken | app/application/login.py:195-199 | an applied decision is not remembered past the token's own expiry but for a second, nor longer than max_ttl |
| LoginCache.EntryLastsWhileGood | app/application/login.py:195-230 | an entry lives exactly as long as what it holds is good: failures and decisions that did not land for the failure time, others until the token expires, at least a second and at most max_ttl, or for the default time |
| LoginCache.StepKeepsInvariant | app/application/login.py:98-230 | every piece of every request, login and save keeps the cache, the in-flight table and the loaded script consistent |
| LoginHistories.AnswersAreRuns | app/application/login.py:155-230 | for every interleaving an answer is the result or recorded failure of one finished run of exactly the script version in its key, and from the cache it is given only within the failure time of a failed or unapplied run, the default time of one without expiry, and else the token's own time, at least a second and at most max_ttl |
| LoginHistories.FinishedIsServed | app/application/login.py:155-193 | for every interleaving, within that time and while fewer other keys got answers than the cache has room for and it is not emptied, every request for the key is answered from the cache with that run's result and starts no run |
| LoginHistories.RequestsAreTakenUp | app/application/login.py:155-174 | every request that goes on is answered at once or waits for a run of the active script, which it starts only if there is none |
| LoginHistories.AwaitedRunsAnswer | app/application/login.py:169-230 | the end of a run answers those who wait for it with its result |
| LoginHistories.NewVersionStartsAfresh | app/application/login.py:143-153 | a change of version and an invalidation empty the cache |
| LoginHistories.CheckLoadsWhatIsSaved | app/application/login.py:98-147 | whenever the store has to be asked, a check that nothing interrupts loads the saved version |
| LoginHistories.SingleFlight | app/application/login.py:169-174 | no key has two runs at once |
| LoginHistories.CacheIsBounded | app/application/login.py:189-193 | the cache never holds more than max_entries |
| LoginHistories.QuickCallsAreRecent | app/application/login.py:98-125 | a request that does not ask the store uses a version that was current less than refresh_seconds ago, however loads overtake each other, unless the last check could not read the store |
| LoginHistories.SlowCallsAreCurrent | app/application/login.py:116-147 | a request that asks the store uses a version that was current while it waited |
| LoginServices.LoginService.DecisionFor | app/application/login.py:155-174 | no script, a live entry that becomes the newest, a run to wait for, or a new run of the active script under the request's key |
| LoginServices.LoginService.Cached | app/application/login.py:178-187 | a live entry is returned and becomes the newest, an expired one is removed |
| LoginServices.LoginService.Remember | app/application/login.py:189-193 | the entry is put in as the newest and the oldest dropped down to the limit |
| LoginServices.LoginService.Adopt | app/application/login.py:143-147 | a changed version empties the cache |
| LoginServices.LoginService.Conclude | app/application/login.py:203-230 | a finished run returns its decision, none when it failed, and remembers it for exactly as long as it is good |
| QuotaPark.BackOffShape | app/steps/acp_executor.py:462-464 | the back-off starts at a minute, never shrinks and is fifteen minutes from the fifth retry on |
| QuotaPark.BackOffDoubles | app/steps/acp_executor.py:462-464 | each back-off is twice the one before, up to fifteen minutes |
| QuotaPark.ParkLasts | app/steps/acp_executor.py:455-464 | a park lasts at least the shorter of half a minute and the retry time, and past a known reset |
| QuotaPark.ResumeIsDue | app/steps/acp_executor.py:455-464 | a known reset is waited for with a minute to spare but half a minute at least, an unknown one for the retry time |
| QuotaPark.ParkedExactlyWhen | app/steps/acp_executor.py:450-480 | a limit is waited out exactly when that ends within the longest wait from the first one, and is saved with that start |
| QuotaPark.RestartTakesUp | app/steps/acp_executor.py:512-525 | what a restart goes on with, by what the stored agent task says |
| QuotaPark.WakesInTime | app/steps/acp_executor.py:478-480 | a park is over exactly when its time has come, and the next prompt drops it from the stored task |
| QuotaPark.AcceptedParksFit | app/steps/acp_executor.py:465-469 | in every history, what is parked resumes within the longest wait after the first limit |
| QuotaPark.ParksAreBounded | app/steps/acp_executor.py:512-589 | in any history, completed parks fit into one window plus one for every crash that forgets it |
| QuotaPark.WaitsAreFinite | app/steps/acp_executor.py:512-589 | the same as a bound on the number of parks of a step |
| QuotaPark.WaitsFitWithoutCrash | app/steps/acp_executor.py:512-589 | a step whose process never crashes is done waiting within one longest wait |
| QuotaPark.WindowSurvivesExactlyWhileSaved | app/steps/acp_executor.py:512-519 | a restart keeps the start of the wait if and only if the stored agent task says it is waiting |
| QuotaPark.RestartWhileWorkingWaitsLonger | app/steps/acp_executor.py:436-448 | a step restarted while a prompt runs waits past the longest wait after its first limit |
| QuotaPark.Wait.Enter | app/steps/acp_executor.py:450-480 | parks and saves, or fails the step exactly when it would wait too long |
| QuotaPark.Wait.Restore | app/steps/acp_executor.py:512-519 | a stored wait is taken up in the window it had |
| ComputeLifecycle.Loaded.CompileCompute | app/application/sheet_compute_service.py:237-426 | what a compile stores, branch by branch, and that a hand-edited binding is left alone |
| ComputeLifecycle.Loaded.EditComputeCode | app/application/sheet_compute_service.py:434-513 | what a hand edit stores |
| ComputeLifecycle.Loaded.ActivateCompute | app/application/sheet_compute_service.py:521-572 | what an activation stores, when the fixture reproduces and when it does not |
| ComputeLifecycle.Loaded.MarkComputeStale | app/application/sheet_compute_service.py:575-602 | what marking stale stores |
| ComputeLifecycle.Loaded.RetestCompute | app/application/sheet_compute_service.py:608-680 | what a re-test stores |
| ComputeLifecycle.CompileIsStored | app/application/sheet_compute_service.py:237-426 | what a compile stores, over all refusals: a mark for a moved write or a cached code that no longer reproduces, nothing for one that does, else the generated code with its request and fixture |
| ComputeLifecycle.SameRequestIsCached | app/application/sheet_compute_service.py:327-352 | compiling the same request over the same sheet again generates nothing |
| ComputeLifecycle.EditIsStored | app/application/sheet_compute_service.py:434-513 | an accepted hand edit freezes what the new code computes, and a confirmation that finds just that runs it |
| ComputeLifecycle.ConfirmationIsStored | app/application/sheet_compute_service.py:521-572 | a confirmation sets code running that computes its fixture and marks any other as stale |
| ComputeLifecycle.FindingsAreStored | app/application/sheet_compute_service.py:575-680 | a re-test that finds other headers or another output does exactly what marking stale does |
| ComputeLifecycle.StartsRunningOnlyWhen | app/infrastructure/datasources/sheet_binding_runtime.py:393-404 | code starts to run only by a confirmation, or by a re-test of code still confirmed, and reproduces its fixture either way |
| ComputeLifecycle.NewCodeIsInert | app/application/sheet_compute_service.py:393-397 | whatever changes the code leaves it inactive |
| ComputeLifecycle.DriftedWriteIsOnlyMarked | app/application/sheet_compute_service.py:300-314 | a write whose headers moved is marked stale and nothing else: a reading of one operation |
| ComputeLifecycle.StaleYetActivatedExactlyWhen | app/application/sheet_compute_service.py:546-554 | which operations leave activated code stale |
| ComputeLifecycle.RetestRevivesExactlyWhenActivated | app/application/sheet_compute_service.py:665-680 | a passing re-test makes code run if and only if it still counted as activated: a reading of one operation |
| ComputeLifecycle.ActivatedIsLastConfirmed | app/application/sheet_compute_service.py:521-572 | over any sequence of operations, activated code is exactly the code present at the last successful activation |
| ComputeLifecycle.HandEditIsForGood | app/application/sheet_compute_service.py:273-282 | over any sequence, a hand edit stays marked and only another edit changes the code |
| ComputeLifecycle.DriftedWriteIsNeverRegenerated | app/application/sheet_compute_service.py:300-314 | over any sequence, a write is not re-authored while its headers differ from the saved ones |
| ComputeLifecycle.RevivedWithoutConfirmation | app/application/sheet_compute_service.py:546-680 | a failed re-activation and a passed re-test put code back to work without a confirmation |
| ComputeLifecycle.NothingRunsUnconfirmed | app/application/sheet_compute_service.py:135-176 | however operations overlap, activated code was confirmed as it stands and running code has reproduced the fixture stored with it |
| ComputeLifecycle.EditLostExactlyWhen | app/application/sheet_compute_service.py:135-176 | storing undoes a hand edit's mark if and only if the operation loaded the binding before it and is no edit, and the code of a later edit if and only if it loaded other code: a reading of one step |
| ComputeLifecycle.HandEditStays | app/application/sheet_compute_service.py:135-176 | with nothing in flight from before it, a hand edit keeps its mark for good and its code until the next edit |
| ComputeLifecycle.OverlappingActivationLosesEdit | app/application/sheet_compute_service.py:434-572 | an activation that overlaps a hand edit throws it away |
| Streaming.QueueSink.Write | app/application/data_artifacts.py:406-409 | a non-empty block is appended, an empty one is not, and the length is returned |
| Streaming.QueueSink.Take | app/application/data_artifacts.py:417-418 | items come out in the order they went in |
| Streaming.DownloadsAreExact | app/application/data_artifacts.py:392-450 | for every schedule a completed download yielded exactly the stored bytes and any other a prefix, with the queue within its bound |
| Streaming.SomebodyCanMove | app/application/data_artifacts.py:392-450 | while the reader reads, nothing can move if and only if the final put holds the event loop before a full queue with no take under way, and each move uses up work |
| Streaming.DownloadsEnd | app/application/data_artifacts.py:421-450 | no schedule goes on for ever, and one that cannot go on has come to its end or stalled in that way |
| Streaming.StallsExactlyWhenQueueFills | app/application/data_artifacts.py:421-450 | some schedule stalls the download of an artifact if and only if its non-empty blocks are at least as many as the queue holds |
| Streaming.AbandonedCopyEndsExactlyWhenRoom | app/application/data_artifacts.py:445-450 | after the reader left, copy and clean-up both finish if and only if all that is left to put fits the queue, one item more when a take was still under way |
| Streaming.LeftFollows | app/application/data_artifacts.py:392-450 | what is left to do after the reader is gone changes with each step of the copy just as the moves counted there |
| Streaming.LeavingAFullQueueBlocks | app/application/data_artifacts.py:445-450 | leaving between two takes while the queue is full blocks both |
| Streaming.StartedKeepsContent | app/application/data_artifacts.py:472-491 | reading the first block early leaves the content unchanged |
| JsonFraming.JsonArrayChunks | app/application/data_artifacts.py:453-469 | the blocks concatenate to "[", the records joined by ",", and "]", none of them empty |
| JsonFraming.ElementsPastValue | app/application/data_artifacts.py:453-469 | a reader of arrays moves past exactly one value |
| JsonFraming.StringIsValue | app/application/data_artifacts.py:453-469 | any characters in a string, escaped, are one value to the reader |
| JsonFraming.ListIsValue | app/application/data_artifacts.py:453-469 | values joined by commas between brackets or braces are one value to the reader, so records may nest |
| JsonFraming.ValuesEndAtSeparators | app/application/data_artifacts.py:453-469 | no value goes on past a comma or a closing bracket of its own |
| JsonFraming.ArrayRoundTrip | app/application/data_artifacts.py:453-469 | reading the framed array gives back exactly the records |
| JsonFraming.FramingIsInjective | app/application/data_artifacts.py:453-469 | different record lists are framed differently |
| Paging.ReadWindow | app/application/management_tools.py:747-779 | the bytes of the window however the stream is cut into chunks, and more is said exactly when the window is full |
| Paging.WindowGrows | app/application/management_tools.py:767-776 | what is kept of a chunk extends the window over what was seen |
| Paging.ReadAll | app/application/management_tools.py:765-797 | reading on from each reported offset ends and gives the artifact byte for byte |
| Paging.PagesReassemble | app/application/management_tools.py:716-719 | the pages concatenate to the artifact |
| Paging.PageCount | app/application/management_tools.py:777-797 | how many pages there are, and that the last is empty exactly when the others hold every byte |
| Paging.CharsAreEncodings | app/application/management_tools.py:781 | what the decoder takes for a character is exactly what encodes one Unicode scalar value |
| Paging.DecodeWhole | app/application/management_tools.py:781 | decoding gives back the characters that were encoded |
| Paging.TwoPieces | app/application/management_tools.py:716-719 | two pieces of a text decode to the whole if and only if the cut is between two characters |
| Paging.PagedTextIsWholeExactlyWhen | app/application/management_tools.py:716-719 | the pages put together as text are the text if and only if no page ends inside a character |
| Paging.SplitCharacterIsLost | app/application/management_tools.py:781 | a character split by a page boundary comes out as replacements |

## Left out

- LayerOrder.OrderLayers: does not say how few edges cross, because the sweeps are a heuristic that promises nothing; each single reordering is stated exactly.
- Floating-point error, NaN and infinities in layouts and stored positions; floats are reals.
- The `ui` document being absent; step ids that are not strings and targets that are not lists; a route without a `next` is treated as an ending.
- Visibility: unauthenticated saves, changes of teams while requests run, read-only resources and display names; the four backends are all configured and each operation is one step, as its races are not promised anything about. Revocations are outside the run theorem, with their exact condition beside it.
- Approval: the model's reply and its parsing, Slack, record_confirmed in the history, data sources without an id, and cases deleted while somebody waits; whether an operation is on probation is a parameter of `Autonomy.Bucket.OpenCase`, and the time limit of a veto is part of `VetoWindow` only.
- Enrollment: generating codes, cleaning up old requests by age, and the rate limits, which have their own module.
- LiveRunners: the data sockets being opened (open_socket, offer_data_socket) and the online event, whose order against a revocation is not promised.
- CrashLoop: how a run is rebuilt from its stored steps, a failed write of the disabled flag or one that races a save of the workflow, and runs deleted while recovery works through its list; a retry may come for any ended run, which is more than the service accepts.
- LoginCache: the side effects on profiles and teams beyond whether they landed, cancelled logins, and a clock that runs backwards.
- QuotaPark: recognising a limit in an agent's error text, limits shared by a runner's agents, the message turns after the first result, and timestamps cut to the precision they are stored with.
- ComputeLifecycle: what the generator and the sandbox do, the operations compiled from a binding, saving a binding by other routes, and white space other than blanks, tabs and line ends.
- Streaming: worker threads running short, how large the blocks are, CSV artifacts, and the value-to-JSON encoder, which is taken to give the text of one value per record.
- Paging: the text around a page, and an artifact that changes between two pages.
- HTTP, MCP and ASGI wrappers, MongoDB and object storage, Kubernetes and Docker, prompts and their parsing, configuration and migrations: plumbing, or members that would only be easy.
