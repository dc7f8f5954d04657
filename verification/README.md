# Browser control, verified

This project models the browser-control core of the agent and two of its channel stores, and proves what they keep
over whole runs. Each component has a state machine (or, for the pure parts, functions) that follows the program's own
branches, theorems about all runs of it, and, where the program updates objects in place or loops, a class or method
proved to do exactly what the state machine says. What pages, networks, clocks and files answer is an input of each
step, so the theorems hold for every environment.

| files | component |
|---|---|
| `ProtectedForm*.dfy`, `ProtectedSnapshot.dfy` | protected form transactions: collecting, delivering, clearing, settling |
| `ProtectedSource*.dfy` | one-use reads of protected page values |
| `SnapshotState.dfy`, `SnapshotMeaning.dfy`, `Locator.dfy`, `LocatorAcceptance.dfy` | observation counters and the validity of element refs |
| `Rendering.dfy`, `Compactor.dfy`, `RenderingOrder.dfy` | rendering a page under a character budget |
| `TabSession.dfy`, `TabRuns.dfy`, `TabOutcomes.dfy`, `SessionManager.dfy` | tabs, attachments and sessions |
| `Bits.dfy`, `IpAddresses.dfy`, `IpBlocks.dfy`, `Ipv6.dfy`, `UrlChecks.dfy`, `UrlNumbers.dfy`, `UrlVerdicts.dfy` | IP arithmetic, URL safety, classification, routing |
| `HybridBackend.dfy`, `HybridPages.dfy`, `HybridLatest.dfy`, `HybridBackendClass.dfy` | routing browser keys to the cloud or the local browser |
| `Settling.dfy` | waiting for an action to settle |
| `CdpRequests.dfy`, `CdpClient.dfy` | request correlation over a CDP socket |
| `Downloads.dfy`, `DownloadOrder.dfy`, `DownloadReports.dfy`, `DownloadSupervisor.dfy` | meeting of download events and waiting callers |
| `TextOrder.dfy`, `IsoDates.dfy`, `BindingTable.dfy`, `BindingRuns.dfy`, `BindingMeaning.dfy`, `BindingStore.dfy` | the bounded table of message bindings |
| `SessionKeys.dfy`, `Doubles.dfy`, `SessionIds.dfy`, `SessionMeaning.dfy`, `SessionStore.dfy` | channel session ids across restarts |
| `PercentCoding.dfy`, `ActionTokens.dfy`, `TokenTexts.dfy` | tokens behind approval and secure-input buttons |
| `Wrappers.dfy`, `BrowserTypes.dfy`, `Text.dfy`, `Decimal.dfy` | shared types and string functions |

`dafny verify dfyconfig.toml` checks everything.

Some promised properties turned out to hold only under a condition. The code is modelled as it is; for each there is a
lemma with an input on which the property fails and one that says exactly when it holds:

- Releasing a form transaction drops index entries by key, also those another transaction has taken over
  (`IndexLosesField`; `ReleaseFindableIff` for one release).
- A remote handle is lost when page evaluation throws after the document handle of a first field was taken, or when a
  released field is collected again inside its transaction (`ThrowLosesHandle`, `RebindLosesHandle`; `StepHandles`,
  `HandlesConserved`).
- A page that fits its budget but was reduced before loses text to the truncation suffix, unreported
  (`ReducedPageLosesText`; `ReducedPageKeptIff`).
- A page can exceed its budget when its header ends with the truncation suffix (`SuffixedTitleExceeds`; `BudgetKeptIff`).
- Binding dates are compared as text, so a retention past the year 9999 expires at once (`LongRetentionExpiresAtOnce`;
  `RecordedResolvesIff`, `IsoOrder`).
- Session ids repeat once the sequence reaches 2^53, which numeric user ids in the file make it do (`LargeUserIdsRepeat`;
  `TwoRenewalsDifferIff` for two resets in a row), and after a failed first read (`FailedLoadRepeats`;
  `RenewalAfterFailureRepeatsIff`).
- A navigated key that ends in the local suffix does not reach its own session (`SuffixedKeyIsLost`;
  `ActionReachesOwnEntryIff`).
- A failing close of the session in use leaves it in use though it is no longer routed, so operations without a session id
  find none (`FailedCloseStrands`; `ForgottenFallsBackIff`).
- An IPv4 address carried in an IPv6 one is judged by its own number only behind `::ffff:` (`SpelledOutQuadIsPublic`;
  `LiteralIff`, `NameIff`).
- Region refs may come to denote another region (`RegionRefsMayMove`; `AcceptedRegionRefIff`).
- The end of a cancelled competing download reaches the caller waiting for the first one (`CompetitorIsHandedOver`;
  `HandOverIsActiveIff`), and so does the late end of one reported as too large (`LateCancelIsHandedOver`;
  `OrderlyHandOvers` gives the runs free of both).
- A page left where nothing has judged it safe stays within reach of actions (`UnsafePageStaysReachable`;
  `UnjudgedPageReachedIff`).
- Approval and secure-input tokens nobody rendered parse when a code is an inherited property name
  (`InheritedNameMessages`; `ParsedIsProperIff`, `ParsedInputIsProperIff`).

Closing the download supervisor leaves every waiting caller to its timeout or signal, on all runs (`CloseStrandsWaiters`).

## Model

| member | source | states |
|---|---|---|
| `ProtectedFormTheorems.SensitiveUntilDischarged` | src/browser/protected-browser-field.ts:262-356 | From a delivery that attempts a write, the session is sensitive at the end of every continuation in which no operation discharges that transaction; discharging means a clear pass read back as empty, a departed challenge, or the session invalidated or cleared. |
| `ProtectedFormTheorems.StepRetains` | src/browser/protected-browser-field.ts:358-423 | In every reachable state an operation ends the exposure of a transaction exactly when it is one of the named discharges: a clear pass that is really made and read back as empty (in an abort, one the loop reaches), a departed challenge, or the session invalidated or cleared. |
| `ProtectedFormTheorems.DeliveryExposes` | src/browser/protected-browser-field.ts:281-304 | Any delivery that changes the state has attempted a write and leaves its transaction exposed, also when the write call throws. |
| `ProtectedSnapshot.SensitiveViewHidesContent` | src/browser/protected-browser-field.ts:532-561 | While a session is sensitive two pages yield the same protected snapshot exactly when they differ only in text, names, values, labels, regions, dialogs, frames, console, opened tabs or URL paths. |
| `ProtectedSnapshot.ContentHiddenUntilDischarged` | src/browser/protected-browser-field.ts:532-561 | The two results above together: from an attempted write until a discharge, pages that differ only in content give equal snapshots, over every run. |
| `ProtectedFormTheorems.IndexAgreement` | src/browser/protected-browser-field.ts:154-224 | After every run each index entry points to a live, unreleased transaction of its session that holds an unreleased field under that key, and the live list is exactly the unreleased transactions. |
| `ProtectedFormIndex.ReleaseFindableIff` | src/browser/protected-browser-field.ts:779-797 | Releasing a transaction deletes index entries by key alone, so every unreleased field stays findable exactly when no other live transaction of the session holds an unreleased field under one of the released keys. |
| `ProtectedFormIndex.FindableOnSeparateRuns` | src/browser/protected-browser-field.ts:624-629 | On runs where no field is bound under a key that another live transaction still carries, the index finds every unreleased field of every live transaction; refused collections do not matter. |
| `ProtectedFormIndex.VerifiedIffBinds` | src/browser/protected-browser-field.ts:142-206 | A collection is verified exactly when it is admitted, the page shows the field as usable, and the document or the submit control, as the case needs, is still there; any other collection changes no binding. |
| `ProtectedFormWitness.IndexLosesField` | src/browser/protected-browser-field.ts:779-797 | A concrete run in the order the only caller produces: two fields are delivered, the form is clicked, settles as still present and is cleared, the first field is released and collected again, the second is released; a live transaction then holds an unreleased field that the index does not find. |
| `ProtectedFormTheorems.PhasesNeverReturn` | src/browser/protected-browser-field.ts:226-231 | Over every run a transaction that left the collecting states, or the delivering state, never returns to them, and a release is final. |
| `ProtectedFormTheorems.ClickedAtMostOnce` | src/browser/protected-browser-field.ts:305-349 | The submit control of a transaction is clicked at most once on any run. |
| `ProtectedFormTheorems.ClickOnlyWhenComplete` | src/browser/protected-browser-field.ts:296-349 | A click is only dispatched by a delivery into that transaction while it was collecting or delivering, and only when every one of its fields was delivered by a confirmed write. |
| `ProtectedFormHandles.StepHandles` | src/browser/protected-browser-field.ts:154-224 | No operation frees a remote handle twice or leaves it in two places, and a handle is lost exactly when the page throws while a first field already holds the document handle, or when a collecting transaction binds a released field again; what is lost stays lost. |
| `ProtectedFormHandles.HandlesConserved` | src/browser/protected-browser-field.ts:779-797 | Over every run no handle is freed twice or used after being freed, and each handle taken is held by exactly one live transaction or was freed exactly once, exactly when no step of the run is one of the two losing collections. |
| `ProtectedFormWitness.ThrowLosesHandle` | src/browser/protected-browser-field.ts:154-186 | A concrete run: the page throws while the first field is looked up, and the document handle is lost. |
| `ProtectedFormWitness.RebindLosesHandle` | src/browser/protected-browser-field.ts:154-206 | A concrete run: one of two fields is released and collected again before any delivery, and its first handle is lost. |
| `ProtectedFormRuns.RunKeeps` | src/browser/protected-browser-field.ts:579-605 | The whole invariant of the controller holds after every run and transactions only move forward. |
| `ProtectedFormController.Controller.DeliverValue` | src/browser/protected-browser-field.ts:262-356 | The method updating maps, flags and page records in place does exactly what the delivery step says: checks, attempted and delivered marks, automatic or explicit submit, failure handling. |
| `ProtectedFormController.Controller.ReleaseDestination` | src/browser/protected-browser-field.ts:358-379 | Releasing one destination in place equals the release step: clear pass if values may remain, released mark, index entry, and the transaction when its last field goes. |
| `ProtectedFormController.Controller.AbortDestinations` | src/browser/protected-browser-field.ts:381-400 | Aborting in place equals the abort step over the mentioned transactions, stopping at the first failing clear. |
| `ProtectedFormController.Controller.SettleDestination` | src/browser/protected-browser-field.ts:460-523 | Settling in place equals the settle step: fallback answer, departure, still present or blocked, and the clear pass that follows. |
| `ProtectedFormController.Controller.ReconcileSession` | src/browser/protected-browser-field.ts:439-458 | Reconciling in place equals the reconcile step for every live transaction of the session. |
| `ProtectedFormController.Controller.Sensitive` | src/browser/protected-browser-field.ts:121-124 | The loop over transactions answers whether some transaction of the session requires protection. |
| `ProtectedFormController.Controller.constructor` | src/browser/protected-browser-field.ts:111-115 | A new controller is in the initial state and satisfies the invariant. |
| `ProtectedFormAcceptance.CollectedIff` | src/browser/protected-browser-field.ts:131-206 | A field is bound exactly when the call is not aborted, comes from the session, tab, origin and frame the destination names, carries an identity, its key is not bound, nothing else of the session awaits protection, the document is still there or resolves, the ref names an element, and the element is connected, current, visible, enabled, editable, of its kind and without conflicts; and so is the submit control. |
| `ProtectedFormAcceptance.CollectedBinds` | src/browser/protected-browser-field.ts:187-224 | What a verified collection leaves: the field with its kind, element and handles in one transaction of the session, entered in the index under its key. |
| `ProtectedFormAcceptance.CheckedIff` | src/browser/protected-browser-field.ts:131-260 | A delivery passes its check exactly on the right page, for the very destination and kind of an unreleased field whose transaction still waits for values, on the same supervisor, tab, frame and document, with every field and the submit control of the transaction fit for use. |
| `ProtectedFormAcceptance.WrittenIff` | src/browser/protected-browser-field.ts:262-304 | A secret is written, once and into that field, exactly when the check passes, the value decodes and suits the field, and the page confirms the write; a delivery that attempts nothing changes nothing, and one that does marks the field as attempted. |
| `ProtectedFormAcceptance.SubmittedIff` | src/browser/protected-browser-field.ts:305-356 | After an attempted write the phase of the transaction, the report to the caller and whether the submit control is clicked are determined by the page's answers alone: nothing to submit, submitted by the page itself, not actionable, clicked, or failed. |
| `ProtectedFormAcceptance.ChallengeSettled` | src/browser/protected-browser-field.ts:460-482 | Whether a challenge counts as still there or gone when settling, told by the caller's fallback, the document and the page's answers on each field. |
| `ProtectedFormAcceptance.SettledPhase` | src/browser/protected-browser-field.ts:460-523 | The phase a settled transaction is left in: departed and released when the challenge is gone, still present when it is there and any clear pass reads back empty, blocked otherwise. |
| `ProtectedFormAcceptance.ReconciledPhase` | src/browser/protected-browser-field.ts:439-458 | The phase a reconciled transaction is left in, told by the page's answers. |
| `ProtectedFormAcceptance.ExposureEndsIff` | src/browser/protected-browser-field.ts:358-523 | In every reachable state an operation ends the exposure of a transaction exactly on evidence spelled out in the page's answers: each attempted field read back as empty, or the challenge gone, or the session invalidated or cleared. |
| `ProtectedFormAcceptance.RefNamesElementIff` | src/browser/protected-browser-field.ts:1015-1020 | An element ref names element n exactly when it is the sign @e followed by n + 1 in decimal. |
| `SnapshotState.SnapshotIdentityState.ObserveBrowserState` | src/browser/snapshot-state.ts:35-71 | One observation in place: the counters, action map, document and tab it leaves, and the identity and the observation date put on the snapshot; a clock no date can hold throws after the record has changed. |
| `SnapshotState.CountersOrdered` | src/browser/snapshot-state.ts:41-62 | After any observations documentEpoch <= actionRevision <= observationId, the last being the number of observations. |
| `SnapshotState.CounterCheckExact` | src/browser/snapshot-state.ts:41-62 | Two observations agree in epoch and revision exactly when no observation in between changed the action map, the tab or the document. |
| `SnapshotState.QuietStretch` | src/browser/snapshot-state.ts:82-114 | A stretch without such changes ends with the action map it began with, and in the same tab and document wherever both ends show one. |
| `SnapshotState.DocumentTextsDiffer` | src/browser/snapshot-state.ts:120-127 | For frame ids without colons the printed document signal tells two documents apart exactly as their frame, loader and, without a loader, context do. |
| `SnapshotMeaning.SameMapIff` | src/browser/snapshot-state.ts:82-118 | Two pages have the same action map exactly when the same of the three lists are present, their actionable elements agree one by one in every attribute but value and checked state, their hit-testable regions in all but the ref, and their dialogs in all but the id. |
| `SnapshotMeaning.CountersCount` | src/browser/snapshot-state.ts:41-62 | The first observation is (1, 1, 1); each later one counts itself, a document exactly when the tab or document differs from the last one shown before, and a revision exactly when one of them does or the action map is another. |
| `Locator.AcceptedRefIsSound` | src/browser/browser-locator.ts:292-353 | An element ref issued at one observation and accepted at a later one denotes an element with the same attributes apart from value and checked, in the same tab and document, and the action map did not change in between. |
| `Locator.QuietRefIsAccepted` | src/browser/browser-locator.ts:319-353 | Conversely the ref stays accepted over every stretch without changes. |
| `Locator.RegionRefsMayMove` | src/browser/browser-locator.ts:292-315 | Region refs do move: after two regions swap refs the old ref is accepted and denotes the other region. |
| `Locator.AcceptedRegionRefIff` | src/browser/browser-locator.ts:273-353 | For any two observations an accepted region ref denotes the region it was issued for, up to the ref, exactly when the hit-testable regions of the page it was issued on look the same at the ref's old and new position. |
| `LocatorAcceptance.AcceptedIff` | src/browser/browser-locator.ts:225-353 | A ref is accepted, and denotes that target, exactly when one of ref and region ref is given, session and tab are not blank and those of the page, the identity is valid and agrees in document and revision, and the target is the first element with the ref, not hidden, disabled or non-interactable, or the first region with it, hit-testable. |
| `LocatorAcceptance.RefusedIff` | src/browser/browser-locator.ts:225-353 | Which input is refused as another session's, another tab's, stale, invalid or not found, each exactly. |
| `Rendering.PackingIsPrefixAndMaximal` | src/browser/snapshot-compactor.ts:198-238 | The packing shows the header first, for each section nothing or its heading once and a prefix of its lines in order, fits the budget beyond the header, and no section could have shown one more line. |
| `Rendering.OmittedCounts` | src/browser/snapshot-compactor.ts:231-238 | The section lines rendered and omittedItems add up to all section lines. |
| `Rendering.FitsIff` | src/browser/snapshot-compactor.ts:240-244 | The length arithmetic of the fit test is exact after a first line (it holds exactly when the joined text fits) and one character too strict before it. |
| `Rendering.SuffixFitsIff` | src/browser/snapshot-compactor.ts:246-261 | The suffix step keeps the budget exactly when the text does not already end with the suffix while over budget. |
| `Rendering.SuffixKeepsIff` | src/browser/snapshot-compactor.ts:246-261 | The suffix step cuts nothing but trailing white space exactly when the text, trimmed at its end, leaves room for the suffix. |
| `Rendering.BudgetKeptIff` | src/browser/snapshot-compactor.ts:198-261 | The rendered page exceeds its budget exactly when the header alone does and ends with the suffix. |
| `Rendering.ShownLinesSurvive` | src/browser/snapshot-compactor.ts:246-261 | If any section line is shown the suffix step cuts nothing but trailing white space. |
| `RenderingOrder.RenderedIs` | src/browser/snapshot-compactor.ts:198-238 | The rendered page line by line: the header, then in order the minimum of each section for which it fits behind what was given before, then for each section in turn the lines it still shows, which stop exactly where the next one does not fit into the budget less the suffix and a line break. |
| `RenderingOrder.PackingIsUnique` | src/browser/snapshot-compactor.ts:198-238 | Only one choice of sections and line counts keeps both rounds, so the rendered page is determined. |
| `RenderingOrder.SuffixedIs` | src/browser/snapshot-compactor.ts:246-251 | The suffix step keeps as much of a text without the suffix as leaves 34 characters, less trailing white space, and puts the suffix on a line of its own, or gives the suffix alone as far as it fits. |
| `Compactor.RenderBudgetedSections` | src/browser/snapshot-compactor.ts:198-238 | The two greedy loops produce the text and the omitted count of the specified packing. |
| `Compactor.CompactPageText` | src/browser/snapshot-compactor.ts:263-305 | Sorting page text conserves fragments: buckets plus omitted equal the non-empty fragments, bucket keys are pairwise distinct and not shown by an element, every dropped key is shown somewhere, and each bucket holds, in their order, exactly the lines it calls for of those whose key no element shows, each where it comes first. |
| `Compactor.CompactSnapshot` | src/browser/snapshot-compactor.ts:28-81 | The budget branches: the result exceeds the budget exactly when the header does and ends with the suffix; a page that fits is compacted exactly when its text was reduced or the caller had measured more, and is otherwise untouched; of a page that does not fit, rendered and omitted lines are all lines. |
| `Compactor.ReducedPageKeptIff` | src/browser/snapshot-compactor.ts:28-81 | A page that fits but was already reduced loses nothing but trailing white space exactly when it leaves room for the suffix; the result is marked truncated only if the page text was. |
| `Compactor.ReducedPageLosesText` | src/browser/snapshot-compactor.ts:28-81 | A page whose header holds a title of 90 characters: under the smallest budget the last 23 of them are cut, and the result is not marked truncated. |
| `Compactor.SuffixedTitleExceeds` | src/browser/snapshot-compactor.ts:174-189 | A page whose title ends with the suffix yields a result longer than the smallest budget. |
| `BindingRuns.RecordFailsIff` | src/channels/channel-message-turn-store.ts:71-156 | Exactly when recording fails (validation, target, date range, or an unexpired binding to another session, turn or direction), and that the table is then unchanged. |
| `BindingRuns.RecordKeepsLast` | src/channels/channel-message-turn-store.ts:71-156 | After a committed record the profile holds exactly the last maxBindings rows, in creation, scope and id order, of the unexpired and the new ones; other profiles keep every row. |
| `BindingRuns.PruneKeepsLast` | src/channels/channel-message-turn-store.ts:181-223 | The same for pruning. |
| `BindingTable.KeepsLastIsUnique` | src/channels/channel-message-turn-store.ts:207-223 | That description leaves no choice: two tables that meet it are equal. |
| `BindingTable.InsertEachIff` | src/channels/channel-message-turn-store.ts:122-145 | Inserting the ids succeeds exactly when none is bound elsewhere and then adds exactly the ids that were not bound. |
| `BindingTable.ScopesStayApart` | src/channels/channel-message-turn-store.ts:226-240 | With an injective digest two surfaces share a scope only when all six of their fields agree, absent fields included. |
| `BindingRuns.StepKeepsRow` | src/channels/channel-message-turn-store.ts:71-223 | A row a write does not treat as expired is left exactly as it is, or its target was deleted, or it was evicted by a full profile of later rows. |
| `BindingRuns.BindingsAreImmutable` | src/channels/channel-message-turn-store.ts:122-133 | Over every run a binding keeps session, turn, direction and dates for as long as it is in the table and unexpired. |
| `BindingRuns.OtherProfilesUntouched` | src/channels/channel-message-turn-store.ts:199-223 | Over every run of stores of other profiles a row is neither changed, removed nor added. |
| `BindingRuns.BoundHolds` | src/channels/channel-message-turn-store.ts:207-223 | A profile within its bound stays within it over every run, and any committed write brings it there. |
| `BindingRuns.RecordedResolvesIff` | src/channels/channel-message-turn-store.ts:158-179 | A recorded id resolves at once to its turn exactly when it was not evicted and its new expiry date has a four digit year. |
| `BindingMeaning.ResolvedNames` | src/channels/channel-message-turn-store.ts:117-178 | A recorded id that resolves does so to the session id, turn id and direction of the request; where the row was written by this call, also to its channel, the present as creation date and the present plus the retention as expiry. |
| `BindingMeaning.RecordedIff` | src/channels/channel-message-turn-store.ts:71-133 | Recording succeeds exactly for a legible request that has no ids, or whose turn is a user message of that session in this profile, whose expiry can be written as a date, and whose ids are free or bound to the same session, turn and direction. |
| `BindingMeaning.LegibleRequestIff` | src/channels/channel-message-turn-store.ts:238-257 | Which requests pass validation: every identifier given, not blank, within its length and without control characters, and a direction that is inbound or outbound. |
| `BindingMeaning.WrittenIff` | src/channels/channel-message-turn-store.ts:83-85 | A request writes exactly the ids that occur in it after fewer than 256 others. |
| `BindingMeaning.PrunedAreOldest` | src/channels/channel-message-turn-store.ts:181-222 | What pruning removes is expired or older, by the printed creation date, scope and id, than every row of the profile it leaves. |
| `BindingMeaning.RecordGivesUpOldest` | src/channels/channel-message-turn-store.ts:119-222 | So it is for recording, among the rows there are once the new ones are added. |
| `BindingRuns.LongRetentionExpiresAtOnce` | src/channels/channel-message-turn-store.ts:116-145 | Dates are compared as text, so an accepted retention that reaches past the year 9999 makes every new binding unresolvable at once. |
| `TextOrder.DateLessIsTimeOrder` | src/channels/channel-message-turn-store.ts:199-205 | For a first date with a four digit year the text order of printed dates is the order of the times exactly when the second one has such a year too. |
| `IsoDates.IsoOrder` | src/channels/channel-message-turn-store.ts:116-118 | The printed texts of two dates, years past 9999 and before 0 included, compare exactly as the order used for the table says, and differ for different dates. |
| `BindingStore.TurnStore.Record` | src/channels/channel-message-turn-store.ts:71-156 | The transaction over the shared table, with its insertion loop and rollback, gives exactly the specified table and result. |
| `BindingStore.TurnStore.DeleteExcess` | src/channels/channel-message-turn-store.ts:207-223 | Deleting the first rows one by one leaves the specified table and counts them. |
| `BindingStore.TurnStore.Resolve` | src/channels/channel-message-turn-store.ts:158-179 | Resolving returns a row exactly when the table has an unexpired one for this profile, scope and message, and then that row; it fails exactly on an invalid scope or message id. |
| `TabRuns.TabRefsNeverMove` | src/browser/session-manager.ts:120-138 | Over any run of a session a tab ref never denotes two different targets, however far apart the two moments are. |
| `TabOutcomes.SwitchTabIff` | src/browser/session-manager.ts:153-205 | A switch to a well-formed ref that the listing shows succeeds exactly when the target is activated and, unless it is the controlled one or the owner's, attached to; then that target is controlled under that ref. |
| `TabOutcomes.SwitchTabRefused` | src/browser/session-manager.ts:153-165 | Which switch is refused as not supported, for an ill-formed ref, a failing listing or a ref that is not shown, each exactly. |
| `TabOutcomes.OpenTabIff` | src/browser/session-manager.ts:207-226 | Opening succeeds exactly when the target is created, the listing shows it and the browser lets the session take it; a failed opening forgets its ref. |
| `TabOutcomes.RunIsWellNamed` | src/browser/session-manager.ts:298-304 | Over every run of a session every ref it holds or will give out is well formed. |
| `TabOutcomes.ListTabsShows` | src/browser/session-manager.ts:120-138 | A listing shows every target in order with the ref it has, or, where a new target is met first, the next number after those of the new targets before it. |
| `TabOutcomes.TabRefIff` | src/browser/session-manager.ts:332-337 | A text passes the ref validation exactly when it is the sign @t followed by a positive number in decimal. |
| `TabRuns.RunKeeps` | src/browser/session-manager.ts:153-226 | At every moment of every run, through every failing path, each attachment obtained is exactly one of active, retired and closed, and there is no active attachment exactly when the owner target is controlled. |
| `TabSession.SwitchTabKeeps` | src/browser/session-manager.ts:153-205 | A successful switch controls the target its ref was issued for; a failing one leaves target, attachment and ref as they were. |
| `TabSession.OpenTabKeeps` | src/browser/session-manager.ts:207-226 | A successful open controls the created target; a failing one leaves the controlled tab as it was. |
| `TabSession.ListedKeeps` | src/browser/session-manager.ts:120-138 | Listing keeps the refs of the targets it shows and never touches what is controlled. |
| `TabSession.TabRefIsTabRef` | src/browser/session-manager.ts:298-337 | Every ref the session generates passes the ref validation. |
| `TabRuns.CloseReachesEverything` | src/browser/session-manager.ts:307-323 | Closing a session calls each attachment that is still open exactly once, and the owner target once. |
| `TabRuns.EverySessionIsSound` | src/browser/session-manager.ts:72-118 | After every run of the manager every stored session satisfies the invariant. |
| `SessionManager.StoredSession.SwitchTab` | src/browser/session-manager.ts:153-205 | The method updating the session in place equals the specified switch. |
| `SessionManager.StoredSession.OpenTab` | src/browser/session-manager.ts:207-226 | The method updating the session in place equals the specified open. |
| `SessionManager.StoredSession.ListTabs` | src/browser/session-manager.ts:120-138 | The sweeping and naming loops equal the specified listing. |
| `SessionManager.StoredSession.Close` | src/browser/session-manager.ts:307-323 | Every close call is made in order whatever the earlier ones do, and failure is reported exactly when one throws. |
| `SessionManager.BrowserSessionManager.Acquire` | src/browser/session-manager.ts:72-118 | Acquiring returns the stored session or stores a fresh one, and leaves the other sessions alone. |
| `SessionManager.BrowserSessionManager.Close` | src/browser/session-manager.ts:228-245 | The session is forgotten before it is closed, and all its close calls are made. |
| `SessionManager.BrowserSessionManager.CloseAll` | src/browser/session-manager.ts:247-267 | All sessions are forgotten, each is closed in insertion order, and exactly the failing keys are reported. |
| `IpAddresses.CidrIsQuotient` | src/browser/url-safety.ts:245-252 | The signed bit mask test equals equality of quotients by 2^(32-prefix). |
| `IpBlocks.PrivateIsIntervals` | src/browser/url-safety.ts:213-235 | The private list is a union of twelve intervals and everything from 224.0.0.0 up. |
| `IpAddresses.QuadParses` | src/browser/url-safety.ts:237-243 | A printed dotted quad reads back as its 32-bit number; the wrapping shifts lose nothing. |
| `Ipv6.CompressedExpands` | src/browser/url-safety.ts:273-299 | Whichever run of zero groups is written as the double colon, and however the other groups are spelled, expansion returns the original eight groups (section 2.2 of RFC 4291). |
| `Ipv6.FullExpands` | src/browser/url-safety.ts:284-292 | An address written with all eight groups expands to them. |
| `Ipv6.ParseHextets` | src/browser/url-safety.ts:301-318 | The loop over parts returns every group or nothing. |
| `Ipv6.PrivateHextetsIff` | src/browser/url-safety.ts:254-271 | The IPv6 masks pick out exactly the unspecified and loopback addresses, fe80::/10, fc00::/7, ff00::/8 and 2001:db8::/32. |
| `Ipv6.MappedReadsBack` | src/browser/url-safety.ts:177-204 | An IPv4-mapped address written in hexadecimal after ::ffff: normalises to a dotted quad that parses back to the same 32-bit number (section 2.5.5.2 of RFC 4291). |
| `UrlChecks.PublicIffSafe` | src/browser/hybrid-classifier.ts:30-133 | For the same resolver answer a URL is classified public exactly when isSafeUrl accepts it with private URLs disallowed and its host is an address or does not look internal. |
| `UrlVerdicts.LiteralIff` | src/browser/url-safety.ts:49-65 | A URL whose host spells an address, in any of five ways and any case, is accepted with private URLs disallowed, and classified public, exactly when its number lies in no listed interval or named IPv6 range; with private URLs allowed exactly when it is no metadata address. |
| `UrlVerdicts.NameIff` | src/browser/url-safety.ts:67-89 | A URL whose host is a name is accepted exactly when the resolver answers and every answer is an address outside those ranges; it is public when it does not look internal besides, and blocked when a metadata address comes before any answer that is no address. |
| `UrlVerdicts.MetadataNameIsBlocked` | src/browser/url-safety.ts:10-13 | The two metadata names are refused by all three checks in every spelling, whatever they resolve to and whatever is allowed. |
| `UrlVerdicts.Unresolved` | src/browser/url-safety.ts:69-79 | A name that does not resolve is refused and classified private. |
| `UrlVerdicts.SpellingNormalizes` | src/browser/url-safety.ts:161-167 | Every spelling of a host name, in any case, with brackets, space around it and dots behind it, normalises to its lower case. |
| `UrlVerdicts.SpelledOutQuadIsPublic` | src/browser/url-safety.ts:177-204 | An IPv4 address carried in an IPv6 one whose leading zeros are written out is judged as an IPv6 address, so it is public whatever it carries. |
| `UrlChecks.ClassifyResolved` | src/browser/hybrid-classifier.ts:94-132 | The loop over resolved addresses returns the specified class, which is public exactly when every address is safe. |
| `UrlChecks.BlockedIsNeverClassifiedReachable` | src/browser/url-safety.ts:91-102 | A URL that is blocked without a lookup is never classified public or private and never accepted, whatever is allowed. |
| `UrlChecks.AllowingPrivateAcceptsMore` | src/browser/url-safety.ts:49-89 | Allowing private URLs only ever accepts more. |
| `UrlChecks.RoutedIsSafe` | src/browser/hybrid-router.ts:15-65 | Whatever is routed to the cloud, and whatever is routed at all where private URLs are not allowed, is accepted by isSafeUrl with private URLs disallowed. |
| `HybridBackend.RoutingIsSafe` | src/browser/browser-backend.ts:771-821 | Over all runs the cloud is only asked to open URLs just classified public, or blank pages; the local browser only private URLs or blank pages, and only where private URLs and hybrid routing are both allowed. |
| `HybridBackend.CloudEndsPublic` | src/browser/browser-backend.ts:796-821 | A successful cloud navigation with a non-empty final URL ends on a public one; a local one on a public one, or on a private one where allowed. |
| `HybridBackend.ActionsFollowNavigation` | src/browser/browser-backend.ts:690-713 | Over all runs an action reaches the browser and session id of its key's last successful navigation; the key is the id without the local suffix. |
| `HybridLatest.UsedUntilForgotten` | src/browser/browser-backend.ts:670-698 | Over every run, once a navigation succeeds under a key or an action finds its route, an operation without a session id does exactly what it would do with that key, until another key is taken or the key is no longer routed. |
| `HybridLatest.ForgottenFallsBackIff` | src/browser/browser-backend.ts:700-741 | When closing its session forgets the key in use, operations without an id move on to the routed key that was added last, or to none, exactly when the side that serves the key closed without throwing; else they go on naming the forgotten key. |
| `HybridLatest.FailedCloseStrands` | src/browser/browser-backend.ts:728-741 | After two sessions a failing close of the second leaves it in use: an action without an id finds no session though the first is still routed. |
| `HybridLatest.NothingAfterClose` | src/browser/browser-backend.ts:978-1000 | Once everything was closed, on every later run an action without an id finds no session and no navigation succeeds. |
| `HybridLatest.OrderIsByAge` | src/browser/browser-backend.ts:684-741 | After every run the order of the routing table is the order in which its keys were added. |
| `HybridLatest.NavigateOkIff` | src/browser/browser-backend.ts:771-823 | A navigation succeeds exactly when the backend is open, the URL is public, or private where that is allowed, the delegate does not throw, and the page ends at no stated URL, a public one, or for a private start an allowed private one; every failure says which was missing. |
| `HybridLatest.NavigateAsks` | src/browser/browser-backend.ts:796-823 | What a navigation asks of the browsers: the URL under the key's id, and after an unsafe ending a blank page and, where that fails, the close of the session. |
| `HybridBackend.NavigatedStaysRouted` | src/browser/browser-backend.ts:700-741 | A navigated key keeps that route until exactly one of the named operations forgets it. |
| `HybridBackend.StepMovesRoute` | src/browser/browser-backend.ts:700-741 | One operation replaces a key's route by a successful navigation, forgets it in exactly the named cases, or leaves it. |
| `HybridBackend.SuffixedKeyIsLost` | src/browser/browser-backend.ts:670-679 | A key that carries the suffix can be navigated, but then its actions find no session. |
| `HybridBackend.ActionReachesOwnEntryIff` | src/browser/browser-backend.ts:670-713 | Over all runs an action on a routed key reaches the key's own entry exactly when the key does not end in the local suffix; else it reaches the entry of the key without the suffix, or none. |
| `HybridPages.UnjudgedPageReachedIff` | src/browser/browser-backend.ts:681-821 | Over all runs an action that finds a route reaches a page nothing has judged safe exactly when a navigation of the key in that browser threw, or ended unsafely, was not blanked and its close threw, and nothing since has navigated, blanked or closed that page. |
| `HybridPages.UnsafePageStaysReachable` | src/browser/browser-backend.ts:796-821 | A concrete run: a second navigation ends unsafely, blanking fails and closing throws, and the key's actions go on reaching the page. |
| `HybridBackendClass.Backend.Open` | src/browser/browser-backend.ts:855-889 | Navigation in place equals the specified step, and on success the key has the new route. |
| `HybridBackendClass.Backend.Perform` | src/browser/browser-backend.ts:753-769 | An action in place equals the specified step. |
| `HybridBackendClass.Backend.CloseKey` | src/browser/browser-backend.ts:728-741 | Closing both routes in place equals the specified step, and the key is forgotten even when a close throws. |
| `HybridBackendClass.Backend.Close` | src/browser/browser-backend.ts:978-999 | Both backends are closed even when the first throws, and the table is emptied. |
| `Settling.Settle` | src/browser/action-settling.ts:46-94 | The loop stops in the first round in which it may, after at most ceil(timeout/poll) delays; exactly one of conditionMet and timedOut holds and says what stopped it; cancellation and failing captures are reported exactly when they happen. |
| `Settling.StableMeansQuiet` | src/browser/action-settling.ts:69-93 | A dom-stable success means that since some capture all captures show the same document and revision, that it was the first or differed from the one before, that the stable window passed since it was seen and that the minimum observation time passed. |
| `Settling.StableIff` | src/browser/action-settling.ts:69-93 | A page counts as stable exactly when it was observed long enough and the window has passed since the capture that began its quiet stretch. |
| `Settling.ConditionIff` | src/browser/action-settling.ts:241-251 | What each wait condition asks of a page: a part that occurs in the address or in the text, an open dialog, an element with that role and a name that contains the given one. |
| `Settling.ActionKeysDiffer` | src/browser/action-settling.ts:230-232 | The printed identity key agrees exactly when epoch and revision agree. |
| `Settling.NormalizeTimeout` | src/browser/action-settling.ts:287-293 | A missing timeout is the default, a positive one the greatest whole number up to it and the maximum, any other is refused. |
| `CdpRequests.RunKeeps` | src/browser/cdp-client.ts:97-146 | Over every interleaving ids sent strictly increase, each request is settled at most once, every issued id is settled or pending and never both, and timers and abort listeners exist for pending requests only. |
| `CdpRequests.ReplySettlesOnlyItsRequest` | src/browser/cdp-client.ts:184-200 | A reply settles the request with its id if that is pending, and changes nothing else. |
| `CdpRequests.FirstEventDecides` | src/browser/cdp-client.ts:97-219 | Over every interleaving the first event that can end a request decides it for good: a reply with a result resolves it, one with an error rejects it, else its timer, its abort signal or the end of the socket. |
| `CdpRequests.FailedSendIsOver` | src/browser/cdp-client.ts:97-146 | A request that is aborted or cannot be sent is settled at once, as aborted or failed, and leaves nothing pending. |
| `CdpRequests.EndSettlesEverything` | src/browser/cdp-client.ts:213-219 | After the socket ends every request ever issued is settled, nothing is pending and no timer is left. |
| `CdpRequests.OutcomesStand` | src/browser/cdp-client.ts:115-124 | What is settled stays settled with the same outcome, whatever follows. |
| `CdpClient.Client.SendRequest` | src/browser/cdp-client.ts:97-146 | Sending in place equals the specified step under an id never sent before, with its early abort, late abort and failing socket. |
| `CdpClient.Client.HandleReply` | src/browser/cdp-client.ts:168-200 | A reply in place equals the specified step. |
| `CdpClient.Client.RejectAll` | src/browser/cdp-client.ts:213-219 | The loop over pending requests equals the specified end and leaves none. |
| `Downloads.RunKeeps` | src/browser/cdp-supervisor.ts:151-214 | Over every interleaving unclaimed results and waiting callers never both queue up, hand-over is in arrival order on both sides, each terminal event reaches at most one caller and is handed over, kept or discarded, and each caller ends at most once. |
| `Downloads.CompletedWithinLimit` | src/browser/cdp-supervisor.ts:384-424 | A download reported completed never says it received more than the limit in force; a progress event over the limit is reported as too large and cancelled whatever state it claims. |
| `DownloadReports.ReportIs` | src/browser/cdp-supervisor.ts:370-425 | Over every run a progress event reports too large before anything else, then completed or cancelled as it says, with the address and name from where that download began in its turn and what it received last; limit, turn and download are told by the events alone. |
| `DownloadReports.TimeoutTells` | src/browser/cdp-supervisor.ts:196-211 | A call that runs out is told that no download began, or the one noted last, which is then cancelled; nothing received so far suggests a save dialog. |
| `Downloads.CompetitorIsHandedOver` | src/browser/cdp-supervisor.ts:370-424 | A concrete run: a second download is cancelled when it begins, but its end is what the waiting caller receives, and the first download is no longer the active one. |
| `Downloads.HandOverIsActiveIff` | src/browser/cdp-supervisor.ts:384-424 | Over every run, while a download is active and a caller waits, the report handed over at a terminal event is about the active download exactly when the event is. |
| `DownloadOrder.OrderlyHandOvers` | src/browser/cdp-supervisor.ts:370-424 | On every run in which no download begins while another is going, progress is about one that is going and nothing is reset meanwhile, each report handed to a caller is about the download that was active when its event came. |
| `DownloadOrder.LateCancelIsHandedOver` | src/browser/cdp-supervisor.ts:384-424 | That none begins while another is going does not suffice: the browser's late cancellation of a download reported as too large is handed to the caller that waits for the next one. |
| `Downloads.CloseStrandsWaiters` | src/browser/cdp-supervisor.ts:262-275 | Closing takes waiting callers off the queue for good: over any later events they can only time out or be aborted. |
| `DownloadSupervisor.Supervisor.WaitForDownload` | src/browser/cdp-supervisor.ts:171-214 | Waiting in place equals the specified step, and returns at once exactly when a result is kept or the signal is aborted. |
| `DownloadSupervisor.Supervisor.HandleProgress` | src/browser/cdp-supervisor.ts:384-424 | A progress event in place equals the specified step. |
| `DownloadSupervisor.Supervisor.TimeoutElapsed` | src/browser/cdp-supervisor.ts:196-210 | A timeout in place equals the specified step. |
| `SessionIds.RenewalsAreFresh` | src/channels/channel-session-store.ts:75-142 | Over every run, with any restarts and failing writes, a manual or automatic reset returns an id never handed out before for its key, as long as files can be read, the keys are filed apart and the sequence is below 2^53. |
| `SessionMeaning.IdLasts` | src/channels/channel-session-store.ts:75-177 | Over every run, with restarts, failing saves and other channels' renewals in between, a channel gets the id returned for it last, until that is renewed, the file cannot be read or a save tears it. |
| `SessionMeaning.HandedIdIs` | src/channels/channel-session-store.ts:139-142 | Every id handed out for a key is the key's base, or the base, a hyphen and a number. |
| `SessionMeaning.NewIdIs` | src/channels/channel-session-store.ts:75-142 | A key not filed yet gets its base, a filed one its id, and a reset or stale one the base numbered by one more than the sequence. |
| `SessionIds.SuffixInverts` | src/channels/channel-session-store.ts:203-206 | Reading the number off a generated id inverts writing it. |
| `SessionIds.LoadKeeps` | src/channels/channel-session-store.ts:144-177 | Loading brings the sequence up to every saved number, so to every number ever handed out. |
| `SessionIds.TwoRenewalsDifferIff` | src/channels/channel-session-store.ts:139-142 | Two resets of a key in a row return different ids exactly when the sequence is below 2^53 - 1. |
| `SessionIds.LargeUserIdsRepeat` | src/channels/channel-session-store.ts:225-241 | For every per-user key whose user id is a number of 2^53 or more, two resets in a row after one restart return the same id. |
| `SessionIds.FailedLoadRepeats` | src/channels/channel-session-store.ts:144-177 | It happens for every key: a reset, a restart and a call that cannot read the file, and the next reset hands out the first id again and overwrites the saved entries. |
| `SessionIds.RenewalAfterFailureRepeatsIff` | src/channels/channel-session-store.ts:116-177 | After any run, a restart, a call whose load fails and any number of resets, the next saved reset returns the id numbered by the resets since, and repeats an id exactly when that one was handed out for the key before the failure. |
| `Doubles.IncStalls` | src/channels/channel-session-store.ts:139-142 | Adding one to a double of 2^53 or more changes nothing, unless it is odd in units of two. |
| `Doubles.RoundedIsDouble` | src/channels/channel-session-store.ts:203-206 | A number read from digits is rounded to a double and never falls below 2^53 by rounding. |
| `SessionKeys.NormalizeIsIdempotent` | src/channels/channel-session-store.ts:243-292 | Normalising a normalised key changes nothing. |
| `SessionMeaning.ChatTypeIs` | src/channels/channel-session-store.ts:243-272 | A thread id makes a thread, else the chat type given counts and anything else is a direct message; only threads keep their thread id. |
| `SessionMeaning.UserCountsIff` | src/channels/channel-session-store.ts:274-292 | The user id counts in groups unless the policy says no, and in threads where it says yes; nowhere else. |
| `SessionMeaning.RunsBecomeHyphens` | src/channels/channel-session-store.ts:220-223 | A run of other characters between two words becomes one hyphen, runs around them go, and the rest is cut at 64 characters. |
| `SessionMeaning.SanitizedIsPlain` | src/channels/channel-session-store.ts:220-223 | Whatever the text, its part of an id is made of letters, digits, underscores and hyphens and starts with no hyphen. |
| `SessionMeaning.BaseSpells` | src/channels/channel-session-store.ts:225-241 | The base of a key whose parts are short words spells them out in order. |
| `SessionKeys.StableKeysDiffer` | src/channels/channel-session-store.ts:208-218 | Keys whose parts hold no colon, with no part given but empty, are filed under different texts. |
| `SessionKeys.BaseEndsInUser` | src/channels/channel-session-store.ts:225-241 | The base of a per-user key ends in the user id when that is a number of at most 64 digits. |
| `SessionKeys.BasesAgreeIff` | src/channels/channel-session-store.ts:220-241 | Two keys have session ids with the same base exactly when their sanitised parts are made of the same words between hyphens. |
| `SessionKeys.DefaultAccountShares` | src/channels/channel-session-store.ts:208-241 | A key without an account and the same key with the account default are filed apart and share the base of their ids. |
| `SessionStore.PersistentStore.GetOrCreateSessionId` | src/channels/channel-session-store.ts:75-114 | The method updating entries, sequence and file in place equals the specified step. |
| `SessionStore.PersistentStore.ResetSessionId` | src/channels/channel-session-store.ts:116-126 | The method updating entries, sequence and file in place equals the specified step. |
| `SessionStore.PersistentStore.EnsureLoaded` | src/channels/channel-session-store.ts:144-177 | Loading in place equals the specified step: the mark is set before the file is read. |
| `ProtectedSource.HandlesConserved` | src/browser/protected-browser-source.ts:62-133 | Over every run each handle acquired is held by exactly one binding, in one place, or was released exactly once. |
| `ProtectedSource.ReleaseIsOnce` | src/browser/protected-browser-source.ts:126-132 | Releasing a source gives back both of its handles once; a second release gives back nothing. |
| `ProtectedSource.ReadIsTheAuthorizedValue` | src/browser/protected-browser-source.ts:110-124 | Over every run a successful read returns a value whose fingerprint is the one recorded when this source, kind and page were authorized, with no release in between, provided the page fingerprints what it shows. |
| `ProtectedSourceAcceptance.AuthorizedIff` | src/browser/protected-browser-source.ts:43-90 | After every run a source is authorized exactly on its own session, tab, origin and frame, not while one filed like it is bound, when its ref names an element, both objects resolve and the element is connected, current, visible and not empty; it is then bound as given with two new handles, and nothing else changes. |
| `ProtectedSourceAcceptance.CheckedIff` | src/browser/protected-browser-source.ts:91-108 | A delivery passes exactly for the very source, kind and page object of a binding, on its own page, in the same document, with an element in place that shows the same value. |
| `ProtectedSourceAcceptance.ReadIff` | src/browser/protected-browser-source.ts:110-124 | A value is read exactly when nothing changed and a second look shows the same value and has it. |
| `ProtectedSourceAcceptance.RefusedIff` | src/browser/protected-browser-source.ts:43-145 | Why a delivery is refused: each reason exactly, in the order things are looked at. |
| `ProtectedSource.OtherSourceIsRefused` | src/browser/protected-browser-source.ts:93-97 | Two sources share a binding key only when they differ in the observation number or in absent against empty tab or frame, and delivery then refuses the other one. |
| `ProtectedSourceController.Controller.VerifyBeforeAuthorization` | src/browser/protected-browser-source.ts:43-91 | Authorization in place equals the specified step, releasing what it does not bind. |
| `ProtectedSourceController.Controller.ReadValue` | src/browser/protected-browser-source.ts:110-124 | A read checks the binding twice and returns a value only with the recorded fingerprint. |
| `ProtectedSourceController.Controller.ReleaseSource` | src/browser/protected-browser-source.ts:126-132 | Releasing in place equals the specified step. |
| `ActionTokens.ApprovalRoundTrip` | src/channels/approval-actions.ts:51-91 | A rendered approval token parses back to the same id, decision and scope exactly when the id is not blank and a scope is present just for an approval; every other token is refused. |
| `ActionTokens.SecureInputRoundTrip` | src/channels/approval-actions.ts:126-144 | A rendered secure-input token parses back exactly when its id is not blank. |
| `ActionTokens.ApprovalTokensDiffer` | src/channels/approval-actions.ts:146-157 | Distinct approvals have distinct tokens. |
| `TokenTexts.ApprovalText` | src/channels/approval-actions.ts:146-157 | The text of an approval token letter by letter: the mark, the code of the decision, that of the scope or a hyphen, and the encoded id. |
| `TokenTexts.SecureInputText` | src/channels/approval-actions.ts:142-144 | The text of a secure-input token letter by letter. |
| `TokenTexts.ReadsAsApprovalIff` | src/channels/approval-actions.ts:51-91 | Which texts read as which approval: four fields, the mark, the code of the decision, the code of a scope or for a denial a text that is none, and an id that decodes to more than white space. |
| `TokenTexts.ReadsAsSecureInputIff` | src/channels/approval-actions.ts:126-140 | Which texts read as which secure-input action. |
| `ActionTokens.SecureInputTokensDiffer` | src/channels/approval-actions.ts:142-144 | Distinct secure-input actions have distinct tokens. |
| `ActionTokens.FamiliesStayApart` | src/channels/approval-actions.ts:126-130 | No text at all is accepted as a token of both families. |
| `ActionTokens.ParsedIsProperIff` | src/channels/approval-actions.ts:51-91 | Whatever text parses gives a well-formed approval exactly when neither code of the text is a property name every object inherits. |
| `ActionTokens.ParsedInputIsProperIff` | src/channels/approval-actions.ts:126-144 | The same for secure-input tokens and their one code. |
| `ActionTokens.InheritedNameMessages` | src/channels/approval-actions.ts:51-91 | Three messages that parse into a function as decision, as scope and as choice. |
| `PercentCoding.DecodeInvertsEncode` | src/channels/approval-actions.ts:75-80 | Percent-decoding inverts percent-encoding of UTF-8 for every text (section 2.1 of RFC 3986). |
| `PercentCoding.EncodingIsPlain` | src/channels/approval-actions.ts:142-157 | Encoding emits unreserved characters and percent signs only, so never a colon or white space. |
| `TokenTexts.EncodedIs` | src/channels/approval-actions.ts:142-157 | Encoding leaves unreserved characters and writes every other byte by byte in its UTF-8 form, each as a percent sign and two upper-case hexadecimal digits (section 3 of RFC 3629). |

## Left out

- Code that runs inside the page (inspection, delivery, clearing, region discovery) and Chrome itself: their results are arbitrary inputs.
- Sockets, timers, DNS, the file system, SQL and clocks: events, answers or in-memory tables. Promise scheduling inside one public operation: each operation is one atomic step, as its callers use it.
- The nested maps of the form controller (sessions, then transactions) are one heap keyed by transaction number with a list of the live ones, so object aliasing is by number; its one-shot result mailbox (`takeDeliveryResult`), `kindsFor`, `isSettling` and the visual and content guards are not modelled, nor is the copy of the sensitive flag on the supervisor.
- Origins, redaction, key normalisation, the digest of a message surface, `isIP` and the URL parser are parameters; the digest of the action map is the projected map itself, and the digest of a protected value is only assumed to be a function.
- Lengths count code points where the program counts UTF-16 units; lower-casing is ASCII; lone surrogates, which `encodeURIComponent` refuses, cannot be written as text here.
- `findBrowserLocator` and its scores, nearby candidates and unavailable matches: heuristics without a specification of their own.
- How the sections of a page are built from a snapshot, how its address and tab are redacted for the header, protected-form guidance, and the branch for sensitive pages of the compactor: string formatting.
- Rows that other programs write into the binding table with malformed dates or directions: every row of the model was written by a store. Deleting a session or message removes its rows, as the foreign keys do.
- Tab numbers are unbounded naturals; `visibleTab`, activity times, tab URLs and the supervisor object of the controlled tab, which follows the attachment, are not modelled.
- Reason texts, capabilities, `status` and `lastNavigationBackend` of the hybrid backend, and the contents of action inputs and snapshots passed through it.
- Scanning and redacting URLs for secrets, and action deltas: regular expressions and formatting.
- The event waiters of the CDP client (`waitFor`), the connection handshake, popups, dialogs, console and frame tracking of the supervisor.
- Surface pointers, `setSessionId` and the automatic reset decision of the session store: the decision is an input, the others are not called. Entry order and timestamps of its file are not modelled; two session stores on one file at once are not either. A saved id that names a double past the largest finite one is not modelled.
- A source value is returned as text; its UTF-8 bytes are left out there.
- Ipv6.MappedReadsBack: covers addresses written with the prefix ::ffff: only, because only that spelling is rewritten by the program.
- ProtectedFormIndex.FindableOnSeparateRuns: one direction over runs; the exact condition is stated per release by ProtectedFormIndex.ReleaseFindableIff.
- DownloadOrder.OrderlyHandOvers: one direction over runs; the exact condition is stated per event by Downloads.HandOverIsActiveIff.
- SessionIds.RenewalsAreFresh: one direction over runs, because at 2^53 the first reset of a key can still be fresh; where freshness ends is stated exactly for two resets in a row by SessionIds.TwoRenewalsDifferIff.
- Wiring, benchmarks, adapters, the ACP server, the WhatsApp bridge, chrome discovery and launching: input and output, or tables.
