# A verified model of the AegisMCP gateway

AegisMCP is an authorization gateway in front of an MCP server. A request is parsed, its agent is
authenticated, policies and risk rules decide about it, and where they ask for a human decision an
approval must be granted before the request is sent upstream, once. This project models that path
and the parts it rests on, and proves what they promise over all inputs and all interleavings.

`dafny verify dfyconfig.toml` checks the whole project.

## How the model is built

- **Values.** Strings are sequences of UTF-16 code units (`Texts`). JSON values are ordered lists of
  unique keys (`Json`), with the matcher's structural equality. `Canonical` prints JSON with sorted
  keys, escaping strings as section 7 of RFC 8259 and ordering keys as section 3.2.3 of RFC 8785 do,
  and reads it back; `CanonicalEquality` ties the text to structural equality, `CanonicalTexts` says
  which characters stand in it. `Redaction` masks secrets in place of the source's loop, and
  `RedactedCopies` says what the copy is.
- **Requests.** `Requests` normalises a JSON-RPC 2.0 body into a security context, `Bindings` is what
  ties an approval to one request. SHA-256 is a datatype that remembers what was hashed, so it has no
  collisions.
- **Approvals.** `ApprovalRecords` holds the records and one function, `Exec`, for every repository
  operation. `ApprovalProtocol` is the service as a transition system: any number of create, decide,
  consume and sweep calls, each suspended at every awaited repository operation. An operation may
  fail, and its answer may be lost after it took effect. Each call captures its clock reading once, in
  no particular order. `ApprovalSafety` proves the invariant, `ApprovalTheorems` the promises over
  every run, `ApprovalTrail` what is recorded about approvals, `ApprovalCreation` when a create call
  throws, `ApprovalDrafts` what is stored of a request, `ApprovalScenarios` and `ApprovalCalls` what
  happens without interference, and `ApprovalLimits` has the runs that show what is not promised.
  `InMemoryApprovals` and `ApprovalServices` are the classes as written, with other calls running at
  every await. Every method of the service runs in step with a call of the transition system: the
  operations it awaits are those of that call, and it answers and records what that call does.
- **Audit sink.** `AuditSinks` is the bounded queue with its chain of flushes as a transition system,
  `AuditProgress` says when closing it ends, `AuditHistory` what each step of a run does,
  `BufferedAuditSinks` is the class with its retry and drain loops.
- **Policies.** `Policies` validates, matches and evaluates; a match is kept as the JSON it is.
  `Risk` raises decisions. `PolicyRows` stores lists and reads them back, `RowReading` reads any row;
  `PolicyStores` swaps snapshots under overlapping reloads.
- **Migrations.** `Migrations` and `MigrationFiles` decide which files are accepted, `MigrationRuns` runs any number of
  migration runs against one database with failures and crashes at any point.
- **Route.** `Gateways` puts the pieces together: requests in flight, interleaved with policy reloads
  and approval calls. `GatewayTheorems` states what may reach the upstream server, `GatewayVerdicts`
  what policies and risk rules make of a request, `GatewayRoutes` is the handler as written.

Functions that compute what the source computes are described a second time wherever their result
could otherwise be read only from their bodies: by the texts of the policies, the members of the
bodies, the characters of the texts and the steps of the runs. The lemmas named `...Exactly` state
these descriptions.

## Where the code is weaker than its description

Each of these is a lemma with a concrete input or run, and beside it stands the exact condition under
which the promise holds.

- A policy whose match sets a field to `null` passes validation and never matches; once stored in
  PostgreSQL and read back it matches any value (`PolicyRows.NullFieldWidens`). Storing keeps the
  effect exactly when no field is null, the policy is disabled, or it would not match anyway
  (`PolicyRows.ReadBackIsAlike`), and keeps a list's decision on a context exactly when the policies
  it widens there are no more severe than that decision or, where nothing applied, deny or are none
  (`PolicyRows.StoringKeepsTheDecisionExactly`). The admin route refuses such matches, other callers
  do not.
- Overlapping reloads may put an older policy list back (`PolicyStores.OverlappingReloadsMayGoBack`).
  They do exactly when, of two reloads that succeed, the one that read the older content goes on last
  (`PolicyStores.GoesBackExactly`).
- Only the first `close` of the sink waits for the queue to drain (`AuditProgress.SecondCloseDoesNotWait`);
  once that first one is done, the queue is empty for good (`AuditProgress.ClosedSinkIsDrained`).
- Sizes below one break the sink's accounting (`AuditSinks.ZeroAttemptsForget`,
  `AuditSinks.ZeroCapacityMiscounts`). The counters add up in every run exactly when there is room for
  one event and every batch that is not empty is attempted (`AuditSinks.ConservationNeedsRoomAndAttempts`).
- With an empty batch size the first `close` may wait forever (`AuditProgress.ZeroBatchSpins`). It ends
  within a bounded number of flush steps in every run exactly when the batch size is at least one,
  whatever the other sizes (`AuditProgress.FirstCloseEndsExactly`).
- An answer lost on its way back from the database leaves a transition without its audit event
  (`ApprovalTrail.LostAnswerLeavesNoEvent`). At rest the trail of an approval is complete exactly when no
  step lost an answer that called for an event about it (`ApprovalTrail.TrailIsCompleteUnlessLost`).
- `expired` may come with a record that has just been approved (`ApprovalLimits.ExpiredMayShowApproval`).
  The record of such an answer is not EXPIRED exactly when, at an earlier step, the update of a decide
  call whose clock reading was before the expiry took it out of PENDING
  (`ApprovalTheorems.ExpiredShowsADecisionExactly`).
- A consumption may carry an earlier time than the decision
  (`ApprovalLimits.ConsumptionMayPredateDecision`): both are the readings that the two calls took when
  they began, and are ordered exactly as those (`ApprovalTheorems.TimesAreTheCallersClocks`).
- The in-memory repository may keep two pending records for one binding
  (`ApprovalLimits.MemoryMayKeepTwoPending`). In a run that happens exactly when an insertion meets a
  pending record of its binding (`ApprovalTheorems.TwoPendingExactly`), and no run does it exactly if
  there is the unique index (`ApprovalLimits.OnePendingNeedsTheIndex`).
- With the unique index a create call may throw although nothing was at fault
  (`ApprovalLimits.CreateMayFailWithoutFault`). It does so exactly when its insertion was refused and
  its second lookup finds no pending record with its key (`ApprovalCreation.CreateFailsExactlyWhen`);
  over the in-memory repository and with fresh identifiers that never happens
  (`ApprovalCreation.MemoryCreatesNeverFail`).
- The joined key of the in-memory lookup confuses fields that contain NUL (`Bindings.JoinedKeyConfusesNul`).
  The key of a binding is exact if and only if its agent, server, method and tool are free of NUL
  (`Bindings.JoinedKeyIsTheRowKey`).
- Notifications reach the upstream server without any policy (`GatewayTheorems.NotificationsAlwaysPass`),
  and nothing else does (`GatewayTheorems.OnlyNotificationsSkipPolicy`).
- A risk mapping that is not monotone lets an extra rule weaken the outcome, and only such a mapping
  does (`Risk.MonotoneMappingsNeverWeaken`).

## Model

| member | source | states |
|---|---|---|
| Canonical.ReadCanonical | apps/gateway/src/approvals/redact.ts:84-97 | canonical text in front of any suffix that does not continue a number is read back as the key-sorted value, and the suffix is left untouched |
| Canonical.CanonicalTextIsInjective | apps/gateway/src/approvals/redact.ts:84-97 | values with one canonical text have one key-sorted form |
| CanonicalEquality.DeepEqualIsSortedEquality | apps/gateway/src/policy/matcher.ts:17-35 | structural equality holds exactly when the key-sorted forms are equal, for any nesting and key order |
| CanonicalEquality.CanonicalTextIffDeepEqual | apps/gateway/src/approvals/redact.ts:84-97 | two values print the same exactly when the separately written structural equality accepts them |
| CanonicalEquality.RereadingIsStable | apps/gateway/src/approvals/redact.ts:84-97 | printing what was read from canonical text gives the same text |
| CanonicalEquality.DeepEqualIsAnEquivalence | apps/gateway/src/policy/matcher.ts:17-35 | structural equality is reflexive, symmetric and transitive |
| CanonicalTexts.PlainTextExactly | apps/gateway/src/approvals/redact.ts:84-87 | the text of null, a Boolean, a number or a string, as `JSON.stringify` writes it: plain decimal digits with a sign, and string literals whose parts are the unit itself, a short escape or `\u` with four small hexadecimal digits for controls and unpaired surrogates |
| CanonicalTexts.ArrayTextExactly | apps/gateway/src/approvals/redact.ts:88-90 | an array is written as the texts of its items in order, with commas, between brackets |
| CanonicalTexts.ObjectTextExactly | apps/gateway/src/approvals/redact.ts:91-97 | an object is written as its members arranged by key, each with its quoted key, a colon and the text of its value, with commas, between braces |
| CanonicalTexts.AtMostExactly | apps/gateway/src/approvals/redact.ts:93 | keys are compared by their first different code unit, and a beginning comes before what continues it |
| CanonicalTexts.DeepEqualExactly | apps/gateway/src/policy/matcher.ts:17-35 | objects are equal if and only if they have equally many members and each member of the one has an equal member under its key in the other; arrays item by item; anything else when it is the same |
| Redaction.RedactValue | apps/gateway/src/approvals/redact.ts:38-69 | the redactor computes the redacted copy defined by `Redacted` |
| Redaction.RedactObject | apps/gateway/src/approvals/redact.ts:53-65 | the loop over entries with its count and its overflow marker fills exactly the redacted members |
| Redaction.RedactionHidesSecrets | apps/gateway/src/approvals/redact.ts:38-69 | trees that differ only under sensitive keys, at any nesting, have the same redacted copy |
| Redaction.RedactionIsExactlySecretBlind | apps/gateway/src/approvals/redact.ts:38-69 | for trees that need no truncation the copies are equal if and only if the trees differ in secrets alone |
| Redaction.RedactionIsIdempotent | apps/gateway/src/approvals/redact.ts:38-69 | redacting a redacted copy changes nothing, truncated strings and the overflow key included |
| Redaction.RedactionIsBounded | apps/gateway/src/approvals/redact.ts:22-69 | containers occur at depth 8 or less, with at most 200 items or 201 entries, strings have at most 1036 code units, and every sensitive key carries the mask |
| Redaction.LimitsBoundTheNodes | apps/gateway/src/approvals/redact.ts:22-27 | these limits bound the number of JSON nodes |
| RedactedCopies.SensitiveExactly | apps/gateway/src/approvals/redact.ts:18-31 | a key is sensitive if and only if one of the alternatives of the pattern, with its optional parts spelled out, occurs in it in small letters or capitals |
| RedactedCopies.RedactedIsTheCopy | apps/gateway/src/approvals/redact.ts:38-69 | the copy of every value: `[REDACTED]` under sensitive keys, `[TRUNCATED]` below depth 8, the first 1024 units of a longer string and its mark, the first 200 items or entries, and the mark under the key `…` where entries are missing |
| RedactedCopies.CopyKeepsTheRest | apps/gateway/src/approvals/redact.ts:38-69 | of a value that needs no truncation everything but secrets is kept |
| Requests.ParsedContextsAreShaped | apps/gateway/src/mcp/parse.ts:65-164 | a parsed context has a tool name exactly on tool calls, the trusted identity, a supported version, and the arguments that were sent: none where they are absent or null, and otherwise an object unchanged |
| Requests.RequestsExactly | apps/gateway/src/mcp/parse.ts:65-164 | a body is a request with this context if and only if it is a JSON-RPC 2.0 message with a method and an `id` that is a string or a number, it declares no version or the supported one, a tool call names a tool, and each field of the context is the member it stands for |
| Requests.NotificationsExactly | apps/gateway/src/mcp/parse.ts:92-105 | a body is a notification if and only if it is such a message whose `id` is absent or neither a string nor a number |
| Requests.EnvelopeErrorsExactly | apps/gateway/src/mcp/parse.ts:66-101 | when a body is not JSON, and when it is not such a message |
| Requests.VersionErrorsExactly | apps/gateway/src/mcp/parse.ts:114-131 | a version is refused if and only if the request declares it, in `_meta` first, and it is not the supported one |
| Requests.ToolErrorsExactly | apps/gateway/src/mcp/parse.ts:133-148 | the parameters of a tool call are refused if and only if no text names the tool or the arguments are neither absent, null nor an object |
| Bindings.BindingIdentifiesTheCall | apps/gateway/src/approvals/service.ts:62-82 | two parsed contexts have the same binding if and only if they are the same call with structurally equal arguments |
| Bindings.CoalescingIsExactOnParsedContexts | apps/gateway/src/repositories/pg.ts:463-482 | on parsed contexts the coalesced lookup and the index accept exactly what the binding comparison accepts |
| Bindings.JoinedKeyIsTheRowKey | apps/gateway/src/repositories/memory.ts:186-195 | the joined key of a binding agrees with the row comparison against every other binding if and only if its agent, server, method and tool contain no NUL |
| Bindings.PlainKeyIsTheRowKey | apps/gateway/src/repositories/memory.ts:186-195 | two bindings without NUL have one joined key exactly when the row comparison accepts them |
| Bindings.JoinedKeyConfusesNul | apps/gateway/src/repositories/memory.ts:186-195 | when the method continues with a NUL, two different bindings of one agent share a key |
| Bindings.ConfusedCallsAreShaped | apps/gateway/src/mcp/parse.ts:35-53 | such bindings belong to contexts of the shape the parser produces |
| InMemoryApprovals.InMemoryApprovalRepository.Create | apps/gateway/src/repositories/memory.ts:197-214 | inserts a pending record unless the id is taken, as one atomic step |
| InMemoryApprovals.InMemoryApprovalRepository.FindPendingByBinding | apps/gateway/src/repositories/memory.ts:220-226 | the loop returns the first pending record with the key, or none if there is none |
| InMemoryApprovals.FirstMatchIsFirst | apps/gateway/src/repositories/memory.ts:220-226 | what the lookup finds was inserted before every other pending record with the key |
| InMemoryApprovals.InMemoryApprovalRepository.Decide | apps/gateway/src/repositories/memory.ts:228-248 | decides a pending, undue record and nothing else |
| InMemoryApprovals.InMemoryApprovalRepository.Consume | apps/gateway/src/repositories/memory.ts:250-268 | consumes an approved, unconsumed, undue record and nothing else |
| InMemoryApprovals.InMemoryApprovalRepository.MarkExpired | apps/gateway/src/repositories/memory.ts:270-275 | expires a pending record and reports whether it did |
| InMemoryApprovals.InMemoryApprovalRepository.ExpireStale | apps/gateway/src/repositories/memory.ts:277-291 | the loop expires all overdue pending records and lists them in insertion order |
| InMemoryApprovals.SweepKeepsTheOrder | apps/gateway/src/repositories/memory.ts:277-291 | the sweep lists exactly the pending records that are due, in the order of their insertion |
| ApprovalProtocol.ExecAnswers | apps/gateway/src/approvals/service.ts:117-284 | each repository answer establishes what the suspended call relies on next |
| ApprovalProtocol.TaskHoldsIsStable | apps/gateway/src/approvals/service.ts:117-284 | what a suspended call knows survives everything other calls do |
| ApprovalSafety.StepKeepsInv | apps/gateway/src/approvals/service.ts:117-284 | every step of every call keeps the invariant: sound records, truthful calls, one winner per approval, authored records, one pending record per index key, balanced audit |
| ApprovalSafety.RunEvolves | apps/gateway/src/repositories/pg.ts:484-535 | along any run creation data never change, decisions and consumptions are final, finished calls keep their results |
| ApprovalTheorems.ConsumedAtMostOnce | apps/gateway/src/approvals/service.ts:227-256 | in every interleaving at most one consume call per approval succeeds |
| ApprovalTheorems.ConsumptionIsBound | apps/gateway/src/approvals/service.ts:234-255 | it does so only with the record's own binding and a clock reading before the expiry, and the row says so for good |
| ApprovalTheorems.ConsumedAfterApproved | apps/gateway/src/approvals/service.ts:181-256 | the update that consumes comes after the update of a decide call that approved the pending record |
| ApprovalTheorems.AnswersAreTruthful | apps/gateway/src/approvals/service.ts:193-254 | every refusal and success tells the truth about the record it returns, which is a stage of the stored row, also on the lost-race branches |
| ApprovalTheorems.ExpiredShowsADecisionExactly | apps/gateway/src/approvals/service.ts:189-239 | the record of an `expired` answer is not EXPIRED if and only if an earlier step was the update of a decide call, with a reading before the expiry, that took the record from PENDING to its verdict |
| ApprovalTheorems.OnlyFaultsFail | apps/gateway/src/approvals/service.ts:181-270 | without faults, decide, consume and sweep calls never throw |
| ApprovalTheorems.ThrowsExactlyOnFaults | apps/gateway/src/approvals/service.ts:181-270 | over any run a decide, consume or sweep call throws if and only if an operation of its own has failed or lost its answer |
| ApprovalTheorems.CreateThrowsExactly | apps/gateway/src/approvals/service.ts:117-155 | over any run a create call throws if and only if its first lookup failed, or its insertion did not succeed and its second lookup failed or found nothing |
| ApprovalTheorems.NotFoundWasAbsent | apps/gateway/src/approvals/service.ts:190-232 | where approvals are available, `not_found` is answered only for an id that was unknown when the call began |
| ApprovalTrail.EventsAddUp | apps/gateway/src/approvals/service.ts:157-284 | at any moment events recorded, owed by calls in flight and lost with an answer equal the transitions made |
| ApprovalTrail.TrailIsCompleteUnlessLost | apps/gateway/src/approvals/service.ts:157-284 | at rest the trail of an approval is complete if and only if no step of the run lost an answer whose call had still to record an event about it |
| ApprovalTrail.OneEventPerTransition | apps/gateway/src/approvals/service.ts:157-284 | at rest there is one creation event per approval, and exactly one of approved, denied, expired if and only if it left PENDING, exactly when no such answer was lost |
| ApprovalTrail.NoLossNoGap | apps/gateway/src/approvals/service.ts:157-284 | if no answer is lost, every approval has its full trail at rest, also when repository operations fail |
| ApprovalTrail.LostAnswerLeavesNoEvent | apps/gateway/src/approvals/service.ts:148-158 | a run that loses the answer to an insertion and ends at rest with the approval stored, handed to its creator, and no creation event |
| ApprovalTrail.EventsAreTruthful | apps/gateway/src/approvals/service.ts:213-284 | every recorded event shows a stage its record went through |
| ApprovalTheorems.OnePendingPerBinding | apps/gateway/src/db/migrations/0003_approvals.sql:43-45 | with the partial unique index racing creators never leave two pending records for one binding |
| ApprovalTheorems.TwoPendingExactly | apps/gateway/src/approvals/service.ts:124-149 | over any run two pending records of one binding come about if and only if an insertion meets a pending record of its binding |
| ApprovalTheorems.ReusesExactly | apps/gateway/src/approvals/service.ts:117-127 | over any run a create call whose first lookup meets a pending record with the key of its binding ends with that record, unless the lookup's answer was lost, and creates one only when the lookup met none |
| ApprovalTheorems.ReusedRecordIsTheSameCall | apps/gateway/src/approvals/service.ts:124-153 | a create call hands out a record only for the very operation of the call whose step inserted it, on PostgreSQL, and in memory when the calls' fields contain no NUL |
| ApprovalTheorems.ConsumedCallIsTheApprovedCall | apps/gateway/src/approvals/service.ts:62-256 | the consuming request has the tool and structurally equal arguments of the create call whose step inserted the approval |
| ApprovalTheorems.ConsumedCallIsEveryWaitersCall | apps/gateway/src/approvals/service.ts:124-256 | it also has those of every create call that handed the approval to its caller |
| ApprovalTheorems.TimesAreTheCallersClocks | apps/gateway/src/approvals/service.ts:189-246 | the stored decision and consumption times of a consumed approval are the clock readings that the approving and the consuming call took when they began, and the row carries the approving call's verdict, approver and reason |
| ApprovalTheorems.SomeoneSettled | apps/gateway/src/approvals/service.ts:181-220 | every decided row was decided by the update of one decide call before the expiry, and carries its verdict, approver, reading and reason |
| ApprovalTheorems.SomeoneExpired | apps/gateway/src/approvals/service.ts:193-284 | every expired row was expired, while it was pending and due, by a sweep or by a call about it, and carries that call's reading |
| ApprovalTheorems.CallsComeToAnEnd | apps/gateway/src/approvals/service.ts:117-284 | a call takes at most fourteen steps, whatever others do |
| ApprovalTheorems.CallsAreNeverStuck | apps/gateway/src/approvals/service.ts:117-284 | a call that has not ended can always go on without any fault: its repository operation can run or its code can take the answer |
| ApprovalTheorems.LifetimeIsBounded | apps/gateway/src/approvals/service.ts:106-110 | a positive lifetime within the maximum is granted as asked, a longer one cut to the maximum, also where it is the default because none was asked, and lifetimes stay within the maximum for every request if and only if the default does |
| ApprovalDrafts.StoredAsAsked | apps/gateway/src/approvals/service.ts:117-147 | over any run each stored approval names the request, the agent, server, method and tool, the digest of the canonical text of the arguments as sent, the policy and the reason of the create call that inserted it, lasts as long as was granted, from the reading that call took, and holds of the arguments the redacted copy: masked, bounded, equal up to secrets where they fit, and the empty object where there are none |
| ApprovalDrafts.SecretsAreNotStored | apps/gateway/src/approvals/service.ts:135 | in any two runs create calls whose arguments differ in secrets alone store the same arguments |
| ApprovalDrafts.NothingStoredShowsSecrets | apps/gateway/src/approvals/service.ts:131-158 | in any run neither a stored approval nor a recorded event shows what stands under a sensitive key |
| ApprovalScenarios.UncontestedConsume | apps/gateway/src/approvals/service.ts:227-256 | a consume call that nothing interrupts succeeds exactly when the approval is approved, unconsumed, unexpired and bound to the request |
| ApprovalScenarios.UncontestedDecide | apps/gateway/src/approvals/service.ts:181-220 | a decide call that nothing interrupts takes effect exactly when the approval is pending and undue |
| ApprovalCalls.ConsumeAlone | apps/gateway/src/approvals/service.ts:227-256 | alone, a consume call answers by the stored record, in the order of the checks, and leaves the table with the one row it expires or consumes, field by field |
| ApprovalCalls.DecideAlone | apps/gateway/src/approvals/service.ts:181-220 | alone, a decide call answers by the stored record and leaves the table with the one row it expires or decides, field by field |
| ApprovalLimits.ExpiredMayShowApproval | apps/gateway/src/approvals/service.ts:236-239 | a fault-free run in which a call reads the record pending and overdue, and then answers `expired` with that record APPROVED |
| ApprovalLimits.ConsumptionMayPredateDecision | apps/gateway/src/approvals/service.ts:189-230 | a fault-free run that ends with a consumption time before the decision time |
| ApprovalLimits.MemoryMayKeepTwoPending | apps/gateway/src/repositories/memory.ts:197-214 | a fault-free run of two racing creators that leaves two pending records without the index |
| ApprovalLimits.OnePendingNeedsTheIndex | apps/gateway/src/db/migrations/0003_approvals.sql:43-45 | no run leaves two pending records of one binding if and only if there is the partial unique index |
| ApprovalLimits.CreateMayFailWithoutFault | apps/gateway/src/approvals/service.ts:148-155 | a run in which no operation fails and no answer is lost, and a create call throws |
| ApprovalCreation.CreateFailsExactlyWhen | apps/gateway/src/approvals/service.ts:148-155 | without faults a create call that has ended threw if and only if its insertion met a taken identifier or index key and its second lookup then met no pending record with its key |
| ApprovalCreation.FreshIdsAreNotTaken | apps/gateway/src/approvals/service.ts:131-149 | if no two drafts are given one identifier, an insertion never meets its own identifier in the table |
| ApprovalCreation.MemoryCreatesNeverFail | apps/gateway/src/repositories/memory.ts:197-226 | over the in-memory repository, without faults and with fresh identifiers, no create call throws |
| ApprovalServices.ApprovalService.CreateForContext | apps/gateway/src/approvals/service.ts:117-159 | in step with a create call to its end; truthful under interference at every await; what it created tells who asked, for what, why and until when, and keeps the redacted arguments; its own calls record one creation event if it created and nothing otherwise; unavailable exactly without a repository |
| ApprovalServices.ApprovalService.Decide | apps/gateway/src/approvals/service.ts:181-220 | in step with a decide call to its end; truthful under interference, with no older stage of the record than was stored at the start; unless the record is unknown it is no longer pending afterwards; records exactly one event on success, at most the expiry it made on `expired`, and nothing otherwise |
| ApprovalServices.ApprovalService.Consume | apps/gateway/src/approvals/service.ts:227-256 | in step with a consume call to its end; truthful under interference, with no older stage of the record than was stored at the start; an approval that could be executed when it began is executed by it or by a faster call; success means the record was unconsumed then; records nothing but the expiry it made |
| ApprovalServices.ApprovalService.ExpireStale | apps/gateway/src/approvals/service.ts:262-270 | in step with a sweep to its end; everything overdue at the start is no longer pending, and exactly one event per expired record is recorded, in order |
| ApprovalServices.ApprovalService.ExpireAndReread | apps/gateway/src/approvals/service.ts:193-284 | in step with its call to its end; the overdue record is no longer pending, the returned record is no older than what was stored before, and at most the event of its expiry is recorded |
| AuditSinks.StepKeepsInv | apps/gateway/src/audit/sink.ts:60-133 | every step of record, flush, close and deliver keeps the invariant whenever there is room for an event and batches that are not empty are attempted |
| AuditSinks.EventsAreConserved | apps/gateway/src/audit/sink.ts:60-133 | in every interleaving accepted = queued + in flight + flushed + failed + dropped |
| AuditSinks.ConservationNeedsRoomAndAttempts | apps/gateway/src/audit/sink.ts:60-133 | the counters add up so in every run if and only if there is room for an event and batches that are not empty are attempted |
| AuditSinks.OrderIsKept | apps/gateway/src/audit/sink.ts:60-84 | departures are a prefix of the order of acceptance, stored events an ordered selection of it, counted by `flushed` |
| AuditSinks.DeliveryIsSerial | apps/gateway/src/audit/sink.ts:74-133 | never two batches in flight, batches within the batch size, at most `maxAttempts` attempts, total pause at most 100 m (m - 1) / 2 ms |
| AuditProgress.ClosedSinkIsDrained | apps/gateway/src/audit/sink.ts:86-94 | whatever the sizes, once the first close has completed the queue is empty and stays empty |
| AuditProgress.DrainingProgresses | apps/gateway/src/audit/sink.ts:74-133 | with a batch size of at least one, while the first close waits no step adds to what it waits for, further flushes included, and every flush step lowers it |
| AuditProgress.CloseTakesBoundedWork | apps/gateway/src/audit/sink.ts:74-133 | from a closed state on, in any interleaving, the flush steps made and the work left never exceed the work there was |
| AuditProgress.FirstCloseEndsExactly | apps/gateway/src/audit/sink.ts:74-94 | the first close ends within a bounded number of flush steps in every run if and only if the batch size is at least one |
| AuditProgress.DrainingIsNeverStuck | apps/gateway/src/audit/sink.ts:74-84 | until a flush has ended, it or one before it can go on without a fault |
| AuditProgress.SecondCloseDoesNotWait | apps/gateway/src/audit/sink.ts:86-94 | a second close returns at once while an event is still queued |
| AuditHistory.AcceptedExactly | apps/gateway/src/audit/sink.ts:60-68 | over any run the sink is closed once `close` was called, and has accepted exactly what was recorded before that, in order |
| AuditHistory.DropsExactly | apps/gateway/src/audit/sink.ts:63-67 | an event is dropped if and only if another is recorded while the queue of an open sink is full; it is the oldest, and the new one joins as the youngest |
| AuditHistory.BatchesSettleExactly | apps/gateway/src/audit/sink.ts:76-133 | a batch that is stored is the front of the queue when its flush took it, as much as the batch size or all there was; a batch counts as failed exactly at the last allowed fault since then; nothing else is stored or fails |
| AuditSinks.ZeroAttemptsForget | apps/gateway/src/audit/sink.ts:117-133 | with no attempt allowed a batch leaves the queue and is counted nowhere |
| AuditSinks.ZeroCapacityMiscounts | apps/gateway/src/audit/sink.ts:60-68 | with no capacity an event is both queued and counted as dropped |
| AuditProgress.ZeroBatchSpins | apps/gateway/src/audit/sink.ts:77-80 | with a batch size below one there is, for every number, a run with that many flush steps after the first close in which it still waits |
| BufferedAuditSinks.BufferedAuditSink.Record | apps/gateway/src/audit/sink.ts:60-68 | the fields change as the step of the transition system says |
| BufferedAuditSinks.BufferedAuditSink.Close | apps/gateway/src/audit/sink.ts:86-94 | closes once and chains one more flush |
| BufferedAuditSinks.BufferedAuditSink.Deliver | apps/gateway/src/audit/sink.ts:117-133 | the retry loop stores the batch at the first attempt that succeeds, or counts it as failed after the last, with the pauses in between |
| BufferedAuditSinks.BufferedAuditSink.Drain | apps/gateway/src/audit/sink.ts:60-81 | with events arriving while every batch is delivered, the drain loop ends with an empty queue, stores exactly the batches with a successful attempt, in order, and loses count of no event |
| BufferedAuditSinks.StoredIsASelection | apps/gateway/src/audit/sink.ts:76-81 | what a drain stores is an ordered selection of the queue and what arrived |
| BufferedAuditSinks.FirstSuccessIsFirst | apps/gateway/src/audit/sink.ts:117-133 | the attempt at which a batch is stored is allowed, is accepted, and all before it were refused; a batch is given up only if all allowed attempts were refused |
| BufferedAuditSinks.PauseIsQuadratic | apps/gateway/src/audit/sink.ts:130 | the pauses before the a-th attempt add up to 100 a (a - 1) / 2 ms |
| Policies.ValidatePolicies | apps/gateway/src/policy/validate.ts:21-55 | no error if and only if ids are distinct and every policy is good; an error names the first policy that spoils the list and the first check that fails for it |
| Policies.ValidateArgumentConstraints | apps/gateway/src/policy/validate.ts:57-81 | no error if and only if every constraint has exactly one operator; an error is that of the first bad constraint |
| Policies.GoodPolicyExactly | apps/gateway/src/policy/validate.ts:21-81 | a policy is good if and only if its id and reason have more than white space, its decision is one of the three names, its match is an object, and every constraint of its arguments has exactly one operator, a list for `oneOf` |
| Policies.MatchIsAConjunction | apps/gateway/src/policy/matcher.ts:52-78 | any match is the conjunction of its members, arguments included and in any order: each set field must equal its own part of the context, each argument meet its constraint, and the empty match accepts everything |
| Policies.ConstraintsMeanWhatTheySay | apps/gateway/src/policy/matcher.ts:37-43 | any constraint matches exactly a present argument that equals its `equals` or, without one, one of its `oneOf`, up to structural equality; a valid one has a single operator that decides |
| Policies.AppliesExactly | apps/gateway/src/policy/matcher.ts:37-78 | a policy applies if and only if it is not disabled and each member of its match with one of the five names is met by the context, told by the members of both sides |
| Policies.Evaluate | apps/gateway/src/policy/engine.ts:36-84 | the loop and the reduction compute `Evaluation` |
| Policies.EvaluationIsTheMaximum | apps/gateway/src/policy/engine.ts:36-84 | the result is that of the one policy that is maximal by severity, priority and position, or the default denial when none applies |
| Policies.OrderDoesNotDecide | apps/gateway/src/policy/engine.ts:63-78 | the decision is the same for every order of the list, and the deciding policy changes only among ties |
| Policies.AddingAPolicy | apps/gateway/src/policy/engine.ts:36-84 | the exact effect of one more policy anywhere in the list: none, deciding alone, or the maximum of severities |
| Policies.AddingNeverWeakens | apps/gateway/src/policy/engine.ts:46-78 | one more policy lowers the severity if and only if nothing applied before and it applies without denying |
| Policies.DenyWins | apps/gateway/src/policy/engine.ts:63-78 | ALLOW if and only if something applies and all that applies allows; DENY if and only if nothing applies or something denies |
| Policies.DecisionIsWhatTheNamesSay | apps/gateway/src/policy/engine.ts:36-84 | the decision is DENY if and only if nothing applies or a policy that applies is named "DENY", ALLOW if and only if some apply and all of those are named "ALLOW", and otherwise REQUIRE_APPROVAL |
| Policies.EvaluationNamesItsPolicy | apps/gateway/src/policy/engine.ts:36-84 | the evaluation has the name, id and reason of an applying policy, which among those of its name has the highest stated priority and stands first; without one it is the default denial with its reason |
| Risk.Assess | apps/gateway/src/risk/engine.ts:115-147 | the two loops compute `Assessment`; a rule that throws does not match |
| Risk.LevelIsTheMaximum | apps/gateway/src/risk/engine.ts:129-132 | the level is the highest of the baseline and all matching rules, one of them, and the only such |
| Risk.LevelByLevel | apps/gateway/src/risk/engine.ts:115-147 | which level it is, level by level, and that the enhanced audit is asked for from MEDIUM on |
| Risk.FindingsInOrder | apps/gateway/src/risk/engine.ts:115-128 | the findings are those of the rules that answered yes, all of them, in their order |
| Risk.ReasonListsTheFindings | apps/gateway/src/risk/engine.ts:133-140 | the reason lists signal, level and detail of every finding in order, or names the baseline |
| Risk.AppliedIsTheJoin | apps/gateway/src/risk/engine.ts:153-175 | the final severity is the maximum of the policy's and the mapped one, the policy id is kept, a raised decision has its reason followed by the level and the assessment's reason, what is not raised is untouched |
| Risk.ApplyingTwiceIsApplyingOnce | apps/gateway/src/risk/engine.ts:153-175 | applying the engine to its own outcome changes nothing |
| Risk.MonotoneMappingsNeverWeaken | apps/gateway/src/risk/engine.ts:153-175 | extra rules never weaken any outcome if and only if the mapping is monotone |
| Risk.DefaultMappingNeverWeakens | apps/gateway/src/risk/engine.ts:35-40 | with the default mapping extra rules never weaken an outcome |
| Risk.DefaultMappingOutcome | apps/gateway/src/risk/engine.ts:35-40 | with the default mapping CRITICAL denies, HIGH asks for approval at least, and the lower levels leave the decision |
| PolicyRows.ReadBack | apps/gateway/src/repositories/mappers.ts:107-154 | a stored policy can be read back if and only if no field has a wrong type, and is then valid with the same name, decision, reason, priority and flag |
| RowReading.RowReadExactly | apps/gateway/src/repositories/mappers.ts:107-154 | any row is refused for its decision, its match, a field of it or its reason, in this order, exactly where these are wrong, and otherwise read as the policy with the row's columns and the fields that are not null |
| PolicyRows.ReadBackMatches | apps/gateway/src/repositories/mappers.ts:118-136 | whatever key order the column chose, the match read back differs from the one written by its null fields only |
| PolicyRows.ReadBackIsAlike | apps/gateway/src/repositories/mappers.ts:118-136 | storing keeps a policy's effect on a context if and only if it is disabled, has no null field, or would not match without its null fields |
| PolicyRows.NullFieldWidens | apps/gateway/src/repositories/mappers.ts:120-136 | a valid policy with a null field denies by default before and allows every request after storing |
| PolicyRows.ListingIsValid | apps/gateway/src/repositories/pg.ts:164-169 | the listing succeeds if and only if every enabled policy is readable, and is then valid and in the order of ids |
| PolicyRows.StoringKeepsDecisions | apps/gateway/src/repositories/pg.ts:164-219 | a valid list with string fields is stored and read back with the same decision on every context; among ties the least id decides, and without a tie the evaluation is the same |
| PolicyRows.StoringDropsNulls | apps/gateway/src/repositories/pg.ts:164-219 | any valid list that can be read back decides, after storing, as it would without its null fields |
| PolicyRows.StoringKeepsTheDecisionExactly | apps/gateway/src/repositories/pg.ts:164-219 | storing keeps such a list's decision on a context if and only if the policies that apply only without their null fields are no more severe than it or, where nothing applied, are none or include a denial |
| PolicyRows.UpsertReplaces | apps/gateway/src/repositories/pg.ts:196-219 | an upsert leaves one row per id, the new one, and all others as they were |
| PolicyRows.DisablingIsRemovingFromTheListing | apps/gateway/src/repositories/pg.ts:221-234 | disabling a policy and removing it have the same listing |
| PolicyRows.SwitchedExactly | apps/gateway/src/repositories/pg.ts:221-229 | switching a policy on or off changes the flag of its row and nothing else |
| PolicyRows.RemovedExactly | apps/gateway/src/repositories/pg.ts:231-234 | removing a policy takes out its row and no other |
| PolicyRows.PgPolicyRepository.Upsert | apps/gateway/src/repositories/pg.ts:196-219 | changes nothing on an unknown decision and otherwise upserts the row, keeping ids unique |
| PolicyRows.PgPolicyRepository.UpsertAll | apps/gateway/src/repositories/pg.ts:196-219 | upserting a valid list one by one into an empty table leaves exactly its rows |
| PolicyStores.SnapshotIsOneInstant | apps/gateway/src/policy/store.ts:56-70 | under any interleaving of reloads and writes the snapshot is valid and is the initial list or the whole listing at the instant of some reload's query |
| PolicyStores.PolicySnapshotIsOneInstant | apps/gateway/src/policy/store.ts:40-70 | the same for the policies table and the policy validator |
| PolicyStores.SnapshotIsTheLastSuccess | apps/gateway/src/policy/store.ts:56-84 | between any two moments of a run the snapshot is the list of the last reload that succeeded in between, and unchanged if none did |
| PolicyStores.SequentialReloadsGoForward | apps/gateway/src/policy/store.ts:56-70 | without overlapping reloads the snapshot never returns to an older content |
| PolicyStores.GoesBackExactly | apps/gateway/src/policy/store.ts:56-70 | over any run the snapshot goes back to an older content if and only if, of two reloads that succeed, the one that read the older content goes on after the other |
| PolicyStores.QuietReloadIsCurrent | apps/gateway/src/policy/store.ts:56-70 | a reload with no write since its query leaves what is enabled now |
| PolicyStores.OverlappingReloadsMayGoBack | apps/gateway/src/policy/store.ts:56-70 | a run of two overlapping reloads that puts an older list back |
| PolicyStores.PolicyStore.BuildEngine | apps/gateway/src/policy/store.ts:40-42 | building an engine from the snapshot never throws |
| PolicyStores.PolicyStore.Reload | apps/gateway/src/policy/store.ts:56-70 | swaps exactly a listed and valid list, keeps validity, reports whether the snapshot changed |
| PolicyStores.PolicyStore.ReloadSafe | apps/gateway/src/policy/store.ts:78-84 | never throws, swaps exactly a listed and valid list, and answers true exactly when the snapshot changed |
| Migrations.LoadMigrationFiles | apps/gateway/src/db/migrate.ts:32-56 | returns the matching files in order if they are numbered from 1, or the first one out of sequence |
| Migrations.LoadingSucceedsOnGapless | apps/gateway/src/db/migrate.ts:36-53 | loading succeeds if and only if the n matching files use up the numbers 1 to n, and lists every one of them |
| Migrations.PrefixIsTheNumber | apps/gateway/src/db/migrate.ts:46-53 | the padded-prefix check accepts exactly the file with the expected number |
| MigrationFiles.NameExactly | apps/gateway/src/db/migrate.ts:20 | the pattern accepts exactly four digits, an underscore, a name of small letters, digits and underscores, and `.sql` |
| MigrationFiles.LoadedExactly | apps/gateway/src/db/migrate.ts:32-43 | what is loaded holds, for each accepted entry, the name without `.sql` and the content, once and nothing else, in ascending order of ids |
| MigrationFiles.PaddedExactly | apps/gateway/src/db/migrate.ts:47 | the expected prefix is the number in decimal, filled up with zeros to four digits |
| MigrationFiles.NumberExactly | apps/gateway/src/db/migrate.ts:46-53 | the number of a file is what its first four digits say |
| MigrationRuns.NumberedIdsAreDistinct | apps/gateway/src/db/migrate.ts:46-53 | the files that loading accepts have distinct ids, as the runs assume |
| MigrationRuns.StepKeepsInv | apps/gateway/src/db/migrate.ts:77-118 | every step of every run keeps the invariant |
| MigrationRuns.AppliedOnceInOrder | apps/gateway/src/db/migrate.ts:77-118 | after any runs that fail, crash or are under way, schema and records are one prefix of the list, each migration once and in order, and one run at most is past the lock |
| MigrationRuns.SuccessIsComplete | apps/gateway/src/db/migrate.ts:90-110 | a run that succeeded has all its files in effect for good and reports each once |
| MigrationRuns.NextRunAppliesNothing | apps/gateway/src/db/migrate.ts:84-94 | once a run has succeeded, a run over no more files that had not yet read the records commits nothing in any interleaving, and if it succeeds has skipped all its files |
| MigrationRuns.InsertNeverConflicts | apps/gateway/src/db/migrate.ts:96-101 | no run ever meets the primary key |
| MigrationRuns.RunsComeToAnEnd | apps/gateway/src/db/migrate.ts:77-118 | every step of a run lowers its measure and no other run raises it |
| MigrationRuns.RunsAreNeverStuck | apps/gateway/src/db/migrate.ts:77-118 | unless all have ended some run can go on without an error |
| MigrationRuns.Database.RunMigrations | apps/gateway/src/db/migrate.ts:84-110 | the loop applies the pending files in order up to the first that fails, and says exactly which were applied, skipped or failed |
| Gateways.StepKeepsInv | apps/gateway/src/routes/mcp.ts:148-403 | every step of requests, reloads and approval calls keeps the grounds of everything forwarded |
| GatewayTheorems.NoDenyIsForwarded | apps/gateway/src/routes/mcp.ts:255-291 | nothing with the verdict DENY is ever forwarded |
| GatewayTheorems.NothingDeniedIsForwarded | apps/gateway/src/routes/mcp.ts:255-291 | in the snapshot a forwarded request was evaluated against, some policy applied to it and none that applied was named "DENY" |
| GatewayTheorems.ForwardsAreAuthenticated | apps/gateway/src/routes/mcp.ts:201-264 | every forward was authenticated at some step and evaluated against the snapshot of that step |
| GatewayTheorems.OnlyNotificationsSkipPolicy | apps/gateway/src/routes/mcp.ts:228-253 | a forward without a verdict is exactly a message without an `id` that is a string or a number, told by the members of the body, and one with a verdict was evaluated in the context its members say |
| GatewayTheorems.NotificationsAlwaysPass | apps/gateway/src/routes/mcp.ts:228-253 | an authenticated notification is forwarded whatever the policies say |
| GatewayTheorems.ForwardsRestOnConsumption | apps/gateway/src/routes/mcp.ts:293-326 | a forward has an approval exactly when its verdict was REQUIRE_APPROVAL, and the approval was its own agent's, approved and consumed by it before expiry |
| GatewayTheorems.ApprovalsAreUsedOnce | apps/gateway/src/routes/mcp.ts:293-326 | forwards on approval map one to one into consumed approvals |
| GatewayTheorems.ForwardedCallIsTheApprovedCall | apps/gateway/src/routes/mcp.ts:293-402 | what is forwarded on an approval has the tool and structurally equal arguments of the create call whose step inserted it |
| GatewayTheorems.ForwardedCallIsEveryWaitersCall | apps/gateway/src/routes/mcp.ts:293-402 | and those of every request that was told to wait for this approval |
| GatewayTheorems.UnavailableMeansBlocked | apps/gateway/src/routes/mcp.ts:343-352 | while approvals are unavailable nothing that needs one is forwarded |
| GatewayTheorems.ApprovedRequestGoesThrough | apps/gateway/src/routes/mcp.ts:293-402 | a request with a valid approval is forwarded when nothing interferes |
| GatewayVerdicts.VerdictIsTheStricter | apps/gateway/src/routes/mcp.ts:257-264 | the verdict is as severe as the stricter of what the names of the applying policies say and what the highest risk level is mapped to; the policy and the head of its reason are kept |
| GatewayVerdicts.StricterMeans | apps/gateway/src/routes/mcp.ts:257-264 | it is DENY if and only if the policies or the level deny, and ALLOW if and only if both allow |
| GatewayVerdicts.RiskIsHeeded | apps/gateway/src/routes/mcp.ts:257-291 | over any run nothing is forwarded at a level that is mapped to a denial, and without an approval nothing at a level mapped to more than ALLOW or with a policy that is not named "ALLOW" |
| GatewayVerdicts.PresentedExactly | apps/gateway/src/routes/mcp.ts:61-65 | the presented approval id is the header's text without the white space around it, and none if nothing is left |
| GatewayVerdicts.AuthenticatedRequestIsTreated | apps/gateway/src/routes/mcp.ts:255-326 | after authentication a call is blocked, sent, or waits for the consume or create call that belongs to what it presents, by the stricter verdict of the present snapshot |
| GatewayVerdicts.ConsumerIsTreated | apps/gateway/src/routes/mcp.ts:296-326 | after its consume call a request is sent exactly if the call has consumed, and is otherwise answered with the refusal |
| GatewayVerdicts.CreatorIsTreated | apps/gateway/src/routes/mcp.ts:327-370 | after its create call nothing is sent and the answer names the approval, if there is one |
| GatewayVerdicts.ForwardsPassedTheChecks | apps/gateway/src/routes/mcp.ts:160-193 | over any run what was sent had arrived with that body and had passed the checks of size and form |
| GatewayVerdicts.RefusedOnArrival | apps/gateway/src/routes/mcp.ts:160-193 | what fails a check is answered at once: too large, not actionable, or again too large |
| GatewayVerdicts.StrangersAreRefused | apps/gateway/src/routes/mcp.ts:201-224 | without authentication nothing is sent and no approval call begins |
| GatewayRoutes.McpRoute.Handle | apps/gateway/src/routes/mcp.ts:148-403 | the handler's answer in every case: which check refused; and for an authenticated call, by the stricter of policies and risk, blocked with the verdict, sent, or resting on the end of its own approval call |
| GatewayRoutes.McpRoute.HandlePresented | apps/gateway/src/routes/mcp.ts:296-326 | with an approval id the body is sent exactly on success, on an approval that was unconsumed before; an approval that could be executed when it began is, unless a faster call has executed it; the answer is that of its consume call |
| GatewayRoutes.McpRoute.HandleUnpresented | apps/gateway/src/routes/mcp.ts:327-370 | without one nothing is sent; the answer is that of its create call and carries the id of an approval for this very key, or no id exactly when approvals are unavailable, or an error |

## Left out

- BufferedAuditSinks.BufferedAuditSink.Drain: events arrive between the taking of a batch and its outcome; further `flush` and `close` calls meanwhile are part of `AuditSinks`, where the loop is cut at every await.
- ApprovalServices.ApprovalService.CreateForContext: the class stands over the in-memory repository; PostgreSQL is covered by the transition system, which has both.
- GatewayRoutes.McpRoute.Handle: policy reloads while the handler waits are part of `Gateways`; in the method the snapshot is read once, as in the handler.
- PolicyRows.PgPolicyRepository.Upsert: a row that the database itself refuses (text with NUL, unpaired surrogates, a priority beyond the column's range) is an error not modelled.
- Numbers in JSON are integers; other numbers, `undefined`, functions and the key `__proto__` do not occur.
- The digest of the arguments is collision-free, identifiers are arbitrary rather than random, and clock readings are arbitrary integers in milliseconds.
- Reading request bodies as JSON, HTTP, header filtering, streaming to the upstream server, response texts and metrics.
- Authentication is its answer: an agent, or none. API keys, roles and their tables are not part of this model.
- Risk rules are arbitrary tests instead of regular expressions; the sensitive-key pattern is concrete.
- SQL, pools and drivers: a query is one atomic step and a transaction is all or nothing. The order of ids in listings is by code unit; a database collation changes only which of tied policies has the least id.
- `consumed_by` is kept for both repositories, although only PostgreSQL stores it.
- The audit events of the route itself, the payload of events beyond the record and the kind, listings with their filters, pages and tie order, and the retention of the event table.
- The insertion of an audit batch either took effect or threw; an insertion that took effect and threw is not distinguished from one that threw.
- Migration files are those of one growing list; renaming or editing an applied migration is not modelled, and a script does not end its own transaction.
- `initPersistence`, the in-memory policy repository, the command line, health routes, dashboard and mock server.
