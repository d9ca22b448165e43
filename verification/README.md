# Verification of the novel wiki's protocols

A Dafny model of the parts of the novel wiki whose correctness depends on many steps interleaving, on a
transaction being whole, or on two pieces of code agreeing with each other, and proofs about them.

| file | what it models |
|---|---|
| `Prelude.dfy` | `Option`, `Result`, the chapter key |
| `JobRows.dfy` | a row of the durable job queue and its guarded updates |
| `QuotaLedger.dfy` | usage counters and job rows as one value: reserve, refund, create, consume, settle |
| `JobRuns.dfy` | runs of any number of requests, workers and recovery passes over that value |
| `Settlement.dfy` | the programs that end a job in one transaction and settle its quota in another, over those runs |
| `WorkStore.dfy` | the same tables updated in place, and the two scheduling workflows with their compensation |
| `Claims.dfy` | the skip-locked claim: the benchmark's loop, and many workers that commit, crash and release |
| `Text.dfy`, `ConnectRequest.dfy` | the egress proxy's request parser, and the renderer it inverts |
| `Resolver.dfy` | lookup slots, the check of a resolver's answer, the connection attempt |
| `Relay.dfy` | the two pumps of a tunnel and their shared byte budget |
| `Admission.dfy` | the connection counter and what each client is sent |
| `UnitOfWork.dfy` | capability binding, the unit of work, and two workflows inside it |
| `Renumbering.dfy` | moving a source to another chapter offset |
| `StaleCommit.dfy` | translation and codex commits prepared against an older chapter |
| `Migration.dfy` | the one-time move to many users |
| `Narration.dfy`, `Multipart.dfy` | narration layout, timing manifest, stable voice, and the timed response |
| `Lifecycle.dfy` | the order of startup and shutdown hooks |

Where the source changes state in place, the model is a class whose methods update the same fields, and each
method is tied to a function of the old state; the protocol results are about those functions and about runs of
them. What an await, a lock, a hash, a clock or the network does is a parameter, so a result holds whatever it
does. Interleavings are sequences of steps, one step for each transaction or each stretch between two awaits.

## Where the code and its promises differ

Each of these is a lemma with a concrete input, an if-and-only-if, or both.

- **Attempts can exceed `max_attempts`.** Parking a job for its provider, and requeueing a stale lease, do not look
  at the attempts. `JobRows.BudgetIff` says which updates keep the retry budget, `JobRows.WaitingOverdrawsExample`
  exceeds it, and `JobRuns.ClaimsOfWholeRuns` bounds the claims by the budget, what fallbacks grant, and those updates.
- **A lost lease does not stop its worker**, though the worker module promises that two workers never run one job. Only
  the renewal checks the claim token. `JobRuns.ForeignLeaseIff` says exactly when a completion hits another worker's row.
- **Settlement and status can disagree**, though the worker module promises a settlement exactly once at every terminal
  state. They are two transactions: a crash in between leaves a row at its end unsettled and charged
  (`Settlement.UnsettledEndIff`), even after a cancellation. And the generic worker takes a row it finds queued for a
  canceled one and settles it, so after a lost lease a job is refunded and then run (`Settlement.SettledLiveIff`). A
  finished job is refunded when its worker's settlement raises and the retry settles instead (`Settlement.DoneIsSpentIff`).
- **A cancellation between reservation and scheduling strands the reservation.** `schedule_ai_job` catches
  `Exception`, which a cancellation is not. `WorkStore.ScheduleConserves` gives the exact condition for one call, and
  `JobRuns.DriftIsLateRefunds` what refunds after the row was created do over whole runs.
- **The first refund of `schedule_codex` is unreachable**, because no idempotency key is passed
  (`WorkStore.KeylessCreationIsAlwaysNew`); were it reached and to raise, it would be attempted twice.
- **A unit of work whose transaction cannot begin keeps its connection** (`UnitOfWork.UnitOfWork.Enter`).
- **Renumbering leaves chapter overlays behind**, although it promises to move all chapter references
  (`Renumbering.OverlayStays`); the audio table's foreign key makes it fail when narration exists; and the detour
  over a million can collide where the move itself would not (`Renumbering.DetourCollidesExample`).
- **An overlay written late is not marked as conflicting**: self-translation saves against the version it read
  before translating (`StaleCommit.FlagsSurviveIffNotLate`). Readers are still shown a conflict, because the versions
  are compared again on reading (`StaleCommit.MarksAreWhatIsShownIff`).
- **An import that replaces a source restarts its chapters at version one.** The importer passes the former version plus
  one, but after the deletion the rows are inserted, and the minimum only counts on conflict. One commit can therefore
  land twice: `StaleCommit.ReplacementRevivesIff` says exactly when, `StaleCommit.StaleNeverLands` how often at most.
- **The migration makes a second admin** when an unknown address is configured, although its description says that
  step is skipped when an admin exists (`Migration.FurtherAdminIff`). The admin stays exactly when it was written and
  the transaction does not go through (`Migration.AdminOutlivesRollbackIff`).
- **The migration marker does not keep overlapping calls apart**: it is read outside the transaction. What such calls
  can still change is only library entries (`Migration.OverlapsOnlyAddSeats`).
- **The first narration cuts its gaps at 24000 Hz**, because it does so before the model that knows the rate is
  loaded. `Narration.DefaultRateGaps` says for which rates the manifest still adds up and for which it cannot.
- **A cancelled hook ends the shutdown**: only failures are caught (`Lifecycle.ApplicationLifecycle.Stop`).

## Model

| member | source | states |
|---|---|---|
| JobRows.AdvanceFrame | novelwiki/modules/work/adapters/outbound/postgres.py:333-542 | no life-cycle update touches the quota columns or the identity of a row, and none updates a done, failed or canceled row |
| JobRows.AdvanceKeepsLease | novelwiki/modules/work/adapters/outbound/claims.py:10-41 | a row carries a claim token and a lease time exactly while it is running, through every update |
| JobRows.LeaseLasts | novelwiki/modules/work/adapters/outbound/worker_state.py:58-104 | a row claimed or renewed at a time is refused to every recovery update through the lease after it, and open to failing and requeueing, and to canceling if asked for, from then on |
| JobRows.StatusAfter | novelwiki/modules/work/adapters/outbound/postgres.py:333-542 | which updates end a row as done, failed or canceled, which leave it running, waiting or queued, and that all but a renewal send it to the back of the claim order |
| JobRows.CancelStops | novelwiki/modules/work/adapters/outbound/postgres.py:333-380 | a job somebody asked to cancel can be claimed by nobody; unless it runs on a subscription it is canceled at once, and there it keeps its lease until its worker cancels it |
| JobRows.ParkedWaits | novelwiki/modules/work/adapters/outbound/postgres.py:484-542 | a parked job can be claimed by nobody, is released on request or exactly after the minutes asked for (at least one), and can be claimed at once then |
| JobRows.FallbackIsClaimable | novelwiki/modules/work/adapters/outbound/worker_state.py:23-39 | a job handed over can be claimed by the API workers alone, with fresh attempts |
| JobRows.BackoffDoubles | novelwiki/modules/work/adapters/outbound/postgres.py:449-450 | the retry delay doubles with each attempt from ten seconds and is five minutes from the sixth attempt on |
| JobRows.RetryWaits | novelwiki/modules/work/adapters/outbound/postgres.py:434-481 | a failed attempt is requeued exactly while attempts remain, and can then be claimed exactly by a matching worker once the delay is over |
| JobRows.BudgetIff | novelwiki/modules/work/adapters/outbound/postgres.py:434-542 | an update keeps "claimable only with an attempt left" if and only if it does not park or requeue an exhausted row or fall back with no attempts |
| JobRows.WaitingOverdrawsExample | novelwiki/modules/work/adapters/outbound/postgres.py:484-514 | a row on its last attempt that is parked and released is claimed once more |
| JobRows.RecoveryOfAnUnchangedRow | novelwiki/modules/work/application/worker_state.py:46-61 | recovery of an unchanged stale row always acts, never leaves it running, requeues it exactly if it is not canceled and has attempts left |
| JobRows.LostLeaseStillFinishes | novelwiki/modules/work/adapters/outbound/postgres.py:413-431 | the shortest case: requeued as stale, claimed by another worker, completed by the first, which can no longer renew |
| JobRows.GuardsIgnoreTheToken | novelwiki/modules/work/adapters/outbound/postgres.py:387-542 | whether and how a worker gives a row up does not depend on who asks; only the renewal of a lease does |
| QuotaLedger.FindActive | novelwiki/modules/work/adapters/outbound/postgres.py:182-188 | the reused row is an oldest active one of the kind and key, and none is found only if there is none |
| QuotaLedger.CreateIff | novelwiki/modules/work/adapters/outbound/postgres.py:178-246 | exactly when a creation reuses a row, and that it is an oldest unended one of kind and key; exactly when it is refused by policy or by the number of unended jobs; otherwise one fresh row of the draft; a reuse or refusal changes nothing |
| QuotaLedger.FreshIsClaimable | novelwiki/modules/work/adapters/outbound/postgres.py:233-246 | a new row can be claimed at once, by the workers of its backend alone |
| QuotaLedger.CreateKeepsOneActive | novelwiki/modules/work/adapters/outbound/postgres.py:178-199 | no two active rows ever share a kind and an idempotency key |
| QuotaLedger.CreateRespectsPolicy | novelwiki/modules/work/adapters/outbound/postgres.py:200-231 | a user's creation for a subscription, smoke tests excepted, happens only under an enabled policy and never takes the user's queued, running and waiting jobs past the limit |
| QuotaLedger.ReserveSlack | novelwiki/modules/identity/adapters/outbound/postgres_quota.py:65-96 | a reservation succeeds exactly if it fits the limit, raises that account alone, and keeps the limit |
| QuotaLedger.RefundSlack | novelwiki/modules/identity/adapters/outbound/postgres_quota.py:98-121 | a refund lowers only its account, by what it reports, which is all of it unless the counter is lower |
| QuotaLedger.FinalizeSlack | novelwiki/workflows/finalize_job_quota.py:13-34 | a settlement refunds exactly reserved minus consumed (nothing for a success that spends all), unclipped, and moves no account's balance of usage against jobs |
| QuotaLedger.SettlesAs | novelwiki/modules/work/adapters/outbound/transactions.py:33-56 | a success that is no translation or ran on the API consumes the whole reservation and refunds nothing; a subscription translation, a failure and a cancellation keep the consumed count and refund the rest, to the owner alone; nothing else of the row changes |
| QuotaLedger.SpendsToTheEnd | novelwiki/modules/work/adapters/outbound/transactions.py:13-26 | an unsettled reservation can be consumed unit by unit exactly to its end |
| JobRuns.NoLeak | novelwiki/workflows/schedule_ai_job.py:15-22 | while the books balance, every refund that is due is given in full |
| JobRuns.SchedulesWhatIsHeld | novelwiki/workflows/schedule_ai_job.py:14-23 | a new row carries the account and the units its request holds, which then holds them no longer; a reused row or a refusal leaves them held |
| JobRuns.Conservation | novelwiki/workflows/schedule_ai_job.py:6-23 | over every run without a refund for a hold already given up, each account's usage is what open requests hold plus units reserved minus units refunded over its jobs, within the limit, and active keys stay unique |
| JobRuns.DriftIsLateRefunds | novelwiki/workflows/schedule_ai_job.py:15-20 | over every run, with refunds after the row was created or repeated refunds, a user is never charged more than requests and rows account for, and less by at most what those refunds gave |
| JobRuns.QuiescentUsage | novelwiki/workflows/finalize_job_quota.py:13-34 | with no request in flight and no late refund, usage is exactly what the job rows hold |
| JobRuns.ExactlyOnce | novelwiki/modules/work/adapters/outbound/transactions.py:29-58 | of any finalize calls for a job, interleaved in any run, exactly one obtains a settlement |
| JobRuns.RefundsBalanceCharge | novelwiki/workflows/finalize_job_quota.py:17-34 | over a run, what a job held is what became due for it plus what it still holds; no more than that is refunded, and all of it unless there were late refunds |
| JobRuns.ClaimsAreBounded | novelwiki/modules/work/adapters/outbound/claims.py:10-41 | between fallbacks a job is claimed at most `max_attempts` times plus the number of exhausted parks and requeues |
| JobRuns.ClaimsOfWholeRuns | novelwiki/modules/work/adapters/outbound/worker_state.py:23-39 | over whole runs a job is claimed at most as often as it had attempts left, plus what each fallback that took effect grants, plus the exhausted parks and requeues |
| JobRuns.CanceledIsNeverClaimed | novelwiki/modules/work/adapters/outbound/claims.py:24-36 | over every run without a fallback, a job somebody asked to cancel is not claimed again |
| JobRuns.TerminalForever | novelwiki/modules/work/adapters/outbound/postgres.py:333-481 | done, failed and canceled are absorbing over every run |
| JobRuns.ForeignLeaseIff | novelwiki/modules/work/adapters/inbound/worker.py:8-14 | over every run since its claim, a worker that completes, fails, cancels, parks or hands over a job acts on a row another worker has if and only if the row left the running state and was claimed from there; where it finds the row not running, the row left that state since |
| JobRuns.HeartbeatKeepsLease | novelwiki/modules/work/adapters/inbound/worker.py:148-153 | over every run in which the worker renews within the lease, no recovery pass takes its row; it stays with the worker until something else ends the run |
| Settlement.ScriptsAreRuns | novelwiki/modules/work/application/worker.py:27-50 | any interleaving of programs that end and settle jobs is a run of their transactions, to which the results about all runs apply |
| Settlement.OwesIff | novelwiki/modules/work/application/worker.py:27-50 | which updates are followed by a settlement: those that end the row, as a success exactly if it is done, and refused retries and refused API completions, as failures |
| Settlement.BailIff | novelwiki/modules/work/application/worker.py:35-41 | a handler that looks for a cancellation goes on to settle exactly if the row is canceled |
| Settlement.HandoverSettles | novelwiki/modules/work/adapters/outbound/postgres.py:564-566 | a program that hands a translation over to the API settles it first, keeping what it consumed |
| Settlement.UnsettledEndIff | novelwiki/modules/work/adapters/inbound/worker.py:18-20 | a row at its end was ended by a program that goes on to settle it, and is unsettled exactly while every program that owes it a settlement has stopped before making it; if none has stopped, every row at its end is settled |
| Settlement.SettledLiveIff | novelwiki/modules/work/adapters/outbound/postgres.py:457-460 | a live row is settled exactly if a program did it that was handing the row over to the API or had its update refused because the row was queued or waiting |
| Settlement.SettlesLiveIff | novelwiki/modules/work/application/worker.py:42-47 | a settlement that is due hits a live row exactly if no program has ended the row |
| Settlement.DoneIsSpentIff | novelwiki/modules/work/application/worker.py:42-50 | a finished job that counts as having spent its reservation is settled so if and only if the program that finished it settles it, and refunded if another is first |
| Settlement.LostLeaseSettlesLiveExample | novelwiki/modules/work/application/worker.py:42-47 | requeued as stale, refused to its first worker, settled by it, and claimed by the next |
| WorkStore.Store.CreateJob | novelwiki/modules/work/adapters/outbound/postgres.py:154-268 | the insert-or-reuse transaction equals the creation function and keeps active keys unique |
| WorkStore.Store.ClaimNext | novelwiki/modules/work/adapters/outbound/claims.py:10-41 | claims an unlocked claimable row updated longest ago, misses none, and changes no other |
| WorkStore.Store.FinalizeJobQuota | novelwiki/workflows/finalize_job_quota.py:13-34 | settlement and refund are one: when the refund raises, nothing is settled |
| WorkStore.Store.ScheduleAiJob | novelwiki/workflows/schedule_ai_job.py:6-23 | refused exactly if the reservation does not fit; exactly when the caller gets a job, an exception or its cancellation, under every pattern of faults; a new job is the one fresh row, a reused one an oldest unended row of its kind and key; the rows change exactly if scheduling took effect, and the balance moves by the reservation less one for a new row and one for a refund that ran |
| WorkStore.ScheduleConserves | novelwiki/workflows/schedule_ai_job.py:10-23 | what the balance moves by, and that it is unchanged if and only if exactly one of row and refund takes the reservation over, which holds whenever nothing is canceled, the refund works and scheduling raises only without a row |
| WorkStore.CancellationStrandsExample | novelwiki/workflows/schedule_ai_job.py:10-20 | a cancellation after the reservation leaves it charged to no job |
| WorkStore.Store.ScheduleCodex | novelwiki/bootstrap/acquisition_runtime.py:38-62 | exactly when the caller gets a job, an exception or its cancellation, under every pattern of faults of scheduling and both refunds; the rows change exactly if creation took effect, and the user's balance by the row and by each refund that found something to give; no other account moves |
| WorkStore.CodexConserves | novelwiki/bootstrap/acquisition_runtime.py:38-62 | the held unit is given up once if and only if the stated pattern of faults occurs |
| WorkStore.KeylessCreationIsAlwaysNew | novelwiki/bootstrap/acquisition_runtime.py:40-50 | without an idempotency key a creation never reuses a row |
| Claims.Table.ClaimOldest | tools/benchmark_queries.py:28-32 | claims the least unlocked queued row by (created_at, id) among those not put off until later, or none if there is none |
| Claims.Table.MeasureClaims | tools/benchmark_queries.py:61-91 | the benchmark's claims all succeed, are the oldest rows in strictly ascending order, and the rollback restores the table |
| Claims.ClaimsAreExclusive | tools/benchmark_queries.py:67-88 | over every interleaving of claims, commits, crashes and releases no row has two holders and none is claimed twice |
| Claims.RollbackRestores | tools/benchmark_queries.py:67-88 | a crash before commit makes its rows queued and claimable again and touches no other worker |
| Claims.CommittedClaimRuns | tools/benchmark_queries.py:67-88 | a committed claim is running and held by its worker alone |
| Claims.ReleaseHandsBack | tools/benchmark_queries.py:67-88 | a worker that releases a row no longer holds it; requeued, anybody can claim it once it is due, finished, nobody; no other row changes |
| ConnectRequest.NameIsCanonical | sidecar-novelpia-egress/proxy.py:50-70 | rendering the host name that `authority` returns and parsing it gives it back |
| ConnectRequest.AddressIsCanonical | sidecar-novelpia-egress/proxy.py:53-60 | the same for an IPv6 literal, given that the library's canonical text is its own canonical text |
| ConnectRequest.AuthorityIffDestination | sidecar-novelpia-egress/proxy.py:50-70 | accepts exactly a dotted name of labels in any letter case with trailing dots, or a bracketed IPv6 literal, with port 443, and answers with the name in lower case without the dots or the address's canonical text |
| ConnectRequest.HostNameIff | sidecar-novelpia-egress/proxy.py:67-69 | a host name is at most 253 letters, digits, hyphens and dots, no dot at an end or beside another, no hyphen at an end or beside a dot, and a dot among any 64 in a row |
| ConnectRequest.DestinationIsLower | sidecar-novelpia-egress/proxy.py:67-70 | a destination by name is such a name without capital letters |
| ConnectRequest.AuthorityStatus | sidecar-novelpia-egress/proxy.py:50-70 | what is no destination is rejected with 403 exactly if it names another port, with 400 otherwise |
| ConnectRequest.ParseRequest | sidecar-novelpia-egress/proxy.py:73-107 | the loop over the header lines with its set of seen names equals the recursive parser |
| ConnectRequest.ParseStatus | sidecar-novelpia-egress/proxy.py:73-107 | 431 exactly without a proper end within 8192 octets, 405 exactly for another method, 403 only for another port in the target or the Host field and always in the target, 400 otherwise |
| ConnectRequest.TokenIff | sidecar-novelpia-egress/proxy.py:27-27 | a field name holds visible characters that are no delimiters (section 5.6.2 of RFC 9110) |
| ConnectRequest.ValueIff | sidecar-novelpia-egress/proxy.py:90-91 | a field value holds no control characters but tabs |
| ConnectRequest.RenderingParses | sidecar-novelpia-egress/proxy.py:73-107 | every well-formed CONNECT request, rendered, is accepted with its destination |
| ConnectRequest.ParsedIsRendering | sidecar-novelpia-egress/proxy.py:73-107 | everything accepted is the rendering of a well-formed request |
| ConnectRequest.ParsesExactlyRenderings | sidecar-novelpia-egress/proxy.py:73-107 | the parser answers with a destination exactly for the renderings of well-formed requests for it, well-formed by a grammar of destinations and fields (section 9.3.6 of RFC 9110, section 3.2.3 of RFC 9112) |
| Resolver.SlotConservation | sidecar-novelpia-egress/proxy.py:110-132 | over every interleaving, free slots plus lookups in flight is eight, with one release per finished lookup |
| Resolver.AtMostEightLookups | sidecar-novelpia-egress/proxy.py:110-132 | from a fresh pool on, the lookups that run and the free slots are eight together |
| Resolver.TimedOutLookupKeepsItsSlot | sidecar-novelpia-egress/proxy.py:116-130 | a timeout frees no slot; the late completion frees it once |
| Resolver.RequestsAdvance | sidecar-novelpia-egress/proxy.py:110-132 | a request looks up exactly when a slot is free; a lookup that ends answers its request unless that has timed out |
| Resolver.DistinctIsInOrder | sidecar-novelpia-egress/proxy.py:135-150 | the collected entries are the distinct ones in order of first occurrence |
| Resolver.CheckRecords | sidecar-novelpia-egress/proxy.py:133-150 | one unsafe record rejects the answer; otherwise the result is its distinct addresses in first-occurrence order |
| Resolver.Network.Connect | sidecar-novelpia-egress/proxy.py:149-175 | dials the addresses in order up to the first that connects, expires, is canceled or has no socket; the outcome is exactly that one, 502 if all refused; every other socket it tried is closed |
| Resolver.Network.ConnectPublic | sidecar-novelpia-egress/proxy.py:133-175 | whatever the resolver answers, only public addresses at the requested port are dialled; 403 exactly for no records, more than 64, or any unsafe one, and then nothing is dialled |
| Relay.RelaySafety | sidecar-novelpia-egress/proxy.py:178-200 | over every interleaving, bytes written in both directions stay within 64 MiB and each output is a prefix of what was delivered |
| Relay.PumpStep | sidecar-novelpia-egress/proxy.py:181-189 | a pump ends at the end of its stream, trips exactly when the total passes 64 MiB, and hands everything else on; the other direction is left alone |
| Relay.StoppedIsSilent | sidecar-novelpia-egress/proxy.py:178-200 | a pump that has stopped neither reads nor writes again, over every run |
| Relay.TrippedIsFinal | sidecar-novelpia-egress/proxy.py:181-189 | once the budget is exceeded neither direction writes another byte |
| Relay.FaithfulWithinBudget | sidecar-novelpia-egress/proxy.py:181-189 | within the budget each side receives exactly what the other sent |
| Relay.TunnelRelay.Resume | sidecar-novelpia-egress/proxy.py:181-189 | one resumption of a pump equals the step, keeps the relay safe, and says whether the pump goes on |
| Admission.AdmissionSafety | sidecar-novelpia-egress/proxy.py:211-244 | over every interleaving, `active` counts the admitted handlers not yet in `finally`, is at most 96, and each client gets at most one status line and no tunnel data before a 200 |
| Admission.WhatClientsSee | sidecar-novelpia-egress/proxy.py:215-245 | from a fresh proxy on, at most 96 admitted handlers run and `active` is their number; a client is sent its one status line first or none, and the 200 before anything else |
| Admission.ReturnsToZero | sidecar-novelpia-egress/proxy.py:239-241 | when every handler has left, `active` is zero |
| Admission.RefusedIffFull | sidecar-novelpia-egress/proxy.py:220-223 | a connection is refused with 429 exactly at the limit, and a refusal costs no slot |
| Admission.ServesInOrder | sidecar-novelpia-egress/proxy.py:219-245 | each resumption takes a handler one stage on or out; the client is sent the 200 when the upstream stands, the status of a rejection before that, chunks only in the relay, and nothing else |
| Admission.SentOnlyGrows | sidecar-novelpia-egress/proxy.py:215-244 | what a client was sent stays sent over every run |
| Admission.Server.Handle | sidecar-novelpia-egress/proxy.py:215-224 | the entry of a handler equals the accept step and keeps the counter and the clients consistent |
| Admission.Server.Continue | sidecar-novelpia-egress/proxy.py:225-244 | the resumption of a handler equals the resume step and keeps the counter and the clients consistent |
| UnitOfWork.TransactionBindings.Bind | novelwiki/platform/database/uow.py:12-27 | each capability is built at most once, on the transaction's connection; an error binds nothing |
| UnitOfWork.UnitOfWork.Enter | novelwiki/platform/database/uow.py:40-46 | entered exactly if connection and transaction can be had, with nothing bound yet; a failing begin keeps the connection |
| UnitOfWork.UnitOfWork.Exit | novelwiki/platform/database/uow.py:48-59 | commits or rolls back as a whole and releases the connection either way |
| UnitOfWork.UnitOfWork.Run | novelwiki/platform/database/uow.py:30-59 | any sequence of capabilities bound and called, failing anywhere, leaves all effects or none; success is reported only for all, with exactly the capabilities called built; connections are conserved once entered |
| UnitOfWork.CreateNovelWithSource | novelwiki/workflows/create_novel_with_source.py:11-28 | novel, library entry and source appear together or not at all, whichever binding or call raises and even if the commit goes unreported; exactly when success is reported; the rows are the ones asked for and nothing else changes; references stay valid |
| UnitOfWork.DeleteNovel | novelwiki/workflows/delete_novel.py:11-21 | the ids reported for clean-up are exactly the import jobs removed; exactly when it succeeds, whichever binding or call raises; other novels are untouched; a refusal or failure deletes nothing |
| Renumbering.ShiftsCompose | novelwiki/modules/reading/adapters/outbound/postgres.py:51-58 | two moves of a source are the move by the sum |
| Renumbering.Downward | novelwiki/modules/reading/adapters/outbound/postgres.py:51-58 | with no two chapters of the source a million apart, the statement back passes exactly if no other source's chapter stands at a final number |
| Renumbering.UpwardKeepsAudio | novelwiki/db/schema.py:895-908 | with the source's chapters spread, the statement up passes the audio table's foreign key exactly if none of them has audio |
| Renumbering.ReferencesFollow | novelwiki/modules/reading/adapters/outbound/postgres.py:27-50 | every bookmark and reading position that named a chapter names the same chapter afterwards, and one that named none is untouched |
| Renumbering.ShiftRealigns | novelwiki/workflows/update_source_offset.py:15-29 | number = local + offset holds again for the source at its new offset and still for every other source |
| Renumbering.TwoMovesAreOne | novelwiki/workflows/update_source_offset.py:15-29 | two successive updates leave chapters and references where the second alone would have |
| Renumbering.OverlayStays | novelwiki/workflows/update_source_offset.py:14-15 | at an overlay's number the same chapter stands afterwards if and only if the offset did not change or the chapter is another source's |
| Renumbering.DetourCollidesExample | novelwiki/modules/reading/adapters/outbound/postgres.py:51-58 | two chapters for which every final number is free and no audio is attached, and the update is not possible |
| Renumbering.CompactMoves | novelwiki/modules/reading/adapters/outbound/postgres.py:51-58 | within a million of the source's numbers the detour never fails by itself |
| Renumbering.Library.ShiftNumbers | novelwiki/modules/reading/adapters/outbound/postgres.py:51-58 | rows moved one by one in any order: success is the exact shift with as many chapters as before; free targets succeed; a foreign chapter in the way fails |
| Renumbering.Library.Renumber | novelwiki/modules/reading/adapters/outbound/postgres.py:30-63 | the four statements together move source, bookmarks and positions; success needs both legs free of other sources and the audio key kept; with the source's chapters spread it happens exactly then |
| Renumbering.Library.UpdateSourceOffset | novelwiki/workflows/update_source_offset.py:11-29 | success moves exactly the source, keeps keys unique, alignment and references, leaves its overlays behind, and never happens over codex artifacts; failure changes nothing; exactly when it succeeds, and when it is refused over artifacts |
| StaleCommit.LandsIffFresh | novelwiki/modules/reading/adapters/outbound/translation.py:187-235 | a translation lands if and only if it is no replay, hash, version and run still match, and the job has an unspent unit; otherwise nothing changes, and when it lands no other chapter or job does |
| StaleCommit.LandedChapter | novelwiki/modules/reading/adapters/outbound/translation.py:215-225 | a landed translation leaves the source text as it was, the stripped translation, the new title unless blank, one version more, and the marks of its run |
| StaleCommit.LandedGlossary | novelwiki/workflows/commit_translation.py:12-34 | it leaves every known rendering, adds for each new term of the novel the first one offered, and nothing else |
| StaleCommit.LandedOverlays | novelwiki/modules/reading/adapters/outbound/translation.py:226-234 | it keeps all overlays and marks exactly those of its chapter that are behind it |
| StaleCommit.TextChangesRaiseVersions | novelwiki/modules/reading/adapters/outbound/translation.py:202-209 | as long as a row stands at its number, source text and content never change without the version going up, whatever happens |
| StaleCommit.StagedThenLands | novelwiki/modules/reading/adapters/outbound/translation.py:35-74 | which chapters a batch stages, and that a translation prepared from a staged chapter lands for its run, and from no other chapter |
| StaleCommit.ResetGivesUp | novelwiki/modules/reading/adapters/outbound/translation.py:76-85 | giving a run up takes its chapters, and no others, out of its hands |
| StaleCommit.MarksOnly | novelwiki/modules/reading/adapters/outbound/translation.py:99-122 | what the marks of an unstaged translator change, and that they touch neither text nor version |
| StaleCommit.WritesText | novelwiki/modules/reading/adapters/outbound/ingestion.py:61-118 | what a chapter holds once it was edited, ingested or replaced, and at which version |
| StaleCommit.OverlaysKeepTheirText | novelwiki/modules/reading/adapters/outbound/postgres.py:270-331 | an overlay keeps its text whatever happens to the chapter, its base and mark unless its reader moves it, and is only marked if the chapter was replaced or has left it behind |
| StaleCommit.CommittedOnce | novelwiki/modules/reading/adapters/outbound/translation.py:202-213 | repeating a commit changes nothing: a staged run is told it is done, an unstaged one is refused |
| StaleCommit.StaleNeverLands | novelwiki/workflows/commit_translation.py:12-34 | over every run each version of a chapter is committed over at most once, plus once for each time the row at its number was removed, replaced or renumbered away; never after the row has passed it |
| StaleCommit.LandsAgainTakesARow | novelwiki/workflows/commit_translation.py:12-34 | after any run a landed commit lands again only if the row at its number was removed, replaced or renumbered away |
| StaleCommit.RenumberingRevivesIff | novelwiki/modules/reading/adapters/outbound/postgres.py:30-63 | after a renumbering it lands again exactly if another chapter was moved to the number that has the version, source text and run it was prepared from, with a unit left |
| StaleCommit.ReplacementRevivesIff | novelwiki/modules/acquisition/adapters/outbound/importer/commit.py:246-264 | an import that replaces the chapter sets it to version one; the commit lands again exactly if it was prepared from version one of the same text, outside a staging run, with a unit left |
| StaleCommit.ReplacementLandsTwiceExample | novelwiki/modules/reading/adapters/outbound/ingestion.py:86-110 | commit, replace with the same text, commit: the commit lands twice |
| StaleCommit.RemovalRevivesIff | novelwiki/modules/reading/adapters/outbound/ingestion.py:25-26 | the same exact condition after removal and a fresh ingest |
| StaleCommit.ExtractionsWereCurrent | novelwiki/workflows/commit_codex_extraction.py:33-60 | over every run, a stored extraction carries the hash of the content at the moment it was committed |
| StaleCommit.ExtractionLandsIff | novelwiki/workflows/commit_codex_extraction.py:33-60 | exactly when an extraction lands, is told that it is done, or is refused, and that only a landed one changes anything |
| StaleCommit.ConsumedCountsLandings | novelwiki/workflows/commit_translation.py:27-33 | a job's consumed count is the number of its landed translations, never above the reservation, and none lands once it is settled |
| StaleCommit.FirstRenderingWins | novelwiki/modules/translation/adapters/outbound/postgres.py:74-89 | known terms keep their rendering, a new term gets the first one offered, no other term appears |
| StaleCommit.FlagsSurviveIffNotLate | novelwiki/modules/reading/adapters/outbound/postgres.py:270-331 | after an event every overlay older than its chapter is marked, if and only if the event neither wrote an overlay against an abandoned version nor renumbered a newer chapter under an unmarked one |
| StaleCommit.FlagsSurviveRuns | novelwiki/modules/reading/application/migration.py:103-182 | hence over every run without such events |
| StaleCommit.MarksAreWhatIsShownIff | novelwiki/modules/reading/adapters/outbound/postgres.py:253-255 | readers, who are shown a conflict also when versions disagree, see the stored marks exactly while every overlay behind its chapter is marked |
| StaleCommit.Archive.InsertDiscoveredTerms | novelwiki/modules/translation/adapters/outbound/postgres.py:74-89 | the insertion loop equals the insertion function and counts the growth of the glossary |
| StaleCommit.Archive.CommitReading | novelwiki/modules/reading/adapters/outbound/translation.py:187-235 | replay and freshness tests in the source's order are exactly the stated ones; the row and the overlay marks are written only when both pass |
| StaleCommit.Archive.CommitTranslation | novelwiki/workflows/commit_translation.py:12-34 | chapter, glossary and consumed unit change together or not at all |
| StaleCommit.Archive.CommitExtraction | novelwiki/workflows/commit_codex_extraction.py:33-60 | an extraction is stored only with the hash of the locked content |
| Migration.LegacyKeyMoves | novelwiki/db/migrate_multiuser.py:147-157 | moving the key from (novel_id) to (user_id, novel_id) never meets a null or a duplicate |
| Migration.RewriteSettles | novelwiki/db/migrate_multiuser.py:76-82 | after the migration its own test finds nothing to rewrite |
| Migration.LibraryIsFilledUp | novelwiki/db/migrate_multiuser.py:170-181 | existing library entries are unaltered, and the admin has one for every novel, seeded from its old shelf and tags |
| Migration.TwiceIsOnce | novelwiki/db/migrate_multiuser.py:136-181 | migrating twice is migrating once for the same admin; for another admin exactly if that admin has every novel already |
| Migration.FurtherAdminIff | novelwiki/db/migrate_multiuser.py:108-133 | with an admin present a further user is made if and only if an unused address and a password are configured |
| Migration.OwnerIsAnAdmin | novelwiki/db/migrate_multiuser.py:108-133 | whoever the rows go to is an admin by then, with a configured address the verified user who has it, and no other user is touched |
| Migration.CallIsGuarded | novelwiki/db/migrate_multiuser.py:184-241 | a call changes tables only with permission, unmarked, when needed, and then together with the marker, whether or not it is reported; it loses no row and alters none that was owned; a marked database is left alone |
| Migration.Concludes | novelwiki/db/migrate_multiuser.py:61-82 | an unmarked database is marked many-user exactly if no legacy row, old key or ownerless novel is left, preserved exactly if only ownerless novels are and permission is missing, and permission is asked for in all other cases without it |
| Migration.AdminOutlivesRollbackIff | novelwiki/db/migrate_multiuser.py:228-240 | users change although nothing is rewritten exactly if the call gets that far, the admin is promoted or made, and the transaction does not begin, does not commit, or meets a key clash |
| Migration.KnownKeysNeverClash | novelwiki/db/migrate_multiuser.py:147-157 | with the old or the new key there is no clash, so only a transaction that does not begin or commit leaves an admin behind |
| Migration.AdminOutlivesRollbackExample | novelwiki/db/migrate_multiuser.py:228-240 | a clash under an unrecognized key leaves the new admin in place, however the transaction fares |
| Migration.AtMostOneRewrite | novelwiki/db/migrate_multiuser.py:184-241 | any sequence of calls that do not overlap, with the application running in between, rewrites at most once and never once marked |
| Migration.CallsKeepOwnedRows | novelwiki/db/migrate_multiuser.py:136-241 | no sequence of calls, however they end, loses a row or alters an owned row or library entry; without permission none changes a row or a user |
| Migration.OverlapsOnlyAddSeats | novelwiki/db/migrate_multiuser.py:201-240 | over every interleaving of overlapping calls, once one has migrated the others change no novel, position, bookmark or import job and only add library entries for their own admin |
| Migration.AloneIsDecideThenTransact | novelwiki/db/migrate_multiuser.py:201-240 | a call that is not overlapped is one decision and one transaction of the overlapping model |
| Migration.SameAdminOverlapsOnce | novelwiki/db/migrate_multiuser.py:201-240 | overlapping calls for one admin leave the tables as the first to commit left them |
| Migration.OverlapIgnoresTheMarkerExample | novelwiki/db/migrate_multiuser.py:201-240 | a call that decided before another one marked the database preserved still rewrites it |
| Migration.Script.FirstAdmin | novelwiki/db/migrate_multiuser.py:126-128 | finds an admin of least id, or none if there is none |
| Migration.Script.EnsureAdmin | novelwiki/db/migrate_multiuser.py:108-133 | reuses, promotes, creates or fails as the settings and the users say |
| Migration.Script.HasUniqueKey | novelwiki/db/migrate_multiuser.py:151-156 | the key can be added exactly if its columns are not null and no two rows agree on them |
| Migration.Script.SeedLibrary | novelwiki/db/migrate_multiuser.py:171-181 | the admin gets an entry for every novel without one, and no existing entry changes |
| Migration.Script.RunMigration | novelwiki/db/migrate_multiuser.py:136-181 | the statements together are the migration, and fail exactly if the new key cannot be built |
| Migration.Script.MaybeMigrate | novelwiki/db/migrate_multiuser.py:184-241 | one call takes the stated branch under every fault of connection and transaction, rolling the tables back when the migration fails, and keeps what was owned |
| Multipart.ReceivedIsClear | sidecar-tts/tts_server.py:220-247 | whatever arrives, neither the manifest nor the audio read from it by section 5.1.1 of RFC 2046 contains the delimiter |
| Multipart.SegmentReads | sidecar-tts/tts_server.py:229-240 | reading a written part gives back its header block and its content |
| Multipart.RoundTrip | sidecar-tts/tts_server.py:220-247 | the receiver gets exactly the manifest and audio sent if and only if neither contains the delimiter (section 5.1.1 of RFC 2046) |
| Multipart.ManifestIsClear | sidecar-tts/tts_server.py:227-227 | the compact JSON of the four manifest fields never contains the delimiter |
| Multipart.ManifestReads | sidecar-tts/tts_server.py:227-227 | the compact JSON reads back to the duration, the silence and the paragraph durations it was written from |
| Multipart.NarrationArrives | sidecar-tts/tts_server.py:220-247 | a timed narration is read back as sent, down to the numbers of its manifest, if and only if its audio does not contain the delimiter |
| Narration.RoundDiv | sidecar-tts/tts_server.py:349-349 | Python's `round` of a quotient: within a half, a half to the even integer |
| Narration.ParagraphSits | sidecar-tts/tts_server.py:341-352 | paragraph i lies exactly at the sum of the earlier lengths and gaps, followed by silence, and the total length is theirs |
| Narration.ErrorIsRoundingAndGaps | sidecar-tts/tts_server.py:341-368 | the manifest's error is at most the rounding of its n + 1 durations around what the gaps fall short by |
| Narration.TimingBound | sidecar-tts/tts_server.py:341-368 | with gaps cut at the audio's rate the paragraph durations and silences differ from the total by at most n/2 + 1/2 + (n-1)·1000/rate ms |
| Narration.DefaultRateGaps | sidecar-tts/tts_server.py:341-368 | with gaps cut at 24000 Hz the bound holds for one paragraph or near rates, fails for any paragraphs at far ones, by the stated products |
| Narration.FirstRequestExample | sidecar-tts/tts_server.py:341-349 | it fails for any two paragraphs at 48000 Hz and the default silence |
| Narration.OnePromptPerVoice | sidecar-tts/tts_server.py:173-184 | whatever a voice spoke, it spoke with the one prompt it was built with, and it was built at most once |
| Narration.SpokenAll | sidecar-tts/tts_server.py:327-327 | as many paragraphs are narrated as were sent exactly if none is blank |
| Narration.SpokenAt | sidecar-tts/tts_server.py:327-327 | every paragraph that is not blank is spoken, stripped, in its place |
| Narration.SpokenFrom | sidecar-tts/tts_server.py:327-327 | and nothing else is |
| Narration.Sidecar.ClonePromptFor | sidecar-tts/tts_server.py:173-184 | a cached voice is never built again; a new one is cached exactly if the model loads and the prompt is made |
| Narration.Sidecar.Generate | sidecar-tts/tts_server.py:260-276 | a paragraph is spoken with the voice's prompt, and exactly when it can be |
| Narration.Sidecar.Narrate | sidecar-tts/tts_server.py:322-373 | exactly when a request succeeds, encoder included, and exactly with which status it fails; its audio and manifest; when the timing bound holds and fails; when the receiver accepts it; the paragraphs spoken in order, in one voice |
| Narration.Sidecar.Perform | sidecar-tts/tts_server.py:339-352 | the paragraph loop lays out all paragraphs with their durations, or stops at the first failure |
| Lifecycle.CountFindsRepeats | novelwiki/bootstrap/lifecycle.py:34-38 | comparing the counts of names and of distinct names finds every repetition |
| Lifecycle.SortedIsStable | novelwiki/bootstrap/lifecycle.py:44-52 | the shutdown order is ascending, a permutation, and keeps hooks of equal order as registered |
| Lifecycle.StableOrderIsUnique | novelwiki/bootstrap/lifecycle.py:44-52 | there is only one such order |
| Lifecycle.ShutdownIsExactlyOnce | novelwiki/bootstrap/lifecycle.py:86-112 | a full stop calls exactly the hooks that have one, no name twice, in that order |
| Lifecycle.ApplicationLifecycle.ShutdownOrderIs | novelwiki/bootstrap/lifecycle.py:44-52 | of two hooks with a stop, the one of lower order comes first, and of equal order the one registered first; no name twice, and no other |
| Lifecycle.StartupOrderIs | novelwiki/bootstrap/lifecycle.py:54-58 | startup calls the hooks that have a start in the order they were registered, each once, and no other |
| Lifecycle.ApplicationLifecycle.Assemble | novelwiki/bootstrap/lifecycle.py:34-39 | a registry is made exactly if the names are distinct |
| Lifecycle.ApplicationLifecycle.Start | novelwiki/bootstrap/lifecycle.py:54-84 | attempts all hooks, or exactly those up to the first that is canceled or fails fatally |
| Lifecycle.ApplicationLifecycle.Stop | novelwiki/bootstrap/lifecycle.py:86-112 | calls the hooks in shutdown order past every failure, to the end exactly if none is canceled |

## Left out

- SQL, asyncpg, sockets, DNS, libc, ffmpeg, the speech model, HTTP frameworks: tables are maps and sequences, the
  network and the engine are parameters, audio is a sequence of integers, a hash is any function.
- Text encodings: octets are characters; `strip` removes ASCII white space only.
- Month rollover of the quota period and the exemption of admins: one period, ordinary users.
- API-backend translation and self-translation reserve chapter by chapter and have no durable job; only the
  job-backed reservation is modelled.
- The `::int` cast in the retry delay overflows for more than thirty attempts; integers are unbounded here.
- Job rows are never deleted in the model; the foreign keys that delete or detach jobs with a user or novel are not.
- Floating point: offsets and durations are exact, and rounding is Python's on the exact quotient.
- `public_address` and the canonical text of IPv6 literals belong to the standard library and are parameters;
  `ConnectRequest.AddressIsCanonical` relies on canonical text being its own canonical text.
- Multipart.ReceivedIsClear: the receiver uses Python's e-mail parser, which also takes bare line ends before a boundary;
  the model reads by section 5.1.1 of RFC 2046.
- Multipart.NarrationArrives: for the same reader; of JSON, only the writer's own compact form of the manifest is read.
- Codex extraction's own validation (evidence, references, context) is two flags, before and after its look for an
  earlier extraction; the invalidation of extractions by an import is not modelled.
- `content_version` is taken to be at least one, as its default and every update make it.
- Deadlocks, lock waits and statement-level isolation: a transaction is one step, so the read and the write of an
  overlay save are separated only by making its base version a parameter.
- Claims.Table.ClaimOldest: the production claim orders by last update rather than by creation; `WorkStore.Store.ClaimNext` models
  that one, `Claims` the benchmark's.
- Migration.Script.RunMigration: a primary key under another constraint name is not told apart from no primary key.
- Migration.OverlapsOnlyAddSeats: the making of the admin is not a step of its own there; each call comes with its admin.
- Renumbering.Library.UpdateSourceOffset: when two chapters of the source are exactly a million, or a million plus the
  move, apart, the outcome depends on the order in which the database visits the rows; then only what success needs and
  what it changes is stated.
- Narration.DefaultRateGaps: between near and far rates the bound depends on how the durations round, and nothing is
  stated.
- OCR, retrieval, spoiler ceilings, uploads, the frontend, the CLI, contract snapshots, compose checks, diagnostics and
  configuration: no further protocol, or only easy members.
