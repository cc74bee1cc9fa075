# queuezero, verified in Dafny

queuezero brings up cohorts of cloud instances for Slurm. A cohort is launched
by one goroutine per member, all of them drawing on fallible cloud calls; a
failure that makes the cohort hopeless cancels the rest at once, and what was
started must be drained, explained and paid for exactly. This project models
that machinery and proves what it promises.

The cohort reconciler is a transition system. `MemberSteps` has the steps of one
member (read the phase context, start a port call, take its answer),
`CohortMachine` interleaves any number of members with phase deadlines, the
mutex-guarded failure count, the fast-fail cancel and the caller's own cancel.
`CohortSettle` is what follows once all goroutines are over. Theorems quantify
over every cohort, every interleaving, and every answer of the Actuator, the
Observer, the Enroller, the Classifier and the Assembler. `EntityLoops` and
`SettleLoops` are the same code in the source's own form, objects and loops that
update fields in place, proved to compute exactly those steps. `PhaseOutcomes` and
`CohortOutcome` say outright what comes of them: which pass of a phase loop decides
and what it leaves, and which record every member ends with.

Around it stand the pieces it leans on: the adaptive token bucket
(`TokenBucket`, `RateLimiter`), the substrate's retry loop (`RetryLoop`), MPI rank
assignment (`MpiAssembler`, `MpiCohort`), the budget-hold ledger with resume,
suspend and sweep, one after the other and overlapping
(`HoldLedger`, `HoldRaces`, `SweepRules`, `SlurmBridge`), the mount-spec codec
(`MountSpec`), and the two file stores with their name encodings (`FileNames`,
`RecordStore`, `HoldFiles`).

`dafny verify dfyconfig.toml` checks everything.

## Where the code and its comments differ

The model follows the code. The members named show the difference, and where it
matters say exactly when the code does what its comment claims:

- A member cancelled while it waits to be enrolled is flagged enrolled, against
  the comment at internal/cohort/reconcile.go:401-402 (`CancelledYetEnrolled`); with an
  Enroller a member is flagged without a ready answer exactly when it left phase 3
  unfailed and the run holds no such answer (`VerifiedIffConfirmed`). The gate is
  sound all the same, because enrolled flags and counted failures together cannot
  exceed the membership (`EnrolledPlusCounted`, `GateSound`).
- The label that internal/cohort/reconcile.go:276-279 calls unreachable can be
  reached exactly when minViable exceeds the membership, or is positive and some
  member has an empty id (`FallbackIff`, `EmptyNameHidesCulprit`). The constructors
  rule out both (`ConstructorsAccept`).
- "Surviving instances" are drained by the last observation's instance id, which a
  describe that misses erases (`DescribeMissEscapesDrain`; `ExactDrain` says who is
  drained).
- A chain that repeats a rung is never exhausted (`WalkEndsIffNoDuplicates`), and
  then nothing but the deadline bounds a member's launches (`LaunchesBoundedIff`).
- A deadline of the caller's own context is listed at internal/cohort/explain.go:41-48
  among the causes of ParentCancelled. A member that reads it in a phase loop comes
  out as a failure of its phase's budget instead; it is parent-cancelled exactly
  when the caller cancelled (`ParentCauseDecides`, `ParentCauseRun`). `CallerEndsIff`
  lists every way a member can come out, wherever it is when the context ends.
- `callWithRetry` does surface a throttle, after the sixth (`CallWithRetry`),
  against internal/substrate/aws/client.go:308.
- Tokens do accrue in a pause, against the comments at
  internal/substrate/ratelimit.go:42-45 and 128: it lifts on more than there was to
  have when it began exactly when the bucket had room then and the pause reaches
  beyond both its beginning and the last refill (`PauseCreditedIff`); and a burst
  follows exactly when there is room for two tokens and time to make up for them
  (`PauseBurstIff`).
- A burst setting below one token is never served (`TinyBucketNeverGrants`); a
  minimum fraction above 1 lifts the rate above the base rate (`FreshBucketTheorem`).
- The manifest is reproducible exactly when members that share an id share an
  address (`ReproducibleIff`); the constructors do not check that ids differ.
- Closing a hold reads it, has it charged and removes it by its entity's name, in
  three steps. However invocations overlap, a hold is charged as often as ones that
  had read it had a charge accepted (`ChargesAreReads`). That has no bound
  (`OverlapChargesAgain`), and a hold put meanwhile is removed with the old one,
  uncharged (`NewerHoldIsLost`). Where none is put for or read under an entity that
  is being closed, a hold is charged once if it left by a charge, and once more for
  every accepted charge whose removal failed (`NoOverlapCharges`,
  `FailedRemovalChargesTwice`); so it is for calls that follow one another
  (`EveryRunChargesOnce`, `CallsOneAtATime`). A node listed twice in one resume breaks
  the fleet's cost (`FleetCostConservedIff`).
- Sweep decides by instance and terminates by name, and the name is looked up by a
  second describe that promises neither order nor completeness. Over all its answers
  a sweep spares the current generation exactly when no instance of it is to be seen
  under the entity tag of a reaped one (`SweepSafeIff`, `SweepSafeWhenUnchangedIff`,
  `SharedNameHitsLiveNode`).
- A mount path with a colon is not rejected; it survives the round trip
  (`RoundTripIff`).
- A record stored for an id that contains "%2F" comes back under another name
  (`RecordNameRoundTripIff`), and an id that starts with a dot is never listed
  (`FileStore.List`).

## Model

| member | source | states |
|---|---|---|
| CohortTheorems.GateSound | internal/cohort/reconcile.go:189-262 | in every run, a gate met under a live parent means that no fast-fail fired, that at least minViable members truly got a ready answer (or there is no Enroller), and that enrolled, confirmed and not failed are one and the same |
| CohortTheorems.ReadyIsSound | internal/cohort/reconcile.go:353-361 | a ready outcome had a live parent, no fast-fail and enough confirmed members, and a member's record says succeeded exactly when it was confirmed |
| CohortTheorems.VerifiedIffConfirmed | internal/cohort/reconcile.go:538-545 | with an Enroller a member counts as confirmed exactly when the run holds its ready answer; it ends flagged enrolled but unconfirmed exactly when it left phase 3 unfailed without one |
| CohortTheorems.ReadyIsConfirmed | internal/cohort/explain.go:86-92 | in a ready cohort with an Enroller the records that say succeeded are those of the members whose ready answer is in the run |
| CohortTheorems.AddressIsConfirmed | internal/cohort/reconcile.go:538-544 | a confirmed member's address is the detail of its ready answer in the run |
| CohortTheorems.EnrolledPlusCounted | internal/cohort/reconcile.go:192-216 | enrolled flags plus counted failures never exceed the membership, and make it up exactly when every non-failed member was confirmed |
| CohortTheorems.EveryRecordHasOneOutcome | internal/cohort/explain.go:13-14 | every record of every run, on every exit path, claims exactly one of succeeded, cohort-cancelled, parent-cancelled, terminal |
| CohortTheorems.EveryMemberHasRecord | internal/cohort/cohort.go:191-199 | every member has a record, whatever happened |
| CohortOutcome.RecordOfEach | internal/cohort/reconcile.go:219-362 | what every member of every finished run has as its record, whatever the exit path: its own failure; else the caller's error if its context is dead; the recorded culprit if the gate is not met, the caller's cancel without one; the fault of a forbidden or a failed assembly in its phase; or ready; with its own id, generation and attempts |
| CohortOutcome.CohortCancelledIff | internal/cohort/reconcile.go:276-294 | a record is cohort-cancelled if and only if the caller is live, too few are enrolled, a culprit is recorded and the member has not failed; it then names that culprit, its fault and phase, and the phase the member had reached; and the same for parent-cancelled |
| CohortOutcome.CohortOutcomeIs | internal/cohort/reconcile.go:253-361 | a cohort is ready if and only if the caller is live, enough members are flagged enrolled, no Assembler meets NoAssembly, and assembly, where called for, reports no error; it is called once, on the flagged members' observations in member order |
| CohortTheorems.CulpritBeforeCancel | internal/cohort/reconcile.go:182-211 | whenever a cancel that did not come from the caller is visible, the culprit is already written; it is the first member whose failure the gate could not tolerate, the (n - minViable + 1)-th one counted; no member is counted twice |
| CohortTheorems.HopelessIsCancelled | internal/cohort/reconcile.go:195-212 | in every state of every run with nobody at the books: once too few members are left for the gate, the fast-fail has fired, the cancel is visible and a culprit is recorded |
| CohortTheorems.CulpritAgreement | internal/cohort/reconcile.go:276-294 | all cohort-cancelled records of a run (CohortCancelledIff says which those are) name one culprit, another member, whose own record is terminal with that very fault and phase |
| CohortTheorems.FallbackUnreachable | internal/cohort/reconcile.go:276-293 | with named members and a satisfiable minViable, a gate that fails under a live parent always has a recorded culprit |
| CohortWitnesses.FallbackIff | internal/cohort/reconcile.go:276-293 | for every cohort: the fallback label is reachable if and only if minViable exceeds the membership, or is at least 1 and some member has an empty id |
| CohortWitnesses.ReadyIff | internal/cohort/reconcile.go:262-361 | some run of a cohort comes out ready if and only if minViable does not exceed the membership and no Assembler meets NoAssembly |
| CohortWitnesses.EmptyNameHidesCulprit | internal/cohort/reconcile.go:198-206 | in every cohort with a satisfiable, positive minViable any member with an empty id can fire the fast-fail in a run that ends in the fallback label |
| CohortWitnesses.CancelledYetEnrolled | internal/cohort/reconcile.go:400-405 | a run in which a member cancelled in phase 3 ends up flagged enrolled without a ready answer |
| CohortWitnesses.DescribeMissEscapesDrain | internal/cohort/reconcile.go:507-511 | a run in which a launched member that did not fail is not drained, on any exit path |
| CohortWitnesses.EveryoneSucceeds | internal/cohort/reconcile.go:375-406 | from the start of any cohort there is a run in which the first k members finish enrolled and nothing else has moved |
| CohortMachine.StepInv | internal/cohort/reconcile.go:182-216 | every step keeps the invariant: member discipline, one mutex holder at a time, the failure count equal to the members counted, no dead scope without a cause |
| CohortMachine.ExecInv | internal/cohort/reconcile.go:189-217 | so does every run |
| CohortPromptness.AtMostOneLateCall | internal/cohort/reconcile.go:411-429 | once a fast-fail or parent cancel is visible each member starts at most one more port call, and none unless it had already read its context live |
| CohortPromptness.CancelledRunCompletes | internal/cohort/reconcile.go:189-217 | from there every continuation has at most 7 steps a member plus one, and is never stuck before all goroutines are over, so Wait returns once in-flight calls do |
| CohortPromptness.StepCostsMeasure | internal/cohort/reconcile.go:189-217 | under a dead scope every step, whichever it is, decreases one measure |
| CohortPromptness.Completes | internal/cohort/reconcile.go:189-217 | from any state under a dead scope some continuation, without the caller's doing, ends all goroutines |
| CallerContext.ParentCauseDecides | internal/cohort/reconcile.go:414-419 | after the caller's context ends, in every completed continuation: a member is parent-cancelled exactly when it does not come out failed; one at a loop head, its own context live, if and only if the caller cancelled, and after a caller's deadline it is terminal with its phase's budget fault; with a call in flight a deadline spares it only in phase 3; one out of the loops stays as it was |
| CallerContext.CallerEndsIff | internal/cohort/reconcile.go:411-552 | for a member anywhere when the caller's context ends, the trackers it can end with, over all continuations, are exactly these: what reading the dead context gives at a loop head, the same after any answer to the one call started or in flight, else its present one |
| CallerContext.ParentCauseRun | internal/cohort/explain.go:41-48 | for every cohort and either cause there is a completed run in which every member comes out parent-cancelled or budget-failed, by the cause |
| CohortPromptness.ExactDrain | internal/cohort/reconcile.go:229-237 | on parent cancel and gate failure, and on no other path, Terminate goes once to each non-failed member whose last report in the run named an instance and to nobody else; if ports never report a blank instance that is every launched survivor |
| CohortPromptness.PhasesNeverDecrease | internal/cohort/reconcile.go:93-97 | no step takes any member's phase back |
| CohortPromptness.RecordTellsTheRun | internal/cohort/reconcile.go:603-618 | settling keeps attempts and never takes a phase back; a pre-barrier failure is the last attempt, with its rung, phase and fault; for a chain without repeats the attempts have the ladder's shape |
| MemberSteps.MoveDisciplined | internal/cohort/reconcile.go:375-552 | every move of a member keeps its identity, its flags, its attempt trace and its launch budget, and never takes its phase back, whatever the ports answer |
| MemberSteps.EntityRunDiscipline | internal/cohort/reconcile.go:375-481 | over a member's whole run the rungs called are a prefix of the chain in order, at most 6 unthrottled calls name each rung, so at most 6 times the chain's length in all, and the attempts are a capacity fault on each rung used up, then at most one launch attempt, then at most one later fault |
| MemberSteps.LaunchBoundAttained | internal/cohort/reconcile.go:441-464 | for every chain without repeats some port answers make 6 calls for every rung of it, so the bounds are exact |
| MemberSteps.LaunchesBoundedIff | internal/cohort/reconcile.go:458-464 | a member started at the head of its chain has a bound on its unthrottled launches, over all port answers, if and only if the chain repeats no rung |
| MemberSteps.MoveReturns | internal/cohort/reconcile.go:484-552 | a member that returns without failing and without having seen a cancel was confirmed ready |
| MemberSteps.BudgetKept | internal/cohort/reconcile.go:441-464 | any launch answer keeps rung order, at most six unthrottled calls on each rung and none beyond the current one, and as many on that as consistency retries |
| MemberSteps.NextOnLadder | internal/slurm/resume.go:84-87 | for an intent that starts on the head of a chain without repeats, advancing takes exactly the next rung, and nothing after the last |
| RungLadder.NextRungIsEarliest | internal/cohort/reconcile.go:558-571 | advancing by value takes the successor of the earliest usable occurrence, and fails exactly when there is none |
| RungLadder.WalkEndsIffNoDuplicates | internal/cohort/reconcile.go:554-571 | capacity faults exhaust a chain if and only if it repeats no rung; then each rung is used once, in order |
| RungLadder.WalkNeverEnds | internal/cohort/reconcile.go:564-568 | with a repeated rung the walk cycles between the two occurrences for ever |
| EntityLoops.EntityTracker.AdvanceRung | internal/cohort/reconcile.go:558-571 | the loop changes the rung in place to the successor NextRung names, or changes nothing and reports so |
| EntityLoops.EntityTracker.RecordDeadline | internal/cohort/reconcile.go:593-601 | one attempt with the budget fault is added and the tracker is terminal in that phase |
| EntityLoops.DoLaunch | internal/cohort/reconcile.go:411-481 | in place it does what the member steps do; it is acknowledged if and only if an acknowledgement under a live context comes before any pass that ends the loop, where a throttle never ends it, a consistency fault as the sixth on its rung, a capacity fault with no rung left, any other at once; the first such pass leaves the tracker LaunchLeaves describes, and it makes one call per live pass on the rung then current |
| EntityLoops.WaitRunning | internal/cohort/reconcile.go:484-525 | it succeeds exactly when the first deciding pass saw the entity running under a live context; that pass leaves the last observation, the budget fault, the port's terminal fault or the instance's failure, as RunningLeaves says |
| EntityLoops.WaitEnrolled | internal/cohort/reconcile.go:528-552 | with an Enroller, readiness was confirmed exactly when some pass got a ready answer and every context check up to it was live; the first ending pass leaves the address of that answer, the budget fault, or the tracker as it was |
| EntityLoops.ReconcileEntity | internal/cohort/reconcile.go:375-406 | the three phases in place end with the tracker of the pure run |
| PhaseOutcomes.LaunchOutcome | internal/cohort/reconcile.go:411-481 | a whole launch loop: capacity refusals climb the chain and are logged on their rungs, throttles and other consistency faults leave the tracker alone, and the first pass that ends the loop decides, with the tracker, attempts, fault and calls given outright |
| PhaseOutcomes.RunningOutcome | internal/cohort/reconcile.go:484-525 | a whole wait to run: the first deciding pass, and the exact tracker it leaves |
| PhaseOutcomes.EnrolOutcome | internal/cohort/reconcile.go:528-552 | a whole wait for readiness: the first ending pass, and the exact tracker it leaves |
| PhaseOutcomes.EntityReaches | internal/cohort/reconcile.go:375-406 | how far an entity comes: launch unless acknowledged first, running unless seen running first, else enrolled; flagged enrolled exactly when it comes there and the deadline does not end that |
| CohortSettle.ExactlyOneOutcome | internal/cohort/reconcile.go:227-361 | for unlabelled trackers every record of every exit path claims exactly one outcome |
| CohortSettle.BlamedRecord | internal/cohort/reconcile.go:284-290 | a cohort-cancelled record blames the recorded culprit, which is another member whose own record carries that fault and phase |
| CohortSettle.RecordsComplete | internal/cohort/reconcile.go:246-248 | every tracker's id has a record, every record comes from a tracker with that id, and with distinct ids each member's record is its own |
| CohortSettle.LaterRecordKept | internal/cohort/reconcile.go:246-248 | of several members with one id the last one's record is the one returned |
| CohortSettle.SurvivorsExact | internal/cohort/reconcile.go:229-234 | the drain list names exactly the non-failed members with an instance, without repetition when ids differ |
| SettleLoops.Drain | internal/cohort/reconcile.go:575-583 | every id is terminated once, in order, past errors; the error returned is that of the last failure |
| SettleLoops.Label | internal/cohort/reconcile.go:280-294 | every tracker that has not failed gets the mark, in place, and failed ones are left alone |
| SettleLoops.Conclude | internal/cohort/reconcile.go:219-362 | the tail of Reconcile over tracker objects does what Settle says: readiness, drain calls, assembled members, new tracker states and records |
| CohortConstruct.ConstructorsAccept | internal/cohort/cohort.go:51-123 | the constructors accept exactly the valid requests, and what they accept has named members and a satisfiable minViable |
| CohortConstruct.AcceptedAreLaunchable | internal/cohort/cohort.go:149-163 | a cohort is accepted exactly when every member has an id and an instance type on its rung and on every rung it may fall back to |
| CohortConstruct.RefusedFor | internal/cohort/cohort.go:51-123 | why a request is refused, in the order of the checks, naming the first invalid intent; and the exact cohort built otherwise |
| CohortConstruct.ShapeIs | internal/slurm/resume.go:238-263 | which shape resume builds: one node alone without the Assembler; a collective fleet with it, or refused when none is configured; else a partial cohort that needs all and has none |
| CohortConstruct.ResumeCohortsAreSafe | internal/slurm/resume.go:236-264 | every cohort resume builds needs all its members, is never refused assembly, and in no run takes the fallback label |
| MpiAssembler.Assemble | internal/mpi/assembler.go:67-113 | for any sort, however it breaks ties: it publishes at most once, exactly when there are members, all addressed, and a publisher; what it publishes tells of the members as PublicationTells says; success exactly when that was accepted; each error exactly when it is due, an address error naming the first unaddressed rank |
| MpiAssembler.PublicationTells | internal/mpi/assembler.go:80-113 | the published peers' (entity, address) pairs are exactly the members' (id, address) pairs, ranked from 0 with no id before a smaller one; the manifest is named after the smallest id and kept under that name's key |
| MpiAssembler.PeerAtOwnAddress | internal/mpi/assembler.go:93-97 | with distinct ids the peer with a member's id has that member's address |
| MpiAssembler.KeysDiffer | internal/mpi/assembler.go:124-128 | the key is manifests/<cohort>/peers.json, and different cohorts' keys differ |
| MpiAssembler.RankPeers | internal/mpi/assembler.go:80-98 | the ranking loop yields the manifest's peers exactly when every seat is addressed, and else names the first that is not |
| MpiAssembler.RanksAreDistinct | internal/mpi/assembler.go:72-98 | with distinct ids any order the sort may leave gives one peer per member in strictly increasing id order |
| MpiAssembler.ReproducibleIff | internal/mpi/assembler.go:63-66 | the manifest is the same for every member order and every tie-break if and only if members sharing an id share an address |
| MpiAssembler.PermutationInvariant | internal/mpi/assembler.go:72-76 | with distinct ids neither a permutation of the members nor another sort changes manifest or key |
| MpiAssembler.RankedSeatsIsRanking | internal/mpi/assembler.go:74-76 | insertion gives a sorted permutation of the members, so sorts exist |
| StringOrder.BeforeIsTotal | internal/mpi/assembler.go:76 | the order of ids is total: exactly one of before, equal, after |
| StringOrder.BeforeIs | internal/mpi/assembler.go:76 | a common beginning does not matter, nothing comes before something, and of two first characters the smaller comes first |
| MpiCohort.AssembledOnlyBehindGate | internal/cohort/reconcile.go:322-351 | in every run assembly happens at most once, and never after a fast-fail, a parent cancel or a failed gate |
| MpiCohort.EveryoneAssembled | internal/cohort/reconcile.go:322-331 | a ready all-or-nothing cohort handed the Assembler every member's last observation, in member order |
| MpiCohort.ReadyMpiCohortIsPublished | internal/mpi/assembler.go:67-113 | end to end over every run and any sort: a ready MPI cohort has one accepted publication, one peer per member, ranks 0..n-1 in strictly increasing id order, no blank address |
| MpiCohort.PeersAtOwnAddresses | internal/cohort/reconcile.go:538-545 | end to end: the peer with a member's id has the address that member last had, with an Enroller the one its ready answer in the run gave |
| MpiCohort.AssembleForReconciler | internal/cohort/reconcile.go:334-339 | the answer the reconciler sees is Assemble's, and no error means exactly one publication of the ranked manifest |
| TokenBucket.TokenBucketTheorem | internal/substrate/ratelimit.go:131-211 | for every run of attempts and backoffs under a non-decreasing clock, from any state, the grants in any window [t0, t1] are at most maxTokens plus the ceiling rate times t1 - t0 |
| TokenBucket.FreshBucketTheorem | internal/substrate/ratelimit.go:72-108 | for a configured limiter the ceiling is the base rate and the rate stays in its band, if the minimum fraction is at most 1; and a single backoff keeps to the base rate if and only if it is |
| TokenBucket.AfterSane | internal/substrate/ratelimit.go:131-211 | every operation keeps 0 <= tokens <= maxTokens, the rate's band and pauseUntil = lastBackoffEnd; a wait of 0 is exactly one token taken; an attempt in a pause changes nothing |
| TokenBucket.CreditPays | internal/substrate/ratelimit.go:152-191 | one operation's grant is paid out of a credit that grows no faster than the ceiling rate |
| TokenBucket.TokensConserved | internal/substrate/ratelimit.go:152-191 | over any run of attempts at full speed that never finds the bucket full, tokens granted plus tokens left are the tokens there were plus what the rate made in the time that passed |
| TokenBucket.WaitIs | internal/substrate/ratelimit.go:157-176 | an attempt that is not granted says to sleep the rest of the pause, or what the missing part of a token takes to the nanosecond below, a millisecond at least |
| TokenBucket.BackoffIs | internal/substrate/ratelimit.go:131-148 | a backoff halves the rate, down to the minimum, leaves one token at most, and moves the pause to s + d unless it ends later already |
| TokenBucket.BackoffsHalve | internal/substrate/ratelimit.go:131-211 | n backoffs, with any attempts between them that come too early to recover, leave the rate divided by 2 to the n, or the minimum if that is more |
| TokenBucket.BackoffSlowsGrants | internal/substrate/ratelimit.go:131-211 | after a backoff and until recovery the grants in any window are at most maxTokens plus what the lowered rate yields |
| TokenBucket.RecoversBy | internal/substrate/ratelimit.go:193-211 | an attempt n whole intervals past pause and cooldown raises the rate by n steps, or to the base rate if that is less |
| TokenBucket.Defaults | internal/substrate/ratelimit.go:76-93 | settings left out: rate and burst 20, minimum 2, cooldown 5 s, step 1 every 2 s |
| TokenBucket.PauseHolds | internal/substrate/ratelimit.go:131-162 | after Backoff(d) at s nothing is granted before s + d, whatever calls come between and whatever the clock does |
| TokenBucket.PauseNeverShrinks | internal/substrate/ratelimit.go:141-147 | over every run pauseUntil never decreases |
| TokenBucket.RateRisesOnlyWhenRecovered | internal/substrate/ratelimit.go:193-211 | the rate rises only in an attempt made after the latest pause end plus the cooldown plus a whole interval |
| TokenBucket.FailedAttempt | internal/substrate/ratelimit.go:164-176 | after the wait a refused attempt returned, the bucket is within a nanosecond's yield of a token, and grants if it was so before |
| TokenBucket.AcquireProgress | internal/substrate/ratelimit.go:110-124 | with room for a token a lone caller is granted after at most three sleeps, in spite of truncated waits and a changing rate |
| TokenBucket.ThreeSleepsNeeded | internal/substrate/ratelimit.go:152-176 | a bucket and clock for which all three sleeps are needed |
| TokenBucket.TinyBucketNeverGrants | internal/substrate/ratelimit.go:164-169 | with a burst below one token no run ever grants anything |
| TokenBucket.PauseCreditedIff | internal/substrate/ratelimit.go:157-191 | whatever attempts a pause turns away, it lifts on more tokens than a refill at its beginning would have given if and only if there was room then and it reaches beyond both its beginning and the last refill; on more than Backoff left if and only if there is room and it reaches beyond the last refill; on more than one if and only if the bucket holds more than one and the time yields it |
| TokenBucket.GrantsAtOnce | internal/substrate/ratelimit.go:152-169 | of n attempts at one instant outside a pause exactly as many are granted as there are whole tokens after the refill |
| TokenBucket.PauseBurstIff | internal/substrate/ratelimit.go:126-148 | more than one grant at the instant a pause lifts if and only if the bucket has room for two tokens and the time since the last refill makes up for them |
| TokenBucket.PausedTimeIsCredited | internal/substrate/ratelimit.go:157-162 | an instance: a ten-second pause of a default-sized bucket ends with the bucket full |
| RateLimiter.Limiter.constructor | internal/substrate/ratelimit.go:72-108 | the configured fields, defaults filled in, form a sane full bucket |
| RateLimiter.Limiter.Backoff | internal/substrate/ratelimit.go:131-148 | the in-place updates are the bucket's Backoff, which BackoffIs spells out |
| RateLimiter.Limiter.Refill | internal/substrate/ratelimit.go:179-191 | the in-place updates are the bucket's Refill |
| RateLimiter.Limiter.ApplyRecovery | internal/substrate/ratelimit.go:195-211 | the in-place updates are the bucket's Recover |
| RateLimiter.Limiter.TryAcquire | internal/substrate/ratelimit.go:152-176 | wait and new fields are the bucket's TryAcquire, and stay sane |
| RateLimiter.Limiter.Acquire | internal/substrate/ratelimit.go:110-124 | the loop is granted exactly when some attempt in time is, stops at the first, and leaves the state of exactly those attempts |
| RetryLoop.CallWithRetry | internal/substrate/aws/client.go:309-363 | for every reply stream: all replies but the last are ambiguous or throttles with the context live; no error surfaces exactly when the last had none; a fault neither throttle nor ambiguous as it is; an ambiguous one as terminal after exactly four in a row; a throttle as it is exactly when it was the sixth, else a cancellation exactly when the context was done; at most 24 calls, one Backoff per throttle with attempts 0, 1, 2, ... |
| RetryLoop.UndecidedIsShort | internal/substrate/aws/client.go:310-361 | while undecided the calls are at most four per throttle plus the current ambiguous streak |
| RetryLoop.BoundAttained | internal/substrate/aws/client.go:20-23 | a reply stream that makes all 24 calls |
| SlurmBridge.EveryRunChargesOnce | internal/slurm/suspend.go:80-122 | over every run of resumes, suspends and sweeps that follow one another: each charge is the hold's rate times its runtime under its transaction, and a hold's charges number exactly one if it left by a charge plus one for each accepted charge whose removal failed; with sure removals exactly one if it left by a charge, else none |
| SlurmBridge.CallsOneAtATime | internal/slurm/suspend.go:42-59 | calls that follow one another are the overlapping model's runs without overlap, with the same ledger |
| HoldRaces.ChargesAreReads | internal/slurm/suspend.go:84-118 | however invocations overlap, a hold is charged exactly as often as invocations whose read found it had a charge accepted, each time its rate times its runtime |
| HoldRaces.ChargeIs | internal/slurm/suspend.go:102-113 | each such charge names its own hold, transaction and account, at the hourly rate for the nanoseconds run |
| HoldRaces.LeavesIff | internal/slurm/holdstore.go:115-122 | however invocations overlap, a stored hold leaves exactly when a later one of its entity is put or a removal under its entity's name succeeds, whoever's |
| HoldRaces.NoOverlapCharges | internal/slurm/suspend.go:84-121 | if no hold is put for or read under an entity being closed: one charge if the hold left by a charge, one per removal that failed after a charge, one if an invocation has charged it and is still to remove it |
| HoldRaces.NoOverlapChargesOnce | internal/slurm/suspend.go:84-121 | then, with sure removals and nobody under way, exactly one charge if the hold left by a charge and else none |
| HoldRaces.OneAtATimeIsAtomic | internal/slurm/suspend.go:80-122 | teardowns one at a time, taken in steps, do not overlap and leave the ledger of the undivided operations |
| HoldRaces.OverlapChargesAgain | internal/slurm/suspend.go:84-121 | for every n, n overlapping invocations can charge one hold n times although every removal succeeds |
| HoldRaces.NewerHoldIsLost | internal/slurm/suspend.go:114-121 | a hold put between another's charge and removal is removed with it and never charged |
| HoldLedger.ChargedAtMostOnce | internal/slurm/suspend.go:84-121 | over any run of store writes and teardowns that follow one another a hold is charged at most once more than its removal failed, each time its rate times its runtime |
| HoldLedger.ChargedExactly | internal/slurm/suspend.go:84-121 | over any run of store writes and teardowns that follow one another the exact count: one charge if the hold left by a charge, none if it is stored, was overwritten or had nobody to charge it, and one more for each accepted charge whose removal failed |
| HoldLedger.FailedRemovalChargesTwice | internal/slurm/suspend.go:114-121 | when a removal fails after its charge, the retry charges again |
| HoldLedger.HoldLeavesOnly | internal/slurm/suspend.go:42-59 | undisturbed by another call, a hold leaves the store only by its own entity's successful teardown with an accepted charge (or nobody to charge), or overwritten by a later resume of that entity |
| HoldLedger.OnlyPlacedHoldsAreStored | internal/slurm/resume.go:142-176 | refused and graceful-error admissions, and those without a transaction, store nothing |
| HoldLedger.AdmissionStores | internal/slurm/resume.go:103-197 | exactly what an admission leaves in the store: for each node whose write succeeds a hold under its transaction, the partition's account and name, at an equal share of the estimate, from that instant; all else as it was; and nothing at all without an allowance and a transaction |
| HoldLedger.AmountIs | internal/slurm/suspend.go:102-106 | a charge is the hourly rate times the nanoseconds run over those of an hour, and 0 for a clock that went back |
| HoldLedger.TearDownsClose | internal/slurm/suspend.go:80-122 | of teardowns of different entities each closes its own hold on its own answers: removed exactly when it is reached and the removal succeeds, charged once more exactly when the charge is accepted |
| HoldLedger.FleetCost | internal/slurm/resume.go:178-196 | tearing down a fleet's distinct nodes at one instant charges the estimate's share over the runtime for each |
| HoldLedger.FleetCostConservedIff | internal/slurm/resume.go:178-196 | that total is the estimated cost times the runtime if and only if the resumed node list repeats no node |
| SlurmBridge.Bridge.PutHold | internal/slurm/holdstore.go:70-97 | in place: an empty entity is refused, an existing hold overwritten |
| SlurmBridge.Bridge.ReconcileHold | internal/slurm/suspend.go:80-122 | in place: rate times non-negative runtime is charged, then the hold removed; any failure leaves the rest undone |
| SlurmBridge.Bridge.PersistHolds | internal/slurm/resume.go:174-197 | one hold per node in order, at an equal share of the estimate, past failed writes; nothing without a transaction |
| SlurmBridge.Bridge.AdmitNodes | internal/slurm/resume.go:103-114 | refused exactly on denial or a strict-mode error, and what it does to the ledger otherwise |
| SlurmBridge.Bridge.Suspend | internal/slurm/suspend.go:25-72 | one teardown call per node in order with the partition's action, failed nodes listed, holds closed only for nodes torn down |
| SlurmBridge.SuspendCloses | internal/slurm/suspend.go:42-59 | suspending different nodes closes each one's hold on its own answers, leaves it alone when the teardown failed, and touches no other entity's |
| SlurmBridge.FailedNodesAre | internal/slurm/suspend.go:51-54 | the failed nodes are those whose call failed, and as many |
| SlurmBridge.SuspendActionIs | internal/slurm/suspend.go:124-135 | hibernate when hibernated capacity is wanted, else stop when stopped capacity is, else terminate |
| SlurmBridge.Bridge.Sweep | internal/slurm/sweep.go:61-134 | refused without a generation; otherwise reaped and spared are the positions the rules give, with reasons; by-name terminations and ledger effects for the reaped only, none in a dry run |
| SlurmBridge.SweepCloses | internal/slurm/sweep.go:112-130 | with unique tags a sweep closes each reaped entity's hold on its own answers and touches no other's, and none in a dry run |
| SweepRules.Decide | internal/slurm/sweep.go:55-60 | the case order reaps exactly when generation set and not current, older than grace, entity tagged, not terminating |
| SweepRules.ReasonIsFirst | internal/slurm/sweep.go:95-114 | the reason recorded is the first that applies: terminating, no generation, current, within grace or of unknown age, no tag |
| SweepRules.SweepPartitions | internal/slurm/sweep.go:87-132 | reaped and spared are an order-preserving partition of the described fleet, reaped being exactly the reapable |
| SweepRules.ReapHits | internal/substrate/aws/actuator.go:360-376 | over all answers of the lookup by name: a reap hits its own instance, if any, if and only if no other is to be seen under its tag; and then never the current generation |
| SweepRules.SweepSafeIff | internal/slurm/sweep.go:116-116 | whatever is to be seen at the lookup, over all its answers: no reap hits the current generation if and only if none of it is to be seen under a reaped instance's tag |
| SweepRules.SweepSafeWhenUnchangedIff | internal/slurm/sweep.go:88-132 | when the same fleet is to be seen: no reap hits the current generation if and only if no described instance of it carries a reaped one's tag, in whatever order |
| SweepRules.UniqueTagsAreSafe | internal/slurm/sweep.go:55-60 | with unique entity tags and nothing new to be seen, any answer makes a reap terminate its own instance, and nothing of the current generation |
| SweepRules.SharedNameHitsLiveNode | internal/slurm/sweep.go:112-116 | whenever a reaped instance and a live one share a name, one order of the answer takes the live one down and the other does not |
| MountSpec.RoundTripIff | internal/bootstrap/mount.go:16-50 | a formatted list parses back to its mounts with both halves set if and only if these have no comma, no colon in the DNS name and no outer white space; to itself if and only if all its mounts are so |
| MountSpec.ParseFormatParse | internal/bootstrap/mount.go:27-31 | for every string, parsing, formatting and parsing again gives the first parse |
| MountSpec.ParseIsCanonical | internal/bootstrap/mount.go:32-50 | whatever the string, every parsed mount can be formatted and parsed back |
| MountSpec.ParseIsEntries | internal/bootstrap/mount.go:32-50 | any string parses to what its comma-separated entries read as, in order: a malformed entry is skipped and takes no other with it |
| MountSpec.ParseEntryIff | internal/bootstrap/mount.go:38-47 | an entry yields a mount if and only if it reads as white space, a name without colon, a colon, a path, white space, neither half empty; and then that one |
| MountSpec.FormatText | internal/bootstrap/mount.go:14-25 | the text of any list: dns:path for each mount with both halves set, in order, with commas between |
| MountSpec.FormatMountSpec | internal/bootstrap/mount.go:16-25 | the loop computes Format, skipping mounts with an empty half |
| MountSpec.ParseMountSpec | internal/bootstrap/mount.go:32-50 | the loop computes Parse, and only canonical mounts come out |
| FileNames.RecordNameRoundTripIff | internal/recordstore/store.go:150-158 | a record's file name decodes to its id if and only if the id has no "%2F" |
| FileNames.RecordNamesCollideIff | internal/recordstore/store.go:146-158 | two ids share a file if and only if they decode alike; ids without "%2F" never do |
| FileNames.EncodeDecode | internal/recordstore/store.go:150-158 | every name without a slash is the encoding of what it decodes to |
| FileNames.EncodedHasNoSlash | internal/recordstore/store.go:143-154 | an encoded id has no slash, so it cannot leave the directory |
| FileNames.EncodesEach | internal/recordstore/store.go:150-154 | character by character a slash becomes %2F and all else stays |
| FileNames.HoldNamesDistinct | internal/slurm/holdstore.go:128-133 | the hold store's encoding is injective on all ids |
| FileNames.HoldNameIsOneComponent | internal/slurm/holdstore.go:128-133 | and has neither slash nor backslash |
| FileNames.HoldEncodesEach | internal/slurm/holdstore.go:130-133 | character by character %, / and backslash become %25, %2F and %5C |
| RecordStore.LastWriteIsOwn | internal/recordstore/store.go:34-37 | over any history, among ids without "%2F" the stored record is the entity's own, and exists exactly when one was written |
| RecordStore.FileStore.Put | internal/recordstore/store.go:67-97 | the record is stored for every id that decodes alike and every other id keeps what it had; an empty entity is an error |
| RecordStore.FileStore.PutOutcome | internal/recordstore/store.go:99-107 | stops at the first failure; the store then holds the last write of each id among the records written |
| RecordStore.FileStore.Get | internal/recordstore/store.go:110-123 | what is stored for the id, or not found |
| RecordStore.FileStore.List | internal/recordstore/store.go:125-141 | strictly ascending, and exactly the ids without "%2F" and without a leading dot that Get finds |
| HoldFiles.FileHoldStore.Put | internal/slurm/holdstore.go:69-97 | on every id the files are a map, updated at the hold's entity alone |
| HoldFiles.FileHoldStore.Get | internal/slurm/holdstore.go:99-113 | the map's entry, or no hold |
| HoldFiles.FileHoldStore.Delete | internal/slurm/holdstore.go:115-122 | removes that entity alone from the map; an absent hold is no error |

## Left out

- Clocks and waiting in the reconciler: time stamps, poll and backoff sleeps, jitter and the sizes of phase budgets (with `applyDefaultBudget`). A deadline may fire at any point of its phase, which covers every budget.
- The reconciler's optional rate limiter: a throttled launch is a counted call, its Backoff is the limiter's own model.
- Context internals beyond three facts: a cancel is final, the first cause wins, children inherit it at once.
- Port internals: EC2, S3, HTTP, JSON, tags, idempotency tokens and content hashes. Every answer of the port types is allowed instead. The error-code table of the Classifier is not part of this model.
- Message texts and error wrapping: faults carry a detail value in place of code and message, causes a context error in place of its text.
- Observation fields nobody reads here (generation, rung, observation time), and Record's time stamps.
- SettleLoops.Conclude: the Assembler's answer is a parameter, so the assembly deadline is not told apart from other assembly errors; the caller's context is taken as read once, after Wait.
- MpiCohort.ReadyMpiCohortIsPublished: supposes that ports report each member under its own id, which the reconciler does not check.
- CohortTheorems.CulpritAgreement: supposes distinct, non-empty ids, for the records are keyed by them.
- HoldLedger.FleetCostConservedIff: supposes that every hold is written, every charge and removal accepted, and nobody else at the store.
- SlurmBridge.Bridge.ReconcileHold, Suspend and Sweep: proved over a store nobody else touches meanwhile; `HoldRaces` has the steps between which others take theirs. One read, write, charge or removal is undivided there too.
- TokenBucket.TokenBucketTheorem: in exact arithmetic; rounding of float64, and overflow of durations and of the interval count, are not modelled.
- Bridges without a hold store, a records store or an Admitter: these switch the modelled effects off.
- Node-state writeback, `recordRefusal`'s records, partition resolution (`ResolveForNode` depends on map order) and hostlist expansion.
- Files: temporary names, renames and directory errors while listing. A store is a map from file names to what was last written.
- Ids and specs are sequences of Unicode characters; invalid UTF-8 is not modelled.
- `Summary`, `Explain`, `MountPaths`, the capacity-string tables and the command line: one branch each.
