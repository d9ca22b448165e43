/**
 A row of the durable `jobs` table and the guarded single-row updates that drive its life cycle.
 Every update is `UPDATE jobs SET ... WHERE id=$1 AND <guard>`; a guard that does not hold updates no
 row, which `Advance` reports as `None`.
 */
module JobRows {
  import opened Prelude

  datatype QuotaKind = TranslatedChapters | OcrPages | CodexBuilds | TtsChapters

  datatype Account = Account(user: nat, kind: QuotaKind)

  datatype Status = Queued | Running | WaitingProvider | Done | Failed | Canceled

  datatype Backend = Api | Agy | OpenAiCodex

  datatype JobKind = CodexIllustrate | Scrape | CodexBuild | Translate | AgySmoke | OpenAiCodexSmoke

  datatype Job = Job(
    kind: JobKind, key: Option<nat>, createdAt: int,
    user: Option<nat>, quotaKind: Option<QuotaKind>, reserved: nat, consumed: nat, finalized: bool,
    status: Status, backend: Backend, attempts: nat, maxAttempts: nat,
    token: Option<nat>, claimedAt: Option<int>, notBefore: Option<int>, cancelRequested: bool, updatedAt: int)

  datatype RowStep =
    | Claim(backend: Backend, kinds: set<JobKind>, worker: nat)
    | RenewLease(holder: nat)
    | MarkDone(worker: nat)
    | FailOrRetry(worker: nat)
    | Cancel
    | MarkCanceled(worker: nat)
    | WaitForProvider(worker: nat, minutes: int)
    | RetryWaiting
    | ReleaseDueWait
    | CancelStale(lease: nat)
    | FailStale(lease: nat)
    | RequeueStale(lease: nat)
    | FallbackToApi(worker: nat, newMax: nat)

  predicate Terminal(s: Status) {
    s.Done? || s.Failed? || s.Canceled?
  }

  predicate Active(j: Job) {
    !Terminal(j.status)
  }

  predicate Subscription(b: Backend) {
    b.Agy? || b.OpenAiCodex?
  }

  predicate Claimable(j: Job, backend: Backend, kinds: set<JobKind>, now: int) {
    && j.status.Queued?
    && j.backend == backend
    && j.kind in kinds
    && (j.notBefore.None? || j.notBefore.value <= now)
    && !j.cancelRequested
  }

  predicate Stale(j: Job, lease: nat, now: int) {
    j.status.Running? && (j.claimedAt.None? || j.claimedAt.value < now - lease)
  }

  function Pow2(n: nat): nat {
    if n == 0 then 1 else 2 * Pow2(n - 1)
  }

  // Seconds a failed attempt stays invisible before it can be claimed again.
  function Backoff(attempts: nat): int {
    Min(300, Pow2(attempts) * 5)
  }

  function Unclaimed(j: Job, s: Status, now: int): Job {
    j.(status := s, token := None, claimedAt := None, updatedAt := now)
  }

  /** One guarded update of one row, at database time `now`. */
  function Advance(j: Job, s: RowStep, now: int): Option<Job> {
    match s
    case Claim(backend, kinds, worker) =>
      if Claimable(j, backend, kinds, now) then
        Some(j.(status := Running, attempts := j.attempts + 1, token := Some(worker),
          claimedAt := Some(now), updatedAt := now))
      else None
    case RenewLease(holder) =>
      if j.status.Running? && j.token == Some(holder) then Some(j.(claimedAt := Some(now))) else None
    case MarkDone(_) =>
      if j.status.Running? then Some(Unclaimed(j, Done, now)) else None
    case FailOrRetry(_) =>
      if !j.status.Running? then None
      else if j.attempts >= j.maxAttempts then Some(Unclaimed(j, Failed, now).(notBefore := None))
      else Some(Unclaimed(j, Queued, now).(notBefore := Some(now + Backoff(j.attempts))))
    case Cancel =>
      if Terminal(j.status) then None
      else if j.status.Running? && Subscription(j.backend) then Some(j.(cancelRequested := true, updatedAt := now))
      else Some(Unclaimed(j, Canceled, now).(cancelRequested := true))
    case MarkCanceled(_) =>
      if j.status.Running? && j.cancelRequested then Some(Unclaimed(j, Canceled, now)) else None
    case WaitForProvider(_, minutes) =>
      if j.status.Running? then
        Some(Unclaimed(j, WaitingProvider, now).(notBefore := Some(now + 60 * (if minutes < 1 then 1 else minutes))))
      else None
    case RetryWaiting =>
      if j.status.WaitingProvider? then Some(j.(status := Queued, notBefore := None, updatedAt := now)) else None
    case ReleaseDueWait =>
      if j.status.WaitingProvider? && j.notBefore.Some? && j.notBefore.value <= now then
        Some(j.(status := Queued, notBefore := None, updatedAt := now))
      else None
    case CancelStale(lease) =>
      if Stale(j, lease, now) && j.cancelRequested then Some(Unclaimed(j, Canceled, now)) else None
    case FailStale(lease) =>
      if Stale(j, lease, now) then Some(Unclaimed(j, Failed, now)) else None
    case RequeueStale(lease) =>
      if Stale(j, lease, now) then Some(Unclaimed(j, Queued, now)) else None
    case FallbackToApi(_, newMax) =>
      if j.status.Running? then
        Some(Unclaimed(j, Queued, now).(backend := Api, attempts := 0, maxAttempts := newMax, notBefore := None,
          cancelRequested := false))
      else None
  }

  predicate SameQuota(j: Job, k: Job) {
    && k.user == j.user && k.quotaKind == j.quotaKind
    && k.reserved == j.reserved && k.consumed == j.consumed && k.finalized == j.finalized
  }

  /**
   No life-cycle update touches the quota columns or the identity of a row, and none of them updates a
   terminal row: done, failed and canceled are absorbing.
   */
  lemma AdvanceFrame(j: Job, s: RowStep, now: int)
    ensures Advance(j, s, now).Some? ==>
      && SameQuota(j, Advance(j, s, now).value)
      && Active(j)
      && Advance(j, s, now).value.kind == j.kind
      && Advance(j, s, now).value.key == j.key
      && Advance(j, s, now).value.createdAt == j.createdAt
  {}

  lemma {:induction false} Pow2Grows(n: nat, m: nat)
    requires n <= m
    ensures 1 <= Pow2(n) <= Pow2(m)
  {
    if n < m {
      Pow2Grows(n, m - 1);
    } else if n > 0 {
      Pow2Grows(n - 1, m - 1);
    }
  }

  /** The delay doubles from attempt to attempt, starting at ten seconds, until it meets the cap of five minutes. */
  lemma BackoffDoubles(attempts: nat)
    ensures attempts < 5 ==> Backoff(attempts + 1) == 2 * Backoff(attempts) <= 160
    ensures attempts >= 6 ==> Backoff(attempts) == 300
    ensures Backoff(0) == 5 && Backoff(1) == 10
  {
    assert Pow2(6) == 64 by {
      assert Pow2(3) == 8;
    }
    if attempts >= 6 {
      Pow2Grows(6, attempts);
    } else {
      Pow2Grows(attempts, 5);
    }
  }

  /** A failed attempt is retried exactly while attempts remain, and nobody can claim it before the delay is over. */
  lemma RetryWaits(j: Job, failed: nat, now: int, later: int, backend: Backend, kinds: set<JobKind>, worker: nat)
    requires j.status.Running?
    ensures var k := Advance(j, FailOrRetry(failed), now);
      && k.Some? && k.value.token.None?
      && k.value.status == (if j.attempts < j.maxAttempts then Queued else Failed)
      && (Advance(k.value, Claim(backend, kinds, worker), later).Some? <==>
            && j.attempts < j.maxAttempts && later >= now + Backoff(j.attempts)
            && backend == j.backend && j.kind in kinds && !j.cancelRequested)
  {}

  // A lease, by its holder and its time, is there exactly while the row runs under a worker.
  predicate Leased(j: Job) {
    (j.token.Some? <==> j.status.Running?) && (j.claimedAt.Some? <==> j.status.Running?)
  }

  lemma AdvanceKeepsLease(j: Job, s: RowStep, now: int)
    requires Leased(j)
    ensures Advance(j, s, now).Some? ==> Leased(Advance(j, s, now).value)
  {}

  // The updates of the recovery pass
  predicate Recovers(s: RowStep) {
    s.CancelStale? || s.FailStale? || s.RequeueStale?
  }

  /**
   A row claimed or renewed at time `t` is beyond the reach of recovery through `t + lease`. After that it can be
   failed or requeued, and canceled if that was asked for.
   */
  lemma LeaseLasts(j: Job, beat: RowStep, t: int, s: RowStep, later: int)
    requires (beat.Claim? || beat.RenewLease?) && Advance(j, beat, t).Some? && Recovers(s)
    ensures var held := Advance(j, beat, t).value;
      && (later <= t + s.lease ==> Advance(held, s, later).None?)
      && (later > t + s.lease ==> (Advance(held, s, later).Some? <==> !s.CancelStale? || held.cancelRequested))
  {}

  /**
   What an update does to the status of a row, which is queued, running or waiting before. Every update but the
   renewal of a lease sends the row to the back of the order in which rows are claimed.
   */
  lemma StatusAfter(j: Job, s: RowStep, now: int)
    requires Advance(j, s, now).Some?
    ensures var k := Advance(j, s, now).value;
      var spared := s.Cancel? && j.status.Running? && j.backend != Api;
      && (j.status.Queued? || j.status.Running? || j.status.WaitingProvider?)
      && (k.status.Done? <==> s.MarkDone?)
      && (k.status.Failed? <==> s.FailStale? || (s.FailOrRetry? && j.attempts >= j.maxAttempts))
      && (k.status.Canceled? <==> s.MarkCanceled? || s.CancelStale? || (s.Cancel? && !spared))
      && (k.status.Running? <==> s.Claim? || s.RenewLease? || spared)
      && (k.status.WaitingProvider? <==> s.WaitForProvider?)
      && k.updatedAt == (if s.RenewLease? then j.updatedAt else now)
      && k.backend == (if s.FallbackToApi? then Api else j.backend)
      && (if s.RetryWaiting? || s.ReleaseDueWait? || s.FallbackToApi? || (s.FailOrRetry? && k.status.Failed?)
          then k.notBefore.None?
          else k.notBefore == j.notBefore || s.FailOrRetry? || s.WaitForProvider?)
  {}

  /**
   A job somebody asked to cancel can be claimed by nobody. Unless it runs on a subscription it is canceled at
   once; there it keeps its lease until its worker, or recovery, cancels it.
   */
  lemma CancelStops(j: Job, now: int, s: RowStep, later: int)
    requires j.status.Queued? || j.status.Running? || j.status.WaitingProvider?
    ensures var r := Advance(j, Cancel, now);
      && r.Some? && r.value.cancelRequested
      && (r.value.status.Canceled? <==> !(j.status.Running? && j.backend != Api))
      && (!r.value.status.Canceled? ==>
            && r.value.status.Running? && r.value.token == j.token && r.value.claimedAt == j.claimedAt
            && (s.MarkCanceled? ==> Advance(r.value, s, later).Some?))
      && (s.Claim? ==> Advance(r.value, s, later).None?)
  {}

  /**
   A job that waits for its provider can be claimed by nobody. It is released on request, or once as many minutes
   as were asked for, and at least one, are over; then it can be claimed at once.
   */
  lemma ParkedWaits(j: Job, parking: nat, minutes: int, now: int, later: int, claim: RowStep)
    requires j.status.Running? && claim.Claim?
    ensures var parked := Advance(j, WaitForProvider(parking, minutes), now);
      && parked.Some? && Advance(parked.value, claim, later).None?
      && (Advance(parked.value, ReleaseDueWait, later).Some? <==> later >= now + 60 && later >= now + 60 * minutes)
      && Advance(parked.value, RetryWaiting, later).Some?
      && forall release | release == ReleaseDueWait || release == RetryWaiting ::
           var released := Advance(parked.value, release, later);
           released.Some? ==>
             (Advance(released.value, claim, later).Some? <==>
               claim.backend == j.backend && j.kind in claim.kinds && !j.cancelRequested)
  {}

  /** A job that falls back is the API workers' from then on, with fresh attempts, and was never asked to cancel. */
  lemma FallbackIsClaimable(j: Job, handing: nat, newMax: nat, now: int, later: int, claim: RowStep)
    requires j.status.Running? && claim.Claim?
    ensures var k := Advance(j, FallbackToApi(handing, newMax), now);
      && k.Some? && k.value.attempts == 0 && k.value.maxAttempts == newMax
      && (Advance(k.value, claim, later).Some? <==> claim.backend == Api && j.kind in claim.kinds)
  {}

  // The retry budget: a row that can still be claimed has an attempt left.
  predicate InBudget(j: Job) {
    && j.attempts <= j.maxAttempts
    && (j.status.Queued? || j.status.WaitingProvider? ==> j.attempts < j.maxAttempts)
  }

  // The three updates that put a row back in the queue without looking at its attempts.
  predicate OverdrawsBudget(j: Job, s: RowStep) {
    match s
    case WaitForProvider(_, _) => j.attempts == j.maxAttempts
    case RequeueStale(_) => j.attempts == j.maxAttempts
    case FallbackToApi(_, newMax) => newMax == 0
    case _ => false
  }

  /** An update keeps the retry budget exactly when it is not one that parks or requeues an exhausted row. */
  lemma BudgetIff(j: Job, s: RowStep, now: int)
    requires InBudget(j) && Advance(j, s, now).Some?
    ensures InBudget(Advance(j, s, now).value) <==> !OverdrawsBudget(j, s)
  {}

  /**
   `attempts <= max_attempts` is not an invariant of the code: a job on its last attempt that is parked
   for its provider and released again is claimed once more.
   */
  lemma WaitingOverdrawsExample()
    ensures
      var j := Job(Translate, None, 0, None, None, 0, 0, false, Running, Agy, 1, 1, Some(7), Some(0), None, false, 0);
      && InBudget(j)
      && var parked := Advance(j, WaitForProvider(7, 5), 10);
      && parked.Some?
      && var released := Advance(parked.value, ReleaseDueWait, 310);
      && released.Some?
      && var again := Advance(released.value, Claim(Agy, {Translate}, 8), 311);
      && again.Some? && again.value.attempts == 2 > again.value.maxAttempts
  {}

  // What the recovery pass does with a stale row it has read as `seen`.
  function RecoveryStep(seen: Job, lease: nat): RowStep {
    if seen.cancelRequested then CancelStale(lease)
    else if seen.attempts >= seen.maxAttempts then FailStale(lease)
    else RequeueStale(lease)
  }

  /**
   The recovery pass reads a row, decides, and updates in a second statement. When the row is still the
   one it read, recovery always acts on a stale row, never leaves it running and never overdraws it.
   */
  lemma RecoveryOfAnUnchangedRow(j: Job, lease: nat, now: int)
    requires Stale(j, lease, now) && InBudget(j)
    ensures Advance(j, RecoveryStep(j, lease), now).Some?
    ensures var k := Advance(j, RecoveryStep(j, lease), now).value;
      && InBudget(k) && !k.status.Running?
      && (k.status.Queued? <==> !j.cancelRequested && j.attempts < j.maxAttempts)
  {}

  // The updates by which a worker gives a row up: done, failed or retried, canceled, parked, or handed to the API.
  predicate ByWorker(s: RowStep) {
    s.MarkDone? || s.FailOrRetry? || s.MarkCanceled? || s.WaitForProvider? || s.FallbackToApi?
  }

  /**
   The guards of those updates look at the status and not at the token: whether one goes through does not depend
   on who asks. Only the renewal of a lease does.
   */
  lemma GuardsIgnoreTheToken(j: Job, s: RowStep, now: int, other: nat)
    requires ByWorker(s)
    ensures Advance(j, s, now) == Advance(j, Reissued(s, other), now)
    ensures Advance(j, RenewLease(s.worker), now).Some? <==> j.status.Running? && j.token == Some(s.worker)
  {}

  // The same request, made by another worker.
  function Reissued(s: RowStep, w: nat): RowStep
    requires ByWorker(s)
  {
    match s
    case MarkDone(_) => MarkDone(w)
    case FailOrRetry(_) => FailOrRetry(w)
    case MarkCanceled(_) => MarkCanceled(w)
    case WaitForProvider(_, minutes) => WaitForProvider(w, minutes)
    case FallbackToApi(_, newMax) => FallbackToApi(w, newMax)
  }

  // Who runs a row changes only by its leaving the running state and being claimed.
  lemma RunningMoves(j: Job, s: RowStep, now: int)
    requires Advance(j, s, now).Some? && Advance(j, s, now).value.status.Running?
    ensures j.status.Running? ==> Advance(j, s, now).value.token == j.token && !s.Claim?
    ensures !j.status.Running? ==> s.Claim? && Advance(j, s, now).value.token == Some(s.worker)
  {}

  /**
   Finishing, failing and parking are guarded by the running state, not by the lease. A worker whose stale lease
   was recovered can no longer renew it, but it can still complete the row under the worker that has it now.
   */
  lemma LostLeaseStillFinishes(j: Job, lease: nat, now: int, other: nat, later: int)
    requires Stale(j, lease, now) && j.token.Some? && j.token.value != other && !j.cancelRequested
    requires j.notBefore.None? || j.notBefore.value <= later
    ensures var queued := Advance(j, RequeueStale(lease), now);
      && queued.Some?
      && var taken := Advance(queued.value, Claim(j.backend, {j.kind}, other), later);
      && taken.Some? && taken.value.token == Some(other)
      && Advance(taken.value, RenewLease(j.token.value), later).None?
      && Advance(taken.value, MarkDone(j.token.value), later).Some?
  {}
}
