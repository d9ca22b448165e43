/**
 The monthly usage counters and the job rows, as one database value, and the transactions that move
 quota between them. One quota period; ordinary (non-admin) users.
 */
module QuotaLedger {
  import opened Prelude
  import opened JobRows

  datatype Db = Db(jobs: seq<Job>, usage: map<Account, nat>, limits: map<Account, nat>)

  function Usage(db: Db, a: Account): nat {
    if a in db.usage then db.usage[a] else 0
  }

  function Limit(db: Db, a: Account): nat {
    if a in db.limits then db.limits[a] else 0
  }

  predicate Owns(j: Job, a: Account) {
    j.user == Some(a.user) && j.quotaKind == Some(a.kind)
  }

  // What a job still holds of its owner's quota: the reservation until it is settled, then what it consumed.
  function Charge(j: Job, a: Account): nat {
    if !Owns(j, a) then 0 else if j.finalized then j.consumed else j.reserved
  }

  function Charges(jobs: seq<Job>, a: Account): nat {
    if jobs == [] then 0 else Charges(jobs[..|jobs| - 1], a) + Charge(jobs[|jobs| - 1], a)
  }

  // The part of the usage counter no job row accounts for.
  function Slack(db: Db, a: Account): int {
    Usage(db, a) - Charges(db.jobs, a)
  }

  lemma ChargesAppend(jobs: seq<Job>, j: Job, a: Account)
    ensures Charges(jobs + [j], a) == Charges(jobs, a) + Charge(j, a)
  {
    assert (jobs + [j])[..|jobs|] == jobs;
  }

  lemma {:induction false} ChargesUpdate(jobs: seq<Job>, i: nat, j: Job, a: Account)
    requires i < |jobs|
    ensures Charges(jobs[i := j], a) == Charges(jobs, a) - Charge(jobs[i], a) + Charge(j, a)
  {
    var n := |jobs| - 1;
    if i == n {
      assert jobs[i := j][..n] == jobs[..n];
    } else {
      assert jobs[i := j][..n] == jobs[..n][i := j];
      ChargesUpdate(jobs[..n], i, j, a);
    }
  }

  lemma {:induction false} ChargeWithinCharges(jobs: seq<Job>, i: nat, a: Account)
    requires i < |jobs|
    ensures Charge(jobs[i], a) <= Charges(jobs, a)
  {
    var n := |jobs| - 1;
    if i < n {
      ChargeWithinCharges(jobs[..n], i, a);
    }
  }

  // ----- usage counter -----------------------------------------------------------------------------

  function TryReserve(db: Db, a: Account, units: nat): (Db, bool) {
    if units == 0 then (db, true)
    else if Usage(db, a) + units > Limit(db, a) then (db, false)
    else (db.(usage := db.usage[a := Usage(db, a) + units]), true)
  }

  // A refund never drives the counter below zero; it reports what it gave back.
  function Refund(db: Db, a: Account, units: nat): (Db, nat) {
    var give := Min(units, Usage(db, a));
    if give == 0 then (db, 0) else (db.(usage := db.usage[a := Usage(db, a) - give]), give)
  }

  // ----- job creation ------------------------------------------------------------------------------

  datatype Policy = Policy(enabled: bool, maxConcurrent: nat)

  datatype Draft = Draft(
    kind: JobKind, key: Option<nat>, user: Option<nat>, quotaKind: Option<QuotaKind>, reserved: nat,
    maxAttempts: nat, backend: Backend, policy: Option<Policy>)

  datatype CreateError = PolicyChanged | ActiveLimit

  function RowOf(d: Draft, now: int): Job {
    Job(d.kind, d.key, now, d.user, d.quotaKind, d.reserved, 0, false, Queued, d.backend, 0, d.maxAttempts,
      None, None, None, false, now)
  }

  predicate Matches(j: Job, kind: JobKind, key: nat) {
    j.kind == kind && j.key == Some(key) && Active(j)
  }

  // The oldest active row with this kind and key, by creation time.
  function FindActive(jobs: seq<Job>, kind: JobKind, key: nat): (r: Option<nat>)
    ensures r.Some? ==> r.value < |jobs| && Matches(jobs[r.value], kind, key)
    ensures r.Some? ==> forall i | 0 <= i < |jobs| && Matches(jobs[i], kind, key) ::
      jobs[r.value].createdAt <= jobs[i].createdAt
    ensures r.None? ==> forall i | 0 <= i < |jobs| :: !Matches(jobs[i], kind, key)
  {
    if jobs == [] then None
    else
      var n := |jobs| - 1;
      var before := FindActive(jobs[..n], kind, key);
      assert forall i | 0 <= i < n :: jobs[..n][i] == jobs[i];
      if Matches(jobs[n], kind, key) && (before.None? || jobs[n].createdAt < jobs[before.value].createdAt) then Some(n)
      else before
  }

  predicate UserActive(j: Job, user: nat, backend: Backend) {
    j.user == Some(user) && j.backend == backend && Active(j)
  }

  function CountUserActive(jobs: seq<Job>, user: nat, backend: Backend): nat {
    if jobs == [] then 0
    else
      CountUserActive(jobs[..|jobs| - 1], user, backend)
      + (if UserActive(jobs[|jobs| - 1], user, backend) then 1 else 0)
  }

  predicate Policed(d: Draft) {
    Subscription(d.backend) && d.user.Some? && !d.kind.AgySmoke? && !d.kind.OpenAiCodexSmoke?
  }

  /** Insert a row, or reuse the active row with the same kind and key; one transaction. */
  function CreateJob(db: Db, d: Draft, now: int): (Db, Result<(nat, bool), CreateError>) {
    var existing := if d.key.None? then None else FindActive(db.jobs, d.kind, d.key.value);
    if existing.Some? then (db, Ok((existing.value, false)))
    else if Policed(d) && (d.policy.None? || !d.policy.value.enabled) then (db, Err(PolicyChanged))
    else if Policed(d) && CountUserActive(db.jobs, d.user.value, d.backend) >= d.policy.value.maxConcurrent then
      (db, Err(ActiveLimit))
    else (db.(jobs := db.jobs + [RowOf(d, now)]), Ok((|db.jobs|, true)))
  }

  // Repeated requests are folded onto one row: no two active rows share a kind and a key.
  ghost predicate OneActivePerKey(jobs: seq<Job>) {
    forall i, k | 0 <= i < k < |jobs| && Active(jobs[i]) && Active(jobs[k]) && jobs[i].key.Some? ::
      jobs[i].kind != jobs[k].kind || jobs[i].key != jobs[k].key
  }

  lemma CreateKeepsOneActive(db: Db, d: Draft, now: int)
    requires OneActivePerKey(db.jobs)
    ensures OneActivePerKey(CreateJob(db, d, now).0.jobs)
  {
    var jobs' := CreateJob(db, d, now).0.jobs;
    if jobs' != db.jobs {
      var n := |db.jobs|;
      forall i | 0 <= i < n && Active(jobs'[i]) && jobs'[i].key.Some?
        ensures jobs'[i].kind != jobs'[n].kind || jobs'[i].key != jobs'[n].key
      {
        if jobs'[i].kind == d.kind && jobs'[i].key == d.key {
          assert Matches(db.jobs[i], d.kind, d.key.value);
        }
      }
    }
  }

  // A job with the draft's kind and key that has not ended
  predicate LikeDraft(j: Job, d: Draft) {
    && d.key.Some? && j.kind == d.kind && j.key == d.key
    && (j.status.Queued? || j.status.Running? || j.status.WaitingProvider?)
  }

  ghost predicate HasActive(db: Db, d: Draft) {
    exists i | 0 <= i < |db.jobs| :: LikeDraft(db.jobs[i], d)
  }

  predicate IsOldestLike(jobs: seq<Job>, d: Draft, id: nat) {
    && id < |jobs| && LikeDraft(jobs[id], d)
    && forall i | 0 <= i < |jobs| && LikeDraft(jobs[i], d) :: jobs[id].createdAt <= jobs[i].createdAt
  }

  // One row more: the draft's, queued, claimed by nobody, and holding its reservation unspent.
  predicate AddsFresh(jobs: seq<Job>, next: seq<Job>, d: Draft, now: int) {
    && |next| == |jobs| + 1 && next[..|jobs|] == jobs
    && var j := next[|jobs|];
       && j.kind == d.kind && j.key == d.key && j.user == d.user && j.quotaKind == d.quotaKind
       && j.backend == d.backend && j.maxAttempts == d.maxAttempts
       && j.status.Queued? && j.attempts == 0 && j.token.None? && j.claimedAt.None?
       && j.reserved == d.reserved && j.consumed == 0 && !j.finalized
       && j.createdAt == j.updatedAt == now
  }

  /** A new row can be claimed at once, by the workers of its backend. */
  lemma FreshIsClaimable(db: Db, d: Draft, now: int, claim: RowStep, later: int)
    requires CreateJob(db, d, now).1.Ok? && CreateJob(db, d, now).1.value.1 && claim.Claim?
    ensures AdvanceJob(CreateJob(db, d, now).0, |db.jobs|, claim, later).Some? <==>
      claim.backend == d.backend && d.kind in claim.kinds
  {}

  // The jobs of a user on a backend that are queued, running or waiting
  ghost function Unended(jobs: seq<Job>, user: nat, backend: Backend): set<nat> {
    set i: nat | i < |jobs| && UnendedAt(jobs[i], user, backend)
  }

  predicate UnendedAt(j: Job, user: nat, backend: Backend) {
    && j.user == Some(user) && j.backend == backend
    && (j.status.Queued? || j.status.Running? || j.status.WaitingProvider?)
  }

  lemma {:induction false} CountIsUnended(jobs: seq<Job>, user: nat, backend: Backend)
    ensures CountUserActive(jobs, user, backend) == |Unended(jobs, user, backend)|
  {
    if jobs == [] {
      assert Unended(jobs, user, backend) == {};
    } else {
      var n := |jobs| - 1;
      CountIsUnended(jobs[..n], user, backend);
      var before := Unended(jobs[..n], user, backend);
      assert UserActive(jobs[n], user, backend) == UnendedAt(jobs[n], user, backend);
      if UserActive(jobs[n], user, backend) {
        assert Unended(jobs, user, backend) == before + {n};
      } else {
        assert Unended(jobs, user, backend) == before;
      }
    }
  }

  /**
   A request is folded exactly when a job with its kind and key has not ended, whatever the policy says, and onto
   an oldest such job. Otherwise a user's request for a subscription, other than a smoke test, is refused exactly
   when the grant is gone or the user's jobs there that have not ended reach it; and every other request adds one
   queued row that has used nothing.
   */
  lemma CreateIff(db: Db, d: Draft, now: int)
    ensures var (next, r) := CreateJob(db, d, now);
      var granted := d.policy.Some? && d.policy.value.enabled;
      var policed := d.backend != Api && d.user.Some? && d.kind != AgySmoke && d.kind != OpenAiCodexSmoke;
      && (r.Ok? && !r.value.1 <==> HasActive(db, d))
      && (r == Err(PolicyChanged) <==> !HasActive(db, d) && policed && !granted)
      && (r == Err(ActiveLimit) <==>
            && !HasActive(db, d) && policed && granted
            && |Unended(db.jobs, d.user.value, d.backend)| >= d.policy.value.maxConcurrent)
      && (r.Ok? && !r.value.1 ==> IsOldestLike(db.jobs, d, r.value.0))
      && (r.Ok? && r.value.1 ==> r.value.0 == |db.jobs| && AddsFresh(db.jobs, next.jobs, d, now))
      && (r.Err? || !r.value.1 ==> next == db)
      && next.usage == db.usage && next.limits == db.limits
  {
    if d.user.Some? {
      CountIsUnended(db.jobs, d.user.value, d.backend);
    }
    if d.key.Some? && FindActive(db.jobs, d.kind, d.key.value).Some? {
      assert LikeDraft(db.jobs[FindActive(db.jobs, d.kind, d.key.value).value], d);
    }
    assert forall i | 0 <= i < |db.jobs| :: LikeDraft(db.jobs[i], d) <==>
      d.key.Some? && Matches(db.jobs[i], d.kind, d.key.value);
  }

  /** A creation for a user on a subscription never takes the user past the number of jobs the policy grants. */
  lemma CreateRespectsPolicy(db: Db, d: Draft, now: int)
    requires d.backend != Api && d.user.Some? && d.kind != AgySmoke && d.kind != OpenAiCodexSmoke
    requires CreateJob(db, d, now).1.Ok? && CreateJob(db, d, now).1.value.1
    ensures d.policy.Some? && d.policy.value.enabled
    ensures |Unended(CreateJob(db, d, now).0.jobs, d.user.value, d.backend)| <= d.policy.value.maxConcurrent
  {
    CountIsUnended(db.jobs, d.user.value, d.backend);
    CountIsUnended(CreateJob(db, d, now).0.jobs, d.user.value, d.backend);
  }

  // ----- consumption and settlement ----------------------------------------------------------------

  function Increment(db: Db, id: nat, units: nat, now: int): Option<Db> {
    if units == 0 then Some(db)
    else if id < |db.jobs| && !db.jobs[id].finalized && db.jobs[id].consumed + units <= db.jobs[id].reserved then
      Some(db.(jobs := db.jobs[id := db.jobs[id].(consumed := db.jobs[id].consumed + units, updatedAt := now)]))
    else None
  }

  datatype Settlement = Settlement(user: Option<nat>, quotaKind: Option<QuotaKind>, refundable: nat)

  // A successful job has spent its reservation, except that subscription translation counts chapter by chapter.
  predicate SpendsAll(j: Job, success: bool) {
    success && !(Subscription(j.backend) && j.kind.Translate?)
  }

  function Settled(j: Job, success: bool, now: int): Job {
    j.(finalized := true, consumed := if SpendsAll(j, success) then j.reserved else j.consumed, updatedAt := now)
  }

  function FinalizeQuota(db: Db, id: nat, success: bool, now: int): (Db, Option<Settlement>) {
    if id >= |db.jobs| || db.jobs[id].finalized then (db, None)
    else
      var j := Settled(db.jobs[id], success, now);
      (db.(jobs := db.jobs[id := j]),
       Some(Settlement(j.user, j.quotaKind, if j.reserved <= j.consumed then 0 else j.reserved - j.consumed)))
  }

  /** Settle a row and refund its owner; one transaction. */
  function FinalizeJobQuota(db: Db, id: nat, success: bool, now: int): (Db, Option<Settlement>, nat) {
    var (db1, s) := FinalizeQuota(db, id, success, now);
    if s.None? then (db1, None, 0)
    else if s.value.quotaKind.Some? && s.value.user.Some? && s.value.refundable > 0 then
      var (db2, given) := Refund(db1, Account(s.value.user.value, s.value.quotaKind.value), s.value.refundable);
      (db2, s, given)
    else (db1, s, 0)
  }

  // ----- what each transaction does to the books -----------------------------------------------------

  // Every job row is within its reservation and every counter covers the rows charged to it.
  ghost predicate Booked(db: Db) {
    && (forall i | 0 <= i < |db.jobs| :: db.jobs[i].consumed <= db.jobs[i].reserved)
    && (forall a :: 0 <= Slack(db, a) && Usage(db, a) <= Limit(db, a))
  }

  lemma ReserveSlack(db: Db, a: Account, units: nat, b: Account)
    ensures var (db', ok) := TryReserve(db, a, units);
      && Slack(db', b) == Slack(db, b) + (if ok && b == a then units else 0)
      && (Usage(db, b) <= Limit(db, b) ==> Usage(db', b) <= Limit(db', b))
      && (ok <==> units == 0 || Usage(db, a) + units <= Limit(db, a))
      && Usage(db', b) == Usage(db, b) + (if ok && b == a then units else 0)
      && db'.jobs == db.jobs && db'.limits == db.limits
      && (b !in db.limits ==> Limit(db, b) == 0)
  {}

  lemma RefundSlack(db: Db, a: Account, units: nat, b: Account)
    ensures var (db', given) := Refund(db, a, units);
      && Slack(db', b) == Slack(db, b) - (if b == a then given else 0)
      && Usage(db', b) == Usage(db, b) - (if b == a then given else 0)
      && given == (if Usage(db, a) >= units then units else Usage(db, a))
      && db'.jobs == db.jobs && db'.limits == db.limits
  {}

  lemma CreateSlack(db: Db, d: Draft, now: int, b: Account)
    ensures var (db', r) := CreateJob(db, d, now);
      Slack(db', b) == Slack(db, b) - (if r.Ok? && r.value.1 then Charge(RowOf(d, now), b) else 0)
  {
    ChargesAppend(db.jobs, RowOf(d, now), b);
  }

  lemma IncrementSlack(db: Db, id: nat, units: nat, now: int, b: Account)
    requires Increment(db, id, units, now).Some?
    ensures Slack(Increment(db, id, units, now).value, b) == Slack(db, b)
  {
    if units != 0 {
      ChargesUpdate(db.jobs, id, db.jobs[id].(consumed := db.jobs[id].consumed + units, updatedAt := now), b);
    }
  }

  // What settling does to an account's slack: nothing but the part of the refund that the counter could not give.
  lemma FinalizeMoves(db: Db, id: nat, success: bool, now: int, b: Account)
    requires id < |db.jobs| ==> db.jobs[id].consumed <= db.jobs[id].reserved
    ensures var (db', s, given) := FinalizeJobQuota(db, id, success, now);
      && Slack(db', b) == Slack(db, b) + (if s.Some? && Owns(db.jobs[id], b) then s.value.refundable - given else 0)
      && Usage(db', b) <= Usage(db, b)
      && (s.Some? <==> id < |db.jobs| && !db.jobs[id].finalized)
      && (s.Some? ==>
            && s.value.refundable ==
               (if SpendsAll(db.jobs[id], success) then 0 else db.jobs[id].reserved - db.jobs[id].consumed)
            && given <= s.value.refundable
            && (Owns(db.jobs[id], b) && given < s.value.refundable ==> Usage(db', b) == 0))
  {
    if id < |db.jobs| && !db.jobs[id].finalized {
      ChargesUpdate(db.jobs, id, Settled(db.jobs[id], success, now), b);
    }
  }

  /**
   Settling keeps the books: the refund is exactly the reservation the job did not consume, it is never
   clipped by the counter, and no account's slack moves.
   */
  lemma FinalizeSlack(db: Db, id: nat, success: bool, now: int, b: Account)
    requires Booked(db)
    ensures var (db', s, given) := FinalizeJobQuota(db, id, success, now);
      && Slack(db', b) == Slack(db, b)
      && Usage(db', b) <= Usage(db, b)
      && (s.Some? <==> id < |db.jobs| && !db.jobs[id].finalized)
      && (s.Some? && s.value.user.Some? && s.value.quotaKind.Some? ==> given == s.value.refundable)
      && (s.Some? ==>
            s.value.refundable == if success && (db.jobs[id].kind != Translate || db.jobs[id].backend == Api) then 0
              else db.jobs[id].reserved - db.jobs[id].consumed)
  {
    FinalizeMoves(db, id, success, now, b);
    if id < |db.jobs| && db.jobs[id].user.Some? && db.jobs[id].quotaKind.Some? {
      var a := Account(db.jobs[id].user.value, db.jobs[id].quotaKind.value);
      ChargeWithinCharges(db.jobs, id, a);
      assert Slack(db, a) >= 0;
    }
  }

  /**
   Which successes spend the reservation. A job that succeeds and is no translation, or ran on the API, ends with
   all of its reservation consumed and nothing refunded. A subscription translation, and every job that failed or
   was canceled, keeps its consumed count; its owner gets back the rest, as far as the counter has it.
   */
  lemma SettlesAs(db: Db, id: nat, success: bool, now: int)
    requires id < |db.jobs| && !db.jobs[id].finalized && db.jobs[id].consumed <= db.jobs[id].reserved
    ensures var j := db.jobs[id];
      var (next, s, given) := FinalizeJobQuota(db, id, success, now);
      var spent := success && (j.kind != Translate || j.backend == Api);
      && s == Some(Settlement(j.user, j.quotaKind, if spent then 0 else j.reserved - j.consumed))
      && next.jobs ==
           db.jobs[id := j.(finalized := true, consumed := if spent then j.reserved else j.consumed, updatedAt := now)]
      && next.limits == db.limits
      && (forall a :: Usage(next, a) == Usage(db, a) - if Owns(j, a) then given else 0)
      && (forall a | Owns(j, a) :: given == Min(s.value.refundable, Usage(db, a)))
  {
    var j := db.jobs[id];
    if j.user.Some? && j.quotaKind.Some? {
      assert forall a :: Owns(j, a) <==> a == Account(j.user.value, j.quotaKind.value);
    }
  }

  // `n` single units consumed one after the other
  function Spend(db: Db, id: nat, n: nat, now: int): Option<Db> {
    if n == 0 then Some(db)
    else
      var before := Spend(db, id, n - 1, now);
      if before.None? then None else Increment(before.value, id, 1, now)
  }

  /** A reservation can be consumed unit by unit to its end, no further, and not once it is settled. */
  lemma {:induction false} SpendsToTheEnd(db: Db, id: nat, n: nat, now: int)
    requires id < |db.jobs| && db.jobs[id].consumed <= db.jobs[id].reserved
    ensures Spend(db, id, n, now).Some? <==>
      n == 0 || (!db.jobs[id].finalized && db.jobs[id].consumed + n <= db.jobs[id].reserved)
    ensures n > 0 && Spend(db, id, n, now).Some? ==>
      Spend(db, id, n, now).value ==
        db.(jobs := db.jobs[id := db.jobs[id].(consumed := db.jobs[id].consumed + n, updatedAt := now)])
  {
    if n > 0 {
      SpendsToTheEnd(db, id, n - 1, now);
    }
  }

  /** Several units at once are taken exactly when they could be one by one. */
  lemma IncrementIsSpend(db: Db, id: nat, n: nat, now: int)
    requires id < |db.jobs| && db.jobs[id].consumed <= db.jobs[id].reserved
    ensures Increment(db, id, n, now) == Spend(db, id, n, now)
  {
    SpendsToTheEnd(db, id, n, now);
  }

  function AdvanceJob(db: Db, id: nat, s: RowStep, now: int): Option<Db> {
    if id >= |db.jobs| then None
    else
      var r := Advance(db.jobs[id], s, now);
      if r.None? then None else Some(db.(jobs := db.jobs[id := r.value]))
  }

  lemma AdvanceSlack(db: Db, id: nat, s: RowStep, now: int, b: Account)
    requires AdvanceJob(db, id, s, now).Some?
    ensures Slack(AdvanceJob(db, id, s, now).value, b) == Slack(db, b)
  {
    AdvanceFrame(db.jobs[id], s, now);
    ChargesUpdate(db.jobs, id, Advance(db.jobs[id], s, now).value, b);
  }

  lemma AdvanceKeepsOneActive(db: Db, id: nat, s: RowStep, now: int)
    requires OneActivePerKey(db.jobs) && AdvanceJob(db, id, s, now).Some?
    ensures OneActivePerKey(AdvanceJob(db, id, s, now).value.jobs)
  {
    AdvanceFrame(db.jobs[id], s, now);
  }
}
