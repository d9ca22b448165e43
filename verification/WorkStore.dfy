/**
 The database as the workers and routes use it: job rows and usage counters updated in place, one method
 per transaction, and the two scheduling workflows that compensate a reservation when scheduling fails.
 */
module WorkStore {
  import opened Prelude
  import opened JobRows
  import Ledger = QuotaLedger

  // How an awaited call comes back. A call may have taken effect and still come back with an error.
  datatype Signal = Fine | Raises | Canceled

  datatype Await = Await(applied: bool, signal: Signal)

  type Call = c: Await | c.signal.Fine? ==> c.applied witness Await(true, Fine)

  datatype Outcome = Scheduled(id: nat, created: bool) | Refused | Raised | Unwound

  datatype Attempted = Got(id: nat, created: bool) | Threw | Died

  datatype Faults = Faults(before: Signal, schedule: Call, refund: Call)

  type Reply = Result<(nat, bool), Ledger.CreateError>

  class Store {
    var jobs: seq<Job>
    var usage: map<Account, nat>
    const limits: map<Account, nat>

    ghost function Snapshot(): Ledger.Db
      reads this
    {
      Ledger.Db(jobs, usage, limits)
    }

    constructor (limits: map<Account, nat>)
      ensures Snapshot() == Ledger.Db([], map[], limits)
    {
      this.jobs, this.usage, this.limits := [], map[], limits;
    }

    method Usage(a: Account) returns (used: nat)
      ensures used == Ledger.Usage(Snapshot(), a)
    {
      used := if a in usage then usage[a] else 0;
    }

    method TryReserve(a: Account, units: nat) returns (ok: bool)
      modifies `usage
      ensures (Snapshot(), ok) == Ledger.TryReserve(old(Snapshot()), a, units)
    {
      if units == 0 {
        return true;
      }
      var used := Usage(a);
      var limit := if a in limits then limits[a] else 0;
      ok := used + units <= limit;
      if ok {
        usage := usage[a := used + units];
      }
    }

    method Refund(a: Account, units: nat) returns (given: nat)
      modifies `usage
      ensures (Snapshot(), given) == Ledger.Refund(old(Snapshot()), a, units)
    {
      var used := Usage(a);
      given := Min(units, used);
      if given > 0 {
        usage := usage[a := used - given];
      }
    }

    method CreateJob(d: Ledger.Draft, now: int) returns (r: Reply)
      modifies `jobs
      ensures (Snapshot(), r) == Ledger.CreateJob(old(Snapshot()), d, now)
      ensures Ledger.OneActivePerKey(old(jobs)) ==> Ledger.OneActivePerKey(jobs)
    {
      if Ledger.OneActivePerKey(jobs) {
        Ledger.CreateKeepsOneActive(Snapshot(), d, now);
      }
      if d.key.Some? {
        var existing := Ledger.FindActive(jobs, d.kind, d.key.value);
        if existing.Some? {
          return Ok((existing.value, false));
        }
      }
      if Ledger.Policed(d) {
        if d.policy.None? || !d.policy.value.enabled {
          return Err(Ledger.PolicyChanged);
        }
        if Ledger.CountUserActive(jobs, d.user.value, d.backend) >= d.policy.value.maxConcurrent {
          return Err(Ledger.ActiveLimit);
        }
      }
      r := Ok((|jobs|, true));
      jobs := jobs + [Ledger.RowOf(d, now)];
    }

    /**
     Claim the queued row that was updated longest ago among those no other transaction has locked.
     No claimable row is missed, and no other row changes.
     */
    method ClaimNext(backend: Backend, kinds: set<JobKind>, worker: nat, now: int, locked: set<nat>)
      returns (claimed: Option<nat>)
      modifies `jobs
      ensures claimed.None? ==>
        && jobs == old(jobs)
        && forall i | 0 <= i < |jobs| && i !in locked :: !Claimable(jobs[i], backend, kinds, now)
      ensures claimed.Some? ==>
        && claimed.value < |old(jobs)| && claimed.value !in locked
        && Claimable(old(jobs)[claimed.value], backend, kinds, now)
        && (forall i | 0 <= i < |old(jobs)| && i !in locked && Claimable(old(jobs)[i], backend, kinds, now) ::
              old(jobs)[claimed.value].updatedAt <= old(jobs)[i].updatedAt)
        && Ledger.AdvanceJob(old(Snapshot()), claimed.value, Claim(backend, kinds, worker), now) == Some(Snapshot())
    {
      claimed := None;
      for i := 0 to |jobs|
        invariant jobs == old(jobs)
        invariant claimed.Some? ==>
          claimed.value < i && claimed.value !in locked && Claimable(jobs[claimed.value], backend, kinds, now)
        invariant claimed.None? ==> forall k | 0 <= k < i && k !in locked :: !Claimable(jobs[k], backend, kinds, now)
        invariant claimed.Some? ==> forall k | 0 <= k < i && k !in locked && Claimable(jobs[k], backend, kinds, now) ::
          jobs[claimed.value].updatedAt <= jobs[k].updatedAt
      {
        if i !in locked && Claimable(jobs[i], backend, kinds, now) &&
           (claimed.None? || jobs[i].updatedAt < jobs[claimed.value].updatedAt) {
          claimed := Some(i);
        }
      }
      if claimed.Some? {
        var j := jobs[claimed.value];
        jobs := jobs[claimed.value := j.(status := Running, attempts := j.attempts + 1, token := Some(worker),
          claimedAt := Some(now), updatedAt := now)];
      }
    }

    method FinalizeQuota(id: nat, success: bool, now: int) returns (s: Option<Ledger.Settlement>)
      modifies `jobs
      ensures (Snapshot(), s) == Ledger.FinalizeQuota(old(Snapshot()), id, success, now)
    {
      if id >= |jobs| || jobs[id].finalized {
        return None;
      }
      jobs := jobs[id := Ledger.Settled(jobs[id], success, now)];
      var j := jobs[id];
      s := Some(Ledger.Settlement(j.user, j.quotaKind,
        if j.reserved <= j.consumed then 0 else j.reserved - j.consumed));
    }

    /**
     `finalize_job_quota`: settle the row and refund through the bound capability in one unit of work. When
     the refund raises, the row is not settled either, so a later call can still settle it.
     */
    method FinalizeJobQuota(id: nat, success: bool, refundFails: bool, now: int)
      returns (settlement: Option<Ledger.Settlement>, refunded: nat, raised: bool)
      modifies this
      ensures raised ==> Snapshot() == old(Snapshot()) && refundFails && settlement.None? && refunded == 0
      ensures !raised ==>
        (Snapshot(), settlement, refunded) == Ledger.FinalizeJobQuota(old(Snapshot()), id, success, now)
      ensures raised <==> refundFails && Refunds(Ledger.FinalizeJobQuota(old(Snapshot()), id, success, now).1)
    {
      var jobsBefore, usageBefore := jobs, usage;
      refunded, raised := 0, false;
      settlement := FinalizeQuota(id, success, now);
      if settlement.None? {
        return;
      }
      var s := settlement.value;
      if Refunds(settlement) {
        if refundFails {
          jobs, usage := jobsBefore, usageBefore;
          return None, 0, true;
        }
        refunded := Refund(Account(s.user.value, s.quotaKind.value), s.refundable);
      }
    }

    // The `try` block of `schedule_ai_job`: the optional command, then create or reuse the row.
    method Attempt(draft: Ledger.Draft, now: int, f: Faults) returns (r: Attempted)
      modifies `jobs
      ensures r == AttemptOutcome(f, Ledger.CreateJob(old(Snapshot()), draft, now).1)
      ensures Snapshot() ==
        if f.before.Fine? && f.schedule.applied then Ledger.CreateJob(old(Snapshot()), draft, now).0
        else old(Snapshot())
    {
      if !f.before.Fine? {
        return if f.before.Canceled? then Died else Threw;
      }
      r := if f.schedule.signal.Canceled? then Died else Threw;
      if f.schedule.applied {
        var reply := CreateJob(draft, now);
        if f.schedule.signal.Fine? && reply.Ok? {
          r := Got(reply.value.0, reply.value.1);
        }
      }
    }

    /**
     `schedule_ai_job`: reserve, run the optional command, create or reuse the row, and refund unless a new
     row took the reservation over. The slack of the account moves by the reservation minus one reservation
     for each of the two ways of giving it up: a new row, and a refund. No other row or account changes, whatever
     the books were.
     */
    method ScheduleAiJob(a: Account, units: nat, draft: Ledger.Draft, now: int, f: Faults) returns (r: Outcome)
      requires draft.user == Some(a.user) && draft.quotaKind == Some(a.kind) && draft.reserved == units
      modifies this
      ensures r.Refused? <==>
        units != 0 && Ledger.Usage(old(Snapshot()), a) + units > Ledger.Limit(old(Snapshot()), a)
      ensures r.Refused? ==> Snapshot() == old(Snapshot())
      ensures !r.Refused? ==>
        var (made, reply) := Ledger.CreateJob(old(Snapshot()), draft, now);
        && jobs == (if f.before.Fine? && f.schedule.applied then made.jobs else old(jobs))
        && Moved(old(Snapshot()), Snapshot(), a, Drift(f, reply, units))
        && (r.Scheduled? <==>
              && f.before.Fine? && f.schedule.signal.Fine? && reply.Ok? && (reply.value.1 || f.refund.signal.Fine?))
        && (r.Unwound? <==>
              || f.before.Canceled? || (f.before.Fine? && f.schedule.signal.Canceled?)
              || (RefundDue(f, reply) && f.refund.signal.Canceled?))
      ensures r.Scheduled? ==> IsScheduled(old(jobs), jobs, draft, now, r)
    {
      ghost var before := Snapshot();
      var ok := TryReserve(a, units);
      r := Refused;
      if ok {
        ghost var held := Snapshot();
        ReserveMoves(before, a, units);
        CreateReply(held, draft, now);
        r := ScheduleReserved(a, units, draft, now, f);
        CreateIgnoresUsage(before, held, draft, now);
        OutcomeTells(before, draft, now, f);
        MovesCompose(before, held, Snapshot(), a, units, Drift(f, Ledger.CreateJob(held, draft, now).1, units) - units);
      }
    }

    // `schedule_ai_job` after the reservation: the `try`, its handler, and the refund of a reused row.
    method ScheduleReserved(a: Account, units: nat, draft: Ledger.Draft, now: int, f: Faults) returns (r: Outcome)
      requires draft.user == Some(a.user) && draft.quotaKind == Some(a.kind) && draft.reserved == units
      requires Ledger.Usage(Snapshot(), a) >= units
      modifies this
      ensures var reply := Ledger.CreateJob(old(Snapshot()), draft, now).1;
        && r == ScheduleOutcome(f, reply)
        && jobs == (if f.before.Fine? && f.schedule.applied then Ledger.CreateJob(old(Snapshot()), draft, now).0.jobs
                    else old(jobs))
        && Moved(old(Snapshot()), Snapshot(), a, Drift(f, reply, units) - units)
    {
      ghost var held := Snapshot();
      ghost var reply := Ledger.CreateJob(held, draft, now).1;
      CreateReply(held, draft, now);
      var attempt := Attempt(draft, now, f);
      assert Moved(held, Snapshot(), a, if RowAdded(f, reply) then 0 - units else 0) by {
        CreateMoves(held, draft, now, a);
      }
      r := if attempt.Got? then Scheduled(attempt.id, attempt.created) else if attempt.Threw? then Raised else Unwound;
      if attempt.Threw? || (attempt.Got? && !attempt.created) {
        ghost var left := Snapshot();
        var gone := Compensate(a, units, f.refund);
        MovesCompose(held, left, Snapshot(), a, if RowAdded(f, reply) then 0 - units else 0,
          if f.refund.applied then 0 - units else 0);
        r := if gone.Some? then gone.value else r;
      }
    }

    // `await refund()`: returns the outcome that replaces the caller's when the refund does not come back.
    method Compensate(a: Account, units: nat, call: Call) returns (gone: Option<Outcome>)
      requires Ledger.Usage(Snapshot(), a) >= units
      modifies `usage
      ensures Moved(old(Snapshot()), Snapshot(), a, if call.applied then 0 - units else 0)
      ensures gone == if call.signal.Fine? then None else if call.signal.Raises? then Some(Raised) else Some(Unwound)
    {
      if call.applied {
        ghost var before := Snapshot();
        var given := Refund(a, units);
        forall b ensures Ledger.Slack(Snapshot(), b) == Ledger.Slack(before, b) + (if b == a then 0 - units else 0) {
          Ledger.RefundSlack(before, a, units, b);
        }
      }
      gone := match call.signal case Fine => None case Raises => Some(Raised) case Canceled => Some(Unwound);
    }

    // A refund of one unit to `user`, if there is one; the counter may already be empty.
    method RefundUnit(user: Option<nat>, call: Call)
      modifies `usage
      ensures Moved(old(Snapshot()), Snapshot(), CodexAccount(user), 0 - UnitGiven(old(Snapshot()), user, call))
      ensures user.None? || !call.applied ==> Snapshot() == old(Snapshot())
      ensures Ledger.Usage(Snapshot(), CodexAccount(user))
        == Ledger.Usage(old(Snapshot()), CodexAccount(user)) - UnitGiven(old(Snapshot()), user, call)
    {
      if user.Some? && call.applied {
        ghost var before := Snapshot();
        var _ := Refund(CodexAccount(user), 1);
        RefundMoves(before, CodexAccount(user), 1);
      }
    }

    // The `try` of `schedule_codex`: create or reuse the row, and give the unit back if it was reused.
    method CodexTry(user: Option<nat>, draft: Ledger.Draft, now: int, schedule: Call, first: Call) returns (t: Tried)
      requires draft.user == user && draft.quotaKind == Some(CodexBuilds)
      requires draft.reserved == if user.Some? then 1 else 0
      modifies this
      ensures var reply := Ledger.CreateJob(old(Snapshot()), draft, now).1;
        && t == CodexTried(user, reply, schedule, first)
        && jobs == (if schedule.applied then Ledger.CreateJob(old(Snapshot()), draft, now).0.jobs else old(jobs))
        && (t.Kept? ==> t.id < |jobs| && Active(jobs[t.id]))
        && var given := FirstGiven(user, reply, schedule, first, Ledger.Usage(old(Snapshot()), CodexAccount(user)));
           && Ledger.Usage(Snapshot(), CodexAccount(user)) == Ledger.Usage(old(Snapshot()), CodexAccount(user)) - given
           && Moved(old(Snapshot()), Snapshot(), CodexAccount(user), 0 - RowUnit(user, reply, schedule) - given)
    {
      ghost var before, a := Snapshot(), CodexAccount(user);
      CreateReply(before, draft, now);
      CodexCreateMoves(before, draft, now, user);
      var answer := None;
      if schedule.applied {
        var got := CreateJob(draft, now);
        answer := if got.Ok? then Some(got.value) else None;
      }
      if schedule.signal.Canceled? {
        return Gone;
      }
      if schedule.signal.Raises? || answer.None? {
        return Thrown;
      }
      t := Kept(answer.value.0, answer.value.1);
      if !answer.value.1 {
        ghost var created := Snapshot();
        RefundUnit(user, first);
        MovesCompose(before, created, Snapshot(), a,
          0 - RowUnit(user, Ledger.CreateJob(before, draft, now).1, schedule),
          0 - UnitGiven(created, user, first));
        t := if user.None? || first.signal.Fine? then t else if first.signal.Canceled? then Gone else Thrown;
      }
    }

    /**
     `schedule_codex`, entered with one unit already reserved for `user` (if there is one). A refund that
     raises inside the `try` is attempted again by the handler. The account's slack moves by one for a new row
     and by one for each refund that found something to give; no other account's moves.
     */
    method ScheduleCodex(user: Option<nat>, draft: Ledger.Draft, now: int, schedule: Call, first: Call, second: Call)
      returns (r: Outcome)
      requires draft.user == user && draft.quotaKind == Some(CodexBuilds)
      requires draft.reserved == if user.Some? then 1 else 0
      modifies this
      ensures var (made, reply) := Ledger.CreateJob(old(Snapshot()), draft, now);
        && jobs == (if schedule.applied then made.jobs else old(jobs))
        && (r.Scheduled? <==>
              schedule.signal.Fine? && reply.Ok? && (reply.value.1 || user.None? || first.signal.Fine?))
        && (r.Unwound? <==>
              || schedule.signal.Canceled?
              || (Reuses(reply, schedule) && user.Some? && first.signal.Canceled?)
              || (HandlerRefunds(user, reply, schedule, first) && second.signal.Canceled?))
        && !r.Refused?
        && Moved(old(Snapshot()), Snapshot(), CodexAccount(user),
             CodexDrift(user, reply, schedule, first, second, Ledger.Usage(old(Snapshot()), CodexAccount(user))))
      ensures r.Scheduled? ==> IsScheduled(old(jobs), jobs, draft, now, r)
    {
      CodexTells(Snapshot(), draft, now, user, schedule, first);
      ghost var before, a := Snapshot(), CodexAccount(user);
      ghost var reply := Ledger.CreateJob(before, draft, now).1;
      var t := CodexTry(user, draft, now, schedule, first);
      if t.Kept? {
        return Scheduled(t.id, t.created);
      }
      if t.Gone? {
        return Unwound;
      }
      ghost var middle := Snapshot();
      RefundUnit(user, second);
      MovesCompose(before, middle, Snapshot(), a,
        0 - RowUnit(user, reply, schedule) - FirstGiven(user, reply, schedule, first, Ledger.Usage(before, a)),
        0 - UnitGiven(middle, user, second));
      r := if user.Some? && second.signal.Canceled? then Unwound else Raised;
    }
  }

  // Without a user there is nobody to refund; the account then stands for none.
  function CodexAccount(user: Option<nat>): Account {
    Account(if user.Some? then user.value else 0, CodexBuilds)
  }

  function UnitGiven(db: Ledger.Db, user: Option<nat>, call: Call): nat {
    if user.Some? && call.applied then Min(1, Ledger.Usage(db, CodexAccount(user))) else 0
  }

  predicate CodexRow(reply: Reply, schedule: Call) {
    schedule.applied && reply.Ok? && reply.value.1
  }

  // The refund inside the `try` is reached: an active row was reused.
  predicate Reuses(reply: Reply, schedule: Call) {
    schedule.signal.Fine? && reply.Ok? && !reply.value.1
  }

  // How the `try` ends: with the row, with an exception for the handler, or by cancellation.
  datatype Tried = Kept(id: nat, created: bool) | Thrown | Gone

  function CodexTried(user: Option<nat>, reply: Reply, schedule: Call, first: Call): Tried {
    if schedule.signal.Canceled? then Gone
    else if schedule.signal.Raises? || reply.Err? then Thrown
    else if reply.value.1 || user.None? || first.signal.Fine? then Kept(reply.value.0, reply.value.1)
    else if first.signal.Canceled? then Gone
    else Thrown
  }

  // The refund in the handler is reached: scheduling raised, creation refused, or the refund in the `try` raised.
  predicate HandlerRefunds(user: Option<nat>, reply: Reply, schedule: Call, first: Call) {
    && user.Some?
    && (|| schedule.signal.Raises? || (schedule.signal.Fine? && reply.Err?)
        || (Reuses(reply, schedule) && first.signal.Raises?))
  }

  // How the `try` ends, and which job it is then about
  lemma CodexTells(db: Ledger.Db, draft: Ledger.Draft, now: int, user: Option<nat>, schedule: Call, first: Call)
    ensures var (made, reply) := Ledger.CreateJob(db, draft, now);
      var t := CodexTried(user, reply, schedule, first);
      && (t.Kept? <==> schedule.signal.Fine? && reply.Ok? && (reply.value.1 || user.None? || first.signal.Fine?))
      && (t.Gone? <==>
            schedule.signal.Canceled? || (Reuses(reply, schedule) && user.Some? && first.signal.Canceled?))
      && (t.Thrown? && user.Some? <==> HandlerRefunds(user, reply, schedule, first))
      && (t.Kept? ==> schedule.applied && IsScheduled(db.jobs, made.jobs, draft, now, Scheduled(t.id, t.created)))
  {
    Ledger.CreateIff(db, draft, now);
  }

  function RowUnit(user: Option<nat>, reply: Reply, schedule: Call): nat {
    if CodexRow(reply, schedule) && user.Some? then 1 else 0
  }

  // What the refund inside the `try` gives back; `used` is the counter before the call, the held unit included.
  function FirstGiven(user: Option<nat>, reply: Reply, schedule: Call, first: Call, used: nat): nat {
    if Reuses(reply, schedule) && user.Some? && first.applied then Min(1, used) else 0
  }

  function CodexDrift(user: Option<nat>, reply: Reply, schedule: Call, first: Call, second: Call, used: nat): int {
    var given := FirstGiven(user, reply, schedule, first, used);
    var again := if CodexTried(user, reply, schedule, first).Thrown? && user.Some? && second.applied
                 then Min(1, used - given) else 0;
    0 - RowUnit(user, reply, schedule) - given - again
  }

  predicate Refunds(s: Option<Ledger.Settlement>) {
    s.Some? && s.value.quotaKind.Some? && s.value.user.Some? && s.value.refundable > 0
  }

  predicate RowAdded(f: Faults, reply: Reply) {
    f.before.Fine? && f.schedule.applied && reply.Ok? && reply.value.1
  }

  // How the `try` block ends; `except Exception` sees what was thrown, not a cancellation.
  function AttemptOutcome(f: Faults, reply: Reply): Attempted {
    if f.before.Canceled? then Died
    else if f.before.Raises? then Threw
    else if f.schedule.signal.Canceled? then Died
    else if f.schedule.signal.Fine? && reply.Ok? then Got(reply.value.0, reply.value.1)
    else Threw
  }

  // The refund is reached: the command or the scheduling raised, creation refused, or a row was reused.
  predicate RefundDue(f: Faults, reply: Reply) {
    || f.before.Raises?
    || (f.before.Fine? && f.schedule.signal.Raises?)
    || (f.before.Fine? && f.schedule.signal.Fine? && (reply.Err? || !reply.value.1))
  }

  // What the caller sees: a refund that does not come back replaces the reply or the exception.
  function ScheduleOutcome(f: Faults, reply: Reply): Outcome {
    match AttemptOutcome(f, reply)
    case Died => Unwound
    case Got(id, created) =>
      if created || f.refund.signal.Fine? then Scheduled(id, created)
      else if f.refund.signal.Raises? then Raised else Unwound
    case Threw => if f.refund.signal.Canceled? then Unwound else Raised
  }

  lemma CreateIgnoresUsage(db: Ledger.Db, held: Ledger.Db, draft: Ledger.Draft, now: int)
    requires held.jobs == db.jobs
    ensures Ledger.CreateJob(held, draft, now).1 == Ledger.CreateJob(db, draft, now).1
    ensures Ledger.CreateJob(held, draft, now).0.jobs == Ledger.CreateJob(db, draft, now).0.jobs
  {}

  // When the caller gets a job, and which, and when its cancellation; otherwise it gets an exception.
  lemma OutcomeTells(db: Ledger.Db, draft: Ledger.Draft, now: int, f: Faults)
    ensures var (made, reply) := Ledger.CreateJob(db, draft, now);
      var r := ScheduleOutcome(f, reply);
      && !r.Refused?
      && (r.Scheduled? <==>
            && f.before.Fine? && f.schedule.signal.Fine? && reply.Ok? && (reply.value.1 || f.refund.signal.Fine?))
      && (r.Unwound? <==>
            || f.before.Canceled? || (f.before.Fine? && f.schedule.signal.Canceled?)
            || (RefundDue(f, reply) && f.refund.signal.Canceled?))
      && (r.Scheduled? ==> IsScheduled(db.jobs, made.jobs, draft, now, r))
  {
    Ledger.CreateIff(db, draft, now);
  }

  // The job the caller gets: the one fresh row, or an oldest unended one with the draft's kind and key
  predicate IsScheduled(was: seq<Job>, jobs: seq<Job>, draft: Ledger.Draft, now: int, r: Outcome)
    requires r.Scheduled?
  {
    && r.id < |jobs| && Active(jobs[r.id])
    && if r.created then r.id == |was| && Ledger.AddsFresh(was, jobs, draft, now)
       else jobs == was && Ledger.IsOldestLike(jobs, draft, r.id)
  }

  predicate RefundRan(f: Faults, reply: Reply) {
    f.refund.applied &&
    match AttemptOutcome(f, reply)
    case Threw => true
    case Died => false
    case Got(_, created) => !created
  }

  // How far the account's slack moves over one call.
  function Drift(f: Faults, reply: Reply, units: nat): int {
    units - (if RowAdded(f, reply) then units else 0) - (if RefundRan(f, reply) then units else 0)
  }

  // From one state to another, the slack of `a` moves by `delta` and no other account's does.
  ghost predicate Moved(db: Ledger.Db, db': Ledger.Db, a: Account, delta: int) {
    forall b :: Ledger.Slack(db', b) == Ledger.Slack(db, b) + (if b == a then delta else 0)
  }

  lemma ReserveMoves(db: Ledger.Db, a: Account, units: nat)
    ensures var (db', ok) := Ledger.TryReserve(db, a, units); Moved(db, db', a, if ok then units else 0)
  {
    forall b { Ledger.ReserveSlack(db, a, units, b); }
  }

  lemma CreateMoves(db: Ledger.Db, d: Ledger.Draft, now: int, a: Account)
    requires d.quotaKind.Some? && d.user == Some(a.user) && d.quotaKind == Some(a.kind)
    ensures var (db', r) := Ledger.CreateJob(db, d, now);
      Moved(db, db', a, if r.Ok? && r.value.1 then 0 - d.reserved else 0)
  {
    var (db', r) := Ledger.CreateJob(db, d, now);
    forall b ensures Ledger.Slack(db', b) == Ledger.Slack(db, b) +
        (if b == a then if r.Ok? && r.value.1 then 0 - d.reserved else 0 else 0) {
      Ledger.CreateSlack(db, d, now, b);
    }
  }

  lemma RefundMoves(db: Ledger.Db, a: Account, units: nat)
    ensures var (db', given) := Ledger.Refund(db, a, units);
      Moved(db, db', a, 0 - given) && Ledger.Usage(db', a) == Ledger.Usage(db, a) - given
  {
    var (db', given) := Ledger.Refund(db, a, units);
    forall b ensures Ledger.Slack(db', b) == Ledger.Slack(db, b) + (if b == a then 0 - given else 0) {
      Ledger.RefundSlack(db, a, units, b);
    }
  }

  lemma CodexCreateMoves(db: Ledger.Db, d: Ledger.Draft, now: int, user: Option<nat>)
    requires d.user == user && d.quotaKind == Some(CodexBuilds) && (d.reserved == if user.Some? then 1 else 0)
    ensures var (db', r) := Ledger.CreateJob(db, d, now);
      Moved(db, db', CodexAccount(user), if r.Ok? && r.value.1 then 0 - d.reserved else 0)
  {
    var (db', r) := Ledger.CreateJob(db, d, now);
    forall b ensures Ledger.Slack(db', b) == Ledger.Slack(db, b) +
        (if b == CodexAccount(user) then if r.Ok? && r.value.1 then 0 - d.reserved else 0 else 0) {
      Ledger.CreateSlack(db, d, now, b);
    }
  }

  lemma MovesCompose(db: Ledger.Db, db1: Ledger.Db, db2: Ledger.Db, a: Account, x: int, y: int)
    requires Moved(db, db1, a, x) && Moved(db1, db2, a, y)
    ensures Moved(db, db2, a, x + y)
  {}

  lemma CreateReply(db: Ledger.Db, d: Ledger.Draft, now: int)
    ensures var (db', r) := Ledger.CreateJob(db, d, now);
      && db'.usage == db.usage && db'.limits == db.limits
      && |db'.jobs| == |db.jobs| + (if r.Ok? && r.value.1 then 1 else 0)
      && (r.Ok? ==> r.value.0 < |db'.jobs| && Active(db'.jobs[r.value.0]))
      && (r.Ok? && !r.value.1 ==>
            d.key.Some? && r.value.0 < |db.jobs| && Ledger.Matches(db.jobs[r.value.0], d.kind, d.key.value))
  {}

  // The fault patterns under which exactly one of row and refund takes the reservation over.
  predicate ReleasesOnce(f: Faults, reply: Reply) {
    if f.before.Canceled? then false
    else if RowAdded(f, reply) then !(f.schedule.signal.Raises? && f.refund.applied)
    else f.refund.applied && !(f.before.Fine? && f.schedule.signal.Canceled?)
  }

  predicate Uncanceled(f: Faults) {
    !f.before.Canceled? && !f.schedule.signal.Canceled?
  }

  /**
   `schedule_ai_job` leaves the account's books as it found them exactly when the reservation is released
   once. In particular it does whenever nothing is canceled, the refund succeeds, and scheduling only raises
   when it created no row.
   */
  lemma ScheduleConserves(f: Faults, reply: Reply, units: nat)
    requires units > 0
    ensures Drift(f, reply, units) == 0 <==> ReleasesOnce(f, reply)
    ensures Drift(f, reply, units) ==
      units - (if RowAdded(f, reply) then units else 0) - (if RefundDue(f, reply) && f.refund.applied then units else 0)
    ensures Uncanceled(f) && f.refund.applied && (f.schedule.signal.Raises? ==> !f.schedule.applied)
      ==> ReleasesOnce(f, reply)
  {}

  /** A crash or cancellation after the reservation strands it: one unit charged to no job. */
  lemma CancellationStrandsExample(reply: Reply)
    ensures var f := Faults(Signal.Canceled, Await(true, Fine), Await(true, Fine));
      !RowAdded(f, reply) && !RefundRan(f, reply) && !ReleasesOnce(f, reply)
  {}

  predicate CodexReleasesOnce(reply: Reply, schedule: Call, first: Call, second: Call, used: nat) {
    if CodexRow(reply, schedule) then !(schedule.signal.Raises? && second.applied)
    else if schedule.signal.Canceled? then false
    else if Reuses(reply, schedule) then
      if first.applied then !(first.signal.Raises? && second.applied && used > 1)
      else first.signal.Raises? && second.applied
    else second.applied
  }

  /** `schedule_codex` gives up the unit it holds once, by row or by refund, exactly under these faults. */
  lemma CodexConserves(user: nat, reply: Reply, schedule: Call, first: Call, second: Call, used: nat)
    requires used >= 1
    ensures CodexDrift(Some(user), reply, schedule, first, second, used) == 0 - 1 <==>
      CodexReleasesOnce(reply, schedule, first, second, used)
    ensures var inTry := Reuses(reply, schedule) && first.applied;
      var inHandler := HandlerRefunds(Some(user), reply, schedule, first) && second.applied;
      CodexDrift(Some(user), reply, schedule, first, second, used) ==
        0 - (if CodexRow(reply, schedule) then 1 else 0)
          - (if inTry && inHandler then Min(2, used) else if inTry || inHandler then 1 else 0)
    ensures CodexDrift(None, reply, schedule, first, second, used) == 0
  {}

  /**
   With the arguments `schedule_codex` passes - no idempotency key - creation never reuses a row, so the
   refund inside the `try` is never reached.
   */
  lemma KeylessCreationIsAlwaysNew(db: Ledger.Db, d: Ledger.Draft, now: int)
    requires d.key.None?
    ensures var r := Ledger.CreateJob(db, d, now).1; r.Ok? ==> r.value == (|db.jobs|, true)
  {}
}
