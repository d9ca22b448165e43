/**
 Runs of the whole quota and job protocol: any number of scheduling requests, workers and recovery passes,
 interleaved transaction by transaction. A request between its reservation and its job row is a `Hold`; a
 request that crashes or is canceled simply never takes another step.
 */
module JobRuns {
  import opened Prelude
  import opened JobRows
  import opened QuotaLedger

  datatype Hold = Hold(account: Account, units: nat, open: bool)

  datatype World = World(db: Db, holds: seq<Hold>)

  datatype Event =
    | Reserve(account: Account, units: nat)
    | Release(call: nat)
    | LateRelease(call: nat)
    | Schedule(call: nat, draft: Draft)
    | ScheduleUnreserved(draft: Draft)
    | Consume(id: nat, units: nat)
    | Finalize(id: nat, success: bool)
    | Row(id: nat, step: RowStep)

  datatype Output =
    | Quiet
    | Refunded(units: nat)
    | Created(id: nat, isNew: bool)
    | Settling(settlement: Option<Settlement>, given: nat)
    | Advanced

  function HoldUnits(h: Hold, a: Account): nat {
    if h.open && h.account == a then h.units else 0
  }

  function Held(holds: seq<Hold>, a: Account): nat {
    if holds == [] then 0 else Held(holds[..|holds| - 1], a) + HoldUnits(holds[|holds| - 1], a)
  }

  lemma HeldAppend(holds: seq<Hold>, h: Hold, a: Account)
    ensures Held(holds + [h], a) == Held(holds, a) + HoldUnits(h, a)
  {
    assert (holds + [h])[..|holds|] == holds;
  }

  lemma {:induction false} HeldUpdate(holds: seq<Hold>, i: nat, h: Hold, a: Account)
    requires i < |holds|
    ensures Held(holds[i := h], a) == Held(holds, a) - HoldUnits(holds[i], a) + HoldUnits(h, a)
  {
    var n := |holds| - 1;
    if i == n {
      assert holds[i := h][..n] == holds[..n];
    } else {
      assert holds[i := h][..n] == holds[..n][i := h];
      HeldUpdate(holds[..n], i, h, a);
    }
  }

  lemma {:induction false} HoldWithinHeld(holds: seq<Hold>, i: nat, a: Account)
    requires i < |holds|
    ensures HoldUnits(holds[i], a) <= Held(holds, a)
  {
    var n := |holds| - 1;
    if i < n {
      HoldWithinHeld(holds[..n], i, a);
    }
  }

  // The row a request asks for records exactly what that request reserved.
  function DraftFor(h: Hold, d: Draft): Draft {
    d.(user := Some(h.account.user), quotaKind := Some(h.account.kind), reserved := h.units)
  }

  function Close(w: World, call: nat): World
    requires call < |w.holds|
  {
    w.(holds := w.holds[call := w.holds[call].(open := false)])
  }

  function Opened(w: World, call: nat): bool {
    call < |w.holds| && w.holds[call].open
  }

  /** One transaction of one participant, at database time `now`. */
  function Step(w: World, e: Event, now: int): (World, Output) {
    match e
    case Reserve(account, units) =>
      var (db, ok) := TryReserve(w.db, account, units);
      if ok then (World(db, w.holds + [Hold(account, units, true)]), Quiet) else (w, Quiet)
    case Release(call) =>
      if !Opened(w, call) then (w, Quiet)
      else
        var (db, given) := Refund(w.db, w.holds[call].account, w.holds[call].units);
        (Close(w.(db := db), call), Refunded(given))
    case LateRelease(call) =>
      // A refund for a hold that was given up before: its row was created, or it was refunded.
      if call >= |w.holds| || w.holds[call].open then (w, Quiet)
      else
        var (db, given) := Refund(w.db, w.holds[call].account, w.holds[call].units);
        (w.(db := db), Refunded(given))
    case Schedule(call, draft) =>
      if !Opened(w, call) then (w, Quiet)
      else
        var (db, r) := CreateJob(w.db, DraftFor(w.holds[call], draft), now);
        if r.Err? then (w, Quiet)
        else if r.value.1 then (Close(w.(db := db), call), Created(r.value.0, true))
        else (w, Created(r.value.0, false))
    case ScheduleUnreserved(draft) =>
      var (db, r) := CreateJob(w.db, draft.(quotaKind := None, reserved := 0), now);
      if r.Err? then (w, Quiet) else (w.(db := db), Created(r.value.0, r.value.1))
    case Consume(id, units) =>
      var db := Increment(w.db, id, units, now);
      if db.None? then (w, Quiet) else (w.(db := db.value), Quiet)
    case Finalize(id, success) =>
      var (db, s, given) := FinalizeJobQuota(w.db, id, success, now);
      (w.(db := db), Settling(s, given))
    case Row(id, step) =>
      var db := AdvanceJob(w.db, id, step, now);
      if db.None? then (w, Quiet) else (w.(db := db.value), Advanced)
  }

  // A run: events paired with the times at which they take effect.
  type Trace = seq<(Event, int)>

  function Run(w: World, es: Trace): World
    decreases |es|
  {
    if es == [] then w else Run(Step(w, es[0].0, es[0].1).0, es[1..])
  }

  /**
   A request that schedules gets a fresh row for the account and the units it holds, and holds them no longer; a
   reused row or a refusal leaves it holding them. What was not reserved is scheduled without a quota.
   */
  lemma SchedulesWhatIsHeld(w: World, call: nat, draft: Draft, now: int)
    requires Opened(w, call)
    ensures var h := w.holds[call];
      var asked := draft.(user := Some(h.account.user), quotaKind := Some(h.account.kind), reserved := h.units);
      var (w', o) := Step(w, Schedule(call, draft), now);
      var (db, r) := CreateJob(w.db, asked, now);
      && w'.db == db && |w'.holds| == |w.holds|
      && (forall i | 0 <= i < |w.holds| :: w'.holds[i] ==
            if i == call && r.Ok? && r.value.1 then Hold(h.account, h.units, false) else w.holds[i])
      && o == (if r.Ok? then Created(r.value.0, r.value.1) else Quiet)
    ensures var asked := draft.(quotaKind := None, reserved := 0);
      var (w', o) := Step(w, ScheduleUnreserved(draft), now);
      var (db, r) := CreateJob(w.db, asked, now);
      && w'.db == db && w'.holds == w.holds && o == (if r.Ok? then Created(r.value.0, r.value.1) else Quiet)
  {
    CreateIff(w.db, DraftFor(w.holds[call], draft), now);
    CreateIff(w.db, draft.(quotaKind := None, reserved := 0), now);
  }

  // ----- the books -----------------------------------------------------------------------------------

  // Usage, minus what open requests hold, minus what job rows hold
  function Books(w: World, a: Account): int {
    Slack(w.db, a) - Held(w.holds, a)
  }

  predicate WithinReservations(w: World) {
    forall i | 0 <= i < |w.db.jobs| :: w.db.jobs[i].consumed <= w.db.jobs[i].reserved
  }

  // How far one step moves the books: down by a late refund, up by what a refund owed and the counter lacked.
  function Leak(w: World, e: Event, now: int, a: Account): int {
    match e
    case LateRelease(call) =>
      if call < |w.holds| && !w.holds[call].open && w.holds[call].account == a then 0 - Step(w, e, now).1.units else 0
    case Release(call) =>
      if Opened(w, call) && w.holds[call].account == a then w.holds[call].units - Step(w, e, now).1.units else 0
    case Finalize(id, _) =>
      var settled := Step(w, e, now).1;
      if settled.settlement.Some? && id < |w.db.jobs| && Owns(w.db.jobs[id], a)
        then settled.settlement.value.refundable - settled.given else 0
    case _ => 0
  }

  lemma ReserveBooks(w: World, account: Account, units: nat, now: int, a: Account)
    ensures Books(Step(w, Reserve(account, units), now).0, a) == Books(w, a)
  {
    ReserveSlack(w.db, account, units, a);
    HeldAppend(w.holds, Hold(account, units, true), a);
  }

  lemma ReleaseBooks(w: World, call: nat, now: int, a: Account)
    ensures var e := Release(call); Books(Step(w, e, now).0, a) == Books(w, a) + Leak(w, e, now, a)
  {
    if Opened(w, call) {
      RefundSlack(w.db, w.holds[call].account, w.holds[call].units, a);
      HeldUpdate(w.holds, call, w.holds[call].(open := false), a);
    }
  }

  lemma LateReleaseBooks(w: World, call: nat, now: int, a: Account)
    ensures var e := LateRelease(call); Books(Step(w, e, now).0, a) == Books(w, a) + Leak(w, e, now, a)
  {
    if call < |w.holds| && !w.holds[call].open {
      RefundSlack(w.db, w.holds[call].account, w.holds[call].units, a);
    }
  }

  lemma ScheduleBooks(w: World, e: Event, now: int, a: Account)
    requires e.Schedule? || e.ScheduleUnreserved?
    ensures Books(Step(w, e, now).0, a) == Books(w, a)
  {
    if e.Schedule? && Opened(w, e.call) {
      CreateSlack(w.db, DraftFor(w.holds[e.call], e.draft), now, a);
      HeldUpdate(w.holds, e.call, w.holds[e.call].(open := false), a);
    } else if e.ScheduleUnreserved? {
      CreateSlack(w.db, e.draft.(quotaKind := None, reserved := 0), now, a);
    }
  }

  lemma WorkBooks(w: World, e: Event, now: int, a: Account)
    requires WithinReservations(w) && (e.Consume? || e.Finalize? || e.Row?)
    ensures Books(Step(w, e, now).0, a) == Books(w, a) + Leak(w, e, now, a)
  {
    if e.Finalize? {
      FinalizeMoves(w.db, e.id, e.success, now, a);
    } else if e.Consume? && Increment(w.db, e.id, e.units, now).Some? {
      IncrementSlack(w.db, e.id, e.units, now, a);
    } else if e.Row? && AdvanceJob(w.db, e.id, e.step, now).Some? {
      AdvanceSlack(w.db, e.id, e.step, now, a);
    }
  }

  // Each step moves the books by its leak and by nothing else.
  lemma StepBooks(w: World, e: Event, now: int, a: Account)
    requires WithinReservations(w)
    ensures Books(Step(w, e, now).0, a) == Books(w, a) + Leak(w, e, now, a)
  {
    match e
    case Reserve(account, units) => ReserveBooks(w, account, units, now, a);
    case Release(call) => ReleaseBooks(w, call, now, a);
    case LateRelease(call) => LateReleaseBooks(w, call, now, a);
    case Schedule(_, _) => ScheduleBooks(w, e, now, a);
    case ScheduleUnreserved(_) => ScheduleBooks(w, e, now, a);
    case _ => WorkBooks(w, e, now, a);
  }

  // A leak is never upward of an empty counter: what a refund could not give, nobody was charged.
  lemma LeakSign(w: World, e: Event, now: int, a: Account)
    requires WithinReservations(w)
    ensures if e.LateRelease? then Leak(w, e, now, a) <= 0 else Leak(w, e, now, a) >= 0
    ensures Leak(w, e, now, a) > 0 ==> Usage(Step(w, e, now).0.db, a) == 0
  {
    if e.Finalize? {
      FinalizeMoves(w.db, e.id, e.success, now, a);
    }
  }

  lemma StepKeepsReservations(w: World, e: Event, now: int)
    requires WithinReservations(w)
    ensures WithinReservations(Step(w, e, now).0)
  {
    if e.Row? && AdvanceJob(w.db, e.id, e.step, now).Some? {
      AdvanceFrame(w.db.jobs[e.id], e.step, now);
    }
  }

  lemma StepKeepsLimit(w: World, e: Event, now: int, a: Account)
    requires Usage(w.db, a) <= Limit(w.db, a)
    ensures Usage(Step(w, e, now).0.db, a) <= Limit(Step(w, e, now).0.db, a)
  {}

  lemma StepKeepsOneActive(w: World, e: Event, now: int)
    requires OneActivePerKey(w.db.jobs)
    ensures OneActivePerKey(Step(w, e, now).0.db.jobs)
  {
    if e.Schedule? && Opened(w, e.call) {
      CreateKeepsOneActive(w.db, DraftFor(w.holds[e.call], e.draft), now);
    } else if e.ScheduleUnreserved? {
      CreateKeepsOneActive(w.db, e.draft.(quotaKind := None, reserved := 0), now);
    } else if e.Row? && AdvanceJob(w.db, e.id, e.step, now).Some? {
      AdvanceKeepsOneActive(w.db, e.id, e.step, now);
    }
  }

  // ----- conservation --------------------------------------------------------------------------------

  // Usage is what open requests hold plus what job rows hold, and never exceeds the limit.
  ghost predicate Balanced(w: World) {
    && (forall a :: Books(w, a) == 0 && Usage(w.db, a) <= Limit(w.db, a))
    && WithinReservations(w)
    && OneActivePerKey(w.db.jobs)
  }

  // While the books balance, every refund that is due can be given in full.
  lemma NoLeak(w: World, e: Event, now: int, a: Account)
    requires Balanced(w) && !e.LateRelease?
    ensures Leak(w, e, now, a) == 0
  {
    assert Books(w, a) == 0;
    if e.Release? && Opened(w, e.call) {
      HoldWithinHeld(w.holds, e.call, a);
    } else if e.Finalize? {
      assert Booked(w.db) by {
        assert forall b :: Books(w, b) == 0;
      }
      FinalizeSlack(w.db, e.id, e.success, now, a);
    }
  }

  lemma StepBalanced(w: World, e: Event, now: int)
    requires Balanced(w) && !e.LateRelease?
    ensures Balanced(Step(w, e, now).0)
  {
    var w' := Step(w, e, now).0;
    forall a ensures Books(w', a) == 0 && Usage(w'.db, a) <= Limit(w'.db, a) {
      assert Books(w, a) == 0;
      StepBooks(w, e, now, a);
      NoLeak(w, e, now, a);
      StepKeepsLimit(w, e, now, a);
    }
    StepKeepsReservations(w, e, now);
    StepKeepsOneActive(w, e, now);
  }

  predicate NeverLate(es: Trace) {
    forall i | 0 <= i < |es| :: !es[i].0.LateRelease?
  }

  lemma NeverLateTail(es: Trace)
    requires es != [] && NeverLate(es)
    ensures !es[0].0.LateRelease? && NeverLate(es[1..])
  {
    assert forall i | 0 <= i < |es[1..]| :: es[1..][i] == es[i + 1];
  }

  /**
   Quota conservation. After any run of reservations, refunds, schedules (new, deduplicated or failing),
   crashes, consumption, settlements and worker steps, every user's usage is what their requests in flight
   hold plus, over their jobs, units reserved minus units refunded; it stays within the limit; and no two
   active jobs share a key. The one thing left out is a refund for a hold already given up.
   */
  lemma {:induction false} Conservation(w: World, es: Trace)
    requires Balanced(w) && NeverLate(es)
    ensures Balanced(Run(w, es))
    decreases |es|
  {
    if es != [] {
      NeverLateTail(es);
      StepBalanced(w, es[0].0, es[0].1);
      Conservation(Step(w, es[0].0, es[0].1).0, es[1..]);
    }
  }

  // What late refunds gave back to an account over a run
  function LateGiven(w: World, es: Trace, a: Account): int
    decreases |es|
  {
    if es == [] then 0
    else
      (if es[0].0.LateRelease? then 0 - Leak(w, es[0].0, es[0].1, a) else 0)
      + LateGiven(Step(w, es[0].0, es[0].1).0, es[1..], a)
  }

  /**
   With late refunds - scheduling created the row and then raised, or a refund took effect, raised, and was
   repeated - a user is never charged for more than the requests and rows account for, and for less by at most
   what the late refunds gave. Settlements and limits are not affected.
   */
  lemma {:induction false} DriftIsLateRefunds(w: World, es: Trace, a: Account)
    requires WithinReservations(w) && Books(w, a) <= 0 && Usage(w.db, a) <= Limit(w.db, a)
    ensures Books(w, a) - LateGiven(w, es, a) <= Books(Run(w, es), a) <= 0 <= LateGiven(w, es, a)
    ensures WithinReservations(Run(w, es)) && Usage(Run(w, es).db, a) <= Limit(Run(w, es).db, a)
    decreases |es|
  {
    if es != [] {
      var (e, now) := es[0];
      StepBooks(w, e, now, a);
      LeakSign(w, e, now, a);
      StepKeepsReservations(w, e, now);
      StepKeepsLimit(w, e, now, a);
      DriftIsLateRefunds(Step(w, e, now).0, es[1..], a);
    }
  }

  // ----- exactly-once settlement ---------------------------------------------------------------------

  predicate SettlesNow(w: World, e: Event, now: int, id: nat) {
    e.Finalize? && e.id == id && Step(w, e, now).1.settlement.Some?
  }

  function Settlements(w: World, es: Trace, id: nat): nat
    decreases |es|
  {
    if es == [] then 0
    else
      (if SettlesNow(w, es[0].0, es[0].1, id) then 1 else 0) + Settlements(Step(w, es[0].0, es[0].1).0, es[1..], id)
  }

  // Units owed back for one job over a run, and units given back
  function OwedFor(w: World, es: Trace, id: nat): nat
    decreases |es|
  {
    if es == [] then 0
    else
      (if SettlesNow(w, es[0].0, es[0].1, id) then Step(w, es[0].0, es[0].1).1.settlement.value.refundable else 0) +
      OwedFor(Step(w, es[0].0, es[0].1).0, es[1..], id)
  }

  function RefundedFor(w: World, es: Trace, id: nat): nat
    decreases |es|
  {
    if es == [] then 0
    else
      (if SettlesNow(w, es[0].0, es[0].1, id) then Step(w, es[0].0, es[0].1).1.given else 0) +
      RefundedFor(Step(w, es[0].0, es[0].1).0, es[1..], id)
  }

  predicate AsksFor(e: Event, id: nat) {
    e.Finalize? && e.id == id
  }

  // No step removes a row, and only a settlement closes one.
  lemma StepKeepsRow(w: World, e: Event, now: int, id: nat)
    requires id < |w.db.jobs|
    ensures var (w', o) := Step(w, e, now);
      && id < |w'.db.jobs|
      && w'.db.jobs[id].finalized == (w.db.jobs[id].finalized || AsksFor(e, id))
      && w'.db.jobs[id].reserved == w.db.jobs[id].reserved
      && w'.db.jobs[id].user == w.db.jobs[id].user && w'.db.jobs[id].quotaKind == w.db.jobs[id].quotaKind
  {
    if e.Row? && AdvanceJob(w.db, e.id, e.step, now).Some? {
      AdvanceFrame(w.db.jobs[e.id], e.step, now);
    }
  }

  /**
   However finalize calls for a job are repeated and interleaved, exactly one of them obtains a settlement
   (none if the row was settled before the run), and the others see `None`.
   */
  lemma {:induction false} ExactlyOnce(w: World, es: Trace, id: nat)
    requires id < |w.db.jobs|
    ensures Settlements(w, es, id) ==
      if !w.db.jobs[id].finalized && (exists i :: 0 <= i < |es| && AsksFor(es[i].0, id)) then 1 else 0
    decreases |es|
  {
    if es != [] {
      StepKeepsRow(w, es[0].0, es[0].1, id);
      ExactlyOnce(Step(w, es[0].0, es[0].1).0, es[1..], id);
      assert forall i :: 0 <= i < |es[1..]| ==> es[1..][i] == es[i + 1];
      assert (exists i :: 0 <= i < |es| && AsksFor(es[i].0, id)) <==>
        AsksFor(es[0].0, id) || (exists i :: 0 <= i < |es[1..]| && AsksFor(es[1..][i].0, id)) by {
        if i :| 0 <= i < |es| && AsksFor(es[i].0, id) {
          assert i == 0 || AsksFor(es[1..][i - 1].0, id);
        }
      }
    }
  }

  // A step lowers what a job is charged exactly by what it owes back for it.
  lemma StepMovesCharge(w: World, e: Event, now: int, id: nat, a: Account)
    requires WithinReservations(w) && id < |w.db.jobs| && Owns(w.db.jobs[id], a)
    ensures id < |Step(w, e, now).0.db.jobs| && Owns(Step(w, e, now).0.db.jobs[id], a)
    ensures Charge(w.db.jobs[id], a) == Charge(Step(w, e, now).0.db.jobs[id], a)
      + if SettlesNow(w, e, now, id) then Step(w, e, now).1.settlement.value.refundable else 0
    ensures SettlesNow(w, e, now, id) ==>
      Step(w, e, now).1.settlement.value.refundable - Step(w, e, now).1.given == Leak(w, e, now, a) >= 0
  {
    StepKeepsRow(w, e, now, id);
    if e.Finalize? {
      FinalizeMoves(w.db, e.id, e.success, now, a);
    } else if e.Row? && AdvanceJob(w.db, e.id, e.step, now).Some? {
      AdvanceFrame(w.db.jobs[e.id], e.step, now);
    }
  }

  /**
   Over a whole run, what a job held at the start is what became due for it plus what it still holds, and no
   more than that is given back, so nothing is refunded twice. Without late refunds all of it is given back.
   */
  lemma {:induction false} RefundsBalanceCharge(w: World, es: Trace, id: nat, a: Account)
    requires WithinReservations(w) && id < |w.db.jobs| && Owns(w.db.jobs[id], a)
    ensures id < |Run(w, es).db.jobs|
    ensures Charge(w.db.jobs[id], a) == OwedFor(w, es, id) + Charge(Run(w, es).db.jobs[id], a)
    ensures RefundedFor(w, es, id) <= OwedFor(w, es, id)
    ensures Balanced(w) && NeverLate(es) ==> RefundedFor(w, es, id) == OwedFor(w, es, id)
    decreases |es|
  {
    if es != [] {
      var (e, now) := es[0];
      StepMovesCharge(w, e, now, id, a);
      StepKeepsReservations(w, e, now);
      RefundsBalanceCharge(Step(w, e, now).0, es[1..], id, a);
      if Balanced(w) && NeverLate(es) {
        NeverLateTail(es);
        NoLeak(w, e, now, a);
        StepBalanced(w, e, now);
      }
    }
  }

  // ----- claims per job ------------------------------------------------------------------------------

  predicate Claimed(w: World, e: Event, now: int, id: nat) {
    e.Row? && e.id == id && e.step.Claim? && Step(w, e, now).1.Advanced?
  }

  function Claims(w: World, es: Trace, id: nat): nat
    decreases |es|
  {
    if es == [] then 0
    else
      (if Claimed(w, es[0].0, es[0].1, id) then 1 else 0) +
      Claims(Step(w, es[0].0, es[0].1).0, es[1..], id)
  }

  // Updates that return a row with no attempts left to the queue (a park counts: its release is unconditional).
  predicate Overdraw(w: World, e: Event, now: int, id: nat)
    requires id < |w.db.jobs|
  {
    && e.Row? && e.id == id && (e.step.WaitForProvider? || e.step.RequeueStale?)
    && Step(w, e, now).1.Advanced?
    && w.db.jobs[id].attempts >= w.db.jobs[id].maxAttempts
  }

  function Overdraws(w: World, es: Trace, id: nat): nat
    requires id < |w.db.jobs|
    decreases |es|
  {
    if es == [] then 0
    else
      StepKeepsRow(w, es[0].0, es[0].1, id);
      (if Overdraw(w, es[0].0, es[0].1, id) then 1 else 0) + Overdraws(Step(w, es[0].0, es[0].1).0, es[1..], id)
  }

  predicate FallsBack(e: Event, id: nat) {
    e.Row? && e.id == id && e.step.FallbackToApi?
  }

  // A fallback that takes effect sets the attempts and their maximum anew, and the row can be claimed at once.
  predicate FellBack(w: World, e: Event, now: int, id: nat) {
    FallsBack(e, id) && Step(w, e, now).1.Advanced?
  }

  function Grant(newMax: nat): nat {
    if newMax == 0 then 1 else newMax
  }

  // The attempts that the fallbacks of a run grant
  function Granted(w: World, es: Trace, id: nat): nat
    decreases |es|
  {
    if es == [] then 0
    else
      (if FellBack(w, es[0].0, es[0].1, id) then Grant(es[0].0.step.newMax) else 0)
      + Granted(Step(w, es[0].0, es[0].1).0, es[1..], id)
  }

  predicate WithinBudget(j: Job, extra: nat) {
    && j.attempts <= j.maxAttempts + extra
    && (j.status.Queued? || j.status.WaitingProvider? ==> j.attempts < j.maxAttempts + extra)
  }

  lemma BudgetStep(w: World, e: Event, now: int, id: nat, extra: nat)
    requires id < |w.db.jobs| && WithinBudget(w.db.jobs[id], extra) && !FellBack(w, e, now, id)
    ensures id < |Step(w, e, now).0.db.jobs|
    ensures var j, j' := w.db.jobs[id], Step(w, e, now).0.db.jobs[id];
      && j'.attempts == j.attempts + (if Claimed(w, e, now, id) then 1 else 0)
      && WithinBudget(j', extra + (if Overdraw(w, e, now, id) then 1 else 0))
      && j'.maxAttempts == j.maxAttempts
  {
    StepKeepsRow(w, e, now, id);
    if e.Row? && e.id == id && AdvanceJob(w.db, id, e.step, now).Some? {
      AdvanceBudget(w.db.jobs[id], e.step, now, extra);
    } else if !(e.Row? && e.id == id) {
      OthersKeepAttempts(w, e, now, id);
    }
  }

  lemma AdvanceBudget(j: Job, s: RowStep, now: int, extra: nat)
    requires WithinBudget(j, extra) && !s.FallbackToApi? && Advance(j, s, now).Some?
    ensures var next := Advance(j, s, now).value;
      var parks := (s.WaitForProvider? || s.RequeueStale?) && j.attempts >= j.maxAttempts;
      && next.attempts == j.attempts + (if s.Claim? then 1 else 0) && next.maxAttempts == j.maxAttempts
      && WithinBudget(next, extra + if parks then 1 else 0)
  {}

  lemma OthersKeepAttempts(w: World, e: Event, now: int, id: nat)
    requires id < |w.db.jobs| && id < |Step(w, e, now).0.db.jobs| && !(e.Row? && e.id == id)
    ensures var j, j' := w.db.jobs[id], Step(w, e, now).0.db.jobs[id];
      j'.attempts == j.attempts && j'.maxAttempts == j.maxAttempts && j'.status == j.status
  {}

  /**
   Between fallbacks, a job is claimed exactly as often as its attempts grow, and that is at most
   `max_attempts` plus the number of times an exhausted row was parked or requeued.
   */
  lemma {:induction false} ClaimsAreBounded(w: World, es: Trace, id: nat, extra: nat)
    requires id < |w.db.jobs| && WithinBudget(w.db.jobs[id], extra)
    requires forall i :: 0 <= i < |es| ==> !FallsBack(es[i].0, id)
    ensures id < |Run(w, es).db.jobs|
    ensures var j := Run(w, es).db.jobs[id];
      && j.attempts == w.db.jobs[id].attempts + Claims(w, es, id)
      && WithinBudget(j, extra + Overdraws(w, es, id))
      && j.maxAttempts == w.db.jobs[id].maxAttempts
    decreases |es|
  {
    if es != [] {
      var (e, now) := es[0];
      var w' := Step(w, e, now).0;
      assert !FallsBack(es[0].0, id);
      BudgetStep(w, e, now, id, extra);
      forall i | 0 <= i < |es[1..]| ensures !FallsBack(es[1..][i].0, id) {
        assert es[1..][i] == es[i + 1];
      }
      ClaimsAreBounded(w', es[1..], id, extra + if Overdraw(w, e, now, id) then 1 else 0);
    }
  }

  lemma FallbackStep(w: World, e: Event, now: int, id: nat)
    requires id < |w.db.jobs| && FellBack(w, e, now, id)
    ensures id < |Step(w, e, now).0.db.jobs| && !Claimed(w, e, now, id) && !Overdraw(w, e, now, id)
    ensures var j := Step(w, e, now).0.db.jobs[id];
      j.attempts == 0 && j.maxAttempts == e.step.newMax && WithinBudget(j, Grant(j.maxAttempts) - j.maxAttempts)
  {}

  /**
   Over a whole run a job is claimed at most as often as it had attempts left, plus the attempts each fallback to the
   API grants (one, if it grants none), plus the number of times an exhausted row was parked or requeued.
   */
  lemma {:induction false} ClaimsOfWholeRuns(w: World, es: Trace, id: nat, extra: nat)
    requires id < |w.db.jobs| && WithinBudget(w.db.jobs[id], extra)
    ensures var j := w.db.jobs[id];
      Claims(w, es, id) <= j.maxAttempts - j.attempts + extra + Granted(w, es, id) + Overdraws(w, es, id)
    decreases |es|
  {
    if es != [] {
      var (e, now) := es[0];
      var w' := Step(w, e, now).0;
      if FellBack(w, e, now, id) {
        FallbackStep(w, e, now, id);
        ClaimsOfWholeRuns(w', es[1..], id, Grant(e.step.newMax) - e.step.newMax);
      } else {
        BudgetStep(w, e, now, id, extra);
        ClaimsOfWholeRuns(w', es[1..], id, extra + if Overdraw(w, e, now, id) then 1 else 0);
      }
    }
  }

  /** Terminal states are absorbing over every run. */
  lemma {:induction false} TerminalForever(w: World, es: Trace, id: nat)
    requires id < |w.db.jobs| && Terminal(w.db.jobs[id].status)
    ensures id < |Run(w, es).db.jobs|
    ensures Run(w, es).db.jobs[id].status == w.db.jobs[id].status
    decreases |es|
  {
    if es != [] {
      var (e, now) := es[0];
      StepKeepsRow(w, e, now, id);
      if e.Row? && AdvanceJob(w.db, e.id, e.step, now).Some? {
        AdvanceFrame(w.db.jobs[e.id], e.step, now);
      }
      TerminalForever(Step(w, e, now).0, es[1..], id);
    }
  }

  // ----- leases --------------------------------------------------------------------------------------

  lemma {:induction false} RunSnoc(w: World, es: Trace)
    requires es != []
    ensures var n := |es| - 1; Run(w, es) == Step(Run(w, es[..n]), es[n].0, es[n].1).0
    decreases |es|
  {
    var n := |es| - 1;
    if n > 0 {
      RunSnoc(Step(w, es[0].0, es[0].1).0, es[1..]);
      assert es[..n][1..] == es[1..][..n - 1];
    }
  }

  lemma {:induction false} RunKeepsRow(w: World, es: Trace, id: nat)
    requires id < |w.db.jobs|
    ensures id < |Run(w, es).db.jobs|
    decreases |es|
  {
    if es != [] {
      StepKeepsRow(w, es[0].0, es[0].1, id);
      RunKeepsRow(Step(w, es[0].0, es[0].1).0, es[1..], id);
    }
  }

  ghost predicate RunningAt(w: World, es: Trace, i: nat, id: nat) {
    i <= |es| && id < |Run(w, es[..i]).db.jobs| && Run(w, es[..i]).db.jobs[id].status.Running?
  }

  // Event `i` takes the row out of the running state.
  ghost predicate LeavesAt(w: World, es: Trace, i: nat, id: nat) {
    i < |es| && RunningAt(w, es, i, id) && !RunningAt(w, es, i + 1, id)
  }

  ghost predicate Left(w: World, es: Trace, id: nat) {
    exists i: nat :: LeavesAt(w, es, i, id)
  }

  // Event `k` is a claim of the row that succeeds.
  ghost predicate ClaimedAt(w: World, es: Trace, k: nat, id: nat) {
    k < |es| && Claimed(Run(w, es[..k]), es[k].0, es[k].1, id)
  }

  // The row left the running state, and was claimed after that.
  ghost predicate Retaken(w: World, es: Trace, id: nat) {
    exists i: nat, k: nat :: i < k && LeavesAt(w, es, i, id) && ClaimedAt(w, es, k, id)
  }

  // A step that leaves a row running leaves it to who has it, or is a claim of it.
  lemma StepRuns(w: World, e: Event, now: int, id: nat)
    requires id < |w.db.jobs| && id < |Step(w, e, now).0.db.jobs| && Step(w, e, now).0.db.jobs[id].status.Running?
    ensures var j, j' := w.db.jobs[id], Step(w, e, now).0.db.jobs[id];
      if j.status.Running? then j'.token == j.token && !Claimed(w, e, now, id)
      else Claimed(w, e, now, id) && j'.token == Some(e.step.worker)
  {
    if e.Row? && e.id == id && AdvanceJob(w.db, id, e.step, now).Some? {
      RunningMoves(w.db.jobs[id], e.step, now);
    } else {
      OthersKeepLease(w, e, now, id);
    }
  }

  lemma OthersKeepLease(w: World, e: Event, now: int, id: nat)
    requires id < |w.db.jobs| && id < |Step(w, e, now).0.db.jobs|
    requires !(e.Row? && e.id == id) || AdvanceJob(w.db, id, e.step, now).None?
    ensures var j, j' := w.db.jobs[id], Step(w, e, now).0.db.jobs[id];
      j'.token == j.token && j'.status == j.status && j'.claimedAt == j.claimedAt
    ensures !Claimed(w, e, now, id)
  {}

  // The prefix's history is the run's.
  lemma PrefixHistory(w: World, es: Trace, i: nat, id: nat)
    requires es != [] && i < |es|
    ensures var front := es[..|es| - 1];
      && RunningAt(w, front, i, id) == RunningAt(w, es, i, id)
      && (i < |front| ==> LeavesAt(w, front, i, id) == LeavesAt(w, es, i, id))
      && (i < |front| ==> ClaimedAt(w, front, i, id) == ClaimedAt(w, es, i, id))
  {
    var front := es[..|es| - 1];
    assert front[..i] == es[..i];
    if i < |front| {
      assert front[..i + 1] == es[..i + 1];
    }
  }

  lemma RetakenGrows(w: World, es: Trace, id: nat)
    requires es != []
    ensures Retaken(w, es[..|es| - 1], id) ==> Retaken(w, es, id)
  {
    var front := es[..|es| - 1];
    if i: nat, k: nat :| i < k && LeavesAt(w, front, i, id) && ClaimedAt(w, front, k, id) {
      PrefixHistory(w, es, i, id);
      PrefixHistory(w, es, k, id);
      assert LeavesAt(w, es, i, id) && ClaimedAt(w, es, k, id);
    }
  }

  // If the last event did not claim the row, it was retaken before or not at all.
  lemma RetakenShrinks(w: World, es: Trace, id: nat)
    requires es != [] && !ClaimedAt(w, es, |es| - 1, id)
    ensures Retaken(w, es, id) ==> Retaken(w, es[..|es| - 1], id)
  {
    if i: nat, k: nat :| i < k && LeavesAt(w, es, i, id) && ClaimedAt(w, es, k, id) {
      PrefixHistory(w, es, i, id);
      PrefixHistory(w, es, k, id);
      assert LeavesAt(w, es[..|es| - 1], i, id) && ClaimedAt(w, es[..|es| - 1], k, id);
    }
  }

  predicate ClaimsAgain(e: Event, id: nat, worker: nat) {
    e.Row? && e.id == id && e.step.Claim? && e.step.worker == worker
  }

  // Who has a row after a run that starts with worker `a` having it and in which `a` does not claim it again: a
  // worker runs one job at a time.
  lemma {:induction false} WhoHasIt(w: World, es: Trace, id: nat, a: nat)
    requires id < |w.db.jobs| && w.db.jobs[id].status.Running? && w.db.jobs[id].token == Some(a)
    requires forall i | 0 <= i < |es| :: !ClaimsAgain(es[i].0, id, a)
    ensures id < |Run(w, es).db.jobs|
    ensures var j := Run(w, es).db.jobs[id];
      if j.status.Running? then j.token.Some? && (j.token == Some(a) <==> !Retaken(w, es, id))
      else Left(w, es, id)
    decreases |es|
  {
    RunKeepsRow(w, es, id);
    if es == [] {
      assert !exists k: nat :: ClaimedAt(w, es, k, id);
    } else {
      var n := |es| - 1;
      var front, mid := es[..n], Run(w, es[..n]);
      WhoHasIt(w, front, id, a);
      RunSnoc(w, es);
      assert es[..|es|] == es;
      HistoryStep(w, es, id, a);
    }
  }

  lemma HistoryStep(w: World, es: Trace, id: nat, a: nat)
    requires es != [] && !ClaimsAgain(es[|es| - 1].0, id, a)
    requires var n := |es| - 1;
      && Run(w, es) == Step(Run(w, es[..n]), es[n].0, es[n].1).0 && es[..|es|] == es
      && id < |Run(w, es[..n]).db.jobs| && id < |Run(w, es).db.jobs|
      && var j := Run(w, es[..n]).db.jobs[id];
         if j.status.Running? then j.token.Some? && (j.token == Some(a) <==> !Retaken(w, es[..n], id))
         else Left(w, es[..n], id)
    ensures var j := Run(w, es).db.jobs[id];
      if j.status.Running? then j.token.Some? && (j.token == Some(a) <==> !Retaken(w, es, id))
      else Left(w, es, id)
  {
    var n := |es| - 1;
    var mid := Run(w, es[..n]);
    if Run(w, es).db.jobs[id].status.Running? {
      StepRuns(mid, es[n].0, es[n].1, id);
      if mid.db.jobs[id].status.Running? {
        RetakenGrows(w, es, id);
        RetakenShrinks(w, es, id);
      } else {
        var i: nat :| LeavesAt(w, es[..n], i, id);
        PrefixHistory(w, es, i, id);
        assert LeavesAt(w, es, i, id) && ClaimedAt(w, es, n, id);
      }
    } else if mid.db.jobs[id].status.Running? {
      assert LeavesAt(w, es, n, id);
    } else {
      var i: nat :| LeavesAt(w, es[..n], i, id);
      PrefixHistory(w, es, i, id);
      assert LeavesAt(w, es, i, id);
    }
  }

  /**
   A worker that finishes, fails, cancels, parks or hands over a job it claimed acts on a row that another worker
   has exactly if, since its claim, the row left the running state and was claimed from there. Nothing else
   protects the other worker: the update goes through whenever the row is running. Where the row is not running,
   it left that state since the claim.
   */
  lemma ForeignLeaseIff(w: World, es: Trace, id: nat, a: nat, step: RowStep, now: int)
    requires id < |w.db.jobs| && w.db.jobs[id].status.Running? && w.db.jobs[id].token == Some(a)
    requires forall i | 0 <= i < |es| :: !ClaimsAgain(es[i].0, id, a)
    requires ByWorker(step) && step.worker == a
    ensures id < |Run(w, es).db.jobs|
    ensures var j, acts := Run(w, es).db.jobs[id], Step(Run(w, es), Row(id, step), now).1.Advanced?;
      && (acts ==> j.status.Running?)
      && (j.status.Running? && !step.MarkCanceled? ==> acts)
      && (acts ==> (j.token != Some(a) <==> Retaken(w, es, id)))
      && (!j.status.Running? ==> Left(w, es, id))
      && (acts && j.token != Some(a) ==> j.token.Some?)
  {
    WhoHasIt(w, es, id, a);
    ActsWhileRunning(Run(w, es), id, step, now);
  }

  lemma ActsWhileRunning(w: World, id: nat, step: RowStep, now: int)
    requires id < |w.db.jobs| && ByWorker(step)
    ensures Step(w, Row(id, step), now).1.Advanced? <==>
      w.db.jobs[id].status.Running? && (step.MarkCanceled? ==> w.db.jobs[id].cancelRequested)
  {}

  // ----- heartbeats ----------------------------------------------------------------------------------

  predicate Beats(e: Event, id: nat, worker: nat) {
    e.Row? && e.id == id && e.step == RenewLease(worker)
  }

  predicate RecoversRow(e: Event, id: nat) {
    e.Row? && e.id == id && Recovers(e.step)
  }

  // Time goes on, and every recovery pass over the row comes within its lease of the last heartbeat, at `t`.
  predicate InTime(es: Trace, id: nat, worker: nat, t: int)
    decreases |es|
  {
    es == [] || (
      && t <= es[0].1
      && (RecoversRow(es[0].0, id) ==> es[0].1 <= t + es[0].0.step.lease)
      && InTime(es[1..], id, worker, if Beats(es[0].0, id, worker) then es[0].1 else t))
  }

  // Event `i` is the first to take the row out of the running state, and it is no recovery.
  ghost predicate GivenUpAt(w: World, es: Trace, i: nat, id: nat) {
    LeavesAt(w, es, i, id) && !RecoversRow(es[i].0, id) && forall k: nat | k < i :: !LeavesAt(w, es, k, id)
  }

  // The last heartbeat of a run
  function LastBeat(es: Trace, id: nat, worker: nat, t: int): int
    decreases |es|
  {
    if es == [] then t else LastBeat(es[1..], id, worker, if Beats(es[0].0, id, worker) then es[0].1 else t)
  }

  // A step on a row that was renewed in time leaves it to its worker, or ends its run and is no recovery.
  lemma BeatStep(w: World, e: Event, now: int, id: nat, a: nat, t: int)
    requires id < |w.db.jobs|
    requires var j := w.db.jobs[id]; j.status.Running? && j.token == Some(a) && j.claimedAt == Some(t)
    requires RecoversRow(e, id) ==> now <= t + e.step.lease
    ensures id < |Step(w, e, now).0.db.jobs|
    ensures var j := Step(w, e, now).0.db.jobs[id];
      if j.status.Running?
        then j.token == Some(a) && j.claimedAt == Some(if Beats(e, id, a) then now else t)
        else !RecoversRow(e, id)
  {
    StepKeepsRow(w, e, now, id);
    if e.Row? && e.id == id && AdvanceJob(w.db, id, e.step, now).Some? {
      BeatAdvance(w.db.jobs[id], e.step, now, a, t);
    } else {
      OthersKeepLease(w, e, now, id);
      assert !Beats(e, id, a);
    }
  }

  lemma BeatAdvance(j: Job, s: RowStep, now: int, a: nat, t: int)
    requires j.status.Running? && j.token == Some(a) && j.claimedAt == Some(t)
    requires Advance(j, s, now).Some? && (Recovers(s) ==> now <= t + s.lease)
    ensures var k := Advance(j, s, now).value;
      if k.status.Running?
        then k.token == Some(a) && k.claimedAt == Some(if s == RenewLease(a) then now else t)
        else !Recovers(s)
  {}

  /**
   While a worker renews its lease in time, no recovery pass takes its row, whatever else happens: the row stays
   with it until something else, a worker's own update or a cancellation, ends the run.
   */
  lemma {:induction false} HeartbeatKeepsLease(w: World, es: Trace, id: nat, a: nat, t: int)
    requires id < |w.db.jobs| && InTime(es, id, a, t)
    requires var j := w.db.jobs[id]; j.status.Running? && j.token == Some(a) && j.claimedAt == Some(t)
    ensures id < |Run(w, es).db.jobs|
    ensures
      || (exists i: nat :: GivenUpAt(w, es, i, id))
      || (var j := Run(w, es).db.jobs[id];
          j.status.Running? && j.token == Some(a) && j.claimedAt == Some(LastBeat(es, id, a, t)))
    decreases |es|
  {
    RunKeepsRow(w, es, id);
    if es != [] {
      var (e, now) := es[0];
      var w' := Step(w, e, now).0;
      BeatStep(w, e, now, id, a, t);
      assert es[..0] == [] && es[..1] == [es[0]];
      if w'.db.jobs[id].status.Running? {
        HeartbeatKeepsLease(w', es[1..], id, a, if Beats(e, id, a) then now else t);
        if i: nat :| GivenUpAt(w', es[1..], i, id) {
          GivenUpLater(w, es, i, id);
        }
      } else {
        assert Run(w, es[..1]) == w';
        assert GivenUpAt(w, es, 0, id);
      }
    }
  }

  lemma LaterHistory(w: World, es: Trace, i: nat, id: nat)
    requires es != [] && i < |es|
    ensures var (e, now) := es[0]; RunningAt(Step(w, e, now).0, es[1..], i, id) == RunningAt(w, es, i + 1, id)
  {
    assert es[..i + 1][1..] == es[1..][..i];
  }

  lemma GivenUpLater(w: World, es: Trace, i: nat, id: nat)
    requires es != [] && id < |Step(w, es[0].0, es[0].1).0.db.jobs|
    requires Step(w, es[0].0, es[0].1).0.db.jobs[id].status.Running?
    requires GivenUpAt(Step(w, es[0].0, es[0].1).0, es[1..], i, id)
    ensures GivenUpAt(w, es, i + 1, id)
  {
    LaterHistory(w, es, i, id);
    LaterHistory(w, es, i + 1, id);
    assert es[..1][1..] == [] && RunningAt(w, es, 1, id);
    forall k: nat | k < i + 1 ensures !LeavesAt(w, es, k, id) {
      if k > 0 {
        LaterHistory(w, es, k - 1, id);
        LaterHistory(w, es, k, id);
        assert !LeavesAt(Step(w, es[0].0, es[0].1).0, es[1..], k - 1, id);
      }
    }
  }

  /** A job somebody asked to cancel is not claimed any more, over every run in which it does not fall back. */
  lemma {:induction false} CanceledIsNeverClaimed(w: World, es: Trace, id: nat)
    requires id < |w.db.jobs| && w.db.jobs[id].cancelRequested
    requires forall i | 0 <= i < |es| :: !FallsBack(es[i].0, id)
    ensures Claims(w, es, id) == 0 && id < |Run(w, es).db.jobs| && Run(w, es).db.jobs[id].cancelRequested
    decreases |es|
  {
    if es != [] {
      var (e, now) := es[0];
      StepKeepsRow(w, e, now, id);
      CancelStays(w, e, now, id);
      assert forall i | 0 <= i < |es[1..]| :: es[1..][i] == es[i + 1];
      CanceledIsNeverClaimed(Step(w, e, now).0, es[1..], id);
    }
  }

  lemma CancelStays(w: World, e: Event, now: int, id: nat)
    requires id < |w.db.jobs| && w.db.jobs[id].cancelRequested && !FallsBack(e, id)
    ensures id < |Step(w, e, now).0.db.jobs| && Step(w, e, now).0.db.jobs[id].cancelRequested
    ensures !Claimed(w, e, now, id)
  {}

  // An empty database with nobody in flight balances.
  lemma StartsBalanced(limits: map<Account, nat>)
    ensures Balanced(World(Db([], map[], limits), []))
  {}

  /** When no request is in flight, usage is exactly what the job rows hold. */
  lemma QuiescentUsage(limits: map<Account, nat>, es: Trace, a: Account)
    requires NeverLate(es)
    requires forall i | 0 <= i < |Run(World(Db([], map[], limits), []), es).holds| ::
      !Run(World(Db([], map[], limits), []), es).holds[i].open
    ensures var w := Run(World(Db([], map[], limits), []), es); Usage(w.db, a) == Charges(w.db.jobs, a)
  {
    StartsBalanced(limits);
    var w := Run(World(Db([], map[], limits), []), es);
    Conservation(World(Db([], map[], limits), []), es);
    NothingHeld(w.holds, a);
    assert Books(w, a) == 0;
  }

  lemma {:induction false} NothingHeld(holds: seq<Hold>, a: Account)
    requires forall i | 0 <= i < |holds| :: !holds[i].open
    ensures Held(holds, a) == 0
  {
    if holds != [] {
      NothingHeld(holds[..|holds| - 1], a);
    }
  }
}
