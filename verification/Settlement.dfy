/**
 The programs that end a job and then settle its quota: one transaction updates the row, another settles it, and
 whatever happens in between happens to the row. A program that crashes in between never takes its second step.
 */
module Settlement {
  import opened Prelude
  import opened JobRows
  import opened QuotaLedger
  import opened JobRuns

  // Why a program goes on to settle: its update ended the row; its update was refused, the row being as seen;
  // its handler saw a cancellation; or it is about to hand the row over to the API.
  datatype Cause = Ended | RefusedOn(seen: Status) | Bailed | HandedOver

  // A settlement a program owes, until it makes it.
  datatype Debt = Debt(id: nat, success: bool, cause: Cause, open: bool)

  datatype State = State(w: World, debts: seq<Debt>)

  datatype Move =
    | Plain(e: Event)
    | Update(id: nat, step: RowStep, runner: Backend)
    | Bail(id: nat)
    | Handover(id: nat)
    | Settle(debt: nat)

  // The updates that are followed by a settlement if they end the row.
  predicate Ends(s: RowStep) {
    s.MarkDone? || s.FailOrRetry? || s.Cancel? || s.MarkCanceled? || s.CancelStale? || s.FailStale?
  }

  // The events that are the first or the second half of such a program.
  predicate Half(e: Event) {
    e.Finalize? || (e.Row? && Ends(e.step))
  }

  /**
   What a program owes after its update. An update that ends the row is followed by a settlement. A refused
   retry, and a refused completion of the generic worker, settle too: they take it that a cancellation came first.
   */
  function Owes(s: State, m: Move, now: int): seq<Debt>
    requires m.Update? && m.id < |s.w.db.jobs|
  {
    var (w, o) := Step(s.w, Row(m.id, m.step), now);
    var before, after := s.w.db.jobs[m.id].status, w.db.jobs[m.id].status;
    if o.Advanced? then (if Terminal(after) then [Debt(m.id, m.step.MarkDone?, Ended, true)] else [])
    else if m.step.FailOrRetry? || (m.step.MarkDone? && m.runner.Api?) then [Debt(m.id, false, RefusedOn(before), true)]
    else []
  }

  /**
   A program whose update ended the row settles it, as a success exactly if the row is done. One whose update was
   refused settles it as a failure, if it was a retry, or the completion of a job the API workers run. No other
   update is followed by a settlement.
   */
  lemma OwesIff(s: State, m: Move, now: int)
    requires m.Update? && m.id < |s.w.db.jobs|
    ensures var after := Step(s.w, Row(m.id, m.step), now).0.db.jobs[m.id];
      var accepted := Advance(s.w.db.jobs[m.id], m.step, now).Some?;
      var ended := after.status.Done? || after.status.Failed? || after.status.Canceled?;
      var owed := Owes(s, m, now);
      && (owed != [] <==>
            if accepted then ended else m.step.FailOrRetry? || (m.step.MarkDone? && m.runner == Api))
      && (owed != [] ==>
            && owed == [Debt(m.id, accepted && after.status.Done?,
                             if accepted then Ended else RefusedOn(s.w.db.jobs[m.id].status), true)])
  {
    OnlyMarkDoneIsDone(s.w, m.id, m.step, now);
  }

  // `is_canceled`, as the handlers of API jobs ask it
  predicate SeesCancel(j: Job) {
    j.backend.Api? && (j.status.Canceled? || j.cancelRequested)
  }

  // The transaction of a move, if it has one
  function Transaction(s: State, m: Move): Option<Event> {
    match m
    case Plain(e) => if Half(e) then None else Some(e)
    case Update(id, step, _) => if Ends(step) && id < |s.w.db.jobs| then Some(Row(id, step)) else None
    case Bail(_) => None
    case Handover(id) => if id < |s.w.db.jobs| then Some(Finalize(id, false)) else None
    case Settle(d) =>
      if d < |s.debts| && s.debts[d].open then Some(Finalize(s.debts[d].id, s.debts[d].success)) else None
  }

  function DebtsAfter(s: State, m: Move, now: int): seq<Debt> {
    match m
    case Plain(_) => s.debts
    case Update(id, step, _) => if Ends(step) && id < |s.w.db.jobs| then s.debts + Owes(s, m, now) else s.debts
    case Bail(id) =>
      if id < |s.w.db.jobs| && SeesCancel(s.w.db.jobs[id]) then s.debts + [Debt(id, false, Bailed, true)] else s.debts
    case Handover(id) =>
      if id < |s.w.db.jobs| then s.debts + [Debt(id, false, HandedOver, false)] else s.debts
    case Settle(d) =>
      if d < |s.debts| && s.debts[d].open then s.debts[d := s.debts[d].(open := false)] else s.debts
  }

  /** One step of one program, at database time `now`. */
  function Do(s: State, m: Move, now: int): State {
    var e := Transaction(s, m);
    State(if e.None? then s.w else Step(s.w, e.value, now).0, DebtsAfter(s, m, now))
  }

  type Script = seq<(Move, int)>

  function DoAll(s: State, ms: Script): State
    decreases |ms|
  {
    if ms == [] then s else DoAll(Do(s, ms[0].0, ms[0].1), ms[1..])
  }

  // The transactions of a script
  function Transactions(s: State, ms: Script): Trace
    decreases |ms|
  {
    if ms == [] then []
    else
      var e := Transaction(s, ms[0].0);
      (if e.None? then [] else [(e.value, ms[0].1)]) + Transactions(Do(s, ms[0].0, ms[0].1), ms[1..])
  }

  /** Running programs is a run of their transactions, so whatever holds over every run holds here. */
  lemma {:induction false} ScriptsAreRuns(s: State, ms: Script)
    ensures Run(s.w, Transactions(s, ms)) == DoAll(s, ms).w
    decreases |ms|
  {
    if ms != [] {
      var e, rest := Transaction(s, ms[0].0), Transactions(Do(s, ms[0].0, ms[0].1), ms[1..]);
      ScriptsAreRuns(Do(s, ms[0].0, ms[0].1), ms[1..]);
      if e.Some? {
        assert ([(e.value, ms[0].1)] + rest)[1..] == rest;
      } else {
        assert [] + rest == rest;
      }
    }
  }

  // ----- what the debts say about a row ---------------------------------------------------------------

  predicate SettledBy(debts: seq<Debt>, id: nat) {
    exists i :: 0 <= i < |debts| && debts[i].id == id && !debts[i].open
  }

  predicate EndedBy(debts: seq<Debt>, id: nat) {
    exists i :: 0 <= i < |debts| && debts[i].id == id && debts[i].cause.Ended?
  }

  // Only a program that found the row queued or waiting, or that hands it over, can come to settle a live row.
  predicate Stray(c: Cause) {
    c.HandedOver? || (c.RefusedOn? && (c.seen.Queued? || c.seen.WaitingProvider?))
  }

  // A cancellation of an API row takes effect at once.
  predicate CancelsAtOnce(j: Job) {
    j.backend.Api? && j.cancelRequested ==> j.status.Canceled?
  }

  // A row is settled if a program settled it, and at an end if a program ended it.
  predicate RowTold(j: Job, debts: seq<Debt>, id: nat) {
    && (j.finalized <==> SettledBy(debts, id))
    && (Terminal(j.status) <==> EndedBy(debts, id))
    && CancelsAtOnce(j)
  }

  predicate DebtTold(jobs: seq<Job>, d: Debt) {
    && d.id < |jobs|
    && (Stray(d.cause) || Terminal(jobs[d.id].status))
    && (d.success <==> d.cause.Ended? && jobs[d.id].status.Done?)
  }

  ghost predicate Told(s: State) {
    && (forall id: nat | id < |s.w.db.jobs| :: RowTold(s.w.db.jobs[id], s.debts, id))
    && (forall i | 0 <= i < |s.debts| :: DebtTold(s.w.db.jobs, s.debts[i]))
  }

  // What a transaction does to a row: only a finalize call settles, and only an ending update ends.
  lemma StepTold(w: World, e: Event, now: int, id: nat)
    requires id < |w.db.jobs| && CancelsAtOnce(w.db.jobs[id])
    ensures var (w', o) := Step(w, e, now);
      && id < |w'.db.jobs|
      && var j, j' := w.db.jobs[id], w'.db.jobs[id];
         && j'.finalized == (j.finalized || AsksFor(e, id))
         && CancelsAtOnce(j')
         && (Terminal(j.status) ==> j'.status == j.status)
         && (Terminal(j'.status) && !Terminal(j.status) ==> e.Row? && e.id == id && Ends(e.step) && o.Advanced?)
  {
    StepKeepsRow(w, e, now, id);
    if e.Row? && e.id == id && AdvanceJob(w.db, id, e.step, now).Some? {
      AdvanceTold(w.db.jobs[id], e.step, now);
    }
  }

  lemma AdvanceTold(j: Job, s: RowStep, now: int)
    requires CancelsAtOnce(j) && Advance(j, s, now).Some?
    ensures var j' := Advance(j, s, now).value;
      && CancelsAtOnce(j') && !Terminal(j.status) && (Terminal(j'.status) ==> Ends(s))
  {}

  // Rows are only added queued and unsettled.
  lemma StepAdds(w: World, e: Event, now: int, id: nat)
    requires |w.db.jobs| <= id < |Step(w, e, now).0.db.jobs|
    ensures var j := Step(w, e, now).0.db.jobs[id];
      j.status.Queued? && !j.finalized && !j.cancelRequested
    ensures e.Schedule? || e.ScheduleUnreserved?
  {}

  lemma RefusedUpdate(w: World, id: nat, step: RowStep, now: int)
    requires id < |w.db.jobs|
    ensures !Step(w, Row(id, step), now).1.Advanced? ==> Step(w, Row(id, step), now).0 == w
    ensures !Step(w, Row(id, step), now).1.Advanced? && (step.FailOrRetry? || step.MarkDone?) ==>
      !w.db.jobs[id].status.Running?
  {}

  lemma OnlyMarkDoneIsDone(w: World, id: nat, step: RowStep, now: int)
    requires id < |w.db.jobs|
    ensures var (w', o) := Step(w, Row(id, step), now);
      o.Advanced? ==> id < |w'.db.jobs| && (step.MarkDone? <==> w'.db.jobs[id].status.Done?)
  {}

  // A program's debts tell the truth about the rows.
  lemma DoTold(s: State, m: Move, now: int)
    requires Told(s)
    ensures Told(Do(s, m, now))
  {
    var s' := Do(s, m, now);
    var e := Transaction(s, m);
    forall id: nat | id < |s'.w.db.jobs| ensures RowTold(s'.w.db.jobs[id], s'.debts, id) {
      if id < |s.w.db.jobs| {
        assert RowTold(s.w.db.jobs[id], s.debts, id);
        OldRowTold(s, m, now, id);
      } else {
        NewRowTold(s, m, now, id);
      }
    }
    forall i | 0 <= i < |s'.debts| ensures DebtTold(s'.w.db.jobs, s'.debts[i]) {
      DebtStaysTold(s, m, now, i);
    }
  }

  // A move makes a settlement of `id`, as its transaction or not at all.
  lemma SettledAfter(s: State, m: Move, now: int, id: nat)
    ensures SettledBy(DebtsAfter(s, m, now), id) <==>
      SettledBy(s.debts, id) || (Transaction(s, m).Some? && AsksFor(Transaction(s, m).value, id))
  {
    var debts := DebtsAfter(s, m, now);
    assert forall i | 0 <= i < |s.debts| && debts != s.debts :: debts[i].id == s.debts[i].id;
    if i :| 0 <= i < |s.debts| && s.debts[i].id == id && !s.debts[i].open {
      assert debts[i].id == id && !debts[i].open;
    }
    if m.Handover? && m.id < |s.w.db.jobs| {
      assert debts[|s.debts|] == Debt(m.id, false, HandedOver, false);
    }
    if m.Settle? && m.debt < |s.debts| && s.debts[m.debt].open {
      assert debts[m.debt].id == s.debts[m.debt].id && !debts[m.debt].open;
    }
  }

  predicate EndsNow(s: State, m: Move, now: int, id: nat) {
    && m.Update? && m.id == id && id < |s.w.db.jobs| && Ends(m.step)
    && Step(s.w, Row(id, m.step), now).1.Advanced?
    && id < |Step(s.w, Row(id, m.step), now).0.db.jobs|
    && Terminal(Step(s.w, Row(id, m.step), now).0.db.jobs[id].status)
  }

  lemma EndedAfter(s: State, m: Move, now: int, id: nat)
    ensures EndedBy(DebtsAfter(s, m, now), id) <==> EndedBy(s.debts, id) || EndsNow(s, m, now, id)
  {
    var debts := DebtsAfter(s, m, now);
    if i :| 0 <= i < |s.debts| && s.debts[i].id == id && s.debts[i].cause.Ended? {
      assert debts[i].id == id && debts[i].cause.Ended?;
    }
    if EndsNow(s, m, now, id) {
      assert debts[|s.debts|] == Debt(id, m.step.MarkDone?, Ended, true);
    }
  }

  lemma OldRowTold(s: State, m: Move, now: int, id: nat)
    requires id < |s.w.db.jobs| && RowTold(s.w.db.jobs[id], s.debts, id)
    ensures var s' := Do(s, m, now); id < |s'.w.db.jobs| && RowTold(s'.w.db.jobs[id], s'.debts, id)
  {
    var e := Transaction(s, m);
    SettledAfter(s, m, now, id);
    EndedAfter(s, m, now, id);
    if e.Some? {
      StepTold(s.w, e.value, now, id);
    }
  }

  lemma NewRowTold(s: State, m: Move, now: int, id: nat)
    requires forall i | 0 <= i < |s.debts| :: DebtTold(s.w.db.jobs, s.debts[i])
    requires |s.w.db.jobs| <= id < |Do(s, m, now).w.db.jobs|
    ensures RowTold(Do(s, m, now).w.db.jobs[id], Do(s, m, now).debts, id)
  {
    StepAdds(s.w, Transaction(s, m).value, now, id);
    assert !SettledBy(s.debts, id) && !EndedBy(s.debts, id) by {
      assert forall i | 0 <= i < |s.debts| :: DebtTold(s.w.db.jobs, s.debts[i]);
    }
  }

  lemma DebtStaysTold(s: State, m: Move, now: int, i: nat)
    requires Told(s) && i < |Do(s, m, now).debts|
    ensures DebtTold(Do(s, m, now).w.db.jobs, Do(s, m, now).debts[i])
  {
    var s' := Do(s, m, now);
    var d := s'.debts[i];
    if i < |s.debts| {
      assert DebtTold(s.w.db.jobs, s.debts[i]) && d.id == s.debts[i].id && d.cause == s.debts[i].cause;
      assert RowTold(s.w.db.jobs[d.id], s.debts, d.id);
      if Transaction(s, m).Some? {
        StepTold(s.w, Transaction(s, m).value, now, d.id);
      }
    } else {
      NewDebtTold(s, m, now, d);
    }
  }

  lemma NewDebtTold(s: State, m: Move, now: int, d: Debt)
    requires Told(s) && DebtsAfter(s, m, now) == s.debts + [d]
    ensures DebtTold(Do(s, m, now).w.db.jobs, d)
  {
    assert (s.debts + [d])[|s.debts|] == d;
    assert !m.Plain? && !m.Settle? && m.id < |s.w.db.jobs| && d.id == m.id;
    assert RowTold(s.w.db.jobs[m.id], s.debts, m.id);
    if m.Update? {
      RefusedUpdate(s.w, m.id, m.step, now);
      OnlyMarkDoneIsDone(s.w, m.id, m.step, now);
    }
    if Transaction(s, m).Some? {
      StepTold(s.w, Transaction(s, m).value, now, m.id);
    }
  }

  lemma {:induction false} AllTold(s: State, ms: Script)
    requires Told(s)
    ensures Told(DoAll(s, ms))
    decreases |ms|
  {
    if ms != [] {
      DoTold(s, ms[0].0, ms[0].1);
      AllTold(Do(s, ms[0].0, ms[0].1), ms[1..]);
    }
  }

  /**
   A handler's look for a cancellation sends its program to settle exactly if the row is canceled. A program that
   hands a row over settles it first, as a failure. Neither touches any other row.
   */
  lemma BailIff(s: State, id: nat, now: int)
    requires Told(s) && id < |s.w.db.jobs| && s.w.db.jobs[id].backend == Api
    ensures var canceled := s.w.db.jobs[id].status == Canceled;
      Do(s, Bail(id), now) == State(s.w, s.debts + if canceled then [Debt(id, false, Bailed, true)] else [])
  {
    assert RowTold(s.w.db.jobs[id], s.debts, id);
    assert s.debts + [] == s.debts;
  }

  lemma HandoverSettles(s: State, id: nat, now: int)
    requires id < |s.w.db.jobs| && !s.w.db.jobs[id].finalized
    requires s.w.db.jobs[id].consumed <= s.w.db.jobs[id].reserved
    ensures var next := Do(s, Handover(id), now);
      && next.w.db.jobs == s.w.db.jobs[id := s.w.db.jobs[id].(finalized := true, updatedAt := now)]
      && next.debts == s.debts + [Debt(id, false, HandedOver, false)]
  {
    SettlesAs(s.w.db, id, false, now);
  }

  // An update that ends no row is not one of these programs'.
  lemma OnlyEndingUpdates(s: State, m: Move, now: int)
    requires m.Update? && (m.step.Claim? || m.step.RenewLease? || m.step.WaitForProvider? || m.step.RetryWaiting?
      || m.step.ReleaseDueWait? || m.step.RequeueStale? || m.step.FallbackToApi?)
    ensures Do(s, m, now) == s
  {}

  // A database without jobs, at which no program has started
  function Start(limits: map<Account, nat>): State {
    State(World(Db([], map[], limits), []), [])
  }

  lemma StartTold(limits: map<Account, nat>)
    ensures Told(Start(limits))
  {}

  // ----- when a row and its settlement disagree -------------------------------------------------------

  /**
   A row that reached an end was ended by a program that goes on to settle it. The row is unsettled exactly while
   that program, and every other one that owes it a settlement, has not taken its second step; a program that
   crashes in between never does. So when no program has stopped half-way, every row at an end is settled.
   */
  lemma UnsettledEndIff(limits: map<Account, nat>, ms: Script, id: nat)
    requires id < |DoAll(Start(limits), ms).w.db.jobs| && Terminal(DoAll(Start(limits), ms).w.db.jobs[id].status)
    ensures var end := DoAll(Start(limits), ms);
      && EndedBy(end.debts, id)
      && (!end.w.db.jobs[id].finalized <==>
            forall i | 0 <= i < |end.debts| && end.debts[i].id == id :: end.debts[i].open)
      && ((forall i | 0 <= i < |end.debts| :: !end.debts[i].open) ==> end.w.db.jobs[id].finalized)
  {
    StartTold(limits);
    AllTold(Start(limits), ms);
    var end := DoAll(Start(limits), ms);
    assert RowTold(end.w.db.jobs[id], end.debts, id);
  }

  /**
   A row that has not reached an end is settled exactly if a program settled it that was handing it over to the
   API, or whose update had been refused because the row was queued or waiting: its lease was lost.
   */
  lemma SettledLiveIff(limits: map<Account, nat>, ms: Script, id: nat)
    requires id < |DoAll(Start(limits), ms).w.db.jobs| && Active(DoAll(Start(limits), ms).w.db.jobs[id])
    ensures var end := DoAll(Start(limits), ms);
      && (end.w.db.jobs[id].finalized <==>
            exists i :: 0 <= i < |end.debts| && end.debts[i].id == id && !end.debts[i].open &&
              Stray(end.debts[i].cause))
      && forall i | 0 <= i < |end.debts| && end.debts[i].id == id :: Stray(end.debts[i].cause)
  {
    StartTold(limits);
    AllTold(Start(limits), ms);
    var end := DoAll(Start(limits), ms);
    assert RowTold(end.w.db.jobs[id], end.debts, id);
    assert forall i | 0 <= i < |end.debts| :: DebtTold(end.w.db.jobs, end.debts[i]);
  }

  /** At the moment of a settlement: it hits a live row exactly if no program has ended the row. */
  lemma SettlesLiveIff(limits: map<Account, nat>, ms: Script, d: nat)
    requires d < |DoAll(Start(limits), ms).debts|
    ensures var end := DoAll(Start(limits), ms);
      var debt := end.debts[d];
      && debt.id < |end.w.db.jobs|
      && (Active(end.w.db.jobs[debt.id]) <==> !EndedBy(end.debts, debt.id))
      && (Active(end.w.db.jobs[debt.id]) ==> Stray(debt.cause))
  {
    StartTold(limits);
    AllTold(Start(limits), ms);
    var end := DoAll(Start(limits), ms);
    assert DebtTold(end.w.db.jobs, end.debts[d]);
    assert RowTold(end.w.db.jobs[end.debts[d].id], end.debts, end.debts[d].id);
  }

  /**
   A finished job that counts as having spent its reservation is settled so exactly by the program that finished it.
   If another one is first, as when that program's settlement raises and its retry is refused, the owner of a
   finished job gets back what it did not count as consumed.
   */
  lemma DoneIsSpentIff(limits: map<Account, nat>, ms: Script, d: nat, now: int)
    requires d < |DoAll(Start(limits), ms).debts| && DoAll(Start(limits), ms).debts[d].open
    requires var end := DoAll(Start(limits), ms);
      var id := end.debts[d].id;
      id < |end.w.db.jobs| ==>
        && end.w.db.jobs[id].status.Done? && !end.w.db.jobs[id].finalized
        && (end.w.db.jobs[id].kind != Translate || end.w.db.jobs[id].backend == Api)
        && end.w.db.jobs[id].consumed != end.w.db.jobs[id].reserved
    ensures var end := DoAll(Start(limits), ms);
      var debt := end.debts[d];
      var after := Do(end, Settle(d), now);
      && debt.id < |after.w.db.jobs| && after.w.db.jobs[debt.id].finalized
      && (after.w.db.jobs[debt.id].consumed == after.w.db.jobs[debt.id].reserved <==> debt.cause.Ended?)
  {
    StartTold(limits);
    AllTold(Start(limits), ms);
    var end := DoAll(Start(limits), ms);
    assert DebtTold(end.w.db.jobs, end.debts[d]);
  }

  /**
   A generic worker whose lease was lost finds the row queued, takes that for a cancellation and settles it. The
   owner has the reservation back, and the next worker runs the job.
   */
  lemma LostLeaseSettlesLiveExample(s: State, id: nat, a: nat, b: nat, lease: nat, now: int)
    requires id < |s.w.db.jobs| && Stale(s.w.db.jobs[id], lease, now) && !s.w.db.jobs[id].finalized
    requires s.w.db.jobs[id].backend.Api? && !s.w.db.jobs[id].cancelRequested && s.w.db.jobs[id].notBefore.None?
    ensures var j := s.w.db.jobs[id];
      var recovered := Do(s, Plain(Row(id, RequeueStale(lease))), now);
      var refused := Do(recovered, Update(id, MarkDone(a), Api), now);
      var settled := Do(refused, Settle(|s.debts|), now);
      var db := Do(settled, Plain(Row(id, Claim(Api, {j.kind}, b))), now).w.db;
      && id < |db.jobs| && db.jobs[id].status.Running? && db.jobs[id].token == Some(b)
      && db.jobs[id].finalized && db.jobs[id].consumed == j.consumed
  {
    var j := s.w.db.jobs[id];
    var recovered := Do(s, Plain(Row(id, RequeueStale(lease))), now);
    assert recovered.debts == s.debts && recovered.w.db.jobs[id] == Unclaimed(j, Queued, now);
    RefusalSettles(recovered, id, a, now);
  }

  lemma RefusalSettles(s: State, id: nat, a: nat, now: int)
    requires id < |s.w.db.jobs| && s.w.db.jobs[id].status.Queued? && !s.w.db.jobs[id].finalized
    ensures var settled := Do(Do(s, Update(id, MarkDone(a), Api), now), Settle(|s.debts|), now);
      id < |settled.w.db.jobs| && settled.w.db.jobs[id] == Settled(s.w.db.jobs[id], false, now)
  {
    var refused := Do(s, Update(id, MarkDone(a), Api), now);
    assert refused == State(s.w, s.debts + [Debt(id, false, RefusedOn(Queued), true)]);
  }
}
