/**
 The claim statement of the query benchmark: take the oldest queued row that no other transaction has
 locked (`ORDER BY created_at,id FOR UPDATE SKIP LOCKED LIMIT 1`) and mark it running. Modelled twice: as
 the benchmark's in-place loop, and as a protocol between any number of workers that commit, crash and
 release their rows. The workers' own statement orders by last update: `WorkStore.Store.ClaimNext`.
 */
module Claims {
  import opened Prelude

  datatype RowStatus = Queued | Running | Finished

  datatype Row = Row(status: RowStatus, createdAt: int, notBefore: Option<int>)

  // Row ids are positions: ids are handed out in insertion order and rows are never reused.
  predicate Before(rows: seq<Row>, i: nat, k: nat)
    requires i < |rows| && k < |rows|
  {
    rows[i].createdAt < rows[k].createdAt || (rows[i].createdAt == rows[k].createdAt && i < k)
  }

  // At a given time, rows put off until later do not count; the benchmark's statement has no such test.
  predicate Candidate(rows: seq<Row>, skip: set<nat>, at: Option<int>, i: nat) {
    && i < |rows| && rows[i].status.Queued? && i !in skip
    && (at.None? || rows[i].notBefore.None? || rows[i].notBefore.value <= at.value)
  }

  ghost predicate IsOldest(rows: seq<Row>, skip: set<nat>, at: Option<int>, i: nat) {
    Candidate(rows, skip, at, i) && forall k | Candidate(rows, skip, at, k) && k != i :: Before(rows, i, k)
  }

  // Row `i` is queued, not locked by others and not put off, and no such row was created before it, or at the same
  // time under a lower id.
  ghost predicate OldestDue(rows: seq<Row>, skip: set<nat>, at: Option<int>, i: nat) {
    && i < |rows| && DueAt(rows[i], at) && i !in skip
    && forall k | 0 <= k < |rows| && k !in skip && DueAt(rows[k], at) ::
         rows[i].createdAt < rows[k].createdAt || (rows[i].createdAt == rows[k].createdAt && i <= k)
  }

  predicate DueAt(r: Row, at: Option<int>) {
    r.status == Queued && !(at.Some? && r.notBefore.Some? && r.notBefore.value > at.value)
  }

  lemma OldestIsDue(rows: seq<Row>, skip: set<nat>, at: Option<int>, i: nat)
    ensures IsOldest(rows, skip, at, i) <==> OldestDue(rows, skip, at, i)
  {
    assert forall k: nat :: Candidate(rows, skip, at, k) <==> k < |rows| && k !in skip && DueAt(rows[k], at);
  }

  // ----- the benchmark's transaction -----------------------------------------------------------------

  class Table {
    var rows: seq<Row>

    constructor (rows: seq<Row>)
      ensures this.rows == rows
    {
      this.rows := rows;
    }

    /** One claim statement, with `skip` the rows other transactions hold locks on. */
    method ClaimOldest(skip: set<nat>, at: Option<int>) returns (id: Option<nat>)
      modifies this
      ensures id.None? ==> rows == old(rows) && forall k :: !Candidate(rows, skip, at, k)
      ensures id.Some? ==> IsOldest(old(rows), skip, at, id.value)
      ensures id.Some? ==> OldestDue(old(rows), skip, at, id.value)
      ensures id.Some? ==> rows == old(rows)[id.value := old(rows)[id.value].(status := Running)]
    {
      id := None;
      for i := 0 to |rows|
        invariant rows == old(rows)
        invariant id.None? ==> forall k | 0 <= k < i :: !Candidate(rows, skip, at, k)
        invariant id.Some? ==> id.value < i && Candidate(rows, skip, at, id.value)
        invariant id.Some? ==> forall k | 0 <= k < i && Candidate(rows, skip, at, k) && k != id.value ::
          Before(rows, id.value, k)
      {
        if Candidate(rows, skip, at, i) && (id.None? || Before(rows, i, id.value)) {
          id := Some(i);
        }
      }
      if id.Some? {
        OldestIsDue(rows, skip, at, id.value);
        rows := rows[id.value := rows[id.value].(status := Running)];
      }
    }

    /**
     `measure_worker_claim_throughput`: insert `iterations` queued rows, claim as many, roll back. The claims
     always succeed, hit distinct rows in strictly ascending (created_at, id) order - the oldest rows there
     are - and leave the table as it was.
     */
    method MeasureClaims(iterations: nat, now: int, skip: set<nat>) returns (claimed: seq<nat>)
      requires forall i | i in skip :: i < |rows|
      modifies this
      ensures rows == old(rows)
      ensures |claimed| == iterations
      ensures var fixture := old(rows) + Fixture(iterations, now);
        && (forall n | 0 <= n < iterations :: Candidate(fixture, skip, None, claimed[n]))
        && (forall n, m | 0 <= n < m < iterations :: Before(fixture, claimed[n], claimed[m]))
        && (forall n, k | 0 <= n < iterations && Candidate(fixture, skip, None, k) && k !in claimed ::
              Before(fixture, claimed[n], k))
    {
      var saved := rows;
      rows := rows + Fixture(iterations, now);
      ghost var fixture := rows;
      claimed := [];
      for n := 0 to iterations
        invariant |claimed| == n && |rows| == |fixture|
        invariant forall k | 0 <= k < |rows| ::
          rows[k] == if k in claimed then fixture[k].(status := Running) else fixture[k]
        invariant forall m | 0 <= m < n :: Candidate(fixture, skip, None, claimed[m])
        invariant forall m, l | 0 <= m < l < n :: Before(fixture, claimed[m], claimed[l])
        invariant forall m, k | 0 <= m < n && Candidate(fixture, skip, None, k) && k !in claimed ::
          Before(fixture, claimed[m], k)
      {
        var spare := SpareRow(claimed, |saved|, iterations);
        assert Candidate(rows, skip, None, spare);
        ghost var here := rows;
        var id := ClaimOldest(skip, None);
        forall k | Candidate(fixture, skip, None, k) && k !in claimed && k != id.value
          ensures Before(fixture, id.value, k)
        {
          assert Candidate(here, skip, None, k);
        }
        claimed := claimed + [id.value];
        assert forall k :: k in claimed <==> k in claimed[..n] || k == id.value;
      }
      rows := saved;
    }
  }

  function Fixture(iterations: nat, now: int): seq<Row> {
    seq(iterations, _ => Row(Queued, now, None))
  }

  // Fewer than `n` positions cannot cover the `n` positions from `first` on.
  lemma {:induction false} SpareRow(taken: seq<nat>, first: nat, n: nat) returns (spare: nat)
    requires |taken| < n
    ensures first <= spare < first + n && spare !in taken
    decreases n
  {
    spare := first;
    if first in taken {
      var i :| 0 <= i < |taken| && taken[i] == first;
      spare := SpareRow(taken[..i] + taken[i + 1..], first + 1, n - 1);
    }
  }

  // ----- many workers --------------------------------------------------------------------------------

  // Each worker has at most one open transaction; `open[w]` are the rows it has claimed and not committed,
  // `won[w]` the rows whose claim it committed and has not released since.
  datatype Pool = Pool(rows: seq<Row>, open: seq<seq<nat>>, won: seq<set<nat>>)

  datatype Event =
    | Enqueue(createdAt: int, notBefore: Option<int>)
    | Claim(worker: nat, id: nat, now: int)
    | Commit(worker: nat)
    | Rollback(worker: nat)
    | Release(worker: nat, id: nat, requeue: bool)

  ghost function Locked(p: Pool): set<nat> {
    set w, i | 0 <= w < |p.open| && 0 <= i < |p.open[w]| :: p.open[w][i]
  }

  function Mark(rows: seq<Row>, ids: seq<nat>, status: RowStatus): seq<Row> {
    seq(|rows|, i requires 0 <= i < |rows| => if i in ids then rows[i].(status := status) else rows[i])
  }

  ghost function Step(p: Pool, e: Event): Pool {
    match e
    case Enqueue(createdAt, notBefore) => p.(rows := p.rows + [Row(Queued, createdAt, notBefore)])
    case Claim(w, id, now) =>
      // A worker's own claims read as running inside its transaction, so it skips them like everyone else's.
      if w < |p.open| && IsOldest(p.rows, Locked(p), Some(now), id) then p.(open := p.open[w := p.open[w] + [id]])
      else p
    case Commit(w) =>
      if w < |p.open| && w < |p.won| then
        Pool(Mark(p.rows, p.open[w], Running), p.open[w := []], p.won[w := p.won[w] + set i | i in p.open[w]])
      else p
    case Rollback(w) => if w < |p.open| then p.(open := p.open[w := []]) else p
    case Release(w, id, requeue) =>
      if w < |p.won| && id in p.won[w] then
        p.(rows := Mark(p.rows, [id], if requeue then Queued else Finished), won := p.won[w := p.won[w] - {id}])
      else p
  }

  ghost function Run(p: Pool, es: seq<Event>): Pool
    decreases |es|
  {
    if es == [] then p else Run(Step(p, es[0]), es[1..])
  }

  // Does worker `w` hold row `id`, in its open transaction or by a committed claim?
  predicate Holds(p: Pool, w: nat, id: nat) {
    (w < |p.open| && id in p.open[w]) || (w < |p.won| && id in p.won[w])
  }

  ghost predicate OpenQueued(p: Pool) {
    forall w: nat, id: nat {:trigger id in p.open[w]} ::
      w < |p.open| && id in p.open[w] ==> id < |p.rows| && p.rows[id].status.Queued?
  }

  ghost predicate WonRunning(p: Pool) {
    forall w: nat, id: nat {:trigger id in p.won[w]} ::
      w < |p.won| && id in p.won[w] ==> id < |p.rows| && p.rows[id].status.Running?
  }

  ghost predicate NoneClaimedTwice(p: Pool) {
    forall w: nat, i: nat, k: nat :: w < |p.open| && i < k < |p.open[w]| ==> p.open[w][i] != p.open[w][k]
  }

  ghost predicate OneHolder(p: Pool) {
    forall v: nat, w: nat, id: nat :: Holds(p, v, id) && Holds(p, w, id) ==> v == w
  }

  ghost predicate Exclusive(p: Pool) {
    |p.open| == |p.won| && OpenQueued(p) && WonRunning(p) && NoneClaimedTwice(p) && OneHolder(p)
  }

  lemma CommitExclusive(p: Pool, w: nat)
    requires Exclusive(p) && w < |p.open|
    ensures Exclusive(Step(p, Commit(w)))
  {
    var q := Step(p, Commit(w));
    assert forall v: nat, k: nat :: Holds(q, v, k) ==> Holds(p, v, k);
    forall v: nat, k: nat | v < |q.open| && k in q.open[v] ensures k < |q.rows| && q.rows[k].status.Queued? {
      assert k in p.open[v] && Holds(p, v, k) && !Holds(p, w, k);
    }
    forall v: nat, k: nat | v < |q.won| && k in q.won[v] ensures k < |q.rows| && q.rows[k].status.Running? {
      if v == w && k in p.open[w] {
        assert Holds(p, w, k);
      } else {
        assert k in p.won[v];
      }
    }
  }

  lemma ClaimExclusive(p: Pool, w: nat, id: nat, now: int)
    requires Exclusive(p) && w < |p.open| && IsOldest(p.rows, Locked(p), Some(now), id)
    ensures Exclusive(Step(p, Claim(w, id, now)))
  {
    var q := Step(p, Claim(w, id, now));
    assert forall v | 0 <= v < |p.open| :: id !in p.open[v] by {
      forall v, i | 0 <= v < |p.open| && 0 <= i < |p.open[v]| ensures p.open[v][i] != id {
        assert p.open[v][i] in Locked(p);
      }
    }
    assert forall v :: !Holds(p, v, id);
    assert forall v: nat, k: nat :: Holds(q, v, k) ==> Holds(p, v, k) || (v == w && k == id);
  }

  lemma ReleaseExclusive(p: Pool, w: nat, id: nat, requeue: bool)
    requires Exclusive(p) && w < |p.won| && id in p.won[w]
    ensures Exclusive(Step(p, Release(w, id, requeue)))
  {
    var q := Step(p, Release(w, id, requeue));
    assert forall v: nat, k: nat :: Holds(q, v, k) ==> Holds(p, v, k);
    assert Holds(p, w, id);
    forall v: nat, k: nat | v < |q.open| && k in q.open[v] ensures k < |q.rows| && q.rows[k].status.Queued? {
      assert Holds(p, v, k);
    }
    forall v: nat, k: nat | v < |q.won| && k in q.won[v] ensures k < |q.rows| && q.rows[k].status.Running? {
      assert Holds(p, v, k);
      assert k != id;
    }
  }

  lemma StepExclusive(p: Pool, e: Event)
    requires Exclusive(p)
    ensures Exclusive(Step(p, e))
  {
    var q := Step(p, e);
    if q != p {
      match e
      case Enqueue(_, _) =>
        assert forall w: nat, id: nat :: Holds(q, w, id) == Holds(p, w, id);
      case Claim(w, id, now) => ClaimExclusive(p, w, id, now);
      case Commit(w) => CommitExclusive(p, w);
      case Rollback(w) =>
        assert forall v: nat, k: nat :: Holds(q, v, k) ==> Holds(p, v, k);
      case Release(w, id, requeue) => ReleaseExclusive(p, w, id, requeue);
    }
  }

  /**
   Over every interleaving of claims, commits, crashes and releases, no row is ever held by two workers, no
   transaction claims a row twice, and a row under an open claim is still queued for everyone else.
   */
  lemma {:induction false} ClaimsAreExclusive(p: Pool, es: seq<Event>)
    requires Exclusive(p)
    ensures Exclusive(Run(p, es))
    decreases |es|
  {
    if es != [] {
      StepExclusive(p, es[0]);
      ClaimsAreExclusive(Step(p, es[0]), es[1..]);
    }
  }

  /** A crash before commit gives the rows back: they are queued and claimable again. */
  lemma RollbackRestores(p: Pool, w: nat, id: nat)
    requires Exclusive(p) && w < |p.open| && id in p.open[w]
    ensures var q := Step(p, Rollback(w));
      && q.rows == p.rows
      && Candidate(q.rows, Locked(q), None, id)
      && (forall v | 0 <= v < |p.open| && v != w :: q.open[v] == p.open[v])
  {
    var q := Step(p, Rollback(w));
    if id in Locked(q) {
      var v, i :| 0 <= v < |q.open| && 0 <= i < |q.open[v]| && q.open[v][i] == id;
      assert p.open[v][i] == id;
      assert Holds(p, v, id) && Holds(p, w, id);
    }
  }

  /**
   A worker that releases a row it won either puts it back, so that it can be claimed again by anybody once it is
   due, or finishes it for good; it holds it no longer, and no other row changes.
   */
  lemma ReleaseHandsBack(p: Pool, w: nat, id: nat, requeue: bool, at: Option<int>)
    requires Exclusive(p) && w < |p.won| && id in p.won[w]
    ensures var q := Step(p, Release(w, id, requeue));
      && !Holds(q, w, id) && q.open == p.open && |q.rows| == |p.rows| && id < |p.rows|
      && (forall k | 0 <= k < |p.rows| && k != id :: q.rows[k] == p.rows[k])
      && (Candidate(q.rows, Locked(q), at, id) <==> requeue && DueAt(p.rows[id].(status := Queued), at))
  {
    assert Holds(p, w, id);
    forall v, i | 0 <= v < |p.open| && 0 <= i < |p.open[v]| ensures p.open[v][i] != id {
      assert p.open[v][i] in p.open[v];
    }
  }

  // A row that is added is queued, and free for every worker once it is due.
  lemma EnqueueAdds(p: Pool, createdAt: int, notBefore: Option<int>, at: Option<int>)
    requires Exclusive(p)
    ensures var q := Step(p, Enqueue(createdAt, notBefore));
      && |q.rows| == |p.rows| + 1 && q.rows[..|p.rows|] == p.rows && q.rows[|p.rows|].createdAt == createdAt
      && (Candidate(q.rows, Locked(q), at, |p.rows|) <==> at.None? || notBefore.None? || notBefore.value <= at.value)
  {
    forall v, i | 0 <= v < |p.open| && 0 <= i < |p.open[v]| ensures p.open[v][i] != |p.rows| {
      assert p.open[v][i] in p.open[v];
    }
  }

  // A worker's claim and its commit in one go: the row it wins is the oldest free one at that moment.
  lemma CommittedClaimRuns(p: Pool, w: nat, id: nat, now: int)
    requires Exclusive(p) && w < |p.open| && IsOldest(p.rows, Locked(p), Some(now), id)
    ensures var q := Step(Step(p, Claim(w, id, now)), Commit(w));
      id < |q.rows| && q.rows[id].status.Running? && id in q.won[w] && forall v | v != w :: !Holds(q, v, id)
  {}
}
