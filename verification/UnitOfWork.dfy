/**
 The unit of work: one pooled connection and one transaction per application operation, the capabilities
 bound to it, and the workflows that run several owners' steps inside it.
 */
module UnitOfWork {
  import opened Prelude

  // ----- capabilities bound to a connection ------------------------------------------------------------

  datatype Instance = Instance(capability: nat, connection: nat, serial: nat)

  datatype BindError = NotRegistered | FactoryFailed

  /** `TransactionBindings`: each capability is built at most once, on this transaction's connection. */
  class TransactionBindings {
    const connection: nat
    const factories: set<nat>
    var instances: map<nat, Instance>
    // Every factory call that returned, in order.
    var built: seq<nat>

    ghost predicate Valid()
      reads this
    {
      && (forall c :: c in instances <==> c in built)
      && (forall i, k | 0 <= i < k < |built| :: built[i] != built[k])
      && (forall c | c in instances ::
           c in factories && instances[c].capability == c && instances[c].connection == connection)
    }

    constructor (connection: nat, factories: set<nat>)
      ensures Valid() && this.connection == connection && this.factories == factories && built == []
    {
      this.connection, this.factories := connection, factories;
      instances, built := map[], [];
    }

    method Bind(capability: nat, factoryFails: bool) returns (r: Result<Instance, BindError>)
      requires Valid()
      modifies this
      ensures Valid()
      ensures r.Ok? ==> capability in instances && r.value == instances[capability] && r.value.connection == connection
      ensures old(capability in instances) ==> r.Ok? && instances == old(instances) && built == old(built)
      ensures old(capability !in instances) ==>
        && (r.Ok? <==> capability in factories && !factoryFails)
        && (r.Err? ==> instances == old(instances) && built == old(built))
        && (r.Err? ==> r.error == if capability in factories then FactoryFailed else NotRegistered)
        && (r.Ok? ==> built == old(built) + [capability] && instances - {capability} == old(instances))
    {
      if capability !in instances {
        if capability !in factories {
          return Err(NotRegistered);
        }
        if factoryFails {
          return Err(FactoryFailed);
        }
        instances := instances[capability := Instance(capability, connection, |built|)];
        built := built + [capability];
      }
      r := Ok(instances[capability]);
    }
  }

  // ----- the unit of work ------------------------------------------------------------------------------

  class Pool {
    var free: nat
    var held: nat

    constructor (size: nat)
      ensures free == size && held == 0
    {
      free, held := size, 0;
    }
  }

  class Database<D> {
    var state: D

    constructor (state: D)
      ensures this.state == state
    {
      this.state := state;
    }
  }

  // What the server and the driver do: whether a connection and a transaction can be had, whether a commit
  // takes effect, and whether it is reported as done. A commit that is reported has taken effect.
  datatype Weather = Weather(acquires: bool, begins: bool, commits: bool, reported: bool)

  type Conditions = w: Weather | w.reported ==> w.commits witness Weather(true, true, true, true)

  /** `AsyncpgUnitOfWork`. `view` is the state its transaction sees. */
  class UnitOfWork<D> {
    const pool: Pool
    const db: Database<D>
    const factories: set<nat>
    var view: D
    var entered: bool
    var transaction: TransactionBindings?

    constructor (pool: Pool, db: Database<D>, factories: set<nat>)
      ensures this.pool == pool && this.db == db && this.factories == factories && !entered
    {
      this.pool, this.db, this.factories, view, entered := pool, db, factories, db.state, false;
      transaction := null;
    }

    // Inside a unit of work the capabilities are bound to its own connection.
    ghost predicate Binding()
      reads this, transaction
    {
      transaction != null && transaction.Valid() && transaction.factories == factories
    }

    /** `__aenter__`: the connection is only given back by `__aexit__`, so a failing begin keeps it. */
    method Enter(w: Conditions) returns (ok: bool)
      requires !entered
      modifies this, pool
      ensures entered == ok
      ensures ok ==> view == db.state && Binding() && fresh(transaction) && transaction.built == []
      ensures pool.free + pool.held == old(pool.free + pool.held)
      ensures ok <==> old(pool.free) > 0 && w.acquires && w.begins
      ensures pool.held == old(pool.held) + (if old(pool.free) > 0 && w.acquires then 1 else 0)
    {
      ok := false;
      if pool.free > 0 && w.acquires {
        pool.free, pool.held := pool.free - 1, pool.held + 1;
        if w.begins {
          transaction := new TransactionBindings(pool.held, factories);
          view, entered, ok := db.state, true, true;
        }
      }
    }

    /** `__aexit__`: commit or roll back, then release the connection whatever happened. */
    method Exit(success: bool, w: Conditions) returns (raised: bool)
      requires entered && pool.held > 0
      modifies `entered, pool, db
      ensures !entered
      ensures pool.held == old(pool.held) - 1 && pool.free == old(pool.free) + 1
      ensures db.state == if success && w.commits then old(view) else old(db.state)
      ensures raised <==> success && !w.reported
    {
      if success && w.commits {
        db.state := view;
      }
      raised := success && !w.reported;
      entered := false;
      pool.free, pool.held := pool.free + 1, pool.held - 1;
    }

    /**
     An operation: any sequence of capabilities bound and called, each of which may raise, inside one unit of
     work. The database ends with either all of their effects or none; success is only reported for all; exactly
     the capabilities called are built, each once; and the connection goes back exactly when the unit was entered.
     */
    method Run(calls: seq<Call<D>>, w: Conditions) returns (ok: bool)
      requires !entered
      modifies this, pool, db
      ensures !entered
      ensures db.state == old(db.state) || Some(db.state) == All(calls, factories, {}, old(db.state))
      ensures ok ==> Some(db.state) == All(calls, factories, {}, old(db.state))
      ensures ok <==>
        && old(pool.free) > 0 && w.acquires && w.begins && w.reported
        && All(calls, factories, {}, old(db.state)).Some?
      ensures ok ==> Binding() && transaction.instances.Keys == Capabilities(calls)
      ensures pool.free + pool.held == old(pool.free + pool.held)
      ensures pool.held == old(pool.held) + (if old(pool.free) > 0 && w.acquires && !w.begins then 1 else 0)
    {
      ok := Enter(w);
      if !ok {
        return;
      }
      var raised := CallAll(calls);
      var failed := Exit(!raised, w);
      ok := !raised && !failed;
    }

    method CallAll(calls: seq<Call<D>>) returns (raised: bool)
      requires entered && Binding() && transaction.built == []
      modifies `view, transaction
      ensures Binding() && transaction == old(transaction)
      ensures raised <==> All(calls, factories, {}, old(view)).None?
      ensures !raised ==> Some(view) == All(calls, factories, {}, old(view))
      ensures !raised ==> transaction.instances.Keys == Capabilities(calls)
    {
      assert transaction.instances.Keys == {};
      raised := false;
      var i := 0;
      while i < |calls| && !raised
        invariant 0 <= i <= |calls| && entered && Binding() && transaction == old(transaction)
        invariant raised ==> All(calls, factories, {}, old(view)).None?
        invariant !raised ==> Some(view) == All(calls[..i], factories, {}, old(view))
        invariant !raised ==> transaction.instances.Keys == Capabilities(calls[..i])
      {
        CallAfter(calls, i, factories, old(view));
        raised := CallOne(calls[i]);
        i := i + 1;
      }
      assert calls[..|calls|] == calls;
    }

    // Bind the capability, then call it.
    method CallOne(c: Call<D>) returns (raised: bool)
      requires entered && Binding()
      modifies `view, transaction
      ensures Binding() && transaction == old(transaction)
      ensures raised <==>
        !Binds(c, factories, old(transaction.instances.Keys)) || c.effect(old(view)).None?
      ensures !raised ==>
        Some(view) == c.effect(old(view))
        && transaction.instances.Keys == old(transaction.instances.Keys) + {c.capability}
    {
      var api := transaction.Bind(c.capability, !c.builds);
      if api.Err? {
        return true;
      }
      var next := c.effect(view);
      if next.None? {
        return true;
      }
      view := next.value;
      raised := false;
    }
  }

  // A call of a capability: whether its factory works when it is first bound, and what the call does
  datatype Call<!D> = Call(capability: nat, builds: bool, effect: D -> Option<D>)

  predicate Binds<D>(c: Call<D>, factories: set<nat>, bound: set<nat>) {
    c.capability in bound || (c.capability in factories && c.builds)
  }

  // The effect of all calls in turn, if none raises
  function All<D>(calls: seq<Call<D>>, factories: set<nat>, bound: set<nat>, d: D): Option<D>
    decreases |calls|
  {
    if calls == [] then Some(d)
    else if !Binds(calls[0], factories, bound) then None
    else
      var next := calls[0].effect(d);
      if next.None? then None else All(calls[1..], factories, bound + {calls[0].capability}, next.value)
  }

  ghost function Capabilities<D>(calls: seq<Call<D>>): set<nat> {
    set c | c in calls :: c.capability
  }

  /** One unit of work over two sequences of calls has the effect of both in turn, or none. */
  lemma {:induction false} AllAppend<D>(
      first: seq<Call<D>>, second: seq<Call<D>>, factories: set<nat>, bound: set<nat>, d: D)
    ensures var half := All(first, factories, bound, d);
      All(first + second, factories, bound, d) ==
        if half.None? then None else All(second, factories, bound + Capabilities(first), half.value)
    decreases |first|
  {
    if first == [] {
      assert first + second == second && bound + Capabilities(first) == bound;
    } else {
      assert (first + second)[1..] == first[1..] + second;
      if Binds(first[0], factories, bound) && first[0].effect(d).Some? {
        AllAppend(first[1..], second, factories, bound + {first[0].capability}, first[0].effect(d).value);
        assert bound + {first[0].capability} + Capabilities(first[1..]) == bound + Capabilities(first) by {
          assert first == [first[0]] + first[1..];
        }
      }
    }
  }

  // What a unit of work has come to after `i` calls, call `i` takes one further or brings to nothing.
  lemma CallAfter<D>(calls: seq<Call<D>>, i: nat, factories: set<nat>, d: D)
    requires i < |calls|
    ensures var before := All(calls[..i], factories, {}, d);
      var raises := before.None?
        || !Binds(calls[i], factories, Capabilities(calls[..i])) || calls[i].effect(before.value).None?;
      && (raises ==> All(calls, factories, {}, d).None? && All(calls[..i + 1], factories, {}, d).None?)
      && (!raises ==> All(calls[..i + 1], factories, {}, d) == calls[i].effect(before.value))
    ensures Capabilities(calls[..i + 1]) == Capabilities(calls[..i]) + {calls[i].capability}
  {
    var one := [calls[i]];
    assert calls[..i + 1] == calls[..i] + one && calls == calls[..i + 1] + calls[i + 1..];
    AllAppend(calls[..i], one, factories, {}, d);
    AllAppend(calls[..i + 1], calls[i + 1..], factories, {}, d);
    assert one[1..] == [];
  }

  // ----- workflows over several owners -------------------------------------------------------------------

  datatype Novel = Novel(title: nat, owner: Option<nat>)

  datatype Source = Source(novel: nat, url: nat)

  datatype Catalog = Catalog(
    novels: map<nat, Novel>, library: set<(nat, nat)>, sources: map<nat, Source>, importJobs: map<nat, Option<nat>>)

  // Every row refers to a novel that exists (the foreign keys).
  ghost predicate Referential(c: Catalog) {
    && (forall e | e in c.library :: e.1 in c.novels)
    && (forall s | s in c.sources :: c.sources[s].novel in c.novels)
    && (forall j | j in c.importJobs && c.importJobs[j].Some? :: c.importJobs[j].value in c.novels)
  }

  // A foreign key with `ON DELETE CASCADE`.
  function WithoutNovel(c: Catalog, n: nat): Catalog {
    Catalog(c.novels - {n}, set e | e in c.library && e.1 != n,
            map s | s in c.sources && c.sources[s].novel != n :: c.sources[s],
      map j | j in c.importJobs && c.importJobs[j] != Some(n) :: c.importJobs[j])
  }

  const CATALOG := 0
  const ACQUISITION := 1

  // The two capabilities can be had: they are registered and their factories work.
  predicate Works(uow: UnitOfWork<Catalog>, capability: nat, builds: set<nat>) {
    capability in uow.factories && capability in builds
  }

  /**
   `create_novel_with_source`: novel, library entry for its owner, and source, all or none, also where the outcome
   of the commit is not reported. `fails` says at which capability call, if any, the workflow raises, and `builds`
   which factories work.
   */
  method CreateNovelWithSource(uow: UnitOfWork<Catalog>, owner: Option<nat>, title: nat, source: Option<nat>,
      novelId: nat, sourceId: nat, fails: nat, builds: set<nat>, w: Conditions) returns (r: Option<(nat, Option<nat>)>)
    requires !uow.entered && Referential(uow.db.state)
    requires novelId !in uow.db.state.novels && sourceId !in uow.db.state.sources
    modifies uow, uow.pool, uow.db
    ensures Referential(uow.db.state)
    ensures r.Some? ==>
      && r.value == (novelId, if source.Some? then Some(sourceId) else None)
      && uow.db.state == WithNovel(old(uow.db.state), novelId, Novel(title, owner), sourceId, source)
      && Added(old(uow.db.state), uow.db.state, novelId, title, owner, sourceId, source)
    ensures r.Some? <==>
      && old(uow.pool.free) > 0 && w.acquires && w.begins && w.reported
      && Works(uow, CATALOG, builds) && fails != 0 && (owner.Some? ==> fails != 1)
      && (source.Some? ==> Works(uow, ACQUISITION, builds) && fails != 2)
    ensures r.None? && !(w.commits && !w.reported) ==> uow.db.state == old(uow.db.state)
    ensures
      || uow.db.state == old(uow.db.state)
      || uow.db.state == WithNovel(old(uow.db.state), novelId, Novel(title, owner), sourceId, source)
    ensures w.begins ==> uow.pool.held == old(uow.pool.held)
  {
    r := None;
    ghost var before := uow.db.state;
    var ok := uow.Enter(w);
    if !ok {
      return;
    }
    var raised := CreateRows(uow, owner, title, source, novelId, sourceId, fails, builds);
    var failed := uow.Exit(!raised, w);
    if !raised && !failed {
      r := Some((novelId, if source.Some? then Some(sourceId) else None));
    }
    NovelStaysReferential(before, novelId, Novel(title, owner), sourceId, source);
  }

  // The body of the workflow
  method CreateRows(uow: UnitOfWork<Catalog>, owner: Option<nat>, title: nat, source: Option<nat>,
      novelId: nat, sourceId: nat, fails: nat, builds: set<nat>) returns (raised: bool)
    requires uow.entered && uow.Binding() && uow.transaction.built == []
    modifies uow`view, uow.transaction
    ensures raised <==>
      || !Works(uow, CATALOG, builds) || fails == 0 || (owner.Some? && fails == 1)
      || (source.Some? && (!Works(uow, ACQUISITION, builds) || fails == 2))
    ensures !raised ==> uow.view == WithNovel(old(uow.view), novelId, Novel(title, owner), sourceId, source)
  {
    var catalog := uow.transaction.Bind(CATALOG, CATALOG !in builds);
    if catalog.Err? || fails == 0 {
      return true;
    }
    uow.view := uow.view.(novels := uow.view.novels[novelId := Novel(title, owner)]);
    if owner.Some? {
      if fails == 1 {
        return true;
      }
      uow.view := uow.view.(library := uow.view.library + {(owner.value, novelId)});
    }
    if source.Some? {
      var acquisition := uow.transaction.Bind(ACQUISITION, ACQUISITION !in builds);
      if acquisition.Err? || fails == 2 {
        return true;
      }
      uow.view := uow.view.(sources := uow.view.sources[sourceId := Source(novelId, source.value)]);
    }
    raised := false;
  }

  // The novel, its owner's library entry and its source are there, and nothing else is new or different.
  ghost predicate Added(c: Catalog, d: Catalog, novelId: nat, title: nat, owner: Option<nat>, sourceId: nat,
      source: Option<nat>) {
    && (forall n :: n in d.novels <==> n in c.novels || n == novelId)
    && (forall n | n in d.novels :: d.novels[n] == if n == novelId then Novel(title, owner) else c.novels[n])
    && (forall e :: e in d.library <==> e in c.library || (owner == Some(e.0) && e.1 == novelId))
    && (forall s :: s in d.sources <==> s in c.sources || (s == sourceId && source.Some?))
    && (forall s | s in d.sources ::
          d.sources[s] == if s == sourceId && source.Some? then Source(novelId, source.value) else c.sources[s])
    && d.importJobs == c.importJobs
  }

  lemma NovelStaysReferential(c: Catalog, novelId: nat, novel: Novel, sourceId: nat, source: Option<nat>)
    requires Referential(c)
    ensures Referential(WithNovel(c, novelId, novel, sourceId, source))
    ensures
      Added(c, WithNovel(c, novelId, novel, sourceId, source), novelId, novel.title, novel.owner, sourceId, source)
  {}

  function WithNovel(c: Catalog, novelId: nat, novel: Novel, sourceId: nat, source: Option<nat>): Catalog {
    Catalog(c.novels[novelId := novel],
            c.library + (if novel.owner.Some? then {(novel.owner.value, novelId)} else {}),
            if source.Some? then c.sources[sourceId := Source(novelId, source.value)] else c.sources,
            c.importJobs)
  }

  datatype Access = NotFound | Forbidden | Editable

  // Why a deletion was not reported as done: the access check, or anything else that raised
  datatype Refusal = Denied(access: Access) | Raised

  /**
   `delete_novel`: the ids it answers with, for cleaning up files, are exactly the import jobs that the
   deletion removes; nothing of any other novel is touched; and a refusal, or a failure of any binding or call,
   deletes nothing.
   */
  method DeleteNovel(uow: UnitOfWork<Catalog>, novel: nat, access: Access, fails: nat, builds: set<nat>, w: Conditions)
    returns (r: Result<set<nat>, Refusal>)
    requires !uow.entered && Referential(uow.db.state)
    requires access.Editable? ==> novel in uow.db.state.novels
    modifies uow, uow.pool, uow.db
    ensures Referential(uow.db.state)
    ensures r.Ok? ==>
      && uow.db.state == WithoutNovel(old(uow.db.state), novel) && novel !in uow.db.state.novels
      && (forall j :: j in r.value <==> j in old(uow.db.state.importJobs) && j !in uow.db.state.importJobs)
      && Untouched(old(uow.db.state), uow.db.state, novel)
    ensures r.Ok? <==>
      && old(uow.pool.free) > 0 && w.acquires && w.begins && w.reported
      && Works(uow, CATALOG, builds) && access.Editable? && Works(uow, ACQUISITION, builds) && fails != 1 && fails != 2
    ensures r.Err? && !(w.commits && !w.reported) ==> uow.db.state == old(uow.db.state)
    ensures r.Err? && r.error.Denied? ==>
      uow.db.state == old(uow.db.state) && r.error.access == access && !access.Editable?
    ensures uow.db.state == old(uow.db.state) || uow.db.state == WithoutNovel(old(uow.db.state), novel)
    ensures w.begins ==> uow.pool.held == old(uow.pool.held)
  {
    r := Err(Raised);
    ghost var before := uow.db.state;
    var ok := uow.Enter(w);
    if !ok {
      return;
    }
    var answer := DeleteRows(uow, novel, access, fails, builds);
    var failed := uow.Exit(answer.Ok?, w);
    r := if failed then Err(Raised) else answer;
    WithoutIsUntouched(before, novel);
  }

  method DeleteRows(uow: UnitOfWork<Catalog>, novel: nat, access: Access, fails: nat, builds: set<nat>)
    returns (r: Result<set<nat>, Refusal>)
    requires uow.entered && uow.Binding() && uow.transaction.built == []
    modifies uow`view, uow.transaction
    ensures r.Ok? <==>
      Works(uow, CATALOG, builds) && access.Editable? && Works(uow, ACQUISITION, builds) && fails != 1 && fails != 2
    ensures r.Ok? ==> uow.view == WithoutNovel(old(uow.view), novel) && r.value == JobsOf(old(uow.view), novel)
    ensures r.Err? && r.error.Denied? ==> r.error.access == access && !access.Editable?
  {
    var catalog := uow.transaction.Bind(CATALOG, CATALOG !in builds);
    if catalog.Err? {
      return Err(Raised);
    }
    if !access.Editable? {
      return Err(Denied(access));
    }
    var acquisition := uow.transaction.Bind(ACQUISITION, ACQUISITION !in builds);
    if acquisition.Err? || fails == 1 {
      return Err(Raised);
    }
    r := Ok(JobsOf(uow.view, novel));
    if fails == 2 {
      return Err(Raised);
    }
    uow.view := WithoutNovel(uow.view, novel);
  }

  function JobsOf(c: Catalog, novel: nat): set<nat> {
    set j | j in c.importJobs && c.importJobs[j] == Some(novel)
  }

  lemma WithoutIsUntouched(c: Catalog, novel: nat)
    requires Referential(c)
    ensures Referential(WithoutNovel(c, novel)) && Untouched(c, WithoutNovel(c, novel), novel)
    ensures forall j :: j in JobsOf(c, novel) <==> j in c.importJobs && j !in WithoutNovel(c, novel).importJobs
  {}

  // Everything of other novels is as it was.
  ghost predicate Untouched(c: Catalog, d: Catalog, novel: nat) {
    && (forall n | n in c.novels && n != novel :: n in d.novels && d.novels[n] == c.novels[n])
    && (forall e | e in c.library && e.1 != novel :: e in d.library)
    && (forall j | j in c.importJobs && c.importJobs[j] != Some(novel) ::
          j in d.importJobs && d.importJobs[j] == c.importJobs[j])
    && (forall s | s in c.sources :: s in d.sources <==> c.sources[s].novel != novel)
  }
}
