/** The order in which the application's hooks start and stop, whatever they raise. */
module Lifecycle {
  import opened Prelude

  // A hook by name; `starts` and `stops` say whether it has a callback for that.
  datatype Hook = Hook(name: string, starts: bool, stops: bool, fatal: bool, order: int)

  // How a callback ends. Only failures are caught, not cancellations.
  datatype Signal = Returned | Failed | Canceled

  function Names(hooks: seq<Hook>): seq<string> {
    seq(|hooks|, i requires 0 <= i < |hooks| => hooks[i].name)
  }

  ghost predicate Distinct(names: seq<string>) {
    forall i, j | 0 <= i < j < |names| :: names[i] != names[j]
  }

  // `len(names) != len(set(names))` finds every repeated name.
  lemma {:induction false} CountFindsRepeats(names: seq<string>)
    ensures |set n | n in names| <= |names|
    ensures |set n | n in names| == |names| <==> Distinct(names)
  {
    if names == [] {
      assert (set n | n in names) == {};
    } else {
      var last, front := names[|names| - 1], names[..|names| - 1];
      CountFindsRepeats(front);
      assert names == front + [last];
      assert (set n | n in names) == (set n | n in front) + {last};
      if last in front {
        assert (set n | n in names) == (set n | n in front);
      }
    }
  }

  // ----- `sorted(…, key=shutdown_order)` --------------------------------------------------------------

  function Insert(h: Hook, hs: seq<Hook>): seq<Hook> {
    if hs == [] || h.order <= hs[0].order then [h] + hs else [hs[0]] + Insert(h, hs[1..])
  }

  function Sorted(hs: seq<Hook>): seq<Hook> {
    if hs == [] then [] else Insert(hs[0], Sorted(hs[1..]))
  }

  function OfOrder(hs: seq<Hook>, order: int): seq<Hook> {
    if hs == [] then [] else (if hs[0].order == order then [hs[0]] else []) + OfOrder(hs[1..], order)
  }

  ghost predicate Ascending(hs: seq<Hook>) {
    forall i, j | 0 <= i < j < |hs| :: hs[i].order <= hs[j].order
  }

  // `r` holds the hooks of `hs` in ascending order, those of equal order as they stood in `hs`.
  ghost predicate StablySorted(hs: seq<Hook>, r: seq<Hook>) {
    Ascending(r) && forall o: int :: OfOrder(r, o) == OfOrder(hs, o)
  }

  lemma {:induction false} InsertAdds(h: Hook, hs: seq<Hook>)
    ensures multiset(Insert(h, hs)) == multiset(hs) + multiset{h}
  {
    if hs != [] && h.order > hs[0].order {
      InsertAdds(h, hs[1..]);
      assert hs == [hs[0]] + hs[1..];
    }
  }

  lemma {:induction false} InsertAscends(h: Hook, hs: seq<Hook>)
    requires Ascending(hs)
    ensures Ascending(Insert(h, hs))
  {
    if hs != [] && h.order > hs[0].order {
      var rest := Insert(h, hs[1..]);
      InsertAscends(h, hs[1..]);
      InsertAdds(h, hs[1..]);
      forall i | 0 <= i < |rest| ensures hs[0].order <= rest[i].order {
        assert rest[i] in multiset(hs[1..]) + multiset{h};
        assert rest[i] in hs[1..] || rest[i] == h;
      }
    }
  }

  lemma OfOrderCons(h: Hook, hs: seq<Hook>, order: int)
    ensures OfOrder([h] + hs, order) == (if h.order == order then [h] else []) + OfOrder(hs, order)
  {}

  lemma {:induction false} InsertIsStable(h: Hook, hs: seq<Hook>, order: int)
    ensures OfOrder(Insert(h, hs), order) == (if h.order == order then [h] else []) + OfOrder(hs, order)
  {
    if hs == [] || h.order <= hs[0].order {
      OfOrderCons(h, hs, order);
    } else {
      InsertIsStable(h, hs[1..], order);
      OfOrderCons(hs[0], Insert(h, hs[1..]), order);
    }
  }

  lemma {:induction false} SortedIsStable(hs: seq<Hook>)
    ensures StablySorted(hs, Sorted(hs)) && multiset(Sorted(hs)) == multiset(hs)
  {
    if hs != [] {
      var rest := Sorted(hs[1..]);
      SortedIsStable(hs[1..]);
      assert hs == [hs[0]] + hs[1..];
      InsertAdds(hs[0], rest);
      InsertAscends(hs[0], rest);
      forall o: int ensures OfOrder(Sorted(hs), o) == OfOrder(hs, o) {
        InsertIsStable(hs[0], rest, o);
      }
    }
  }

  lemma {:induction false} OfOrderFinds(hs: seq<Hook>, order: int)
    ensures OfOrder(hs, order) != [] <==> exists h | h in hs :: h.order == order
    ensures OfOrder(hs, order) != [] && hs[0].order == order ==> OfOrder(hs, order)[0] == hs[0]
  {
    if hs != [] {
      OfOrderFinds(hs[1..], order);
      assert hs == [hs[0]] + hs[1..];
    }
  }

  lemma NoLaterHead(x: seq<Hook>, y: seq<Hook>)
    requires x != [] && y != [] && Ascending(y) && OfOrder(x, x[0].order) == OfOrder(y, x[0].order)
    ensures y[0].order <= x[0].order
  {}

  lemma EmptyAlone(a: seq<Hook>, b: seq<Hook>)
    requires forall o: int :: OfOrder(a, o) == OfOrder(b, o)
    ensures a == [] ==> b == []
  {
    if a == [] && b != [] {
      assert b[0] in b && OfOrder(a, b[0].order) == [];
      OfOrderFinds(b, b[0].order);
    }
  }

  lemma SameAfter(head: seq<Hook>, x: seq<Hook>, y: seq<Hook>)
    requires head + x == head + y
    ensures x == y
  {
    assert x == (head + x)[|head|..] == (head + y)[|head|..] == y;
  }

  /** There is only one stably sorted arrangement. */
  lemma {:induction false} StableOrderIsUnique(hs: seq<Hook>, a: seq<Hook>, b: seq<Hook>)
    requires StablySorted(hs, a) && StablySorted(hs, b)
    ensures a == b
    decreases |a|
  {
    if a == [] || b == [] {
      EmptyAlone(a, b);
      EmptyAlone(b, a);
    } else {
      NoLaterHead(a, b);
      NoLaterHead(b, a);
      OfOrderFinds(a, a[0].order);
      OfOrderFinds(b, a[0].order);
      assert a[0] == b[0];
      forall o: int ensures OfOrder(b[1..], o) == OfOrder(a[1..], o) {
        var head := if a[0].order == o then [a[0]] else [];
        assert OfOrder(a, o) == OfOrder(hs, o) == OfOrder(b, o);
        assert OfOrder(a, o) == head + OfOrder(a[1..], o) && OfOrder(b, o) == head + OfOrder(b[1..], o);
        SameAfter(head, OfOrder(a[1..], o), OfOrder(b[1..], o));
      }
      StableOrderIsUnique(a[1..], a[1..], b[1..]);
    }
  }

  // ----- running the hooks ----------------------------------------------------------------------------

  function Stopping(hs: seq<Hook>): (r: seq<Hook>)
    ensures forall h :: h in r <==> h in hs && h.stops
  {
    if hs == [] then [] else Stopping(hs[..|hs| - 1]) + if hs[|hs| - 1].stops then [hs[|hs| - 1]] else []
  }

  lemma ShutdownMembers(hs: seq<Hook>)
    ensures forall h :: h in Sorted(Stopping(hs)) <==> h in hs && h.stops
    ensures |Sorted(Stopping(hs))| == |Stopping(hs)|
  {
    var order := Sorted(Stopping(hs));
    SortedIsStable(Stopping(hs));
    assert forall h :: h in order <==> h in multiset(order);
    assert |multiset(order)| == |order| && |multiset(Stopping(hs))| == |Stopping(hs)|;
  }

  // The names of the hooks whose start callback is called when the first `k` hooks are attempted
  function Started(hs: seq<Hook>, k: nat): seq<string>
    requires k <= |hs|
  {
    if k == 0 then [] else Started(hs, k - 1) + if hs[k - 1].starts then [hs[k - 1].name] else []
  }

  // The names of the first `k` hooks
  function Called(hs: seq<Hook>, k: nat): seq<string>
    requires k <= |hs|
  {
    if k == 0 then [] else Called(hs, k - 1) + [hs[k - 1].name]
  }

  lemma {:induction false} CalledAreNames(hs: seq<Hook>, k: nat)
    requires k <= |hs|
    ensures Called(hs, k) == Names(hs)[..k]
  {
    if k > 0 {
      CalledAreNames(hs, k - 1);
    }
  }

  predicate EndsStart(h: Hook, s: string -> Signal) {
    h.starts && (s(h.name).Canceled? || (s(h.name).Failed? && h.fatal))
  }

  // Hook `k` is the first that ends the startup.
  ghost predicate FirstFatal(hs: seq<Hook>, s: string -> Signal, k: nat) {
    k < |hs| && EndsStart(hs[k], s) && forall i | 0 <= i < k :: !EndsStart(hs[i], s)
  }

  predicate Cancels(h: Hook, s: string -> Signal) {
    s(h.name).Canceled?
  }

  ghost predicate FirstCanceled(hs: seq<Hook>, s: string -> Signal, k: nat) {
    k < |hs| && Cancels(hs[k], s) && forall i | 0 <= i < k :: !Cancels(hs[i], s)
  }

  class ApplicationLifecycle {
    const hooks: seq<Hook>
    var called: seq<string>

    constructor (hooks: seq<Hook>)
      requires Distinct(Names(hooks))
      ensures this.hooks == hooks && called == []
    {
      this.hooks, called := hooks, [];
    }

    // The constructor's own check
    static method Assemble(hooks: seq<Hook>) returns (r: Option<ApplicationLifecycle>)
      ensures r.Some? <==> Distinct(Names(hooks))
      ensures r.Some? ==> fresh(r.value) && r.value.hooks == hooks && r.value.called == []
    {
      var names := Names(hooks);
      CountFindsRepeats(names);
      if |names| != |set n | n in names| {
        return None;
      }
      var made := new ApplicationLifecycle(hooks);
      r := Some(made);
    }

    function ShutdownOrder(): (r: seq<string>)
      ensures |r| == |Stopping(hooks)|
    {
      ShutdownMembers(hooks);
      Names(Sorted(Stopping(hooks)))
    }

    /**
     Of two registered hooks that have a stop, the one of lower order is called first, and if their orders are equal,
     the one registered first. Nothing else is called.
     */
    lemma ShutdownOrderIs(i: nat, k: nat)
      requires Distinct(Names(hooks)) && i < k < |hooks|
      ensures hooks[i].stops && hooks[k].stops ==>
        if hooks[i].order <= hooks[k].order then Precedes(ShutdownOrder(), hooks[i].name, hooks[k].name)
        else Precedes(ShutdownOrder(), hooks[k].name, hooks[i].name)
      ensures forall n :: n in ShutdownOrder() <==> HasStop(hooks, n)
      ensures Distinct(ShutdownOrder())
    {
      ShutdownIsExactlyOnce(hooks);
      NamesOfStops(hooks);
      if hooks[i].stops && hooks[k].stops {
        OrderIs(hooks, i, k);
      }
    }

    /** `start` attempts every hook, or exactly those up to the first that is cancelled or fails fatally. */
    method Start(s: string -> Signal) returns (r: Signal)
      modifies `called
      ensures r.Returned? ==> called == old(called) + Started(hooks, |hooks|)
      ensures r.Returned? <==> forall i | 0 <= i < |hooks| && hooks[i].starts ::
        s(hooks[i].name).Returned? || (s(hooks[i].name).Failed? && !hooks[i].fatal)
      ensures !r.Returned? ==> exists k: nat ::
        && FirstFatal(hooks, s, k) && r == s(hooks[k].name) && called == old(called) + Started(hooks, k + 1)
    {
      for i := 0 to |hooks|
        invariant called == old(called) + Started(hooks, i)
        invariant forall j | 0 <= j < i :: !EndsStart(hooks[j], s)
      {
        var hook := hooks[i];
        if hook.starts {
          called := called + [hook.name];
          var outcome := s(hook.name);
          if outcome.Canceled? || (outcome.Failed? && hook.fatal) {
            assert FirstFatal(hooks, s, i) && hooks[i].starts;
            return outcome;
          }
        }
      }
      r := Returned;
    }

    /**
     `stop` calls the hooks that have a stop in `shutdown_order`, each once. A failure does not end it; it runs to
     the end exactly when no hook is cancelled.
     */
    method Stop(s: string -> Signal) returns (r: Signal)
      modifies `called
      ensures r.Returned? <==> forall h | h in hooks && h.stops :: !s(h.name).Canceled?
      ensures r.Returned? ==> called == old(called) + ShutdownOrder()
      ensures !r.Returned? ==> exists k: nat ::
        && FirstCanceled(Sorted(Stopping(hooks)), s, k) && k < |ShutdownOrder()|
        && called == old(called) + ShutdownOrder()[..k + 1]
    {
      ShutdownMembers(hooks);
      r := CallInOrder(Sorted(Stopping(hooks)), s);
    }

    // The loop over the sorted hooks
    method CallInOrder(order: seq<Hook>, s: string -> Signal) returns (r: Signal)
      modifies `called
      ensures r.Returned? <==> forall h | h in order :: !Cancels(h, s)
      ensures r.Returned? ==> called == old(called) + Names(order)
      ensures !r.Returned? ==> r.Canceled? && exists k: nat ::
        FirstCanceled(order, s, k) && called == old(called) + Names(order)[..k + 1]
    {
      for i := 0 to |order|
        invariant called == old(called) + Called(order, i)
        invariant forall j | 0 <= j < i :: !Cancels(order[j], s)
      {
        var hook := order[i];
        called := called + [hook.name];
        if s(hook.name).Canceled? {
          assert Cancels(order[i], s) && FirstCanceled(order, s, i);
          CalledAreNames(order, i + 1);
          return Canceled;
        }
      }
      CalledAreNames(order, |order|);
      r := Returned;
    }
  }

  // `a` stands in the list before `b`.
  ghost predicate Precedes(names: seq<string>, a: string, b: string) {
    exists x, y :: 0 <= x < y < |names| && names[x] == a && names[y] == b
  }

  // The stops of the first `i` hooks come first among all stops.
  lemma {:induction false} StoppingPrefix(hs: seq<Hook>, i: nat)
    requires i <= |hs|
    ensures Stopping(hs[..i]) <= Stopping(hs)
  {
    if i == |hs| {
      assert hs[..i] == hs;
    } else {
      var front := hs[..|hs| - 1];
      assert front[..i] == hs[..i];
      StoppingPrefix(front, i);
    }
  }

  // A hook that has a stop stands there right after the stops of the hooks before it.
  lemma StoppingAt(hs: seq<Hook>, i: nat)
    requires i < |hs| && hs[i].stops
    ensures Stopping(hs[..i]) + [hs[i]] <= Stopping(hs)
  {
    var upTo := hs[..i + 1];
    assert upTo[..|upTo| - 1] == hs[..i] && upTo[|upTo| - 1] == hs[i];
    StoppingPrefix(hs, i + 1);
  }

  // The hooks at `i` and `k` are found in this order among those that have a stop.
  lemma StoppingInOrder(hs: seq<Hook>, i: nat, k: nat) returns (x: nat, y: nat)
    requires i < k < |hs| && hs[i].stops && hs[k].stops
    ensures x < y < |Stopping(hs)| && Stopping(hs)[x] == hs[i] && Stopping(hs)[y] == hs[k]
  {
    x, y := |Stopping(hs[..i])|, |Stopping(hs[..k])|;
    StoppingAt(hs, i);
    StoppingAt(hs, k);
    assert hs[..k][..i] == hs[..i];
    StoppingAt(hs[..k], i);
  }

  lemma {:induction false} OfOrderAppend(a: seq<Hook>, b: seq<Hook>, order: int)
    ensures OfOrder(a + b, order) == OfOrder(a, order) + OfOrder(b, order)
  {
    if a == [] {
      assert a + b == b;
    } else {
      var head := if a[0].order == order then [a[0]] else [];
      assert (a + b)[1..] == a[1..] + b;
      OfOrderAppend(a[1..], b, order);
      assert OfOrder(a + b, order) == head + OfOrder(a[1..] + b, order);
      Regroup(head, OfOrder(a[1..], order), OfOrder(b, order));
    }
  }

  lemma Regroup(a: seq<Hook>, b: seq<Hook>, c: seq<Hook>)
    ensures a + (b + c) == a + b + c
  {}

  // A hook stands among those of its order right after the ones before it.
  lemma OfOrderAt(hs: seq<Hook>, x: nat)
    requires x < |hs|
    ensures OfOrder(hs[..x], hs[x].order) + [hs[x]] <= OfOrder(hs, hs[x].order)
  {
    var o := hs[x].order;
    assert hs == hs[..x] + hs[x..];
    OfOrderAppend(hs[..x], hs[x..], o);
    assert OfOrder(hs[x..], o) == [hs[x]] + OfOrder(hs[x..][1..], o);
  }

  // The hooks of one order keep their places relative to each other.
  lemma OfOrderPlaces(hs: seq<Hook>, x: nat, y: nat) returns (u: nat, v: nat)
    requires x < y < |hs| && hs[x].order == hs[y].order
    ensures u < v < |OfOrder(hs, hs[x].order)|
    ensures OfOrder(hs, hs[x].order)[u] == hs[x] && OfOrder(hs, hs[x].order)[v] == hs[y]
  {
    u, v := |OfOrder(hs[..x], hs[x].order)|, |OfOrder(hs[..y], hs[y].order)|;
    OfOrderAt(hs, x);
    OfOrderAt(hs, y);
    assert hs[..y][..x] == hs[..x];
    OfOrderAt(hs[..y], x);
  }

  // Two places in the sequence of one order are two such places in the whole.
  lemma {:induction false} PlacesOfOrder(hs: seq<Hook>, o: int, u: nat, v: nat) returns (x: nat, y: nat)
    requires u < v < |OfOrder(hs, o)|
    ensures x < y < |hs| && hs[x] == OfOrder(hs, o)[u] && hs[y] == OfOrder(hs, o)[v]
  {
    if hs[0].order != o {
      x, y := PlacesOfOrder(hs[1..], o, u, v);
      x, y := x + 1, y + 1;
    } else if u > 0 {
      x, y := PlacesOfOrder(hs[1..], o, u - 1, v - 1);
      x, y := x + 1, y + 1;
    } else {
      y := PlaceOfOrder(hs[1..], o, v - 1);
      x, y := 0, y + 1;
    }
  }

  lemma {:induction false} PlaceOfOrder(hs: seq<Hook>, o: int, v: nat) returns (y: nat)
    requires v < |OfOrder(hs, o)|
    ensures y < |hs| && hs[y] == OfOrder(hs, o)[v]
  {
    if hs[0].order == o && v == 0 {
      y := 0;
    } else {
      y := PlaceOfOrder(hs[1..], o, if hs[0].order == o then v - 1 else v);
      y := y + 1;
    }
  }

  predicate HasStop(hs: seq<Hook>, name: string) {
    exists h | h in hs :: h.stops && h.name == name
  }

  lemma NamesOfStops(hs: seq<Hook>)
    ensures forall n :: n in Names(Sorted(Stopping(hs))) <==> HasStop(hs, n)
  {
    ShutdownMembers(hs);
    var order := Sorted(Stopping(hs));
    forall n ensures n in Names(order) <==> HasStop(hs, n) {
      if n in Names(order) {
        var j :| 0 <= j < |order| && Names(order)[j] == n;
        assert order[j] in order;
      }
      if h :| h in hs && h.stops && h.name == n {
        var j :| 0 <= j < |order| && order[j] == h;
        assert Names(order)[j] == n;
      }
    }
  }

  lemma OrderIs(hs: seq<Hook>, i: nat, k: nat)
    requires i < k < |hs| && hs[i].stops && hs[k].stops
    ensures var names := Names(Sorted(Stopping(hs)));
      if hs[i].order <= hs[k].order then Precedes(names, hs[i].name, hs[k].name)
      else Precedes(names, hs[k].name, hs[i].name)
  {
    if hs[i].order == hs[k].order {
      var p, q := StoppingInOrder(hs, i, k);
      EqualOrders(Stopping(hs), p, q);
    } else if hs[i].order < hs[k].order {
      LowerFirst(Stopping(hs), hs[i], hs[k]);
    } else {
      LowerFirst(Stopping(hs), hs[k], hs[i]);
    }
  }

  lemma EqualOrders(base: seq<Hook>, p: nat, q: nat)
    requires p < q < |base| && base[p].order == base[q].order
    ensures Precedes(Names(Sorted(base)), base[p].name, base[q].name)
  {
    var order, o := Sorted(base), base[p].order;
    SortedIsStable(base);
    assert OfOrder(order, o) == OfOrder(base, o);
    var u, v := OfOrderPlaces(base, p, q);
    var x, y := PlacesOfOrder(order, o, u, v);
    assert Names(order)[x] == base[p].name && Names(order)[y] == base[q].name;
  }

  lemma LowerFirst(base: seq<Hook>, a: Hook, b: Hook)
    requires a in base && b in base && a.order < b.order
    ensures Precedes(Names(Sorted(base)), a.name, b.name)
  {
    var order := Sorted(base);
    SortedIsStable(base);
    assert a in multiset(order) && b in multiset(order);
    var x :| 0 <= x < |order| && order[x] == a;
    var y :| 0 <= y < |order| && order[y] == b;
    assert Names(order)[x] == a.name && Names(order)[y] == b.name;
  }

  // The hooks attempted in startup, in the order they were registered
  lemma {:induction false} StartedInOrder(hs: seq<Hook>, n: nat, i: nat, k: nat) returns (x: nat, y: nat)
    requires i < k < n <= |hs| && hs[i].starts && hs[k].starts
    ensures x < y < |Started(hs, n)| && Started(hs, n)[x] == hs[i].name && Started(hs, n)[y] == hs[k].name
  {
    if k < n - 1 {
      x, y := StartedInOrder(hs, n - 1, i, k);
    } else {
      x := StartedHas(hs, n - 1, i);
      y := |Started(hs, n)| - 1;
    }
  }

  lemma {:induction false} StartedHas(hs: seq<Hook>, n: nat, i: nat) returns (x: nat)
    requires i < n <= |hs| && hs[i].starts
    ensures x < |Started(hs, n)| && Started(hs, n)[x] == hs[i].name
  {
    if i < n - 1 {
      x := StartedHas(hs, n - 1, i);
    } else {
      x := |Started(hs, n)| - 1;
    }
  }

  lemma {:induction false} StartedIsFrom(hs: seq<Hook>, n: nat, name: string)
    requires n <= |hs| && name in Started(hs, n)
    ensures exists i | 0 <= i < n :: hs[i].starts && hs[i].name == name
  {
    if name in Started(hs, n - 1) {
      StartedIsFrom(hs, n - 1, name);
    }
  }

  /** Startup calls the hooks that have a start, each once, in the order they were registered, and nothing else. */
  lemma StartupOrderIs(hs: seq<Hook>, n: nat, i: nat, k: nat)
    requires Distinct(Names(hs)) && i < k < n <= |hs|
    ensures hs[i].starts && hs[k].starts ==> Precedes(Started(hs, n), hs[i].name, hs[k].name)
    ensures forall name :: name in Started(hs, n) <==> exists j | 0 <= j < n :: hs[j].starts && hs[j].name == name
    ensures Distinct(Started(hs, n))
  {
    if hs[i].starts && hs[k].starts {
      var x, y := StartedInOrder(hs, n, i, k);
    }
    forall name ensures name in Started(hs, n) <==> exists j | 0 <= j < n :: hs[j].starts && hs[j].name == name {
      if j :| 0 <= j < n && hs[j].starts && hs[j].name == name {
        var x := StartedHas(hs, n, j);
      } else if name in Started(hs, n) {
        StartedIsFrom(hs, n, name);
      }
    }
    StartedOnce(hs, n);
  }

  lemma {:induction false} StartedOnce(hs: seq<Hook>, n: nat)
    requires Distinct(Names(hs)) && n <= |hs|
    ensures Distinct(Started(hs, n))
  {
    if n > 0 {
      StartedOnce(hs, n - 1);
      if hs[n - 1].starts && hs[n - 1].name in Started(hs, n - 1) {
        StartedIsFrom(hs, n - 1, hs[n - 1].name);
        NamedOnce(hs);
      }
    }
  }

  lemma {:induction false} StoppingKeepsDistinct(hs: seq<Hook>)
    requires Distinct(Names(hs))
    ensures Distinct(Names(Stopping(hs)))
  {
    if hs != [] {
      var n := |hs| - 1;
      NamedOnce(hs);
      assert forall i | 0 <= i < n :: Names(hs)[i] == Names(hs[..n])[i];
      StoppingKeepsDistinct(hs[..n]);
      if hs[n].stops {
        forall h | h in Stopping(hs[..n]) ensures h.name != hs[n].name {
          assert h in hs[..n];
        }
        DistinctSnoc(Stopping(hs[..n]), hs[n]);
      } else {
        assert Stopping(hs) == Stopping(hs[..n]);
      }
    }
  }

  lemma DistinctSnoc(hs: seq<Hook>, h: Hook)
    requires Distinct(Names(hs)) && forall g | g in hs :: g.name != h.name
    ensures Distinct(Names(hs + [h]))
  {
    assert Names(hs + [h]) == Names(hs) + [h.name];
    assert forall i | 0 <= i < |hs| :: Names(hs)[i] == hs[i].name;
  }

  /** A full stop calls exactly the hooks that have one, no name twice, in the one stably sorted order. */
  lemma ShutdownIsExactlyOnce(hs: seq<Hook>)
    requires Distinct(Names(hs))
    ensures var order := Sorted(Stopping(hs));
      && (forall h :: h in order <==> h in hs && h.stops)
      && Distinct(Names(order)) && StablySorted(Stopping(hs), order)
      && forall r | StablySorted(Stopping(hs), r) :: r == order
  {
    var base, order := Stopping(hs), Sorted(Stopping(hs));
    SortedIsStable(base);
    StoppingKeepsDistinct(hs);
    ShutdownMembers(hs);
    PermutedDistinct(base, order);
    forall r | StablySorted(base, r) ensures r == order {
      StableOrderIsUnique(base, r, order);
    }
  }

  lemma NamedOnce(hs: seq<Hook>)
    requires Distinct(Names(hs))
    ensures forall i, j | 0 <= i < |hs| && 0 <= j < |hs| && hs[i].name == hs[j].name :: i == j
  {
    forall i, j | 0 <= i < |hs| && 0 <= j < |hs| && hs[i].name == hs[j].name ensures i == j {
      assert Names(hs)[i] == Names(hs)[j];
    }
  }

  // A rearrangement of hooks with distinct names has distinct names.
  lemma PermutedDistinct(a: seq<Hook>, b: seq<Hook>)
    requires Distinct(Names(a)) && multiset(a) == multiset(b)
    ensures Distinct(Names(b))
  {
    forall i, j | 0 <= i < j < |b| ensures b[i].name != b[j].name {
      TwoPlaces(b, i, j);
      assert b[i] in multiset(a) && b[j] in multiset(a);
      var k :| 0 <= k < |a| && a[k] == b[i];
      var m :| 0 <= m < |a| && a[m] == b[j];
      if b[i].name == b[j].name {
        NamedOnce(a);
        assert b[i] == b[j];
        OnePlace(a, k);
      }
    }
  }

  lemma TwoPlaces(b: seq<Hook>, i: nat, j: nat)
    requires i < j < |b|
    ensures b[i] == b[j] ==> multiset(b)[b[i]] >= 2
  {
    assert b == b[..j] + [b[j]] + b[j + 1..];
    assert b[i] in b[..j];
  }

  lemma OnePlace(a: seq<Hook>, k: nat)
    requires Distinct(Names(a)) && k < |a|
    ensures multiset(a)[a[k]] == 1
  {
    assert a == a[..k] + [a[k]] + a[k + 1..];
    NamedOnce(a);
    assert a[k] !in a[..k] && a[k] !in a[k + 1..];
  }
}
