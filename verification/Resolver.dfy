/**
 Name resolution for the proxy: the pool of lookup slots, the check of the resolver's answer, and the
 connection attempt. A lookup cannot be interrupted, so it keeps its slot after its request has timed out.
 */
module Resolver {
  import opened Prelude

  const DNS_SLOTS := 8
  const MAX_RECORDS := 64

  // ----- lookup slots --------------------------------------------------------------------------------

  // A request for a name: still queueing for a slot, looking it up, answered, or timed out. Its lookup, once
  // started, runs on its own until it is finished.
  datatype RequestState = Queueing | LookingUp | Answered | TimedOut

  datatype LookupState = NotStarted | InFlight | Finished

  datatype Request = Request(state: RequestState, lookup: LookupState)

  datatype Pool = Pool(free: int, released: nat, requests: seq<Request>)

  datatype Event =
    | Ask
    | Acquire(id: nat)
    | TimeOut(id: nat)
    | LookupDone(id: nat)

  function Step(p: Pool, e: Event): Pool {
    match e
    case Ask => p.(requests := p.requests + [Request(Queueing, NotStarted)])
    case Acquire(id) =>
      // From the acquisition to the start of the lookup there is no await.
      if id < |p.requests| && p.requests[id].state.Queueing? && p.free > 0 then
        p.(free := p.free - 1, requests := p.requests[id := Request(LookingUp, InFlight)])
      else p
    case TimeOut(id) =>
      if id < |p.requests| && (p.requests[id].state.Queueing? || p.requests[id].state.LookingUp?) then
        p.(requests := p.requests[id := p.requests[id].(state := TimedOut)])
      else p
    case LookupDone(id) =>
      if id < |p.requests| && p.requests[id].lookup.InFlight? then
        var r := p.requests[id];
        Pool(p.free + 1, p.released + 1,
          p.requests[id := Request(if r.state.LookingUp? then Answered else r.state, Finished)])
      else p
  }

  function Run(p: Pool, es: seq<Event>): Pool
    decreases |es|
  {
    if es == [] then p else Run(Step(p, es[0]), es[1..])
  }

  function CountLookups(rs: seq<Request>, s: LookupState): nat {
    if rs == [] then 0 else CountLookups(rs[..|rs| - 1], s) + (if rs[|rs| - 1].lookup == s then 1 else 0)
  }

  lemma CountAppend(rs: seq<Request>, r: Request, s: LookupState)
    ensures CountLookups(rs + [r], s) == CountLookups(rs, s) + (if r.lookup == s then 1 else 0)
  {}

  lemma {:induction false} CountUpdate(rs: seq<Request>, i: nat, r: Request, s: LookupState)
    requires i < |rs|
    ensures CountLookups(rs[i := r], s) ==
      CountLookups(rs, s) - (if rs[i].lookup == s then 1 else 0) + (if r.lookup == s then 1 else 0)
  {
    var n := |rs| - 1;
    if i == n {
      assert rs[i := r][..n] == rs[..n];
    } else {
      assert rs[i := r][..n] == rs[..n][i := r];
      CountUpdate(rs[..n], i, r, s);
    }
  }

  ghost predicate SlotsBalance(p: Pool) {
    && p.free + CountLookups(p.requests, InFlight) == DNS_SLOTS
    && p.free >= 0
    && p.released == CountLookups(p.requests, Finished)
    && forall i | 0 <= i < |p.requests| :: Phased(p.requests[i])
  }

  // How far a request is, its lookup is too; only a timeout parts the two.
  predicate Phased(r: Request) {
    && (r.state.Queueing? ==> r.lookup.NotStarted?)
    && (r.state.LookingUp? ==> r.lookup.InFlight?)
    && (r.state.Answered? ==> r.lookup.Finished?)
  }

  // One request changes, and the slots with it.
  lemma UpdateBalances(p: Pool, q: Pool, id: nat)
    requires SlotsBalance(p) && id < |p.requests| && |q.requests| == |p.requests|
    requires q.requests == p.requests[id := q.requests[id]] && Phased(q.requests[id]) && q.free >= 0
    requires q.free - p.free == Flying(p.requests[id]) - Flying(q.requests[id])
    requires q.released - p.released == Landed(q.requests[id]) - Landed(p.requests[id])
    ensures SlotsBalance(q)
  {
    CountUpdate(p.requests, id, q.requests[id], InFlight);
    CountUpdate(p.requests, id, q.requests[id], Finished);
  }

  function Flying(r: Request): int {
    if r.lookup.InFlight? then 1 else 0
  }

  function Landed(r: Request): int {
    if r.lookup.Finished? then 1 else 0
  }

  lemma RequestStep(p: Pool, e: Event)
    requires SlotsBalance(p) && !e.Ask? && e.id < |p.requests|
    ensures var q := Step(p, e);
      && |q.requests| == |p.requests| && q.requests == p.requests[e.id := q.requests[e.id]]
      && Phased(q.requests[e.id]) && q.free >= 0
      && q.free - p.free == Flying(p.requests[e.id]) - Flying(q.requests[e.id])
      && q.released - p.released == Landed(q.requests[e.id]) - Landed(p.requests[e.id])
  {}

  lemma StepBalances(p: Pool, e: Event)
    requires SlotsBalance(p)
    ensures SlotsBalance(Step(p, e))
  {
    if e.Ask? {
      CountAppend(p.requests, Request(Queueing, NotStarted), InFlight);
      CountAppend(p.requests, Request(Queueing, NotStarted), Finished);
    } else if e.id < |p.requests| {
      RequestStep(p, e);
      UpdateBalances(p, Step(p, e), e.id);
    }
  }

  /**
   For every interleaving of requests, timeouts and late completions, free slots plus lookups in flight is
   eight - so at most eight lookups ever run - and there is exactly one release per finished lookup.
   */
  lemma {:induction false} SlotConservation(p: Pool, es: seq<Event>)
    requires SlotsBalance(p)
    ensures SlotsBalance(Run(p, es))
    decreases |es|
  {
    if es != [] {
      StepBalances(p, es[0]);
      SlotConservation(Step(p, es[0]), es[1..]);
    }
  }

  ghost function Lookups(rs: seq<Request>): set<nat> {
    set i: nat | i < |rs| && rs[i].lookup == InFlight
  }

  lemma {:induction false} CountIsLookups(rs: seq<Request>)
    ensures CountLookups(rs, InFlight) == |Lookups(rs)|
  {
    if rs == [] {
      assert Lookups(rs) == {};
    } else {
      var n := |rs| - 1;
      CountIsLookups(rs[..n]);
      if rs[n].lookup == InFlight {
        assert Lookups(rs) == Lookups(rs[..n]) + {n};
      } else {
        assert Lookups(rs) == Lookups(rs[..n]);
      }
    }
  }

  /** From a fresh pool of eight slots on, never more than eight lookups run, and every other slot is free. */
  lemma AtMostEightLookups(es: seq<Event>)
    ensures var p := Run(Pool(8, 0, []), es); p.free + |Lookups(p.requests)| == 8 && p.free >= 0
  {
    SlotConservation(Pool(8, 0, []), es);
    CountIsLookups(Run(Pool(8, 0, []), es).requests);
  }

  /** A request that times out while its lookup runs frees nothing; its slot comes back when the lookup ends. */
  lemma TimedOutLookupKeepsItsSlot(p: Pool, id: nat)
    requires SlotsBalance(p) && id < |p.requests| && p.requests[id].state.LookingUp?
    ensures var q := Step(p, TimeOut(id));
      && q.free == p.free && q.requests[id].lookup.InFlight?
      && Step(q, LookupDone(id)).free == p.free + 1
      && Step(q, LookupDone(id)).requests[id] == Request(TimedOut, Finished)
      && Step(Step(q, LookupDone(id)), LookupDone(id)) == Step(q, LookupDone(id))
  {}

  // How the requests are answered: a slot is taken as soon as one is free, a lookup that ends in time answers its
  // request, and a request that has timed out stays so.
  lemma RequestsAdvance(p: Pool, id: nat)
    requires SlotsBalance(p) && id < |p.requests|
    ensures var r := p.requests[id];
      var late := if r.state.LookingUp? then Answered else TimedOut;
      && (Step(p, Acquire(id)).requests[id] == Request(LookingUp, InFlight) <==>
            r.state.LookingUp? || (r.state.Queueing? && p.free > 0))
      && (r.lookup.InFlight? ==>
            Step(p, LookupDone(id)).requests[id] == Request(late, Finished))
      && (Step(p, TimeOut(id)).requests[id].state.TimedOut? <==> !r.state.Answered?)
      && Step(p, TimeOut(id)).requests[id].lookup == r.lookup
  {}

  lemma AskQueues(p: Pool)
    ensures Step(p, Ask).requests == p.requests + [Request(Queueing, NotStarted)] && Step(p, Ask).free == p.free
  {}

  // ----- checking the answer ---------------------------------------------------------------------------

  datatype Family = Inet | Inet6 | Unix

  // A resolver record. A component the socket address does not have is `None`.
  datatype SockAddr = SockAddr(text: Option<string>, port: Option<int>, scope: Option<int>)

  datatype Record = Record(family: Family, stream: bool, tcp: bool, address: SockAddr)

  datatype Entry = Entry(family: Family, address: SockAddr)

  // Whether address text is a public address; `None` for text that is no address.
  type Classifier = string -> Option<bool>

  predicate Checked(public: Classifier, r: Record, port: int) {
    && !r.family.Unix? && r.stream && r.tcp
    && r.address.port == Some(port)
    && r.address.text.Some? && public(r.address.text.value) == Some(true)
    && (r.family.Inet6? ==> r.address.scope == Some(0))
  }

  function EntryOf(r: Record): Entry {
    Entry(r.family, r.address)
  }

  function Entries(rs: seq<Record>): (es: seq<Entry>)
    ensures |es| == |rs| && forall i | 0 <= i < |rs| :: es[i] == EntryOf(rs[i])
  {
    seq(|rs|, i requires 0 <= i < |rs| => EntryOf(rs[i]))
  }

  // Position of the first occurrence.
  function FirstIndex(es: seq<Entry>, e: Entry): (i: nat)
    requires e in es
    ensures i < |es| && es[i] == e && e !in es[..i]
  {
    if es[0] == e then 0
    else
      assert es == [es[0]] + es[1..];
      var i := FirstIndex(es[1..], e);
      assert es[..i + 1] == [es[0]] + es[1..][..i];
      i + 1
  }

  // The distinct entries of `es` in order of first occurrence.
  ghost predicate DistinctInOrder(checked: seq<Entry>, es: seq<Entry>) {
    && (forall e :: e in checked <==> e in es)
    && (forall i, k | 0 <= i < k < |checked| :: checked[i] in es && checked[k] in es ==>
          FirstIndex(es, checked[i]) < FirstIndex(es, checked[k]))
  }

  lemma {:induction false} FirstIndexOfPrefix(es: seq<Entry>, more: seq<Entry>, e: Entry)
    requires e in es
    ensures e in es + more && FirstIndex(es + more, e) == FirstIndex(es, e)
  {
    if es[0] != e {
      assert es == [es[0]] + es[1..];
      FirstIndexOfPrefix(es[1..], more, e);
      assert (es + more)[1..] == es[1..] + more;
    }
  }

  // What the loop of `resolve_public` collects.
  function Distinct(es: seq<Entry>): seq<Entry> {
    if es == [] then []
    else
      var before := Distinct(es[..|es| - 1]);
      if es[|es| - 1] in before then before else before + [es[|es| - 1]]
  }

  lemma {:induction false} DistinctIsInOrder(es: seq<Entry>)
    ensures DistinctInOrder(Distinct(es), es)
  {
    if es != [] {
      var n := |es| - 1;
      var e := es[n];
      var before, longer := Distinct(es[..n]), Distinct(es);
      DistinctIsInOrder(es[..n]);
      assert es == es[..n] + [e];
      forall i, k | 0 <= i < k < |longer| && longer[i] in es && longer[k] in es
        ensures FirstIndex(es, longer[i]) < FirstIndex(es, longer[k])
      {
        assert longer[i] in before;
        FirstIndexOfPrefix(es[..n], [e], longer[i]);
        if longer[k] in es[..n] {
          FirstIndexOfPrefix(es[..n], [e], longer[k]);
        }
      }
    }
  }

  predicate AllChecked(public: Classifier, records: seq<Record>, port: int) {
    forall i | 0 <= i < |records| :: Checked(public, records[i], port)
  }

  /**
   The check in `resolve_public`. It is all or nothing: any unsafe record rejects the whole answer, and
   otherwise the result is the distinct addresses in order of first occurrence.
   */
  method CheckRecords(public: Classifier, records: seq<Record>, port: int) returns (r: Result<seq<Entry>, int>)
    ensures r == if 1 <= |records| <= MAX_RECORDS && AllChecked(public, records, port)
      then Ok(Distinct(Entries(records))) else Err(403)
    ensures r.Ok? ==> DistinctInOrder(r.value, Entries(records))
  {
    if |records| == 0 || |records| > MAX_RECORDS {
      return Err(403);
    }
    var checked: seq<Entry> := [];
    for i := 0 to |records|
      invariant forall k | 0 <= k < i :: Checked(public, records[k], port)
      invariant checked == Distinct(Entries(records[..i]))
    {
      if !Checked(public, records[i], port) {
        return Err(403);
      }
      var entry := EntryOf(records[i]);
      assert Entries(records[..i + 1])[..i] == Entries(records[..i]);
      if entry !in checked {
        checked := checked + [entry];
      }
    }
    assert records[..|records|] == records;
    DistinctIsInOrder(Entries(records));
    r := Ok(checked);
  }

  // ----- connecting ------------------------------------------------------------------------------------

  // How one attempt ends: the socket cannot be made, an `OSError` on the way, an open connection, the
  // overall timeout, or the cancellation of the request.
  datatype Attempt = NoSocket | OsError | Connected | Expired | Canceled

  // Why no connection was handed out: a status for the client, an `OSError` of the socket call, or a cancellation
  datatype Refusal = Rejected(status: int) | SocketError | Cancelled

  datatype Failure = BadGateway | SocketFailure | Cancellation

  class Network {
    var open: set<nat>
    var dialled: seq<Entry>
    var next: nat

    ghost predicate Valid()
      reads this
    {
      forall s | s in open :: s < next
    }

    constructor ()
      ensures Valid() && open == {} && dialled == []
    {
      open, dialled, next := {}, [], 0;
    }

    /**
     `connect_public` after resolution. It dials only the checked addresses, in order, and stops at the first
     success; on every way out the only socket left open is the one it returns.
     */
    method Connect(addresses: seq<Entry>, attempts: seq<Attempt>) returns (r: Result<nat, Failure>)
      requires Valid() && |attempts| == |addresses|
      modifies this
      ensures Valid()
      ensures exists n | 0 <= n <= |addresses| :: DialledUpTo(old(dialled), dialled, addresses, attempts, n, r)
      ensures r.Ok? ==> r.value !in old(open) && open == old(open) + {r.value}
      ensures r.Err? ==> open == old(open)
    {
      var i := 0;
      while i < |addresses|
        invariant 0 <= i <= |addresses|
        invariant Valid() && open == old(open) && next >= old(next)
        invariant dialled == old(dialled) + addresses[..i]
        invariant forall k | 0 <= k < i :: attempts[k].OsError?
      {
        if attempts[i].NoSocket? {
          assert DialledUpTo(old(dialled), dialled, addresses, attempts, i, Err(SocketFailure));
          return Err(SocketFailure);
        }
        var sock := next;
        next, open := next + 1, open + {next};
        dialled := dialled + [addresses[i]];
        assert old(dialled) + addresses[..i] + [addresses[i]] == old(dialled) + addresses[..i + 1];
        if attempts[i].Connected? {
          assert DialledUpTo(old(dialled), dialled, addresses, attempts, i + 1, Ok(sock));
          return Ok(sock);
        }
        open := open - {sock};
        if attempts[i].Expired? {
          assert DialledUpTo(old(dialled), dialled, addresses, attempts, i + 1, Err(BadGateway));
          return Err(BadGateway);
        }
        if attempts[i].Canceled? {
          assert DialledUpTo(old(dialled), dialled, addresses, attempts, i + 1, Err(Cancellation));
          return Err(Cancellation);
        }
        i := i + 1;
      }
      r := Err(BadGateway);
      assert DialledUpTo(old(dialled), dialled, addresses, attempts, i, r);
    }

    /**
     `connect_public`: the answer of the resolver is checked as a whole, then its addresses are tried. Whatever the
     resolver says, every address that is dialled is a public one at the requested port, and an answer with a single
     unsafe record, none or too many is refused with 403 before anything is dialled.
     */
    method ConnectPublic(public: Classifier, records: seq<Record>, port: int, attempts: seq<Attempt>)
      returns (r: Result<nat, Refusal>)
      requires Valid() && |attempts| >= |records|
      modifies this
      ensures Valid()
      ensures old(dialled) <= dialled
      ensures forall i | |old(dialled)| <= i < |dialled| :: SafeEntry(public, dialled[i], port)
      ensures r == Err(Rejected(403)) <==>
        !(1 <= |records| <= 64) || exists i | 0 <= i < |records| :: !SafeRecord(public, records[i], port)
      ensures r == Err(Rejected(403)) ==> dialled == old(dialled)
      ensures r.Err? && r.error.Rejected? ==> r.error.status == 403 || r.error.status == 502
      ensures r != Err(Rejected(403)) ==>
        var checked := Distinct(Entries(records));
        |checked| <= |attempts| &&
        exists n: nat, got: Result<nat, Failure> :: r == Reported(got) &&
          DialledUpTo(old(dialled), dialled, checked, attempts[..|checked|], n, got)
      ensures r.Ok? ==> r.value !in old(open) && open == old(open) + {r.value}
      ensures r.Err? ==> open == old(open)
    {
      var checked := CheckRecords(public, records, port);
      if checked.Err? {
        return Err(Rejected(checked.error));
      }
      ghost var before := dialled;
      DistinctIsShort(Entries(records));
      var got := Connect(checked.value, attempts[..|checked.value|]);
      forall i | |before| <= i < |dialled| ensures SafeEntry(public, dialled[i], port) {
        assert dialled[i] in checked.value;
        assert dialled[i] in Entries(records);
      }
      r := Reported(got);
    }
  }

  function Reported(got: Result<nat, Failure>): Result<nat, Refusal> {
    match got
    case Ok(sock) => Ok(sock)
    case Err(BadGateway) => Err(Rejected(502))
    case Err(SocketFailure) => Err(SocketError)
    case Err(Cancellation) => Err(Cancelled)
  }

  lemma {:induction false} DistinctIsShort(es: seq<Entry>)
    ensures |Distinct(es)| <= |es| && (es != [] ==> Distinct(es) != [])
  {
    if es != [] {
      DistinctIsShort(es[..|es| - 1]);
    }
  }

  // A TCP record for an internet address that is public, at the port, outside any scope
  predicate SafeRecord(public: Classifier, r: Record, port: int) {
    && r.stream && r.tcp && SafeEntry(public, EntryOf(r), port)
  }

  predicate SafeEntry(public: Classifier, e: Entry, port: int) {
    && (e.family == Inet || (e.family == Inet6 && e.address.scope == Some(0)))
    && e.address.port == Some(port)
    && e.address.text.Some? && public(e.address.text.value) == Some(true)
  }

  // The first `n` addresses were dialled, all but the last in vain, and the last, or the next one, decided.
  ghost predicate DialledUpTo(before: seq<Entry>, after: seq<Entry>, addresses: seq<Entry>, attempts: seq<Attempt>,
      n: nat, r: Result<nat, Failure>)
    requires |attempts| == |addresses|
  {
    && n <= |addresses| && after == before + addresses[..n]
    && (forall i | 0 <= i < n - 1 :: attempts[i].OsError?)
    && if n > 0 && attempts[n - 1].Connected? then r.Ok?
       else if n > 0 && attempts[n - 1].Expired? then r == Err(BadGateway)
       else if n > 0 && attempts[n - 1].Canceled? then r == Err(Cancellation)
       else
         && (n > 0 ==> attempts[n - 1].OsError?)
         && if n == |addresses| then r == Err(BadGateway) else attempts[n].NoSocket? && r == Err(SocketFailure)
  }
}
