/**
 `Proxy.handle`, for any number of connections at once. A handler runs without interruption between two
 awaits; each such stretch is one step, and each await may come back with a rejection, an I/O error or a
 cancellation.
 */
module Admission {

  const MAX_CONNECTIONS := 96

  // What a client is sent.
  datatype Item = StatusLine(code: int) | TunnelData(chunk: nat)

  // Where a handler waits: for the request head, the upstream connection, the greeting to drain, the relay.
  datatype Place = Reading | Connecting | Greeting | Relaying | Left

  datatype Handler = Handler(place: Place, admitted: bool, sent: seq<Item>)

  datatype Proxy = Proxy(active: int, handlers: seq<Handler>)

  datatype Return = Fine | Rejected(status: int) | Failed

  datatype Event =
    | Accept
    | Resume(id: nat, r: Return)
    | Forward(id: nat, chunk: nat)

  // Leaving the `try`: the rejection line unless established, then the `finally` block up to its first await.
  function Leave(p: Proxy, id: nat, r: Return): Proxy
    requires id < |p.handlers|
  {
    var h := p.handlers[id];
    var sent := if r.Rejected? && !h.place.Relaying? then h.sent + [StatusLine(r.status)] else h.sent;
    Proxy(if h.admitted then p.active - 1 else p.active, p.handlers[id := Handler(Left, h.admitted, sent)])
  }

  function Move(p: Proxy, id: nat, place: Place, sent: seq<Item>): Proxy
    requires id < |p.handlers|
  {
    p.(handlers := p.handlers[id := p.handlers[id].(place := place, sent := p.handlers[id].sent + sent)])
  }

  function Step(p: Proxy, e: Event): Proxy {
    match e
    case Accept =>
      if p.active >= MAX_CONNECTIONS then p.(handlers := p.handlers + [Handler(Left, false, [StatusLine(429)])])
      else Proxy(p.active + 1, p.handlers + [Handler(Reading, true, [])])
    case Forward(id, chunk) =>
      if id < |p.handlers| && p.handlers[id].place.Relaying? then Move(p, id, Relaying, [TunnelData(chunk)]) else p
    case Resume(id, r) =>
      if id >= |p.handlers| || p.handlers[id].place.Left? then p
      else
        match p.handlers[id].place
        case Reading => if r.Fine? then Move(p, id, Connecting, []) else Leave(p, id, r)
        case Connecting => if r.Fine? then Move(p, id, Greeting, [StatusLine(200)]) else Leave(p, id, r)
        // The drain of the greeting does not raise a rejection.
        case Greeting => if r.Fine? then Move(p, id, Relaying, []) else Leave(p, id, Failed)
        case Relaying => Leave(p, id, r)
  }

  function Run(p: Proxy, es: seq<Event>): Proxy
    decreases |es|
  {
    if es == [] then p else Run(Step(p, es[0]), es[1..])
  }

  predicate Inside(h: Handler) {
    h.admitted && !h.place.Left?
  }

  function CountInside(hs: seq<Handler>): nat {
    if hs == [] then 0 else CountInside(hs[..|hs| - 1]) + (if Inside(hs[|hs| - 1]) then 1 else 0)
  }

  lemma CountAppend(hs: seq<Handler>, h: Handler)
    ensures CountInside(hs + [h]) == CountInside(hs) + (if Inside(h) then 1 else 0)
  {}

  lemma {:induction false} CountUpdate(hs: seq<Handler>, i: nat, h: Handler)
    requires i < |hs|
    ensures CountInside(hs[i := h]) ==
      CountInside(hs) - (if Inside(hs[i]) then 1 else 0) + (if Inside(h) then 1 else 0)
  {
    var n := |hs| - 1;
    if i == n {
      assert hs[i := h][..n] == hs[..n];
    } else {
      assert hs[i := h][..n] == hs[..n][i := h];
      CountUpdate(hs[..n], i, h);
    }
  }

  predicate OnlyTunnelAfter(sent: seq<Item>) {
    forall i | 1 <= i < |sent| :: sent[i].TunnelData?
  }

  // What a client may have been sent, by where its handler is.
  predicate WellServed(h: Handler) {
    match h.place
    case Reading => h.admitted && h.sent == []
    case Connecting => h.admitted && h.sent == []
    case Greeting => h.admitted && h.sent == [StatusLine(200)]
    case Relaying => h.admitted && h.sent != [] && h.sent[0] == StatusLine(200) && OnlyTunnelAfter(h.sent)
    case Left =>
      && (h.sent != [] ==> h.sent[0].StatusLine? && OnlyTunnelAfter(h.sent))
      && (|h.sent| > 1 ==> h.sent[0] == StatusLine(200))
      && (!h.admitted ==> h.sent == [StatusLine(429)])
  }

  ghost predicate Consistent(p: Proxy) {
    && p.active == CountInside(p.handlers) <= MAX_CONNECTIONS
    && forall i | 0 <= i < |p.handlers| :: WellServed(p.handlers[i])
  }

  // What a resumption sends the client: a rejection until the greeting is out, with its own status, and the greeting
  // when the upstream connection stands.
  function Reply(place: Place, r: Return): seq<Item> {
    if r.Rejected? && (place.Reading? || place.Connecting?) then [StatusLine(r.status)]
    else if r.Fine? && place.Connecting? then [StatusLine(200)]
    else []
  }

  function Further(place: Place): Place {
    match place
    case Reading => Connecting
    case Connecting => Greeting
    case Greeting => Relaying
    case _ => Left
  }

  /**
   Each resumption takes a handler one stage further if its await came back in order, and out otherwise; the client is
   sent just what it should be. A chunk is forwarded only while the relay runs. Nothing else changes.
   */
  lemma ServesInOrder(p: Proxy, id: nat, r: Return, chunk: nat)
    requires id < |p.handlers| && WellServed(p.handlers[id])
    ensures var h, q := p.handlers[id], Step(p, Resume(id, r));
      && |q.handlers| == |p.handlers| && q.handlers == p.handlers[id := q.handlers[id]]
      && (h.place.Left? ==> q == p)
      && (!h.place.Left? ==>
            q.handlers[id] == Handler(if r.Fine? then Further(h.place) else Left, true, h.sent + Reply(h.place, r)))
    ensures var h, q := p.handlers[id], Step(p, Forward(id, chunk));
      && q.active == p.active
      && q.handlers == p.handlers[id := if h.place.Relaying? then h.(sent := h.sent + [TunnelData(chunk)]) else h]
  {
    assert p.handlers[id].sent + [] == p.handlers[id].sent;
  }

  // A step of one handler touches no other, moves the counter as it enters or leaves, and serves its client well.
  lemma HandlerStep(p: Proxy, e: Event)
    requires !e.Accept? && e.id < |p.handlers| && WellServed(p.handlers[e.id])
    ensures var q := Step(p, e);
      && |q.handlers| == |p.handlers| && q.handlers == p.handlers[e.id := q.handlers[e.id]]
      && WellServed(q.handlers[e.id]) && (!Inside(p.handlers[e.id]) ==> !Inside(q.handlers[e.id]))
      && q.active - p.active ==
         (if Inside(q.handlers[e.id]) then 1 else 0) - (if Inside(p.handlers[e.id]) then 1 else 0)
  {}

  // One handler changes, and the counter with it.
  lemma UpdateConsistent(p: Proxy, q: Proxy, id: nat)
    requires Consistent(p) && id < |p.handlers| && |q.handlers| == |p.handlers|
    requires q.handlers == p.handlers[id := q.handlers[id]] && WellServed(q.handlers[id])
    requires q.active - p.active ==
      (if Inside(q.handlers[id]) then 1 else 0) - (if Inside(p.handlers[id]) then 1 else 0)
    requires !Inside(p.handlers[id]) ==> !Inside(q.handlers[id])
    ensures Consistent(q)
  {
    CountUpdate(p.handlers, id, q.handlers[id]);
  }

  // One handler arrives.
  lemma ArrivalConsistent(p: Proxy, q: Proxy, h: Handler)
    requires Consistent(p) && q.handlers == p.handlers + [h] && WellServed(h)
    requires q.active == p.active + (if Inside(h) then 1 else 0) <= MAX_CONNECTIONS
    ensures Consistent(q)
  {
    CountAppend(p.handlers, h);
  }

  lemma StepConsistent(p: Proxy, e: Event)
    requires Consistent(p)
    ensures Consistent(Step(p, e))
  {
    if e.Accept? {
      ArrivalConsistent(p, Step(p, e), if p.active >= MAX_CONNECTIONS then Handler(Left, false, [StatusLine(429)])
                                       else Handler(Reading, true, []));
    } else if e.id < |p.handlers| {
      HandlerStep(p, e);
      UpdateConsistent(p, Step(p, e), e.id);
    }
  }

  /**
   Over every interleaving of any number of connections, `active` counts exactly the admitted handlers that
   have not reached `finally`, it never exceeds the limit, every client is sent at most one status line and no
   tunnel data before a 200.
   */
  lemma {:induction false} AdmissionSafety(p: Proxy, es: seq<Event>)
    requires Consistent(p)
    ensures Consistent(Run(p, es))
    decreases |es|
  {
    if es != [] {
      StepConsistent(p, es[0]);
      AdmissionSafety(Step(p, es[0]), es[1..]);
    }
  }

  ghost function InsideOf(hs: seq<Handler>): set<nat> {
    set i: nat | i < |hs| && hs[i].admitted && hs[i].place != Left
  }

  lemma {:induction false} CountIsInside(hs: seq<Handler>)
    ensures CountInside(hs) == |InsideOf(hs)|
  {
    if hs == [] {
      assert InsideOf(hs) == {};
    } else {
      var n := |hs| - 1;
      CountIsInside(hs[..n]);
      if Inside(hs[n]) {
        assert InsideOf(hs) == InsideOf(hs[..n]) + {n};
      } else {
        assert InsideOf(hs) == InsideOf(hs[..n]);
      }
    }
  }

  /**
   The same in a client's terms, from a fresh proxy on: at most 96 admitted handlers, which `active` counts; a status
   line comes first or not at all, is the only one, and is the 200 if anything follows it.
   */
  lemma WhatClientsSee(es: seq<Event>, id: nat)
    ensures var p := Run(Proxy(0, []), es);
      && p.active == |InsideOf(p.handlers)| <= 96
      && (id < |p.handlers| ==>
            var sent := p.handlers[id].sent;
            && (forall i | 0 <= i < |sent| :: sent[i].StatusLine? <==> i == 0)
            && (|sent| > 1 ==> sent[0] == StatusLine(200))
            && (!p.handlers[id].admitted ==> sent == [StatusLine(429)]))
  {
    AdmissionSafety(Proxy(0, []), es);
    var p := Run(Proxy(0, []), es);
    CountIsInside(p.handlers);
    if id < |p.handlers| {
      assert WellServed(p.handlers[id]);
    }
  }

  /** When every handler has left, the counter is back at zero. */
  lemma ReturnsToZero(es: seq<Event>)
    requires forall i | 0 <= i < |Run(Proxy(0, []), es).handlers| :: Run(Proxy(0, []), es).handlers[i].place.Left?
    ensures Run(Proxy(0, []), es).active == 0
  {
    AdmissionSafety(Proxy(0, []), es);
    NoneInside(Run(Proxy(0, []), es).handlers);
  }

  lemma {:induction false} NoneInside(hs: seq<Handler>)
    requires forall i | 0 <= i < |hs| :: hs[i].place.Left?
    ensures CountInside(hs) == 0
  {
    if hs != [] {
      NoneInside(hs[..|hs| - 1]);
    }
  }

  /** A connection is refused with 429 exactly when the limit is reached, and refusal costs no slot. */
  lemma RefusedIffFull(p: Proxy)
    requires Consistent(p)
    ensures var q := Step(p, Accept);
      var h := q.handlers[|p.handlers|];
      && (h.sent == [StatusLine(429)] <==> CountInside(p.handlers) == 96)
      && (h.admitted <==> CountInside(p.handlers) < 96) && (h.admitted ==> h.sent == [])
      && q.handlers == p.handlers + [h]
      && CountInside(q.handlers) == CountInside(p.handlers) + (if h.admitted then 1 else 0)
  {}

  // What was sent to a client is never taken back.
  lemma {:induction false} SentOnlyGrows(p: Proxy, es: seq<Event>, id: nat)
    requires id < |p.handlers|
    ensures id < |Run(p, es).handlers| && p.handlers[id].sent <= Run(p, es).handlers[id].sent
    decreases |es|
  {
    if es != [] {
      SentOnlyGrows(Step(p, es[0]), es[1..], id);
    }
  }

  /** The server object: `active` is its only field; the handlers are its running coroutines. */
  class Server {
    var active: int
    var handlers: seq<Handler>

    ghost function Snapshot(): Proxy
      reads this
    {
      Proxy(active, handlers)
    }

    constructor ()
      ensures Snapshot() == Proxy(0, [])
    {
      active, handlers := 0, [];
    }

    // A new connection, up to its first await.
    method Handle() returns (id: nat)
      modifies this
      ensures Snapshot() == Step(old(Snapshot()), Accept)
      ensures Consistent(old(Snapshot())) ==> Consistent(Snapshot())
      ensures id == |old(handlers)|
    {
      if Consistent(Snapshot()) {
        StepConsistent(Snapshot(), Accept);
      }
      id := |handlers|;
      if active >= MAX_CONNECTIONS {
        handlers := handlers + [Handler(Left, false, [StatusLine(429)])];
        return;
      }
      active := active + 1;
      handlers := handlers + [Handler(Reading, true, [])];
    }

    // Handler `id` resumes from the await it waits in.
    method Continue(id: nat, r: Return)
      requires id < |handlers| && !handlers[id].place.Left?
      modifies this
      ensures Snapshot() == Step(old(Snapshot()), Resume(id, r))
      ensures Consistent(old(Snapshot())) ==> Consistent(Snapshot())
    {
      if Consistent(Snapshot()) {
        StepConsistent(Snapshot(), Resume(id, r));
      }
      var h := handlers[id];
      assert h.sent + [] == h.sent;
      if r.Fine? && !h.place.Relaying? {
        h := match h.place
          case Reading => h.(place := Connecting)
          case Connecting => h.(place := Greeting, sent := h.sent + [StatusLine(200)])
          case _ => h.(place := Relaying);
      } else {
        var established := h.place.Relaying?;
        if r.Rejected? && !established && !h.place.Greeting? {
          h := h.(sent := h.sent + [StatusLine(r.status)]);
        }
        if h.admitted {
          active := active - 1;
        }
        h := h.(place := Left);
      }
      handlers := handlers[id := h];
    }
  }
}
