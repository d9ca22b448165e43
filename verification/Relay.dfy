/**
 The tunnel relay: two pumps, one per direction, that share a byte budget. asyncio runs each pump without
 interruption from the return of its read to its next await, so one resumption is one step.
 */
module Relay {
  const MAX_TUNNEL_BYTES := 64 * 1024 * 1024

  datatype Direction = Up | Down

  datatype PumpState = Live | Ended | Tripped

  // One direction: what its reader has delivered, what its writer was given, and how the pump stands.
  datatype Pump<T> = Pump(delivered: seq<T>, written: seq<T>, state: PumpState)

  datatype Tunnel<T> = Tunnel(transferred: nat, up: Pump<T>, down: Pump<T>)

  datatype Event<T> =
    | Read(direction: Direction, data: seq<T>)
    | Stop(direction: Direction)

  function Side<T>(t: Tunnel<T>, d: Direction): Pump<T> {
    if d.Up? then t.up else t.down
  }

  function WithSide<T>(t: Tunnel<T>, d: Direction, p: Pump<T>): Tunnel<T> {
    if d.Up? then t.(up := p) else t.(down := p)
  }

  /** One resumption of a pump, or its cancellation or timeout. A pump that is not live takes no step. */
  function Step<T>(t: Tunnel<T>, e: Event<T>): Tunnel<T> {
    var p := Side(t, e.direction);
    if !p.state.Live? then t
    else
      match e
      case Stop(d) => WithSide(t, d, p.(state := Ended))
      case Read(d, data) =>
        if data == [] then WithSide(t, d, p.(state := Ended))
        else
          var total := t.transferred + |data|;
          if total > MAX_TUNNEL_BYTES then
            WithSide(t.(transferred := total), d, p.(delivered := p.delivered + data, state := Tripped))
          else
            WithSide(t.(transferred := total), d, p.(delivered := p.delivered + data, written := p.written + data))
  }

  function Run<T>(t: Tunnel<T>, es: seq<Event<T>>): Tunnel<T>
    decreases |es|
  {
    if es == [] then t else Run(Step(t, es[0]), es[1..])
  }

  function Fresh<T>(): Tunnel<T> {
    Tunnel(0, Pump([], [], Live), Pump([], [], Live))
  }

  ghost predicate Safe<T>(t: Tunnel<T>) {
    && t.transferred == |t.up.delivered| + |t.down.delivered|
    && |t.up.written| + |t.down.written| <= MAX_TUNNEL_BYTES
    && t.up.written <= t.up.delivered && t.down.written <= t.down.delivered
    && (t.transferred <= MAX_TUNNEL_BYTES ==> t.up.written == t.up.delivered && t.down.written == t.down.delivered)
    && (t.up.state.Live? && t.down.state.Live? ==> t.transferred <= MAX_TUNNEL_BYTES)
    && (t.up.state.Live? ==> t.up.written == t.up.delivered)
    && (t.down.state.Live? ==> t.down.written == t.down.delivered)
    && (t.up.state.Tripped? || t.down.state.Tripped? <==> t.transferred > MAX_TUNNEL_BYTES)
  }

  /**
   What one resumption does to its direction: at the end of the stream, or when it is canceled, the pump ends; bytes
   that take the total of both directions over 64 MiB trip it; all others are handed on. The other direction and a
   pump that has stopped are left alone.
   */
  lemma PumpStep<T>(t: Tunnel<T>, e: Event<T>)
    ensures var p, t' := Side(t, e.direction), Step(t, e);
      var p' := Side(t', e.direction);
      var other := if e.direction.Up? then Down else Up;
      && Side(t', other) == Side(t, other)
      && (!p.state.Live? ==> t' == t)
      && (p.state.Live? && (e.Stop? || e.data == []) ==>
            p' == p.(state := Ended) && t'.transferred == t.transferred)
      && (p.state.Live? && e.Read? && e.data != [] ==>
            var fits := t.transferred + |e.data| <= 67108864;
            && t'.transferred == t.transferred + |e.data| && p'.delivered == p.delivered + e.data
            && p'.state == (if fits then Live else Tripped)
            && p'.written == p.written + if fits then e.data else [])
  {}

  /** A pump that has stopped, at the end of its stream or otherwise, is silent for good. */
  lemma {:induction false} StoppedIsSilent<T>(t: Tunnel<T>, es: seq<Event<T>>, d: Direction)
    requires !Side(t, d).state.Live?
    ensures Side(Run(t, es), d) == Side(t, d)
    decreases |es|
  {
    if es != [] {
      PumpStep(t, es[0]);
      StoppedIsSilent(Step(t, es[0]), es[1..], d);
    }
  }

  lemma StepSafe<T>(t: Tunnel<T>, e: Event<T>)
    requires Safe(t)
    ensures Safe(Step(t, e))
  {}

  /**
   For every interleaving of the two pumps: the bytes written in both directions together stay within the
   budget; each writer's output is a prefix of what the opposite reader delivered; and while the budget holds
   nothing is lost, reordered or duplicated.
   */
  lemma {:induction false} RelaySafety<T>(t: Tunnel<T>, es: seq<Event<T>>)
    requires Safe(t)
    ensures Safe(Run(t, es))
    decreases |es|
  {
    if es != [] {
      StepSafe(t, es[0]);
      RelaySafety(Step(t, es[0]), es[1..]);
    }
  }

  /** Once a pump has tripped the budget, neither direction writes another byte, even before it is canceled. */
  lemma {:induction false} TrippedIsFinal<T>(t: Tunnel<T>, es: seq<Event<T>>)
    requires t.transferred > MAX_TUNNEL_BYTES
    ensures Run(t, es).transferred > MAX_TUNNEL_BYTES
    ensures Run(t, es).up.written == t.up.written && Run(t, es).down.written == t.down.written
    decreases |es|
  {
    if es != [] {
      TrippedIsFinal(Step(t, es[0]), es[1..]);
    }
  }

  // What one direction was sent in a run whose pumps all stay live: the concatenation of its reads.
  function Sent<T>(es: seq<Event<T>>, d: Direction): seq<T> {
    if es == [] then [] else (if es[0].Read? && es[0].direction == d then es[0].data else []) + Sent(es[1..], d)
  }

  predicate AllReads<T>(es: seq<Event<T>>) {
    forall i | 0 <= i < |es| :: es[i].Read? && es[i].data != []
  }

  lemma ReadWithinBudget<T>(t: Tunnel<T>, d: Direction, data: seq<T>)
    requires t.up.state.Live? && t.down.state.Live? && data != [] && t.transferred + |data| <= MAX_TUNNEL_BYTES
    ensures var t' := Step(t, Read(d, data));
      && t'.up.state.Live? && t'.down.state.Live? && t'.transferred == t.transferred + |data|
      && t'.up.written == t.up.written + (if d.Up? then data else [])
      && t'.down.written == t.down.written + (if d.Up? then [] else data)
  {}

  /** As long as the reads of both directions fit the budget, each side receives exactly what the other sent. */
  lemma {:induction false} FaithfulWithinBudget<T>(t: Tunnel<T>, es: seq<Event<T>>)
    requires t.up.state.Live? && t.down.state.Live? && AllReads(es)
    requires t.transferred + |Sent(es, Up)| + |Sent(es, Down)| <= MAX_TUNNEL_BYTES
    ensures Run(t, es).up.written == t.up.written + Sent(es, Up)
    ensures Run(t, es).down.written == t.down.written + Sent(es, Down)
    decreases |es|
  {
    if es != [] {
      var e := es[0];
      assert e.Read? && e.data != [];
      assert AllReads(es[1..]) by {
        assert forall i | 0 <= i < |es[1..]| :: es[1..][i] == es[i + 1];
      }
      ReadWithinBudget(t, e.direction, e.data);
      FaithfulWithinBudget(Step(t, e), es[1..]);
    }
  }

  /** The running relay. The reader, writer and counter of the source are the fields of this object. */
  class TunnelRelay<T(==)> {
    var transferred: nat
    var up: Pump<T>
    var down: Pump<T>

    ghost function Snapshot(): Tunnel<T>
      reads this
    {
      Tunnel(transferred, up, down)
    }

    constructor ()
      ensures Snapshot() == Fresh()
    {
      transferred, up, down := 0, Pump([], [], Live), Pump([], [], Live);
    }

    // The pump of direction `d` resumes with `data`. True if it goes on to wait for its writer to drain.
    method Resume(d: Direction, data: seq<T>) returns (goesOn: bool)
      requires Side(Snapshot(), d).state.Live?
      modifies this
      ensures Snapshot() == Step(old(Snapshot()), Read(d, data))
      ensures goesOn <==> Side(Snapshot(), d).state.Live?
      ensures Safe(old(Snapshot())) ==> Safe(Snapshot())
    {
      var pump := if d.Up? then up else down;
      if data == [] {
        pump := pump.(state := Ended);
      } else {
        transferred := transferred + |data|;
        pump := pump.(delivered := pump.delivered + data);
        if transferred > MAX_TUNNEL_BYTES {
          pump := pump.(state := Tripped);
        } else {
          pump := pump.(written := pump.written + data);
        }
      }
      if d.Up? { up := pump; } else { down := pump; }
      goesOn := pump.state.Live?;
    }
  }
}
