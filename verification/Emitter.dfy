/** The producer side of the event stream (`StreamEmitter`). The lines written and the flushes
    are kept in `wire`; the class is proved against the transition function `Apply`, and the
    event grammar is proved of every sequence of calls, accepted or rejected. */
module Emitter {
  import opened Text
  import opened Results

  const MAX_EVENT_TEXT_CHARS: nat := 8192
  const MAX_WARNINGS: nat := 8

  datatype Body =
    | Start(requestId: Option<string>, model: ModelBlock)
    | Chunk(text: string)
    | Warning(message: string)
    | Final(wrapper: Wrapper)

  datatype Event = Event(seqNo: nat, body: Body)

  /** What reaches the sink. */
  datatype WireOp = Write(event: Event) | Flush

  datatype EmitterState = EmitterState(seqNo: nat, started: bool, finalSent: bool, warnings: nat, wire: seq<WireOp>)

  const FRESH := EmitterState(0, false, false, 0, [])

  /** A call of the emitter, and how it ends: written, dropped by the warning bound (the
      method returns False), or a protocol error raised. */
  datatype Call = DoStart(requestId: Option<string>, model: ModelBlock)
                | DoChunk(text: string)
                | DoWarning(message: string)
                | DoFinal(wrapper: Wrapper)

  datatype Reply = Written | Dropped | Rejected(reason: string)

  function Bounded(message: string): string { message[..Min(|message|, MAX_EVENT_TEXT_CHARS)] }

  /** A message within the bound stays, a longer one keeps its first 8192 characters. */
  lemma BoundedIsPrefix(message: string)
    ensures Bounded(message) <= message
    ensures |Bounded(message)| == if |message| <= 8192 then |message| else 8192
  {
  }

  /** `_line`: the one place that writes. */
  function Line(st: EmitterState, body: Body): (EmitterState, Reply) {
    if st.finalSent then (st, Rejected("no event may follow 'final'"))
    else (st.(wire := st.wire + [Write(Event(st.seqNo, body)), Flush], seqNo := st.seqNo + 1), Written)
  }

  function Apply(st: EmitterState, call: Call): (EmitterState, Reply) {
    match call
    case DoStart(requestId, model) =>
      if st.started then (st, Rejected("'start' already emitted"))
      else if st.seqNo != 0 then (st, Rejected("'start' must be seq 0"))
      else Line(st.(started := true), Start(requestId, model))
    case DoChunk(text) => Line(st, Chunk(text))
    case DoWarning(message) =>
      if st.warnings >= MAX_WARNINGS then (st, Dropped)
      else Line(st.(warnings := st.warnings + 1), Warning(Bounded(message)))
    case DoFinal(wrapper) =>
      if st.finalSent then (st, Rejected("'final' already emitted"))
      else var (st', r) := Line(st, Final(wrapper)); (st'.(finalSent := true), r)
  }

  function Run(st: EmitterState, calls: seq<Call>): EmitterState
    decreases |calls|
  {
    if calls == [] then st else Run(Apply(st, calls[0]).0, calls[1..])
  }

  // ---------------------------------------------------------------- the grammar

  /** One flush directly after each written line. */
  function WireOf(events: seq<Event>): seq<WireOp> {
    if events == [] then [] else WireOf(events[..|events| - 1]) + [Write(events[|events| - 1]), Flush]
  }

  function Events(wire: seq<WireOp>): seq<Event> {
    if wire == [] then []
    else (if wire[0].Write? then [wire[0].event] else []) + Events(wire[1..])
  }

  function Warnings(events: seq<Event>): nat {
    if events == [] then 0
    else Warnings(events[..|events| - 1]) + (if events[|events| - 1].body.Warning? then 1 else 0)
  }

  /** Gapless numbering, start only first, final only last, bounded warnings. */
  ghost predicate Grammar(events: seq<Event>) {
    && (forall i | 0 <= i < |events| :: events[i].seqNo == i)
    && (forall i | 0 < i < |events| :: !events[i].body.Start?)
    && (forall i | 0 <= i < |events| - 1 :: !events[i].body.Final?)
    && Warnings(events) <= MAX_WARNINGS
    && (forall i | 0 <= i < |events| :: events[i].body.Warning? ==> |events[i].body.message| <= MAX_EVENT_TEXT_CHARS)
  }

  /** The emitter's fields describe the log it has written. */
  ghost predicate Describes(st: EmitterState, events: seq<Event>) {
    && st.wire == WireOf(events)
    && Grammar(events)
    && st.seqNo == |events|
    && (st.started <==> events != [] && events[0].body.Start?)
    && (st.finalSent <==> events != [] && events[|events| - 1].body.Final?)
    && Warnings(events) <= st.warnings <= MAX_WARNINGS
    && (!st.finalSent ==> st.warnings == Warnings(events))
  }

  lemma {:induction false} EventsOfWire(wire: seq<WireOp>, e: Event)
    ensures Events(wire + [Write(e), Flush]) == Events(wire) + [e]
  {
    var more := [Write(e), Flush];
    if wire == [] {
      assert wire + more == more && more[1..] == [Flush] && [Flush][1..] == [];
      assert Events(more) == [e] + Events([Flush]);
    } else {
      EventsOfWire(wire[1..], e);
      assert (wire + more)[1..] == wire[1..] + more;
    }
  }

  lemma {:induction false} EventsOfWireOf(events: seq<Event>)
    ensures Events(WireOf(events)) == events
  {
    if events != [] {
      var k := |events| - 1;
      EventsOfWireOf(events[..k]);
      EventsOfWire(WireOf(events[..k]), events[k]);
    }
  }

  /** The event a call asks for. */
  function BodyOf(call: Call): Body {
    match call
    case DoStart(requestId, model) => Start(requestId, model)
    case DoChunk(text) => Chunk(text)
    case DoWarning(message) => Warning(Bounded(message))
    case DoFinal(wrapper) => Final(wrapper)
  }

  /** When an event may be written after a log. */
  ghost predicate MayFollow(events: seq<Event>, body: Body) {
    && (events != [] ==> !events[|events| - 1].body.Final?)
    && (body.Start? ==> events == [])
    && (body.Warning? ==> Warnings(events) < MAX_WARNINGS)
  }

  lemma AppendGrammar(events: seq<Event>, body: Body)
    requires Grammar(events) && MayFollow(events, body)
    requires body.Warning? ==> |body.message| <= MAX_EVENT_TEXT_CHARS
    ensures var next := events + [Event(|events|, body)];
            && Grammar(next)
            && Warnings(next) == Warnings(events) + (if body.Warning? then 1 else 0)
            && WireOf(next) == WireOf(events) + [Write(Event(|events|, body)), Flush]
  {
    var next := events + [Event(|events|, body)];
    assert next[..|next| - 1] == events;
  }

  /** One call: it is accepted exactly when its event may follow the log, an accepted
      call appends exactly that event, and any other call leaves the log alone. */
  lemma ApplyKeeps(st: EmitterState, call: Call, events: seq<Event>)
    requires Describes(st, events)
    ensures Apply(st, call).1.Written? <==> MayFollow(events, BodyOf(call))
    ensures var next := events + [Event(|events|, BodyOf(call))];
            Describes(Apply(st, call).0, if Apply(st, call).1.Written? then next else events)
    ensures !Apply(st, call).1.Written? ==> Apply(st, call).0.wire == st.wire
  {
    hide Warnings, WireOf, Grammar;
    if MayFollow(events, BodyOf(call)) {
      AppendGrammar(events, BodyOf(call));
    }
  }

  /** Every sequence of calls leaves a grammatical log, flushed line by line. */
  lemma {:induction false} RunKeepsGrammar(st: EmitterState, calls: seq<Call>, events: seq<Event>)
    returns (events': seq<Event>)
    requires Describes(st, events)
    ensures Describes(Run(st, calls), events') && events <= events'
    ensures Events(Run(st, calls).wire) == events'
    ensures Warnings(events') <= 8
    ensures forall i | 0 <= i < |events'| :: events'[i].body.Warning? ==> |events'[i].body.message| <= 8192
    decreases |calls|
  {
    if calls == [] {
      events' := events;
      EventsOfWireOf(events);
    } else {
      ApplyKeeps(st, calls[0], events);
      var (st', reply) := Apply(st, calls[0]);
      var next := if reply.Written? then events + [Event(|events|, BodyOf(calls[0]))] else events;
      events' := RunKeepsGrammar(st', calls[1..], next);
    }
  }

  /** The call that writes a given event. */
  function CallFor(body: Body): Call {
    match body
    case Start(requestId, model) => DoStart(requestId, model)
    case Chunk(text) => DoChunk(text)
    case Warning(message) => DoWarning(message)
    case Final(wrapper) => DoFinal(wrapper)
  }

  function CallsFor(events: seq<Event>): seq<Call> {
    seq(|events|, i requires 0 <= i < |events| => CallFor(events[i].body))
  }

  lemma {:induction false} RunAppend(st: EmitterState, a: seq<Call>, b: seq<Call>)
    ensures Run(st, a + b) == Run(Run(st, a), b)
    decreases |a|
  {
    if a == [] {
      assert a + b == b;
    } else {
      RunAppend(Apply(st, a[0]).0, a[1..], b);
      assert (a + b)[1..] == a[1..] + b;
    }
  }

  /** The converse: every log of the grammar is what some sequence of calls writes, so the
      emitter produces the grammar exactly. */
  lemma {:induction false} GrammarIsReachable(events: seq<Event>)
    requires Grammar(events)
    ensures Describes(Run(FRESH, CallsFor(events)), events)
  {
    if events != [] {
      var k := |events| - 1;
      var prefix, call := events[..k], CallFor(events[k].body);
      assert Grammar(prefix);
      GrammarIsReachable(prefix);
      assert CallsFor(events) == CallsFor(prefix) + [call];
      RunAppend(FRESH, CallsFor(prefix), [call]);
      var st := Run(FRESH, CallsFor(prefix));
      assert Run(st, [call]) == Apply(st, call).0;
      assert Event(|prefix|, BodyOf(call)) == events[k];
      assert prefix + [events[k]] == events;
      ApplyKeeps(st, call, prefix);
      assert k > 0 ==> prefix[k - 1] == events[k - 1];
      assert Apply(st, call).1.Written?;
    }
  }

  // ---------------------------------------------------------------- the class

  /** The bodies written so far. */
  function Bodies(wire: seq<WireOp>): seq<Body> {
    var events := Events(wire);
    seq(|events|, i requires 0 <= i < |events| => events[i].body)
  }

  class StreamEmitter {
    var seqNo: nat
    var started: bool
    var finalSent: bool
    var warnings: nat
    var wire: seq<WireOp>

    function State(): EmitterState
      reads this
    {
      EmitterState(seqNo, started, finalSent, warnings, wire)
    }

    function Log(): seq<Body>
      reads this
    {
      Bodies(wire)
    }

    ghost predicate Valid()
      reads this
    {
      exists events :: Describes(State(), events)
    }

    constructor ()
      ensures State() == FRESH && Valid() && Log() == []
    {
      seqNo, started, finalSent, warnings, wire := 0, false, false, 0, [];
      new;
      assert Describes(State(), []);
    }

    /** `_line`. */
    method Put(body: Body) returns (r: Reply)
      modifies this
      ensures (State(), r) == Line(old(State()), body)
      ensures Log() == old(Log()) + (if r.Written? then [body] else [])
    {
      if finalSent {
        return Rejected("no event may follow 'final'");
      }
      EventsOfWire(wire, Event(seqNo, body));
      wire := wire + [Write(Event(seqNo, body)), Flush];
      seqNo := seqNo + 1;
      r := Written;
    }

    method EmitStart(requestId: Option<string>, model: ModelBlock) returns (r: Reply)
      requires Valid()
      modifies this
      ensures Valid() && (State(), r) == Apply(old(State()), DoStart(requestId, model))
      ensures Log() == old(Log()) + (if r.Written? then [Start(requestId, model)] else [])
      ensures old(State()) == FRESH ==> r.Written? && !finalSent && warnings == 0 && old(Log()) == []
    {
      KeepsValid(State(), DoStart(requestId, model));
      if started {
        return Rejected("'start' already emitted");
      }
      if seqNo != 0 {
        return Rejected("'start' must be seq 0");
      }
      started := true;
      r := Put(Start(requestId, model));
    }

    method EmitChunk(text: string) returns (r: Reply)
      requires Valid()
      modifies this
      ensures Valid() && (State(), r) == Apply(old(State()), DoChunk(text))
      ensures Log() == old(Log()) + (if r.Written? then [Chunk(text)] else [])
      ensures !old(finalSent) ==> r.Written? && !finalSent && warnings == old(warnings)
    {
      KeepsValid(State(), DoChunk(text));
      r := Put(Chunk(text));
    }

    method EmitWarning(message: string) returns (r: Reply)
      requires Valid()
      modifies this
      ensures Valid() && (State(), r) == Apply(old(State()), DoWarning(message))
      ensures Log() == old(Log()) + (if r.Written? then [Warning(Bounded(message))] else [])
      ensures !old(finalSent) ==> (r.Written? <==> old(warnings) < MAX_WARNINGS) && !finalSent
    {
      KeepsValid(State(), DoWarning(message));
      if warnings >= MAX_WARNINGS {
        return Dropped;
      }
      warnings := warnings + 1;
      r := Put(Warning(Bounded(message)));
    }

    method EmitFinal(wrapper: Wrapper) returns (r: Reply)
      requires Valid()
      modifies this
      ensures Valid() && (State(), r) == Apply(old(State()), DoFinal(wrapper))
      ensures Log() == old(Log()) + (if r.Written? then [Final(wrapper)] else [])
    {
      KeepsValid(State(), DoFinal(wrapper));
      if finalSent {
        return Rejected("'final' already emitted");
      }
      r := Put(Final(wrapper));
      finalSent := true;
      assert State() == Apply(old(State()), DoFinal(wrapper)).0;
    }
  }

  lemma KeepsValid(st: EmitterState, call: Call)
    requires exists events :: Describes(st, events)
    ensures exists events :: Describes(Apply(st, call).0, events)
  {
    var events :| Describes(st, events);
    ApplyKeeps(st, call, events);
  }
}
