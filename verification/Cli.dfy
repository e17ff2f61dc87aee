/** `bls infer --stream`: the outermost owner of the one final event and of the exit code. */
module Cli {
  import opened Text
  import opened Results
  import opened Emitter
  import opened Infer
  import opened Utf8

  /** What the command finds: a request file that cannot be read or is no JSON, one that the parser gives
      up on with something other than its own error (numbers too long, nesting too deep), or a parsed
      request and the id it may echo. */
  datatype Payload = Unreadable(reason: string) | Unparseable | Readable(request: Request, echoId: Option<string>)

  /** The grammar, the flushes and the gapless numbering of what was written. */
  ghost predicate WellWritten(wire: seq<WireOp>) {
    wire == WireOf(Events(wire)) && Grammar(Events(wire))
  }

  predicate IsOk(wrapper: Wrapper) { wrapper.RunResult? && wrapper.result.status == InferOk }

  lemma ValidIsWellWritten(emitter: StreamEmitter)
    requires emitter.Valid()
    ensures WellWritten(emitter.wire)
  {
    var events :| Describes(emitter.State(), events);
    EventsOfWireOf(events);
  }

  lemma OneFinalIsAStream(wrapper: Wrapper)
    ensures StreamShape([Final(wrapper)], wrapper)
  {
  }

  lemma StreamIsNotEmpty(log: seq<Body>, wrapper: Wrapper)
    requires StreamShape(log, wrapper)
    ensures log != []
  {
  }

  lemma NothingIsWellWritten()
    ensures WellWritten([]) && Bodies([]) == []
  {
  }

  /** One final on a fresh emitter. */
  method SingleFinal(wrapper: Wrapper) returns (wire: seq<WireOp>)
    ensures WellWritten(wire) && Bodies(wire) == [Final(wrapper)]
  {
    var emitter := new StreamEmitter();
    FinalOnly(emitter, wrapper);
    wire := emitter.wire;
  }

  /** The one final of a request that emitted nothing. */
  method FinalOnly(emitter: StreamEmitter, wrapper: Wrapper)
    requires emitter.Valid() && emitter.State() == FRESH
    modifies emitter
    ensures WellWritten(emitter.wire) && Bodies(emitter.wire) == [Final(wrapper)]
  {
    var _ := emitter.EmitFinal(wrapper);
    ValidIsWellWritten(emitter);
  }

  /** The interpreter's exit code for an exception nobody handles. */
  const UNHANDLED_EXIT := 1

  /** Something raises before any event that the command does not handle ... */
  predicate BreaksSilently(preflightFlag: bool, payload: Payload) {
    payload.Unparseable? || (!preflightFlag && payload.Readable? && BreaksEarly(payload.request))
  }

  /** ... or after the start: a child runs on a prompt that cannot be encoded. */
  predicate BreaksStarted(preflightFlag: bool, payload: Payload) {
    !preflightFlag && payload.Readable? && RunsChild(payload.request) && !Encodable(payload.request.prompt)
  }

  /** `_cmd_infer_stream`. Whatever the flag, the file and the request, the stream ends in a final -
      a single one, or start, chunks and warnings, and one final - exactly unless it breaks: silently,
      without any event, or after the start, which is then all there is. It starts only for a request
      that runs, and the exit code is 0 exactly when there is a final event with status ok. */
  method CmdInferStream(preflightFlag: bool, flagEchoId: Option<string>, payload: Payload, x: Execution)
    returns (exit: nat, wire: seq<WireOp>, wrapper: Option<Wrapper>)
    requires payload.Readable? ==> Sensible(payload.request)
    requires x.Streamed?
    ensures WellWritten(wire)
    ensures wrapper.None? <==> BreaksSilently(preflightFlag, payload) || BreaksStarted(preflightFlag, payload)
    ensures wrapper.Some? ==> StreamShape(Bodies(wire), wrapper.value)
    ensures wrapper.None? ==> exit == UNHANDLED_EXIT
    ensures BreaksSilently(preflightFlag, payload) <==> Bodies(wire) == []
    ensures BreaksStarted(preflightFlag, payload) ==> |Bodies(wire)| == 1 && Bodies(wire)[0].Start?
    ensures exit == 0 <==> wrapper.Some? && IsOk(wrapper.value)
    ensures !payload.Unparseable? && preflightFlag ==>
              exit == 2 && wrapper == Some(RequestError(flagEchoId, "--preflight and --stream are mutually exclusive"))
    ensures !preflightFlag && payload.Unreadable? ==>
              exit == 2 && wrapper == Some(RequestError(None, payload.reason))
    ensures !preflightFlag && payload.Readable? && Respond(payload.request, false, x).Raised? ==>
              exit == 2
              && wrapper == Some(RequestError(payload.echoId, Respond(payload.request, false, x).reason))
    ensures wrapper.Some? && |Bodies(wire)| > 1 <==>
              !preflightFlag && payload.Readable? && Starts(payload.request, false)
              && Respond(payload.request, false, x).Response?
    ensures !preflightFlag && payload.Readable? && Respond(payload.request, false, x).Response? ==>
              wrapper == Some(Respond(payload.request, false, x).wrapper)
              && exit == Respond(payload.request, false, x).exit
  {
    hide Respond, InferEvents, Starts, RunsChild, StreamEmitter.Valid, StreamShape, Grammar, WireOf, Events, Apply,
      Sensible, Executor.CheckGates, Encodable, ModelOf, BreaksEarly;
    if payload.Unparseable? {
      NothingIsWellWritten();
      return UNHANDLED_EXIT, [], None;
    }
    if preflightFlag {
      var refusal := RequestError(flagEchoId, "--preflight and --stream are mutually exclusive");
      wire := SingleFinal(refusal);
      OneFinalIsAStream(refusal);
      return 2, wire, Some(refusal);
    }
    if payload.Unreadable? {
      var refusal := RequestError(None, payload.reason);
      wire := SingleFinal(refusal);
      OneFinalIsAStream(refusal);
      return 2, wire, Some(refusal);
    }
    EndsUnlessItBreaks(payload.request, x.trace, x.ending);
    var emitter := new StreamEmitter();
    var response := RunInferRequest(payload.request, false, x, emitter);
    match response
    case Raised(reason) =>
      var refusal := RequestError(payload.echoId, reason);
      FinalOnly(emitter, refusal);
      OneFinalIsAStream(refusal);
      return 2, emitter.wire, Some(refusal);
    case Escaped =>
      ValidIsWellWritten(emitter);
      return UNHANDLED_EXIT, emitter.wire, None;
    case Response(final, code) =>
      EveryResponseIsAStream(payload.request, false, x);
      StreamIsNotEmpty(InferEvents(payload.request, false, x), final);
      ValidIsWellWritten(emitter);
      return code, emitter.wire, Some(final);
  }
}
