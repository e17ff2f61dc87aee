/** The protocol and the relay together: the reads of any run of the protocol, put through the relay,
    give the buffered executor's result for what the child's script writes. */
module EndToEnd {
  import opened Text
  import opened Results
  import opened Utf8
  import opened Executor
  import opened Stream
  import opened Parity
  import opened Slicing
  import opened Emitter
  import opened Relay
  import Protocol
  import Scrub
  import Buffered
  import Infer
  import Answers

  /** The reads a run of the protocol makes, in order. */
  ghost function TraceOf(c: Protocol.Config, s: Protocol.State, actions: seq<Protocol.Action>): seq<Read>
    requires Protocol.IsRun(c, s, actions)
    decreases |actions|
  {
    if actions == [] then []
    else ReadBy(s, actions[0]) + TraceOf(c, Protocol.Step(c, s, actions[0]), actions[1..])
  }

  function ReadBy(s: Protocol.State, a: Protocol.Action): seq<Read> {
    if a.OfPump? && a.pump.ReadOut? && a.pump.k <= |s.outPipe| then [Out(s.outPipe[..a.pump.k])]
    else if a.OfPump? && a.pump.ReadErr? && a.pump.k <= |s.errPipe| then [Err(s.errPipe[..a.pump.k])]
    else []
  }

  lemma {:induction false} JoinConcat(a: seq<seq<Byte>>, b: seq<seq<Byte>>)
    ensures Join(a + b) == Join(a) + Join(b)
  {
    if a == [] {
      assert a + b == b;
    } else {
      JoinConcat(a[1..], b);
      Append(a, b);
      Regroup(a[0], Join(a[1..]), Join(b));
    }
  }

  lemma {:induction false} ReadsConcat(a: seq<Read>, b: seq<Read>)
    ensures OutReads(a + b) == OutReads(a) + OutReads(b)
    ensures ErrBytes(a + b) == ErrBytes(a) + ErrBytes(b)
  {
    if b == [] {
      assert a + b == a;
    } else {
      var k := |b| - 1;
      ReadsConcat(a, b[..k]);
      AppendLast(a, b);
      Regroup(OutReads(a), OutReads(b[..k]), if b[k].Out? then [b[k].bytes] else []);
      Regroup(ErrBytes(a), ErrBytes(b[..k]), if b[k].Err? then b[k].bytes else []);
    }
  }

  lemma ReadsOne(r: Read)
    ensures Join(OutReads([r])) == (if r.Out? then r.bytes else []) && ErrBytes([r]) == (if r.Err? then r.bytes else [])
  {
    assert [r][..0] == [];
    if r.Out? {
      assert OutReads([r]) == [r.bytes] && Join([r.bytes]) == r.bytes + Join([]);
    }
  }

  lemma PumpReads(c: Protocol.Config, s: Protocol.State, a: Protocol.PumpAction)
    requires Protocol.PumpEnabled(c, s, a)
    ensures var t := ReadBy(s, Protocol.OfPump(a));
            var s' := Protocol.PumpStep(c, s, a);
            s'.gotOut == s.gotOut + Join(OutReads(t)) && s'.gotErr == s.gotErr + ErrBytes(t)
  {
    hide Join, OutReads, ErrBytes;
    NoReads();
    var t := ReadBy(s, Protocol.OfPump(a));
    if t != [] {
      ReadsOne(t[0]);
      assert t == [t[0]];
    }
  }

  lemma NoReads()
    ensures Join(OutReads([])) == [] && ErrBytes([]) == []
  {
  }

  lemma OneRead(c: Protocol.Config, s: Protocol.State, a: Protocol.Action)
    requires Protocol.Enabled(c, s, a)
    ensures Protocol.Step(c, s, a).gotOut == s.gotOut + Join(OutReads(ReadBy(s, a)))
    ensures Protocol.Step(c, s, a).gotErr == s.gotErr + ErrBytes(ReadBy(s, a))
  {
    hide Join, OutReads, ErrBytes, Protocol.ChildStep, Protocol.ChildEnabled, Protocol.StrayStep,
      Protocol.StrayEnabled, Protocol.WriterStep, Protocol.WriterEnabled, Protocol.PumpStep, Protocol.PumpEnabled,
      Protocol.RelayStep, Protocol.RelayEnabled, Protocol.ClockStep, Protocol.ClockEnabled;
    NoReads();
    match a
    case OfPump(x) => PumpReads(c, s, x);
    case OfRelay(x) => Protocol.RelayReadsNothing(c, s, x);
    case OfClock(x) => Protocol.ClockReadsNothing(c, s, x);
    case _ => Protocol.OthersFrame(c, s, a);
  }

  /** What the relay has collected is what its reads joined together spell. */
  lemma {:induction false} CollectedIsRead(c: Protocol.Config, s: Protocol.State, actions: seq<Protocol.Action>)
    requires Protocol.IsRun(c, s, actions)
    ensures var end := Protocol.After(c, s, actions);
            && end.gotOut == s.gotOut + Join(OutReads(TraceOf(c, s, actions)))
            && end.gotErr == s.gotErr + ErrBytes(TraceOf(c, s, actions))
    decreases |actions|
  {
    hide Protocol.Step, Protocol.Enabled, ReadBy, Join, OutReads, ErrBytes;
    if actions == [] {
      NoReads();
    } else {
      var next := Protocol.Step(c, s, actions[0]);
      var now, later := ReadBy(s, actions[0]), TraceOf(c, next, actions[1..]);
      OneRead(c, s, actions[0]);
      CollectedIsRead(c, next, actions[1..]);
      ReadsConcat(now, later);
      JoinConcat(OutReads(now), OutReads(later));
      Regroup(s.gotOut, Join(OutReads(now)), Join(OutReads(later)));
      Regroup(s.gotErr, ErrBytes(now), ErrBytes(later));
    }
  }

  /** Every read of a run is non-empty and at most 64 KiB. */
  lemma {:induction false} ReadsAreBounded(c: Protocol.Config, s: Protocol.State, actions: seq<Protocol.Action>)
    requires Protocol.IsRun(c, s, actions)
    ensures forall i | 0 <= i < |TraceOf(c, s, actions)| :: 1 <= |TraceOf(c, s, actions)[i].bytes| <= 65536
    decreases |actions|
  {
    hide Protocol.Step;
    if actions != [] {
      ReadsAreBounded(c, Protocol.Step(c, s, actions[0]), actions[1..]);
      OneBoundedRead(c, s, actions[0]);
      hide ReadBy, Protocol.Enabled;
    }
  }

  lemma OneBoundedRead(c: Protocol.Config, s: Protocol.State, a: Protocol.Action)
    requires Protocol.Enabled(c, s, a)
    ensures forall i | 0 <= i < |ReadBy(s, a)| :: 1 <= |ReadBy(s, a)[i].bytes| <= 65536
  {
    hide Protocol.ChildEnabled, Protocol.StrayEnabled, Protocol.WriterEnabled, Protocol.RelayEnabled,
      Protocol.ClockEnabled;
  }

  /** How the relay reads a verdict of the protocol. */
  function EndingOf(v: Protocol.Verdict, code: Option<int>, ms: nat): Ending { Ending(code, v.VTimeout?, ms) }

  /** Without descendants, a run that neither timed out nor lost its child to a kill has read exactly what
      the child's script writes, and returns the child's own code. */
  lemma ReadsAreTheScript(c: Protocol.Config, actions: seq<Protocol.Action>)
    requires Protocol.IsRun(c, Protocol.Initial(c), actions) && c.NoDescendants()
    requires var end := Protocol.After(c, Protocol.Initial(c), actions);
             end.phase.Returned? && !end.phase.verdict.VTimeout? && !Protocol.Killed(end)
    ensures var end := Protocol.After(c, Protocol.Initial(c), actions);
            var trace := TraceOf(c, Protocol.Initial(c), actions);
            && Join(OutReads(trace)) == Protocol.OutOf(c.script, true)
            && ErrBytes(trace) == Protocol.ErrOf(c.script, true)
            && end.phase.code == Some(c.exitCode)
  {
    hide Protocol.OutOf, Protocol.ErrOf;
    var init := Protocol.Initial(c);
    Protocol.VerdictMeaning(c, actions);
    Protocol.InitialInv(c);
    Protocol.RunKeeps(c, init, actions);
    CollectedIsRead(c, init, actions);
    hide Protocol.IsRun, Protocol.After, TraceOf, OutReads, ErrBytes, Join;
    var trace := TraceOf(c, init, actions);
    assert [] + Join(OutReads(trace)) == Join(OutReads(trace)) && [] + ErrBytes(trace) == ErrBytes(trace);
  }

  /** Over every interleaving of child, writer, relay, watchdog and clock: the reported status is the
      verdict; and without descendants, a run that neither timed out nor lost its child to a kill
      reports what the buffered executor reports for the outputs the child's script writes. */
  lemma StreamedRunReportsTheScript(c: Protocol.Config, actions: seq<Protocol.Action>,
                                    policy: Policy, prepared: Prepared, argv: seq<string>, dirExists: bool,
                                    streamedMs: nat, bufferedMs: nat)
    requires Protocol.IsRun(c, Protocol.Initial(c), actions)
    requires Protocol.After(c, Protocol.Initial(c), actions).phase.Returned?
    requires Spawns(policy, argv, dirExists, Spawned)
    ensures var end := Protocol.After(c, Protocol.Initial(c), actions);
            var trace := TraceOf(c, Protocol.Initial(c), actions);
            var s := StreamRun(policy, prepared, argv, dirExists, Spawned, Join(OutReads(trace)), ErrBytes(trace),
                               EndingOf(end.phase.verdict, end.phase.code, streamedMs));
            && (s.status == Ok <==> end.phase.verdict.VOk?)
            && (s.status == Timeout <==> end.phase.verdict.VTimeout?)
            && (!end.phase.verdict.VTimeout? && c.NoDescendants() && !Protocol.Killed(end) ==>
                  var (out, err) := (Protocol.OutOf(c.script, true), Protocol.ErrOf(c.script, true));
                  var how := InTime(out, err, c.exitCode);
                  var b := BufferedRun(policy, prepared, argv, dirExists, Spawned, how, bufferedMs);
                  s == b.(durationMs := streamedMs) <==>
                    && CarriageFree(Utf8.Text(out), policy.maxOutput)
                    && CarriageFree(Utf8.Text(err), policy.maxOutput)
                    && |err| <= 4 * policy.maxOutput + READ_CHUNK)
  {
    hide Protocol.OutOf, Protocol.ErrOf, CarriageFree, StreamStderr, Truncate, Decode, BufferedRun;
    Protocol.VerdictMeaning(c, actions);
    hide Protocol.IsRun, Protocol.After, TraceOf, OutReads, ErrBytes, Join;
    var end := Protocol.After(c, Protocol.Initial(c), actions);
    if !end.phase.verdict.VTimeout? && c.NoDescendants() && !Protocol.Killed(end) {
      ReadsAreTheScript(c, actions);
      StreamEqualsBuffered(policy, prepared, argv, dirExists, Spawned,
                           Protocol.OutOf(c.script, true), Protocol.ErrOf(c.script, true),
                           c.exitCode, streamedMs, bufferedMs);
    }
  }

  /** Both transports, each over any interleaving of its own: a streamed and a buffered run of the
      same child without descendants, neither of which timed out or lost its child to a kill, report
      the same result, duration apart, exactly when stderr fits the retention bound and no carriage
      return shows. */
  lemma TransportsAgreeOverRuns(c: Protocol.Config, streamed: seq<Protocol.Action>, buffered: seq<Buffered.Action>,
                                policy: Policy, prepared: Prepared, argv: seq<string>, dirExists: bool,
                                streamedMs: nat, bufferedMs: nat)
    requires c.NoDescendants() && Spawns(policy, argv, dirExists, Spawned)
    requires Protocol.IsRun(c, Protocol.Initial(c), streamed)
    requires var end := Protocol.After(c, Protocol.Initial(c), streamed);
             end.phase.Returned? && !end.phase.verdict.VTimeout? && !Protocol.Killed(end)
    requires Buffered.IsRun(c, Buffered.Initial(c), buffered)
    requires var end := Buffered.After(c, Buffered.Initial(c), buffered);
             end.phase.Returned? && end.phase.how.InTime?
    ensures var end := Protocol.After(c, Protocol.Initial(c), streamed);
            var trace := TraceOf(c, Protocol.Initial(c), streamed);
            var s := StreamRun(policy, prepared, argv, dirExists, Spawned, Join(OutReads(trace)), ErrBytes(trace),
                               EndingOf(end.phase.verdict, end.phase.code, streamedMs));
            var how := Buffered.After(c, Buffered.Initial(c), buffered).phase.how;
            var b := BufferedRun(policy, prepared, argv, dirExists, Spawned, how, bufferedMs);
            s == b.(durationMs := streamedMs) <==>
              && CarriageFree(Utf8.Text(Protocol.OutOf(c.script, true)), policy.maxOutput)
              && CarriageFree(Utf8.Text(Protocol.ErrOf(c.script, true)), policy.maxOutput)
              && |Protocol.ErrOf(c.script, true)| <= 4 * policy.maxOutput + READ_CHUNK
  {
    hide Protocol.OutOf, Protocol.ErrOf, CarriageFree, StreamRun, Truncate, Decode, BufferedRun;
    StreamedRunReportsTheScript(c, streamed, policy, prepared, argv, dirExists, streamedMs, bufferedMs);
    Buffered.ReturnMeaning(c, buffered);
    hide Protocol.IsRun, Protocol.After, Buffered.IsRun, Buffered.After, TraceOf, OutReads, ErrBytes, Join;
  }

  /** What the buffered executor reports of any run of its protocol: a timeout exactly when it did not end
      in time; drained after the kill, what the streamed path would report of everything that was written,
      under the same exact condition; given up, no output at all. */
  lemma BufferedRunReports(c: Protocol.Config, actions: seq<Buffered.Action>, policy: Policy, prepared: Prepared,
                           argv: seq<string>, dirExists: bool, ms: nat)
    requires Buffered.IsRun(c, Buffered.Initial(c), actions)
    requires Buffered.After(c, Buffered.Initial(c), actions).phase.Returned?
    requires Spawns(policy, argv, dirExists, Spawned)
    ensures var end := Buffered.After(c, Buffered.Initial(c), actions);
            var (how, out, err) := (end.phase.how, end.core.sentOut, end.core.sentErr);
            var b := BufferedRun(policy, prepared, argv, dirExists, Spawned, how, ms);
            && (b.status == Timeout <==> !how.InTime?)
            && (how.LateDrained? ==>
                  (b == StreamRun(policy, prepared, argv, dirExists, Spawned, out, err, Ending(how.lateCode, true, ms))
                   <==>
                     && CarriageFree(Utf8.Text(out), policy.maxOutput)
                     && CarriageFree(Utf8.Text(err), policy.maxOutput)
                     && |err| <= 4 * policy.maxOutput + READ_CHUNK))
            && (how.Abandoned? ==> b.stdout == "" && b.exitCode == how.abandonedCode)
  {
    hide CarriageFree, Truncate, Decode, Universal, StreamRun, Judge, CheckGates;
    Buffered.ReturnMeaning(c, actions);
    hide Buffered.IsRun, Buffered.After;
    var end := Buffered.After(c, Buffered.Initial(c), actions);
    match end.phase.how
    case InTime(_, _, code) => var _ := JudgeSays(policy, false, Some(code));
    case LateDrained(_, _, code) =>
      var _ := JudgeSays(policy, true, code);
      hide BufferedRun;
      StreamEqualsLateDrained(policy, prepared, argv, dirExists, Spawned, end.core.sentOut, end.core.sentErr, code,
                              ms, ms);
    case Abandoned(code) =>
      var _ := JudgeSays(policy, true, code);
      hide BufferedRun;
      var _ := AbandonedReport(policy, prepared, argv, dirExists, Spawned, code, ms);
  }

  /** Timeouts agree as far as they can: a streamed run that was flagged and a buffered run drained after
      its kill report the same result when they have collected the same output and code, exactly under the
      same condition. */
  lemma TimeoutsAgreeOverRuns(c: Protocol.Config, streamed: seq<Protocol.Action>, buffered: seq<Buffered.Action>,
                              policy: Policy, prepared: Prepared, argv: seq<string>, dirExists: bool,
                              streamedMs: nat, bufferedMs: nat)
    requires Spawns(policy, argv, dirExists, Spawned)
    requires Protocol.IsRun(c, Protocol.Initial(c), streamed)
    requires var end := Protocol.After(c, Protocol.Initial(c), streamed);
             end.phase.Returned? && end.phase.verdict.VTimeout?
    requires Buffered.IsRun(c, Buffered.Initial(c), buffered)
    requires var (end, other) := (Protocol.After(c, Protocol.Initial(c), streamed),
                                  Buffered.After(c, Buffered.Initial(c), buffered));
             other.phase.Returned? && other.phase.how == LateDrained(end.gotOut, end.gotErr, end.phase.code)
    ensures var end := Protocol.After(c, Protocol.Initial(c), streamed);
            var trace := TraceOf(c, Protocol.Initial(c), streamed);
            var s := StreamRun(policy, prepared, argv, dirExists, Spawned, Join(OutReads(trace)), ErrBytes(trace),
                               EndingOf(end.phase.verdict, end.phase.code, streamedMs));
            var how := Buffered.After(c, Buffered.Initial(c), buffered).phase.how;
            var b := BufferedRun(policy, prepared, argv, dirExists, Spawned, how, bufferedMs);
            s == b.(durationMs := streamedMs) <==>
              && CarriageFree(Utf8.Text(end.gotOut), policy.maxOutput)
              && CarriageFree(Utf8.Text(end.gotErr), policy.maxOutput)
              && |end.gotErr| <= 4 * policy.maxOutput + READ_CHUNK
  {
    hide CarriageFree, StreamRun, BufferedRun, Decode;
    CollectedIsRead(c, Protocol.Initial(c), streamed);
    var end := Protocol.After(c, Protocol.Initial(c), streamed);
    var trace := TraceOf(c, Protocol.Initial(c), streamed);
    hide Protocol.IsRun, Protocol.After, Buffered.IsRun, Buffered.After, TraceOf, OutReads, ErrBytes, Join;
    assert [] + Join(OutReads(trace)) == Join(OutReads(trace)) && [] + ErrBytes(trace) == ErrBytes(trace);
    StreamEqualsLateDrained(policy, prepared, argv, dirExists, Spawned, end.gotOut, end.gotErr, end.phase.code,
                            streamedMs, bufferedMs);
  }

  // ---------------------------------------------------------------- whole requests over runs

  /** The execution of a request that a run of the protocol is. */
  ghost function ExecutionOf(c: Protocol.Config, actions: seq<Protocol.Action>, ms: nat): Infer.Execution
    requires Protocol.IsRun(c, Protocol.Initial(c), actions)
    requires Protocol.After(c, Protocol.Initial(c), actions).phase.Returned?
  {
    var end := Protocol.After(c, Protocol.Initial(c), actions);
    Infer.Streamed(TraceOf(c, Protocol.Initial(c), actions), EndingOf(end.phase.verdict, end.phase.code, ms))
  }

  /** The chunks of a whole request are the one slicing of its text up to the cap. */
  lemma RequestChunks(r: Infer.Request, trace: seq<Read>, ending: Ending)
    requires Infer.Sensible(r) && Infer.RunsChild(r) && Encodable(r.prompt)
    requires Infer.Respond(r, false, Infer.Streamed(trace, ending)).Response?
    ensures var text := Utf8.Text(Join(OutReads(trace)));
            IsSlicing(text[..Min(r.policy.maxOutput, |text|)],
                      ChunkTexts(Infer.InferEvents(r, false, Infer.Streamed(trace, ending))), MAX_EVENT_TEXT_CHARS)
  {
    hide Infer.Respond, RelayEvents, IsSlicing, Decode, Infer.Accepted, Infer.ModelOf, Infer.ChildSpawns, ChunkTexts;
    var x := Infer.Streamed(trace, ending);
    ConsumerView(Utf8.Text(Join(OutReads(trace))), OutReads(trace), r.policy.maxOutput);
    Answers.ChunksBetween(Start(r.requestId, Infer.ModelOf(r, false)), Infer.MiddleEvents(r, false, x),
                          Final(Infer.Respond(r, false, x).wrapper));
  }

  /** A whole request over every interleaving: the final event carries the verdict of the run, and the
      process exits by it; and without descendants, unless the run timed out or lost its child to a
      kill, the chunks are the one slicing of what the child's script writes, up to the cap, and the
      final text is the scrub of all of it, cut at the cap. */
  lemma StreamedRequestOverRuns(c: Protocol.Config, actions: seq<Protocol.Action>, r: Infer.Request, ms: nat)
    requires Protocol.IsRun(c, Protocol.Initial(c), actions)
    requires Protocol.After(c, Protocol.Initial(c), actions).phase.Returned?
    requires Infer.Sensible(r) && Infer.RunsChild(r) && Encodable(r.prompt)
    ensures var end := Protocol.After(c, Protocol.Initial(c), actions);
            var x := ExecutionOf(c, actions, ms);
            var response := Infer.Respond(r, false, x);
            var log := Infer.InferEvents(r, false, x);
            var cap := r.policy.maxOutput;
            && response.Response? && response.wrapper.RunResult? && Infer.StreamShape(log, response.wrapper)
            && var result := response.wrapper.result;
               && (result.status, response.exit) == (match end.phase.verdict
                                                     case VOk => (InferOk, 0)
                                                     case VExitNonzero => (GenerationError, 1)
                                                     case VTimeout => (InferTimeout, 124))
               && result.exitCode == end.phase.code
               && (!end.phase.verdict.VTimeout? && c.NoDescendants() && !Protocol.Killed(end) ==>
                     var text := Utf8.Text(Protocol.OutOf(c.script, true));
                     && IsSlicing(text[..Min(cap, |text|)], ChunkTexts(log), MAX_EVENT_TEXT_CHARS)
                     && Scrub.Scrubbed(Truncate(text, cap).0, r.weights.value.absPath, r.realRoot,
                                       r.catalog.value.Env(), r.catalog.value.Relative(), result.stdout))
  {
    hide Protocol.OutOf, Protocol.ErrOf, Decode, Truncate, Infer.Respond, Infer.InferEvents, Infer.StreamShape,
      Infer.MiddleEvents, Scrub.ScrubText, Scrub.Scrubbed, RelayEvents, IsSlicing, StreamStderr, ChunkTexts;
    Protocol.VerdictMeaning(c, actions);
    var end := Protocol.After(c, Protocol.Initial(c), actions);
    var trace := TraceOf(c, Protocol.Initial(c), actions);
    var ending := EndingOf(end.phase.verdict, end.phase.code, ms);
    if !end.phase.verdict.VTimeout? && c.NoDescendants() && !Protocol.Killed(end) {
      ReadsAreTheScript(c, actions);
    }
    hide Protocol.IsRun, Protocol.After, TraceOf, OutReads, ErrBytes, Join;
    Infer.StreamedResponse(r, r.catalog.value, r.weights.value, r.binary.value, trace, ending);
    Infer.EveryResponseIsAStream(r, false, Infer.Streamed(trace, ending));
    RequestChunks(r, trace, ending);
    var (p, w) := (r.catalog.value, r.weights.value);
    var reported := Truncate(Utf8.Text(Join(OutReads(trace))), r.policy.maxOutput).0;
    Scrub.ScrubSpelled(reported, w.absPath, r.realRoot, p.Env(), p.Relative(), Infer.ScrubFor(r, p, w, reported));
    assert Infer.ScrubFor(r, p, w, reported)
           == Scrub.ScrubText(reported, w.absPath, EnvLabel(p.Env()) + "/" + p.Relative(), r.realRoot, p.Env());
  }

  /** The same request over any run of either transport, both ending in time: the same answer, stderr
      apart when it overflowed - exactly unless a running child breaks one transport alone. */
  lemma RequestsAgreeOverRuns(c: Protocol.Config, streamed: seq<Protocol.Action>, buffered: seq<Buffered.Action>,
                              r: Infer.Request, streamedMs: nat, bufferedMs: nat)
    requires c.NoDescendants() && Infer.Sensible(r)
    requires Protocol.IsRun(c, Protocol.Initial(c), streamed)
    requires var end := Protocol.After(c, Protocol.Initial(c), streamed);
             end.phase.Returned? && !end.phase.verdict.VTimeout? && !Protocol.Killed(end)
    requires Buffered.IsRun(c, Buffered.Initial(c), buffered)
    requires var end := Buffered.After(c, Buffered.Initial(c), buffered);
             end.phase.Returned? && end.phase.how.InTime?
    requires CarriageFree(Utf8.Text(Protocol.OutOf(c.script, true)), r.policy.maxOutput)
    requires CarriageFree(Utf8.Text(Protocol.ErrOf(c.script, true)), r.policy.maxOutput)
    ensures var s := Infer.Respond(r, false, ExecutionOf(c, streamed, streamedMs));
            var how := Buffered.After(c, Buffered.Initial(c), buffered).phase.how;
            var b := Infer.Respond(r, false, Infer.Buffered(r.binary, how, bufferedMs));
            && (s.Escaped? <==> Infer.BreaksEarly(r) || (Infer.RunsChild(r) && !Encodable(r.prompt)))
            && (b.Escaped? <==> Infer.BreaksEarly(r) || (Infer.RunsChild(r) && r.policy.timeoutMs > 2147483647))
            && (Infer.SameAnswer(s, b) <==> Infer.BreakAlike(r))
            && (|Protocol.ErrOf(c.script, true)| <= 4 * r.policy.maxOutput + READ_CHUNK ==> Infer.SameStderr(s, b))
  {
    hide Protocol.OutOf, Protocol.ErrOf, CarriageFree, Decode, Infer.Respond, Infer.SameAnswer, Infer.SameStderr,
      Infer.RunsChild, Infer.BreaksEarly, Infer.BreakAlike, Encodable;
    ReadsAreTheScript(c, streamed);
    Buffered.ReturnMeaning(c, buffered);
    hide Protocol.IsRun, Protocol.After, Buffered.IsRun, Buffered.After, TraceOf, OutReads, ErrBytes, Join;
    Infer.TransportsAgree(r, TraceOf(c, Protocol.Initial(c), streamed), c.exitCode, streamedMs, bufferedMs);
  }
}
