/** `run_llama_stream` as one call over the reads its pump makes, the value it returns, and its
    agreement with the buffered executor. */
module Stream {
  import opened Text
  import opened Results
  import opened Utf8
  import opened Slicing
  import opened Emitter
  import opened Executor
  import opened Relay

  /** One non-empty read of the pump, from either pipe. */
  datatype Read = Out(bytes: seq<Byte>) | Err(bytes: seq<Byte>)

  function OutReads(trace: seq<Read>): seq<seq<Byte>> {
    if trace == [] then []
    else OutReads(trace[..|trace| - 1])
         + (if trace[|trace| - 1].Out? then [trace[|trace| - 1].bytes] else [])
  }

  function ErrBytes(trace: seq<Read>): seq<Byte> {
    if trace == [] then []
    else ErrBytes(trace[..|trace| - 1])
         + (if trace[|trace| - 1].Err? then trace[|trace| - 1].bytes else [])
  }

  /** The world of one streamed run after the pump: how the child ended and what the flag said. */
  datatype Ending = Ending(code: Option<int>, deadlineHit: bool, durationMs: nat)

  /** What a streamed run reports, stated on the complete outputs: decode everything, then cut. */
  function StreamRun(policy: Policy, prepared: Prepared, argv: seq<string>, dirExists: bool,
                     spawned: Spawned, out: seq<Byte>, err: seq<Byte>, ending: Ending): ExecResult
  {
    var denial := CheckGates(policy, argv, dirExists);
    if denial.Some? then denial.value
    else if spawned.SpawnFailed? then SpawnErrorResult(argv, "could not start process: " + spawned.reason)
    else
      var (stdout, t1) := Truncate(Utf8.Text(out), policy.maxOutput);
      var (stderr, t2) := StreamStderr(err, policy.maxOutput);
      var (status, reason) := Judge(policy, ending.deadlineHit, ending.code);
      Assemble(policy, prepared, argv, status, reason, ending.code, stdout, stderr, ending.durationMs, t1 || t2)
  }

  predicate Spawns(policy: Policy, argv: seq<string>, dirExists: bool, spawned: Spawned) {
    CheckGates(policy, argv, dirExists).None? && spawned.Spawned?
  }

  /** The events of a streamed run, start included. */
  ghost function StreamEvents(policy: Policy, requestId: Option<string>, model: ModelBlock, outs: seq<seq<Byte>>)
    : seq<Body>
  {
    [Start(requestId, model)] + RelayEvents(Utf8.Text(Join(outs)), outs, policy.maxOutput, true)
  }

  lemma NothingRead()
    ensures OutReads([]) == [] && ErrBytes([]) == []
  {
  }

  lemma NextRead(trace: seq<Read>, i: nat)
    requires i < |trace|
    ensures OutReads(trace[..i + 1]) == OutReads(trace[..i]) + (if trace[i].Out? then [trace[i].bytes] else [])
    ensures ErrBytes(trace[..i + 1]) == ErrBytes(trace[..i]) + (if trace[i].Err? then trace[i].bytes else [])
  {
    assert trace[..i + 1][..i] == trace[..i];
  }

  /** The reading loop of `_pump`: each read goes to its consumer. */
  method Pump(relay: Relay, trace: seq<Read>)
    requires relay.Valid() && relay.outs == [] && relay.err == []
    modifies relay, relay.emitter
    ensures relay.Valid() && relay.outs == OutReads(trace) && relay.err == ErrBytes(trace)
  {
    hide Relay.Valid, OutReads, ErrBytes;
    NothingRead();
    var i := 0;
    while i < |trace|
      invariant 0 <= i <= |trace|
      invariant relay.Valid()
      invariant relay.outs == OutReads(trace[..i]) && relay.err == ErrBytes(trace[..i])
    {
      NextRead(trace, i);
      if trace[i].Out? {
        relay.ConsumeStdout(trace[i].bytes);
      } else {
        relay.ConsumeStderr(trace[i].bytes);
      }
      i := i + 1;
    }
    assert trace[..i] == trace;
  }

  /** Stderr from the retained bytes and the total observed. */
  method ReportStderr(kept: seq<Byte>, total: nat, ghost err: seq<Byte>, cap: nat) returns (text: string, cut: bool)
    requires kept == Retained(err, cap) && total == |err|
    ensures (text, cut) == StreamStderr(err, cap)
  {
    text := Utf8.Text(kept);
    if total > |kept| {
      text := text[..Min(cap, |text|)] + STDERR_MARKER_HEAD + Decimal(cap) + MARKER_TAIL;
      cut := true;
    } else {
      var t := Truncate(text, cap);
      text, cut := t.0, t.1;
    }
  }

  /** Stdout from the kept prefix and the overage count. */
  method ReportStdout(kept: seq<string>, overage: nat, ghost whole: string, cap: nat) returns (text: string, cut: bool)
    requires Concat(kept) == whole[..Min(cap, |whole|)] && overage == |whole| - Min(cap, |whole|)
    ensures (text, cut) == Truncate(whole, cap)
  {
    text, cut := Concat(kept), false;
    if overage > 0 {
      text, cut := text + Marker(overage), true;
    } else {
      assert whole[..|whole|] == whole;
    }
  }

  /** A started child's run: the reads, the end of the stream, the two reports. */
  method Communicate(cap: nat, trace: seq<Read>, emitter: StreamEmitter)
    returns (stdout: string, cutOut: bool, stderr: string, cutErr: bool)
    requires emitter.Valid() && !emitter.finalSent && emitter.warnings == 0
    modifies emitter
    ensures (stdout, cutOut) == Truncate(Utf8.Text(Join(OutReads(trace))), cap)
    ensures (stderr, cutErr) == StreamStderr(ErrBytes(trace), cap)
    ensures emitter.Valid() && !emitter.finalSent
    ensures emitter.Log() == old(emitter.Log())
                             + RelayEvents(Utf8.Text(Join(OutReads(trace))), OutReads(trace), cap, true)
  {
    hide Decode, RelayEvents, Concat, Truncate, StreamStderr, Apply, StreamEmitter.Valid, StreamEmitter.Log,
      Crosses, Slices;
    var relay := new Relay(cap, emitter);
    Pump(relay, trace);
    relay.Finish();
    stderr, cutErr := ReportStderr(relay.stderrBuf, relay.stderrTotal, relay.err, cap);
    stdout, cutOut := ReportStdout(relay.kept, relay.overage, Utf8.Text(Join(relay.outs)), cap);
  }

  /** From the spawn on: the start event, the prompt's bytes for the stdin writer, and the relay. */
  method StartAndRelay(cap: nat, prompt: seq<CodePoint>, trace: seq<Read>,
                       emitter: StreamEmitter, requestId: Option<string>, model: ModelBlock)
    returns (encoded: bool, stdout: string, cutOut: bool, stderr: string, cutErr: bool)
    requires emitter.Valid() && emitter.State() == FRESH
    modifies emitter
    ensures emitter.Valid() && !emitter.finalSent
    ensures encoded <==> Encodable(prompt)
    ensures encoded ==> (stdout, cutOut) == Truncate(Utf8.Text(Join(OutReads(trace))), cap)
    ensures encoded ==> (stderr, cutErr) == StreamStderr(ErrBytes(trace), cap)
    ensures var text := Utf8.Text(Join(OutReads(trace)));
            emitter.Log() == [Start(requestId, model)]
                             + (if encoded then RelayEvents(text, OutReads(trace), cap, true) else [])
  {
    hide RelayEvents, Truncate, StreamStderr, StreamEmitter.Valid, StreamEmitter.Log, StreamEmitter.State, Apply,
      EncodeStrict, EncodeReplacing, Encodable, OutReads, ErrBytes, Join, Decode;
    stdout, cutOut, stderr, cutErr := "", false, "", false;
    var _ := emitter.EmitStart(requestId, model);
    EncodingsAgree(prompt);
    var data := EncodeStrict(prompt);
    encoded := data.Some?;
    if encoded {
      stdout, cutOut, stderr, cutErr := Communicate(cap, trace, emitter);
    }
  }

  /** Status and reason from the flag and the exit code. */
  method Verdict(policy: Policy, ending: Ending) returns (status: Status, reason: string)
    ensures (status, reason) == Judge(policy, ending.deadlineHit, ending.code)
  {
    status, reason := Ok, "completed";
    if ending.deadlineHit {
      status, reason := Timeout, "killed after " + policy.timeoutText + "s timeout";
    } else if ending.code != Some(0) {
      status := ExitNonzero;
      reason := "exited with code " + (if ending.code.None? then "None" else SignedDecimal(ending.code.value));
    }
  }

  /** The streaming runner. For every sequence of reads of both pipes its result is the
      decode-everything-then-truncate result, and its events are the canonical ones - as long as the
      prompt can be encoded. If not, encoding it raises after the start event, which is then all
      there is. */
  method RunLlamaStream(policy: Policy, prepared: Prepared, argv: seq<string>, prompt: seq<CodePoint>, dirExists: bool,
                        spawned: Spawned, trace: seq<Read>, ending: Ending,
                        emitter: StreamEmitter, requestId: Option<string>, model: ModelBlock)
    returns (r: Option<ExecResult>)
    requires policy.Valid() && emitter.Valid() && emitter.State() == FRESH
    modifies emitter
    ensures r.None? <==> Spawns(policy, argv, dirExists, spawned) && !Encodable(prompt)
    ensures r.Some? ==> r.value == StreamRun(policy, prepared, argv, dirExists, spawned,
                                             Join(OutReads(trace)), ErrBytes(trace), ending)
    ensures emitter.Valid() && !emitter.finalSent
    ensures emitter.State() == FRESH || Spawns(policy, argv, dirExists, spawned)
    ensures Spawns(policy, argv, dirExists, spawned) ==>
              emitter.Log() == if r.None? then [Start(requestId, model)]
                               else StreamEvents(policy, requestId, model, OutReads(trace))
  {
    assert !emitter.finalSent;
    hide RelayEvents, Truncate, StreamStderr, CheckGates, StreamEmitter.Valid, StreamEmitter.Log, StreamEmitter.State,
      Apply, EncodeStrict, EncodeReplacing, Encodable, OutReads, ErrBytes, Join, Decode, Judge;
    var denial := CheckGates(policy, argv, dirExists);
    if denial.Some? {
      return Some(denial.value);
    }
    if spawned.SpawnFailed? {
      return Some(SpawnErrorResult(argv, "could not start process: " + spawned.reason));
    }
    var encoded, stdout, cutOut, stderr, cutErr :=
      StartAndRelay(policy.maxOutput, prompt, trace, emitter, requestId, model);
    if !encoded {
      return None;
    }
    var status, reason := Verdict(policy, ending);
    var result := Assemble(policy, prepared, argv, status, reason, ending.code, stdout, stderr, ending.durationMs,
                           cutOut || cutErr);
    r := Some(result);
  }
}
