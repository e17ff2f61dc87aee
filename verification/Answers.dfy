/** What a caller reads in the answer to a request, field by field and spelled out in terms of the request,
    the catalog and the raw bytes. */
module Answers {
  import opened Text
  import opened Results
  import opened Utf8
  import opened Slicing
  import opened Emitter
  import opened Executor
  import opened Relay
  import opened Stream
  import opened Parity
  import opened Scrub
  import opened Llama
  import opened Infer

  // ---------------------------------------------------------------- what decides about a start

  /** The catalog is readable and its profile is there. */
  ghost predicate ProfileOf(r: Request, p: Profile) {
    r.shape.Fine? && !HasUnpassable(r.catalogPath) && r.catalog == Good(p)
  }

  /** More tokens than the profile's context holds. */
  predicate Over(r: Request, p: Profile) {
    p.contextLength.Some? && r.maxTokens > p.contextLength.value
  }

  /** A request with a profile is raised for its tokens exactly when it asks for more than the context
      length; a smaller request is raised at most for a working directory that is no path. */
  lemma TokensDecide(r: Request, p: Profile, preflight: bool, x: Execution) returns (asked: string, held: string)
    requires Sensible(r) && ProfileOf(r, p)
    ensures Over(r, p) ==>
              && Respond(r, preflight, x)
                 == Raised("params.max_tokens " + asked + " exceeds profile context_length " + held)
              && Numeral(asked, r.maxTokens) && Numeral(held, p.contextLength.value)
    ensures !Over(r, p) && Respond(r, preflight, x).Raised? ==>
              p.family.LlamaFamily? && !preflight && r.badDir.Some? && Respond(r, preflight, x).reason == r.badDir.value
    ensures Starts(r, preflight) ==> !Over(r, p)
  {
    UnpassableIff(r.catalogPath);
    hide FileSystemPath, FileSystemText, HasUnpassable, LlamaResult, FakeResult, FakeRefusal, LlamaPreflight,
      UnsetReason, FakeModel, CheckGates;
    asked, held := Decimal(r.maxTokens), Decimal(if p.contextLength.Some? then p.contextLength.value else 0);
    DecimalIsNumeral(r.maxTokens);
    DecimalIsNumeral(if p.contextLength.Some? then p.contextLength.value else 0);
  }

  /** Exactly when a request runs a child. */
  lemma RunsChildIff(r: Request)
    ensures RunsChild(r) <==>
              && r.shape.Fine? && !HasUnpassable(r.catalogPath) && r.catalog.Good?
              && var p := r.catalog.value;
                 && p.family.LlamaFamily? && !Over(r, p)
                 && !HasUnencodable(p.cacheDirEnv) && r.root.Some? && r.root.value != ""
                 && !HasUnpassable(p.relativePath) && r.weights.Good? && r.binary.Good?
                 && r.policy.allowExec && r.binary.value != "" && '/' !in r.binary.value && '\\' !in r.binary.value
                 && r.binary.value in r.policy.allowedCommands
                 && (r.policy.workingDir.Some? ==> r.badDir.None? && r.dirExists)
                 && r.spawned.Spawned?
  {
    UnpassableIff(r.catalogPath);
    if r.catalog.Good? {
      UnpassableIff(r.catalog.value.cacheDirEnv);
      UnpassableIff(r.catalog.value.relativePath);
    }
    hide FileSystemPath, FileSystemText, HasUnpassable, HasUnencodable;
  }

  // ---------------------------------------------------------------- refusals

  /** A refusal of the model layer: its reason and code, and nothing else. */
  ghost predicate IsModelError(r: Request, response: Response, reason: string, code: string) {
    && response.Response? && response.exit == 2
    && response.wrapper.RunResult? && response.wrapper.requestId == r.requestId
    && var result := response.wrapper.result;
       && result.status == ModelError && result.reasonCode == Some(code) && result.reason == reason
       && result.argv == [] && result.exitCode.None? && result.stdout == "" && result.stderr == ""
       && result.durationMs == 0 && !result.truncated && result.network == r.policy.network
       && result.envKeys == [] && result.limits == [] && result.model.NoModel? && result.generation.NoGeneration?
  }

  /** The refusals up to the runner family: the catalog's own, an unknown family, a fake not allowed. */
  lemma CatalogRefuses(r: Request, preflight: bool, x: Execution)
    requires Sensible(r) && r.shape.Fine? && !HasUnpassable(r.catalogPath)
    ensures r.catalog.Bad? ==> IsModelError(r, Respond(r, preflight, x), r.catalog.reason, r.catalog.code)
    ensures r.catalog.Good? && !Over(r, r.catalog.value) ==>
              var (p, response) := (r.catalog.value, Respond(r, preflight, x));
              && (p.family.UnknownFamily? ==> IsModelError(r, response, p.family.refusal, "unsupported_runner"))
              && (p.family.FakeFamily? && !r.allowFake ==>
                    IsModelError(r, response,
                                 "profile " + p.name
                                 + " uses the fake runner; refused because the request does not set "
                                 + "\"allow_fake\": true (contract F4)",
                                 "unsupported_runner"))
  {
    UnpassableIff(r.catalogPath);
    hide FileSystemPath, FileSystemText, HasUnpassable, HasUnencodable, LlamaResult, LlamaPreflight, Executed,
      FakeResult, FakeModel, Resolved;
  }

  /** The refusals of the weights and of the binary, in order. */
  lemma WeightsRefuse(r: Request, p: Profile, preflight: bool, x: Execution)
    requires Sensible(r) && ProfileOf(r, p) && !Over(r, p) && p.family.LlamaFamily? && !HasUnencodable(p.cacheDirEnv)
    ensures r.root.None? || r.root.value == "" ==>
              IsModelError(r, Respond(r, preflight, x),
                           "model cache root env var " + Shown(p.cacheDirEnv)
                           + " is unset or empty; export it to the local runtime cache directory",
                           "model_dir_unset")
    ensures r.root.Some? && r.root.value != "" && !HasUnpassable(p.relativePath) ==>
              && (r.weights.Bad? ==> IsModelError(r, Respond(r, preflight, x), r.weights.reason, r.weights.code))
              && (r.weights.Good? && r.binary.Bad? ==>
                    IsModelError(r, Respond(r, preflight, x), r.binary.reason, r.binary.code))
  {
    UnpassableIff(r.catalogPath);
    UnpassableIff(p.cacheDirEnv);
    UnpassableIff(p.relativePath);
    hide FileSystemPath, FileSystemText, HasUnpassable, HasUnencodable, LlamaResult, LlamaPreflight, Executed;
  }

  // ---------------------------------------------------------------- the fake runner

  lemma FakeTextSays(name: string, prompt: seq<CodePoint>) returns (digits: string)
    ensures FakeText(name, prompt) == "[fake:" + name + "] received " + digits + " chars"
    ensures Numeral(digits, |prompt|)
  {
    digits := Decimal(|prompt|);
    DecimalIsNumeral(|prompt|);
  }

  /** An accepted fake run: the canned text, its counts, the marked model block; and in stream mode a start
      with that block, the one slicing of the text, and the final. */
  lemma FakeAnswers(r: Request, p: Profile, preflight: bool, trace: seq<Read>, ending: Ending)
    returns (digits: string)
    requires Sensible(r) && ProfileOf(r, p) && !Over(r, p) && p.family.FakeFamily? && r.allowFake
    ensures var x := Streamed(trace, ending);
            var response := Respond(r, preflight, x);
            var model := Model(p.name, "fake", None, None, Shown(p.relativePath), p.sha256, "none", true,
                               p.quantization, p.contextLength);
            var text := "[fake:" + p.name + "] received " + digits + " chars";
            var log := InferEvents(r, preflight, x);
            && Numeral(digits, |r.prompt|)
            && response.Response? && response.exit == 0 && response.wrapper.RunResult?
            && response.wrapper.requestId == r.requestId
            && (var result := response.wrapper.result;
                && result.status == InferOk && result.reasonCode.None? && result.argv == [] && result.model == model
                && result.stdout == "" && result.stderr == "" && !result.truncated && result.network == r.policy.network
                && result.envKeys == [] && result.limits == []
                && result.exitCode == (if preflight then None else Some(0))
                && result.durationMs == (if preflight then 0 else r.fakeMs)
                && result.generation
                   == if preflight then NoGeneration else Generation(text, |r.prompt|, |text|, "stop"))
            && log != [] && log[0] == Start(r.requestId, model)
            && StreamShape(log, response.wrapper)
            && (if preflight then |log| == 2 else IsSlicing(text, ChunkTexts(log), 8192))
  {
    UnpassableIff(r.catalogPath);
    hide FileSystemPath, FileSystemText, HasUnpassable, FakeText, ChunkTexts, StreamShape, Slices, IsSlicing;
    digits := FakeTextSays(p.name, r.prompt);
    var text := FakeText(p.name, r.prompt);
    var x := Streamed(trace, ending);
    EveryResponseIsAStream(r, preflight, x);
    if !preflight {
      ChunksOfSlices(Start(r.requestId, FakeModel(p)), text, Final(Respond(r, preflight, x).wrapper));
    }
  }

  lemma ChunksOfSlices(first: Body, text: string, last: Body)
    requires !first.Chunk? && !last.Chunk?
    ensures IsSlicing(text, ChunkTexts([first] + ChunkEvents(Slices(text, 8192)) + [last]), 8192)
  {
    hide Slices, ChunkTexts, IsSlicing;
    SlicesIsSlicing(text, 8192);
    ChunkTextsOfEvents(Slices(text, 8192));
    ChunksBetween(first, ChunkEvents(Slices(text, 8192)), last);
  }

  /** The chunks of a log are those between its start and its final. */
  lemma ChunksBetween(first: Body, middle: seq<Body>, last: Body)
    requires !first.Chunk? && !last.Chunk?
    ensures ChunkTexts([first] + middle + [last]) == ChunkTexts(middle)
  {
    ChunkTextsAppend([first] + middle, [last]);
    ChunkTextsAppend([first], middle);
    OneBody(first);
    OneBody(last);
  }

  lemma OneBody(b: Body)
    requires !b.Chunk?
    ensures ChunkTexts([b]) == []
  {
    assert [b][1..] == [];
  }

  // ---------------------------------------------------------------- executed requests

  /** The model block of a real run. */
  function RealModel(p: Profile, w: Weights, binary: string, version: Option<string>): ModelBlock {
    Model(p.name, "llama.cpp", Some(binary), version, Shown(p.relativePath), p.sha256, w.verified, false,
          p.quantization, p.contextLength)
  }

  /** The command line that is reported: what the child received, with the label for the weight path. */
  ghost predicate ReportsArgv(r: Request, p: Profile, w: Weights, binary: string, argv: seq<string>) {
    var received := Invocation(binary, w.absPath, r.maxTokens, r.temperature, r.seed).Argv();
    && |argv| == |received|
    && forall i | 0 <= i < |argv| ::
         argv[i] == if received[i] == w.absPath then "${" + p.Env() + "}/" + p.Relative() else received[i]
  }

  /** Everything a result carries over from the execution. */
  ghost predicate CarriesOver(r: Request, p: Profile, w: Weights, binary: string,
                              exec: ExecResult, result: InferResult)
  {
    && result.status == (match exec.status
                         case Ok => InferOk
                         case ExitNonzero => GenerationError
                         case Denied => InferDenied
                         case Timeout => InferTimeout
                         case SpawnError => InferSpawnError)
    && result.reasonCode.None? && result.reason == exec.reason && result.exitCode == exec.exitCode
    && result.durationMs == exec.durationMs && result.truncated == exec.truncated
    && result.network == exec.network && result.envKeys == exec.envKeys && result.limits == exec.limits
    && result.model == RealModel(p, w, binary, r.version) && ReportsArgv(r, p, w, binary, result.argv)
    && Scrubbed(exec.stdout, w.absPath, r.realRoot, p.Env(), p.Relative(), result.stdout)
    && Scrubbed(exec.stderr, w.absPath, r.realRoot, p.Env(), p.Relative(), result.stderr)
    && result.generation == if exec.status == Ok then Generation(result.stdout, |r.prompt|, |result.stdout|, "unknown")
                            else NoGeneration
  }

  lemma LlamaResultCarriesOver(r: Request, p: Profile, w: Weights, binary: string, exec: ExecResult)
    requires w.absPath != ""
    ensures CarriesOver(r, p, w, binary, exec, LlamaResult(r, p, w, binary, exec))
  {
    hide BuildArgv, ScrubText, Scrubbed;
    ScrubSpelled(exec.stdout, w.absPath, r.realRoot, p.Env(), p.Relative(), ScrubFor(r, p, w, exec.stdout));
    ScrubSpelled(exec.stderr, w.absPath, r.realRoot, p.Env(), p.Relative(), ScrubFor(r, p, w, exec.stderr));
    assert WeightLabel(p.Env(), p.Relative()) == "${" + p.Env() + "}/" + p.Relative();
  }

  /** What a finished run of a spawned child is assembled from. */
  ghost predicate Assembled(policy: Policy, prepared: Prepared, argv: seq<string>, timedOut: bool, code: Option<int>,
                            stdout: (string, bool), stderr: (string, bool), ms: nat, exec: ExecResult) {
    && exec.argv == argv && exec.network == policy.network
    && exec.envKeys == prepared.envKeys && exec.limits == prepared.limits
    && exec.exitCode == code && exec.durationMs == ms
    && exec.stdout == stdout.0 && exec.stderr == stderr.0 && exec.truncated == (stdout.1 || stderr.1)
    && (exec.status, exec.reason) == Judge(policy, timedOut, code)
  }

  /** Either transport, from the raw bytes: the decoded texts - newlines translated on the buffered one -
      cut at the cap, and everything else from the policy and the way the child ended. */
  lemma RunsAssemble(policy: Policy, prepared: Prepared, argv: seq<string>, dirExists: bool,
                     out: seq<Byte>, err: seq<Byte>, code: Option<int>, late: bool, ms: nat)
    requires Spawns(policy, argv, dirExists, Spawned) && (code.None? ==> late)
    ensures var cap := policy.maxOutput;
            var how := if late then LateDrained(out, err, code) else InTime(out, err, code.value);
            && Assembled(policy, prepared, argv, late, code,
                         Truncate(Universal(Utf8.Text(out)), cap), Truncate(Universal(Utf8.Text(err)), cap), ms,
                         BufferedRun(policy, prepared, argv, dirExists, Spawned, how, ms))
            && Assembled(policy, prepared, argv, late, code,
                         Truncate(Utf8.Text(out), cap), StreamStderr(err, cap), ms,
                         StreamRun(policy, prepared, argv, dirExists, Spawned, out, err, Ending(code, late, ms)))
  {
    hide Decode, Universal, Truncate, StreamStderr, CheckGates;
  }

  /** The answer to a request that executes, on either transport: it carries over the execution's result,
      names the request, and the process exits by the status. */
  lemma ExecutedAnswer(r: Request, p: Profile, w: Weights, binary: string, x: Execution)
    requires Sensible(r) && Accepted(r) && r.catalog == Good(p) && p.family.LlamaFamily?
    requires r.weights == Good(w) && r.binary == Good(binary) && Executed(r, w, binary, x).Ran?
    ensures var ran := Executed(r, w, binary, x);
            var response := Respond(r, false, x);
            && ran.binary == (if x.Buffered? then x.again.value else binary)
            && response.Response? && response.wrapper.RunResult? && response.wrapper.requestId == r.requestId
            && CarriesOver(r, p, w, ran.binary, ran.exec, response.wrapper.result)
            && response.exit == (match ran.exec.status
                                 case Ok => 0
                                 case ExitNonzero => 1
                                 case Timeout => 124
                                 case _ => 2)
  {
    hide Respond, LlamaResult, BuildArgv, StreamRun, BufferedRun, CheckGates, Spawns, Encodable, Scrubbed, ReportsArgv;
    RespondExecutes(r, x);
    var ran := Executed(r, w, binary, x);
    LlamaResultCarriesOver(r, p, w, ran.binary, ran.exec);
  }

  /** A request whose child does not spawn is denied when one of the four gates of the policy refuses it,
      and a spawn error otherwise; nothing was captured. */
  lemma RefusedAnswer(r: Request, p: Profile, w: Weights, binary: string, x: Execution)
    requires Sensible(r) && Accepted(r) && r.catalog == Good(p) && p.family.LlamaFamily?
    requires r.weights == Good(w) && r.binary == Good(binary) && x.Streamed? && !RunsChild(r) && r.badDir.None?
    ensures var response := Respond(r, false, x);
            var gates := r.policy.allowExec && IsBareCommand(binary) && binary in r.policy.allowedCommands;
            && response.Response? && response.exit == 2 && response.wrapper.RunResult?
            && (var result := response.wrapper.result;
                && result.status == (if gates then InferSpawnError else InferDenied)
                && result.exitCode.None? && !result.truncated && result.generation.NoGeneration?
                && Scrubbed("", w.absPath, r.realRoot, p.Env(), p.Relative(), result.stdout)
                && Scrubbed("", w.absPath, r.realRoot, p.Env(), p.Relative(), result.stderr))
  {
    RunsChildIff(r);
    ArgvReadsBack(binary, w.absPath, r.maxTokens, r.temperature, r.seed);
    AcceptedIsPassable(r);
    NotSpawned(r, w, binary, x);
    hide Respond, LlamaResult, BuildArgv, Scrubbed, ReportsArgv, Executed, CheckGates, RunsChild, HasUnpassable,
      HasUnencodable, Accepted;
    ExecutedAnswer(r, p, w, binary, x);
  }

  lemma AcceptedIsPassable(r: Request)
    requires Accepted(r)
    ensures ProfileOf(r, r.catalog.value) && !Over(r, r.catalog.value)
    ensures r.catalog.value.family.LlamaFamily? ==>
              && !HasUnencodable(r.catalog.value.cacheDirEnv) && !HasUnpassable(r.catalog.value.relativePath)
              && r.root.Some? && r.root.value != ""
  {
    UnpassableIff(r.catalogPath);
    UnpassableIff(r.catalog.value.cacheDirEnv);
    UnpassableIff(r.catalog.value.relativePath);
    hide FileSystemPath, FileSystemText, HasUnpassable, HasUnencodable;
  }

  lemma NotSpawned(r: Request, w: Weights, binary: string, x: Execution)
    requires x.Streamed? && r.badDir.None? && BuildArgv(binary, w.absPath, r.maxTokens, r.temperature, r.seed) != []
    requires BuildArgv(binary, w.absPath, r.maxTokens, r.temperature, r.seed)[0] == binary
    requires !ChildSpawns(r, LlamaArgv(r, w, binary))
    ensures var ran := Executed(r, w, binary, x);
            var gates := r.policy.allowExec && IsBareCommand(binary) && binary in r.policy.allowedCommands;
            && ran.Ran? && ran.exec.status == (if gates then SpawnError else Denied)
            && ran.exec.stdout == "" && ran.exec.stderr == "" && ran.exec.exitCode.None? && !ran.exec.truncated
  {
    hide BuildArgv, StreamStderr, Truncate, Decode, Encodable;
  }

  /** The start event of a streamed run carries the request's id and the model block of its final. */
  lemma StartSays(r: Request, p: Profile, w: Weights, binary: string, x: Execution)
    requires Sensible(r) && RunsChild(r) && x.Streamed?
    requires r.catalog == Good(p) && r.weights == Good(w) && r.binary == Good(binary)
    ensures var log := InferEvents(r, false, x);
            log != [] && log[0] == Start(r.requestId, RealModel(p, w, binary, r.version))
  {
    hide Respond, MiddleEvents, FileSystemPath, FileSystemText, CheckGates;
    RespondExecutes(r, x);
    hide LlamaResult, StreamRun, Encodable, LlamaArgv;
  }

  /** A preflight answers ok without running anything: the reported command line and the model block of
      what would run, and a start and a final in stream mode. */
  lemma PreflightAnswers(r: Request, p: Profile, w: Weights, binary: string, x: Execution)
    requires Sensible(r) && Accepted(r) && r.catalog == Good(p) && p.family.LlamaFamily?
    requires r.weights == Good(w) && r.binary == Good(binary)
    ensures var response := Respond(r, true, x);
            && response.Response? && response.exit == 0 && response.wrapper.RunResult?
            && response.wrapper.requestId == r.requestId
            && (var result := response.wrapper.result;
                && result.status == InferOk && result.reasonCode.None? && result.exitCode.None?
                && result.stdout == "" && result.stderr == "" && result.durationMs == 0 && !result.truncated
                && result.network == r.policy.network && result.envKeys == [] && result.limits == []
                && result.model == RealModel(p, w, binary, None) && ReportsArgv(r, p, w, binary, result.argv)
                && result.generation.NoGeneration?
                && InferEvents(r, true, x) == [Start(r.requestId, result.model), Final(response.wrapper)])
  {
    hide Respond, InferEvents, BuildArgv, Accepted;
    PreflightAnswer(r, p, x);
    assert WeightLabel(p.Env(), p.Relative()) == "${" + p.Env() + "}/" + p.Relative();
  }

  /** A working directory that is no path is reported when the gates come to it, on either transport. */
  lemma BadDirectoryRaises(r: Request, x: Execution)
    requires Sensible(r) && Accepted(r) && r.catalog.value.family.LlamaFamily?
    requires r.badDir.Some? && r.policy.workingDir.Some? && (x.Buffered? ==> x.again == r.binary)
    ensures var binary := r.binary.value;
            r.policy.allowExec && IsBareCommand(binary) && binary in r.policy.allowedCommands ==>
              Respond(r, false, x) == Raised(r.badDir.value)
  {
    hide Respond, BuildArgv, StreamRun, BufferedRun, Encodable;
    RespondExecutes(r, x);
    ArgvReadsBack(r.binary.value, r.weights.value.absPath, r.maxTokens, r.temperature, r.seed);
  }

  /** Exactly when the buffered transport of an accepted request ends in an unhandled exception: the second
      look for the binary fails, or the child it starts has a budget that `poll` cannot take. */
  lemma BufferedBreaks(r: Request, x: Execution)
    requires Sensible(r) && Accepted(r) && r.catalog.value.family.LlamaFamily? && x.Buffered?
    ensures Respond(r, false, x).Escaped? <==>
              !x.again.Good?
              || (var binary := x.again.value;
                  && r.policy.timeoutMs > 2147483647
                  && r.policy.allowExec && IsBareCommand(binary) && binary in r.policy.allowedCommands
                  && (r.policy.workingDir.Some? ==> r.badDir.None? && r.dirExists) && r.spawned.Spawned?)
  {
    hide Respond, BuildArgv, BufferedRun;
    RespondExecutes(r, x);
    if x.again.Good? {
      ArgvReadsBack(x.again.value, r.weights.value.absPath, r.maxTokens, r.temperature, r.seed);
    }
  }
}
