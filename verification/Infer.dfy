/** The request layer (`run_infer_request`, `_run_fake`) and the streaming command
    (`_cmd_infer_stream`): every terminal goes through one finalizer, in stream mode the wrapper of
    the plain response is the one final event, and the exit code is decided by its status. */
module Infer {
  import opened Text
  import opened Results
  import opened Utf8
  import opened Slicing
  import opened Emitter
  import opened Executor
  import opened Relay
  import opened Stream
  import opened Parity
  import opened Scrub
  import opened Llama

  // ---------------------------------------------------------------- the world of one request

  datatype Family = FakeFamily | LlamaFamily | UnknownFamily(refusal: string)

  /** A validated catalog profile. Its path and the name of its variable are as the catalog has them. */
  datatype Profile = Profile(
    name: string, family: Family, relativePath: seq<CodePoint>, sha256: string,
    quantization: Option<string>, contextLength: Option<nat>, cacheDirEnv: seq<CodePoint>)
  {
    function Relative(): string { Shown(relativePath) }

    function Env(): string { Shown(cacheDirEnv) }
  }

  /** A step of the model layer: it succeeds, fails with a reason and a closed-set code, or raises
      something that neither the request layer nor the command handles. */
  datatype Checked<T> = Good(value: T) | Bad(reason: string, code: string) | Broken

  /** The request and policy validation that precedes all else. */
  datatype Shape = Fine | Refused(reason: string) | Unhandled

  datatype Weights = Weights(absPath: string, verified: string)

  /** Everything `run_infer_request` learns, in the order it learns it: `catalog` is what a catalog path
      leads to that the file system accepts, `weights` what a weight path leads to that it accepts, below
      the root that the environment gives; `badDir` is the complaint about a working directory that is
      no path at all. */
  datatype Request = Request(
    shape: Shape, requestId: Option<string>, prompt: seq<CodePoint>, maxTokens: nat,
    temperature: Option<string>, seed: Option<int>, allowFake: bool, policy: Policy,
    catalogPath: seq<CodePoint>, catalog: Checked<Profile>, root: Option<string>, weights: Checked<Weights>,
    binary: Checked<string>, version: Option<string>, realRoot: string,
    prepared: Prepared, badDir: Option<string>, dirExists: bool, spawned: Spawned, fakeMs: nat)

  /** How an executed request runs: buffered, after a second look for the binary, or through the relay. */
  datatype Execution =
    | Buffered(again: Checked<string>, how: Communicated, ms: nat)
    | Streamed(trace: seq<Read>, ending: Ending)

  /** A raised request error, a wrapper with the process exit code, or an exception that neither the
      request layer nor the command handles. */
  datatype Response = Raised(reason: string) | Response(wrapper: Wrapper, exit: nat) | Escaped

  // ---------------------------------------------------------------- results

  /** `INFER_STATUS_EXIT`. */
  function ExitOf(status: InferStatus): (exit: nat)
    ensures exit == 0 <==> status == InferOk
    ensures exit == 1 <==> status == GenerationError
    ensures exit == 124 <==> status == InferTimeout
    ensures exit == 2 <==> status in {InferDenied, InferSpawnError, ModelError}
  {
    match status
    case InferOk => 0
    case GenerationError => 1
    case InferTimeout => 124
    case _ => 2
  }

  /** `_EXEC_STATUS_MAP`. */
  function MapStatus(status: Status): InferStatus {
    match status
    case Ok => InferOk
    case ExitNonzero => GenerationError
    case Denied => InferDenied
    case SpawnError => InferSpawnError
    case Timeout => InferTimeout
  }

  function ModelErrorResult(policy: Policy, reason: string, code: string): InferResult {
    InferResult(ModelError, [], reason, Some(code), None, "", "", 0, false, policy.network, [], [],
                NoModel, NoGeneration)
  }

  function PreflightResult(policy: Policy, argv: seq<string>, reason: string, model: ModelBlock): InferResult {
    InferResult(InferOk, argv, reason, None, None, "", "", 0, false, policy.network, [], [], model, NoGeneration)
  }

  /** The response of a finalized result. */
  function Finalized(r: Request, result: InferResult): Response {
    Response(RunResult(r.requestId, result), ExitOf(result.status))
  }

  // ---------------------------------------------------------------- the fake runner

  /** `FakeRunner.generate`. */
  function FakeText(profile: string, prompt: seq<CodePoint>): string {
    "[fake:" + profile + "] received " + Decimal(|prompt|) + " chars"
  }

  function FakeModel(p: Profile): ModelBlock {
    Model(p.name, "fake", None, None, p.Relative(), p.sha256, "none", true, p.quantization, p.contextLength)
  }

  function FakeResult(r: Request, p: Profile): InferResult {
    var text := FakeText(p.name, r.prompt);
    InferResult(InferOk, [], "fake runner completed (seam exercised; sandbox gates bypassed)", None, Some(0), "", "",
                r.fakeMs, false, r.policy.network, [], [], FakeModel(p), Generation(text, |r.prompt|, |text|, "stop"))
  }

  const FAKE_PREFLIGHT := "preflight: fake runner validated, nothing executed"
  const LLAMA_PREFLIGHT := "preflight: model verified, runner resolved, nothing executed"

  function FakeRefusal(p: Profile): string {
    "profile " + p.name + " uses the fake runner; refused because the request does not set "
    + "\"allow_fake\": true (contract F4)"
  }

  // ---------------------------------------------------------------- the llama.cpp runner

  function LlamaModel(r: Request, p: Profile, w: Weights, binary: string, version: Option<string>): ModelBlock {
    Model(p.name, "llama.cpp", Some(binary), version, p.Relative(), p.sha256, w.verified, false,
          p.quantization, p.contextLength)
  }

  function LlamaArgv(r: Request, w: Weights, binary: string): seq<string> {
    BuildArgv(binary, w.absPath, r.maxTokens, r.temperature, r.seed)
  }

  function ScrubFor(r: Request, p: Profile, w: Weights, text: string): string
    requires w.absPath != ""
  {
    ScrubText(text, w.absPath, WeightLabel(p.Env(), p.Relative()), r.realRoot, p.Env())
  }

  /** The inference result of an execution result: scrub, status map, generation block. */
  function LlamaResult(r: Request, p: Profile, w: Weights, binary: string, exec: ExecResult): InferResult
    requires w.absPath != ""
  {
    var stdout := ScrubFor(r, p, w, exec.stdout);
    var stderr := ScrubFor(r, p, w, exec.stderr);
    var status := MapStatus(exec.status);
    InferResult(
      status, RecordedArgv(LlamaArgv(r, w, binary), WeightLabel(p.Env(), p.Relative()), w.absPath),
      exec.reason, None, exec.exitCode, stdout, stderr, exec.durationMs, exec.truncated, exec.network,
      exec.envKeys, exec.limits, LlamaModel(r, p, w, binary, r.version),
      if status == InferOk then Generation(stdout, |r.prompt|, |stdout|, "unknown") else NoGeneration)
  }

  /** The working directory is no path, and the gates come to look at it. */
  predicate GateRaises(r: Request, argv: seq<string>) {
    r.badDir.Some? && r.policy.workingDir.Some? && CheckGates(r.policy, argv, true).None?
  }

  predicate ChildSpawns(r: Request, argv: seq<string>) {
    !GateRaises(r, argv) && Spawns(r.policy, argv, r.dirExists, r.spawned)
  }

  /** What running a request came to: a result and the binary it names, a type error the command
      reports, or an unhandled exception - from the second look for the binary, from waiting for the child
      longer than `poll` can, or from encoding the prompt once the child is running. */
  datatype Ran = Ran(binary: string, exec: ExecResult) | NotAPath(reason: string) | RanInto

  function Executed(r: Request, w: Weights, binary: string, x: Execution): Ran {
    match x
    case Buffered(again, how, ms) =>
      if !again.Good? then RanInto
      else
        var argv := LlamaArgv(r, w, again.value);
        if GateRaises(r, argv) then NotAPath(r.badDir.value)
        else if ChildSpawns(r, argv) && r.policy.TooLongToPoll() then RanInto
        else Ran(again.value, BufferedRun(r.policy, r.prepared, argv, r.dirExists, r.spawned, how, ms))
    case Streamed(trace, ending) =>
      var argv := LlamaArgv(r, w, binary);
      if GateRaises(r, argv) then NotAPath(r.badDir.value)
      else if ChildSpawns(r, argv) && !Encodable(r.prompt) then RanInto
      else Ran(binary, StreamRun(r.policy, r.prepared, argv, r.dirExists, r.spawned,
                                 Join(OutReads(trace)), ErrBytes(trace), ending))
  }

  // ---------------------------------------------------------------- the model layer

  /** `load_catalog_mapping` and `validate_profile`: a path the file system does not accept raises past
      the handlers, whatever file there is. */
  function CatalogOf(r: Request): Checked<Profile> {
    if FileSystemPath(r.catalogPath) then r.catalog else Broken
  }

  /** `resolve_and_verify`: the variable is looked up, then the path below its value. */
  function Resolved(r: Request, p: Profile): Checked<Weights> {
    if !FileSystemText(p.cacheDirEnv) then Broken
    else if r.root.None? || r.root.value == "" then Checked.Bad(UnsetReason(p), "model_dir_unset")
    else if !FileSystemPath(p.relativePath) then Broken
    else r.weights
  }

  function UnsetReason(p: Profile): string {
    "model cache root env var " + p.Env() + " is unset or empty; export it to the local runtime cache directory"
  }

  // ---------------------------------------------------------------- the response, as one function

  predicate TooManyTokens(r: Request, p: Profile) { p.contextLength.Some? && r.maxTokens > p.contextLength.value }

  /** A well-formed request: what the validated values guarantee. */
  predicate Sensible(r: Request) {
    r.policy.Valid() && (r.weights.Good? ==> r.weights.value.absPath != "")
  }

  function OfBad(r: Request, reason: string, code: string): Response {
    Finalized(r, ModelErrorResult(r.policy, reason, code))
  }

  function TooManyReason(r: Request, p: Profile): string
    requires TooManyTokens(r, p)
  {
    "params.max_tokens " + Decimal(r.maxTokens) + " exceeds profile context_length " + Decimal(p.contextLength.value)
  }

  /** The response to a request, whatever the transport of its execution. */
  function Respond(r: Request, preflight: bool, x: Execution): Response
    requires Sensible(r)
  {
    match r.shape
    case Refused(reason) => Raised(reason)
    case Unhandled => Escaped
    case Fine =>
      match CatalogOf(r)
      case Bad(reason, code) => OfBad(r, reason, code)
      case Broken => Escaped
      case Good(p) => if TooManyTokens(r, p) then Raised(TooManyReason(r, p)) else RespondTo(r, p, preflight, x)
  }

  function RespondTo(r: Request, p: Profile, preflight: bool, x: Execution): Response
    requires Sensible(r)
  {
    match p.family
    case UnknownFamily(refusal) => OfBad(r, refusal, "unsupported_runner")
    case FakeFamily =>
      if !r.allowFake then OfBad(r, FakeRefusal(p), "unsupported_runner")
      else if preflight then Finalized(r, PreflightResult(r.policy, [], FAKE_PREFLIGHT, FakeModel(p)))
      else Finalized(r, FakeResult(r, p))
    case LlamaFamily =>
      match Resolved(r, p)
      case Bad(reason, code) => OfBad(r, reason, code)
      case Broken => Escaped
      case Good(w) =>
        match r.binary
        case Bad(reason, code) => OfBad(r, reason, code)
        case Broken => Escaped
        case Good(binary) =>
          if preflight then Finalized(r, LlamaPreflight(r, p, w, binary))
          else
            match Executed(r, w, binary, x)
            case RanInto => Escaped
            case NotAPath(reason) => Raised(reason)
            case Ran(name, exec) => Finalized(r, LlamaResult(r, p, w, name, exec))
  }

  function LlamaPreflight(r: Request, p: Profile, w: Weights, binary: string): InferResult {
    PreflightResult(r.policy, RecordedArgv(LlamaArgv(r, w, binary), WeightLabel(p.Env(), p.Relative()), w.absPath),
                    LLAMA_PREFLIGHT, LlamaModel(r, p, w, binary, None))
  }

  /** A step before any event raises something that is not handled. What is checkable before the call is
      in the code points: of the catalog path, of the variable's name, of the relative path. */
  predicate BreaksEarly(r: Request) {
    r.shape.Unhandled?
    || (r.shape.Fine? &&
        (CatalogOf(r).Broken?
         || (CatalogOf(r).Good? && !TooManyTokens(r, CatalogOf(r).value) && CatalogOf(r).value.family.LlamaFamily?
             && (Resolved(r, CatalogOf(r).value).Broken?
                 || (Resolved(r, CatalogOf(r).value).Good? && r.binary.Broken?)))))
  }

  // ---------------------------------------------------------------- the event log of a response

  /** The model layer lets the request run (fake or real), so a start event may appear. */
  predicate Accepted(r: Request) {
    && r.shape.Fine? && CatalogOf(r).Good? && r.catalog.Good? && !TooManyTokens(r, r.catalog.value)
    && (r.catalog.value.family.FakeFamily? ==> r.allowFake)
    && (r.catalog.value.family.LlamaFamily? ==>
          Resolved(r, r.catalog.value).Good? && r.weights.Good? && r.binary.Good?)
    && !r.catalog.value.family.UnknownFamily?
  }

  /** A start event belongs to this request: a fake run was accepted, or nothing is executed
      (preflight), or the child has spawned. */
  predicate Starts(r: Request, preflight: bool) {
    && Accepted(r)
    && (r.catalog.value.family.LlamaFamily? && !preflight ==>
          ChildSpawns(r, LlamaArgv(r, r.weights.value, r.binary.value)))
  }

  /** The request runs a child: it is real, it is not a preflight, and its child has spawned. */
  predicate RunsChild(r: Request) {
    Starts(r, false) && r.catalog.value.family.LlamaFamily?
  }

  predicate InBetween(b: Body) { b.Chunk? || b.Warning? }

  /** The log of a finished stream: a single final, or start, chunks and warnings, and one final. */
  ghost predicate StreamShape(log: seq<Body>, wrapper: Wrapper) {
    && log != [] && log[|log| - 1] == Final(wrapper)
    && (|log| > 1 ==> log[0].Start? && forall i | 0 < i < |log| - 1 :: InBetween(log[i]))
  }

  function ModelOf(r: Request, preflight: bool): ModelBlock
    requires Accepted(r)
  {
    var p := r.catalog.value;
    if p.family.FakeFamily? then FakeModel(p)
    else LlamaModel(r, p, r.weights.value, r.binary.value, if preflight then None else r.version)
  }

  /** The chunk and warning events of a request. */
  ghost function MiddleEvents(r: Request, preflight: bool, x: Execution): seq<Body>
    requires Starts(r, preflight)
  {
    var p := r.catalog.value;
    if preflight then []
    else if p.family.FakeFamily? then ChunkEvents(Slices(FakeText(p.name, r.prompt), MAX_EVENT_TEXT_CHARS))
    else if x.Streamed? && Encodable(r.prompt) then
      RelayEvents(Utf8.Text(Join(OutReads(x.trace))), OutReads(x.trace), r.policy.maxOutput, true)
    else []
  }

  /** Every event of a request in stream mode. */
  ghost function InferEvents(r: Request, preflight: bool, x: Execution): seq<Body>
    requires Sensible(r)
  {
    var response := Respond(r, preflight, x);
    if response.Raised? then []
    else
      (if Starts(r, preflight) then [Start(r.requestId, ModelOf(r, preflight))] + MiddleEvents(r, preflight, x) else [])
      + (if response.Response? then [Final(response.wrapper)] else [])
  }

  // ---------------------------------------------------------------- the request layer, as it runs

  /** `_finalize`. */
  method Finalize(emitter: StreamEmitter?, r: Request, result: InferResult) returns (response: Response)
    requires emitter != null ==> emitter.Valid() && !emitter.finalSent
    modifies emitter
    ensures response == Finalized(r, result)
    ensures emitter != null ==> emitter.Valid() && emitter.Log() == old(emitter.Log()) + [Final(response.wrapper)]
    ensures emitter != null && old(emitter.State()) == FRESH ==> emitter.Log() == [Final(response.wrapper)]
  {
    response := Finalized(r, result);
    if emitter != null {
      var _ := emitter.EmitFinal(response.wrapper);
    }
  }

  /** `_run_fake`. */
  method RunFake(r: Request, p: Profile, preflight: bool, emitter: StreamEmitter?) returns (response: Response)
    requires emitter != null ==> emitter.Valid() && emitter.State() == FRESH
    modifies emitter
    ensures response == Finalized(r, if preflight then PreflightResult(r.policy, [], FAKE_PREFLIGHT, FakeModel(p))
                                     else FakeResult(r, p))
    ensures emitter != null ==> emitter.Valid()
    ensures emitter != null ==>
              emitter.Log() == [Start(r.requestId, FakeModel(p))]
                               + (if preflight then []
                                  else ChunkEvents(Slices(FakeText(p.name, r.prompt), MAX_EVENT_TEXT_CHARS)))
                               + [Final(response.wrapper)]
  {
    hide Apply, StreamEmitter.Valid, StreamEmitter.Log, Slices;
    var model := FakeModel(p);
    if preflight {
      if emitter != null {
        var _ := emitter.EmitStart(r.requestId, model);
      }
      response := Finalize(emitter, r, PreflightResult(r.policy, [], FAKE_PREFLIGHT, model));
      return;
    }
    var text := FakeText(p.name, r.prompt);
    if emitter != null {
      var _ := emitter.EmitStart(r.requestId, model);
      var pieces := SliceLoop(text, MAX_EVENT_TEXT_CHARS);
      EmitChunks(emitter, pieces);
    }
    response := Finalize(emitter, r, FakeResult(r, p));
  }

  method EmitChunks(emitter: StreamEmitter, pieces: seq<string>)
    requires emitter.Valid() && !emitter.finalSent
    modifies emitter
    ensures emitter.Valid() && !emitter.finalSent && emitter.Log() == old(emitter.Log()) + ChunkEvents(pieces)
  {
    hide Apply, StreamEmitter.Valid, StreamEmitter.Log;
    for i := 0 to |pieces|
      invariant emitter.Valid() && !emitter.finalSent
      invariant emitter.Log() == old(emitter.Log()) + ChunkEvents(pieces[..i])
    {
      var _ := emitter.EmitChunk(pieces[i]);
      assert ChunkEvents(pieces[..i + 1]) == ChunkEvents(pieces[..i]) + [Chunk(pieces[i])];
    }
    assert pieces[..|pieces|] == pieces;
  }

  /** `run_infer_request`. With or without an emitter the response is the same function of the
      request; with one, the events are written and the wrapper is the last of them. */
  method RunInferRequest(r: Request, preflight: bool, x: Execution, emitter: StreamEmitter?)
    returns (response: Response)
    requires Sensible(r)
    requires emitter != null ==> emitter.Valid() && emitter.State() == FRESH
    requires emitter != null <==> x.Streamed?
    modifies emitter
    ensures response == Respond(r, preflight, x)
    ensures emitter != null ==> emitter.Valid() && emitter.Log() == InferEvents(r, preflight, x)
    ensures emitter != null && response.Raised? ==> emitter.State() == FRESH
  {
    hide Apply, StreamEmitter.Valid, Slices, RelayEvents, FakeResult, FakeText, FakeRefusal, LlamaResult, LlamaModel,
      LlamaArgv, Executed, CheckGates, ExitOf, Encodable, FileSystemPath, FileSystemText, UnsetReason, TooManyReason,
      LlamaPreflight, MiddleEvents, ChildSpawns, ModelErrorResult;
    if r.shape.Refused? {
      return Raised(r.shape.reason);
    }
    if r.shape.Unhandled? {
      return Escaped;
    }
    var catalog := CatalogOf(r);
    match catalog
    case Broken => return Escaped;
    case Bad(reason, code) =>
      response := Finalize(emitter, r, ModelErrorResult(r.policy, reason, code));
    case Good(p) =>
      if TooManyTokens(r, p) {
        return Raised(TooManyReason(r, p));
      }
      match p.family
      case UnknownFamily(refusal) =>
        response := Finalize(emitter, r, ModelErrorResult(r.policy, refusal, "unsupported_runner"));
      case FakeFamily =>
        if !r.allowFake {
          response := Finalize(emitter, r, ModelErrorResult(r.policy, FakeRefusal(p), "unsupported_runner"));
        } else {
          response := RunFake(r, p, preflight, emitter);
          FakeMiddle(r, p, preflight, x);
        }
      case LlamaFamily => response := ResolveAndRun(r, p, preflight, x, emitter);
  }

  lemma FakeMiddle(r: Request, p: Profile, preflight: bool, x: Execution)
    requires Starts(r, preflight) && p == r.catalog.value && p.family.FakeFamily?
    ensures MiddleEvents(r, preflight, x)
            == if preflight then [] else ChunkEvents(Slices(FakeText(p.name, r.prompt), MAX_EVENT_TEXT_CHARS))
    ensures ModelOf(r, preflight) == FakeModel(p)
  {
  }

  /** The llama.cpp branch up to the binary: weights, then the binary on the child's PATH. */
  method ResolveAndRun(r: Request, p: Profile, preflight: bool, x: Execution, emitter: StreamEmitter?)
    returns (response: Response)
    requires Sensible(r) && r.shape.Fine? && CatalogOf(r) == Good(p) && !TooManyTokens(r, p) && p.family.LlamaFamily?
    requires emitter != null ==> emitter.Valid() && emitter.State() == FRESH
    requires emitter != null <==> x.Streamed?
    modifies emitter
    ensures response == Respond(r, preflight, x)
    ensures emitter != null ==> emitter.Valid() && emitter.Log() == InferEvents(r, preflight, x)
    ensures emitter != null && response.Raised? ==> emitter.State() == FRESH
  {
    hide Apply, StreamEmitter.Valid, Slices, RelayEvents, LlamaResult, LlamaModel, LlamaArgv, Executed, CheckGates,
      ExitOf, Encodable, FileSystemPath, FileSystemText, UnsetReason, LlamaPreflight, MiddleEvents, ChildSpawns,
      ModelErrorResult;
    var resolved := Resolved(r, p);
    match resolved
    case Broken => return Escaped;
    case Bad(reason, code) =>
      response := Finalize(emitter, r, ModelErrorResult(r.policy, reason, code));
    case Good(w) =>
      match r.binary
      case Broken => return Escaped;
      case Bad(reason, code) =>
        response := Finalize(emitter, r, ModelErrorResult(r.policy, reason, code));
      case Good(binary) => response := RunLlama(r, p, preflight, x, emitter);
  }

  /** The llama.cpp branch from there: preflight, or one of the two transports, then the shared result. */
  method RunLlama(r: Request, p: Profile, preflight: bool, x: Execution, emitter: StreamEmitter?)
    returns (response: Response)
    requires Sensible(r) && Accepted(r) && p == r.catalog.value && p.family.LlamaFamily?
    requires emitter != null ==> emitter.Valid() && emitter.State() == FRESH
    requires emitter != null <==> x.Streamed?
    modifies emitter
    ensures response == Respond(r, preflight, x)
    ensures emitter != null ==> emitter.Valid() && emitter.Log() == InferEvents(r, preflight, x)
    ensures emitter != null && response.Raised? ==> emitter.State() == FRESH
  {
    hide Apply, StreamEmitter.Valid, StreamEmitter.State, StreamEmitter.Log, Respond, InferEvents, LlamaModel,
      RecordedArgv, BuildArgv, FileSystemPath, FileSystemText;
    if preflight {
      var argv := MakeArgv(r.binary.value, r.weights.value.absPath, r.maxTokens, r.temperature, r.seed);
      var recorded := RecordedArgv(argv, WeightLabel(p.Env(), p.Relative()), r.weights.value.absPath);
      var model := LlamaModel(r, p, r.weights.value, r.binary.value, None);
      if emitter != null {
        var _ := emitter.EmitStart(r.requestId, model);
      }
      response := Finalize(emitter, r, PreflightResult(r.policy, recorded, LLAMA_PREFLIGHT, model));
      PreflightAnswer(r, p, x);
    } else if emitter != null {
      response := StreamLlama(r, p, x, emitter);
    } else {
      response := BufferLlama(r, p, x);
    }
  }

  lemma PreflightAnswer(r: Request, p: Profile, x: Execution)
    requires Sensible(r) && Accepted(r) && p == r.catalog.value && p.family.LlamaFamily?
    ensures var response := Finalized(r, LlamaPreflight(r, p, r.weights.value, r.binary.value));
            && Respond(r, true, x) == response
            && InferEvents(r, true, x)
               == [Start(r.requestId, LlamaModel(r, p, r.weights.value, r.binary.value, None)), Final(response.wrapper)]
  {
    hide LlamaModel, LlamaPreflight, FileSystemPath, FileSystemText;
  }

  /** The events of a streamed run, case by case. */
  lemma StreamedLog(r: Request, p: Profile, x: Execution)
    requires Sensible(r) && Accepted(r) && p == r.catalog.value && p.family.LlamaFamily? && x.Streamed?
    ensures var argv := LlamaArgv(r, r.weights.value, r.binary.value);
            var model := LlamaModel(r, p, r.weights.value, r.binary.value, r.version);
            var log := InferEvents(r, false, x);
            var response := Respond(r, false, x);
            && (GateRaises(r, argv) ==> log == [])
            && (!GateRaises(r, argv) && !ChildSpawns(r, argv) && response.Response? ==>
                  log == [Final(response.wrapper)])
            && (ChildSpawns(r, argv) && !Encodable(r.prompt) ==> log == [Start(r.requestId, model)])
            && (ChildSpawns(r, argv) && Encodable(r.prompt) && response.Response? ==>
                  log == StreamEvents(r.policy, r.requestId, model, OutReads(x.trace)) + [Final(response.wrapper)])
  {
    hide LlamaModel, LlamaArgv, RelayEvents, Respond, FileSystemPath, FileSystemText, Spawns, CheckGates, Encodable,
      OutReads, Join, StreamRun, LlamaResult;
    RespondExecutes(r, x);
  }

  /** The streaming transport of an accepted request. */
  method StreamLlama(r: Request, p: Profile, x: Execution, emitter: StreamEmitter) returns (response: Response)
    requires Sensible(r) && Accepted(r) && p == r.catalog.value && p.family.LlamaFamily? && x.Streamed?
    requires emitter.Valid() && emitter.State() == FRESH
    modifies emitter
    ensures response == Respond(r, false, x)
    ensures emitter.Valid() && emitter.Log() == InferEvents(r, false, x)
    ensures response.Raised? ==> emitter.State() == FRESH
  {
    assert emitter.Log() == [];
    hide Apply, StreamEmitter.Valid, StreamEmitter.State, StreamEmitter.Log, Respond, InferEvents, LlamaModel,
      LlamaResult, BuildArgv, Accepted, Spawns, CheckGates, Encodable, StreamRun, StreamEvents, OutReads, ErrBytes,
      Join;
    RespondExecutes(r, x);
    StreamedLog(r, p, x);
    var argv := MakeArgv(r.binary.value, r.weights.value.absPath, r.maxTokens, r.temperature, r.seed);
    var model := LlamaModel(r, p, r.weights.value, r.binary.value, r.version);
    if GateRaises(r, argv) {
      return Raised(r.badDir.value);
    }
    var exec := RunLlamaStream(r.policy, r.prepared, argv, r.prompt, r.dirExists, r.spawned, x.trace, x.ending,
                               emitter, r.requestId, model);
    if exec.None? {
      return Escaped;
    }
    response := Finalize(emitter, r, LlamaResult(r, p, r.weights.value, r.binary.value, exec.value));
  }

  /** The buffered transport of an accepted request. */
  method BufferLlama(r: Request, p: Profile, x: Execution) returns (response: Response)
    requires Sensible(r) && Accepted(r) && p == r.catalog.value && p.family.LlamaFamily? && x.Buffered?
    ensures response == Respond(r, false, x)
  {
    hide Respond, LlamaResult, BuildArgv, Spawns, CheckGates, BufferedRun;
    RespondExecutes(r, x);
    if !x.again.Good? {
      return Escaped;
    }
    var w := r.weights.value;
    var argv := MakeArgv(x.again.value, w.absPath, r.maxTokens, r.temperature, r.seed);
    if GateRaises(r, argv) {
      return Raised(r.badDir.value);
    }
    if ChildSpawns(r, argv) && r.policy.TooLongToPoll() {
      return Escaped;
    }
    var exec := BufferedRun(r.policy, r.prepared, argv, r.dirExists, r.spawned, x.how, x.ms);
    response := Finalized(r, LlamaResult(r, p, w, x.again.value, exec));
  }

  // ---------------------------------------------------------------- what holds of every request

  lemma MiddleIsInBetween(r: Request, preflight: bool, x: Execution)
    requires Starts(r, preflight)
    ensures forall i | 0 <= i < |MiddleEvents(r, preflight, x)| :: InBetween(MiddleEvents(r, preflight, x)[i])
  {
    hide Slices, Crosses, FakeText;
  }

  /** Every response in stream mode: the log has the stream shape around its wrapper, a start
      appears only for a request that starts, and the exit code is 0 exactly for status ok. */
  lemma EveryResponseIsAStream(r: Request, preflight: bool, x: Execution)
    requires Sensible(r) && x.Streamed? && Respond(r, preflight, x).Response?
    ensures var response := Respond(r, preflight, x);
            var log := InferEvents(r, preflight, x);
            && StreamShape(log, response.wrapper)
            && (|log| > 1 <==> Starts(r, preflight))
            && response.wrapper.RunResult? && response.wrapper.requestId == r.requestId
            && (response.exit == 0 <==> response.wrapper.result.status == InferOk)
            && (response.wrapper.result.status == InferOk ==> Starts(r, preflight))
  {
    hide InferEvents, Respond, StreamShape;
    ResponseIsLast(r, preflight, x);
    StatusTellsTheExit(r, preflight, x);
  }

  lemma ResponseIsLast(r: Request, preflight: bool, x: Execution)
    requires Sensible(r) && Respond(r, preflight, x).Response?
    ensures var log := InferEvents(r, preflight, x);
            StreamShape(log, Respond(r, preflight, x).wrapper) && (|log| > 1 <==> Starts(r, preflight))
  {
    hide Respond, MiddleEvents, Accepted, ModelOf, ChildSpawns;
    if Starts(r, preflight) {
      MiddleIsInBetween(r, preflight, x);
    }
  }

  lemma StatusTellsTheExit(r: Request, preflight: bool, x: Execution)
    requires Sensible(r) && x.Streamed? && Respond(r, preflight, x).Response?
    ensures var response := Respond(r, preflight, x);
            && response.wrapper.RunResult? && response.wrapper.requestId == r.requestId
            && (response.exit == 0 <==> response.wrapper.result.status == InferOk)
            && (response.wrapper.result.status == InferOk ==> Starts(r, preflight))
  {
    var result := ResponseIsFinalized(r, preflight, x);
    OkStarts(r, preflight, x);
    hide Respond;
  }

  /** Every response went through the finalizer. */
  lemma ResponseIsFinalized(r: Request, preflight: bool, x: Execution) returns (result: InferResult)
    requires Sensible(r) && Respond(r, preflight, x).Response?
    ensures Respond(r, preflight, x) == Finalized(r, result)
  {
    hide Executed, LlamaResult, LlamaPreflight, FakeResult, FakeModel, FakeRefusal, ModelErrorResult, PreflightResult,
      FileSystemPath, FileSystemText, UnsetReason, TooManyReason;
    result := Respond(r, preflight, x).wrapper.result;
  }

  lemma OkStarts(r: Request, preflight: bool, x: Execution)
    requires Sensible(r) && x.Streamed? && Respond(r, preflight, x).Response?
    requires Respond(r, preflight, x).wrapper.RunResult?
    ensures Respond(r, preflight, x).wrapper.result.status == InferOk ==> Starts(r, preflight)
  {
    hide Executed, FakeText, FakeRefusal, ScrubText, RecordedArgv, BuildArgv, Spawns, WeightLabel, LlamaModel,
      FakeModel, Decimal, FileSystemPath, FileSystemText, UnsetReason, ChildSpawns, TooManyReason, LlamaArgv;
    if !Starts(r, preflight) && Accepted(r) {
      NotSpawnedIsNotOk(r, x);
    }
  }

  /** An accepted real run whose child did not spawn is denied or a spawn error, or its working directory
      is no path. */
  lemma NotSpawnedIsNotOk(r: Request, x: Execution)
    requires Sensible(r) && x.Streamed? && Accepted(r) && !Starts(r, false)
    ensures var ran := Executed(r, r.weights.value, r.binary.value, x);
            ran.NotAPath? || (ran.Ran? && ran.exec.status in {Denied, SpawnError})
  {
    hide BuildArgv, StreamStderr, Truncate, Universal, Decode, Encodable;
  }

  /** Only an accepted real run looks at its execution, and then only at its result. */
  lemma RespondExecutes(r: Request, x: Execution)
    requires Sensible(r) && Accepted(r) && r.catalog.value.family.LlamaFamily?
    ensures var (p, w, binary) := (r.catalog.value, r.weights.value, r.binary.value);
            Respond(r, false, x) == (match Executed(r, w, binary, x)
                                     case RanInto => Escaped
                                     case NotAPath(reason) => Raised(reason)
                                     case Ran(name, exec) => Finalized(r, LlamaResult(r, p, w, name, exec)))
    ensures !BreaksEarly(r)
  {
    hide Executed, LlamaResult, FileSystemPath, FileSystemText;
  }

  lemma RespondIgnores(r: Request, x: Execution, y: Execution)
    requires Sensible(r) && !(Accepted(r) && r.catalog.value.family.LlamaFamily?)
    ensures Respond(r, false, x) == Respond(r, false, y)
    ensures Respond(r, false, x).Escaped? <==> BreaksEarly(r)
    ensures !RunsChild(r)
  {
    hide Executed, LlamaResult, FakeResult, FakeRefusal, FileSystemPath, FileSystemText, UnsetReason, ModelErrorResult,
      TooManyReason;
  }

  /** Exactly when a stream ends in its one final event. A request that is raised emits nothing and leaves
      the final to the command. Otherwise it ends, unless a step before any event raises something that is
      not handled, and then there is no event at all, or a child runs on a prompt that cannot be encoded,
      and then the start event is all there is. */
  lemma EndsUnlessItBreaks(r: Request, trace: seq<Read>, ending: Ending)
    requires Sensible(r)
    ensures var x := Streamed(trace, ending);
            var response := Respond(r, false, x);
            var log := InferEvents(r, false, x);
            && (response.Escaped? <==> BreaksEarly(r) || (RunsChild(r) && !Encodable(r.prompt)))
            && (response.Raised? || BreaksEarly(r) ==> log == [])
            && (RunsChild(r) && !Encodable(r.prompt) ==> log == [Start(r.requestId, ModelOf(r, false))])
            && ((exists wrapper :: StreamShape(log, wrapper)) <==> response.Response?)
  {
    hide RelayEvents, FakeText, FakeRefusal, ScrubText, RecordedArgv, BuildArgv, Spawns, StreamRun, Encodable,
      LlamaModel, FakeModel, Decimal, Respond, BreaksEarly, FileSystemPath, FileSystemText, CheckGates;
    var x := Streamed(trace, ending);
    if Accepted(r) && r.catalog.value.family.LlamaFamily? {
      RespondExecutes(r, x);
    } else {
      RespondIgnores(r, x, x);
      if BreaksEarly(r) {
        BreaksBeforeAccepted(r);
      }
    }
    if Respond(r, false, x).Response? {
      EveryResponseIsAStream(r, false, x);
      assert StreamShape(InferEvents(r, false, x), Respond(r, false, x).wrapper);
    } else if Respond(r, false, x).Escaped? {
      forall wrapper ensures !StreamShape(InferEvents(r, false, x), wrapper) {
      }
    }
  }

  lemma BreaksBeforeAccepted(r: Request)
    requires BreaksEarly(r)
    ensures !Accepted(r)
  {
    hide FileSystemPath, FileSystemText;
  }

  /** The request comes to look for weights. */
  predicate LooksForWeights(r: Request) {
    && r.shape.Fine? && FileSystemPath(r.catalogPath) && r.catalog.Good?
    && !TooManyTokens(r, r.catalog.value) && r.catalog.value.family.LlamaFamily?
  }

  /** A character no path can hold, spelled out: a NUL, or a surrogate that stands for no byte. */
  ghost predicate HasUnpassable(s: seq<CodePoint>) {
    exists i | 0 <= i < |s| :: s[i] == 0 || 0xD800 <= s[i] < 0xDC80 || 0xDCFF < s[i] < 0xE000
  }

  ghost predicate HasUnencodable(s: seq<CodePoint>) {
    exists i | 0 <= i < |s| :: 0xD800 <= s[i] < 0xDC80 || 0xDCFF < s[i] < 0xE000
  }

  lemma UnpassableIff(s: seq<CodePoint>)
    ensures FileSystemPath(s) <==> !HasUnpassable(s)
    ensures FileSystemText(s) <==> !HasUnencodable(s)
  {
    if 0 in s {
      var i :| 0 <= i < |s| && s[i] == 0;
      assert HasUnpassable(s);
    }
    if HasUnpassable(s) {
      var i :| 0 <= i < |s| && (s[i] == 0 || 0xD800 <= s[i] < 0xDC80 || 0xDCFF < s[i] < 0xE000);
      assert s[i] != 0 ==> !(IsScalar(s[i]) || 0xDC80 <= s[i] <= 0xDCFF);
    }
    assert FileSystemText(s) <==> !HasUnencodable(s) by {
      if !FileSystemText(s) {
        var i :| 0 <= i < |s| && !(IsScalar(s[i]) || 0xDC80 <= s[i] <= 0xDCFF);
        assert 0xD800 <= s[i] < 0xDC80 || 0xDCFF < s[i] < 0xE000;
      }
      if HasUnencodable(s) {
        var i :| 0 <= i < |s| && (0xD800 <= s[i] < 0xDC80 || 0xDCFF < s[i] < 0xE000);
        assert !(IsScalar(s[i]) || 0xDC80 <= s[i] <= 0xDCFF);
      }
    }
  }

  /** What a caller can see of the early breaks in the request and the catalog: a catalog path, a variable
      name or, below a root that is set, a relative path with such a character. */
  lemma UnacceptedNamesBreak(r: Request)
    ensures r.shape.Fine? && HasUnpassable(r.catalogPath) ==> BreaksEarly(r)
    ensures LooksForWeights(r) && HasUnencodable(r.catalog.value.cacheDirEnv) ==> BreaksEarly(r)
    ensures LooksForWeights(r) && r.root.Some? && r.root.value != ""
            && HasUnpassable(r.catalog.value.relativePath) ==>
              BreaksEarly(r)
  {
    UnpassableIff(r.catalogPath);
    if LooksForWeights(r) {
      UnpassableIff(r.catalog.value.cacheDirEnv);
      UnpassableIff(r.catalog.value.relativePath);
    }
    hide FileSystemPath, FileSystemText, HasUnpassable, HasUnencodable;
  }

  ghost predicate AgreeButForStderr(s: ExecResult, b: ExecResult) {
    s == b.(durationMs := s.durationMs, stderr := s.stderr)
  }

  lemma SameButForStderr(r: Request, p: Profile, w: Weights, binary: string, s: ExecResult, b: ExecResult)
    requires Sensible(r) && w.absPath != "" && AgreeButForStderr(s, b)
    ensures var (sr, br) := (LlamaResult(r, p, w, binary, s), LlamaResult(r, p, w, binary, b));
            && sr == br.(durationMs := sr.durationMs, stderr := sr.stderr)
            && (s.stderr == b.stderr ==> sr.stderr == br.stderr)
  {
    hide ScrubText, RecordedArgv, BuildArgv;
  }

  /** What the two transports of one request come to, for a child that finished in time: the same
      binary is found again, a prompt that cannot be encoded breaks the streamed one, and a budget that
      `poll` cannot take the buffered one. */
  lemma ExecutionsAgree(r: Request, trace: seq<Read>, code: int, streamedMs: nat, bufferedMs: nat)
    requires Sensible(r) && Accepted(r) && r.catalog.value.family.LlamaFamily?
    requires CarriageFree(Utf8.Text(Join(OutReads(trace))), r.policy.maxOutput)
    requires CarriageFree(Utf8.Text(ErrBytes(trace)), r.policy.maxOutput)
    ensures var (w, binary) := (r.weights.value, r.binary.value);
            var s := Executed(r, w, binary, Streamed(trace, Ending(Some(code), false, streamedMs)));
            var b := Executed(r, w, binary, InTimeBuffered(r, trace, code, bufferedMs));
            && (s.RanInto? <==> RunsChild(r) && !Encodable(r.prompt))
            && (b.RanInto? <==> RunsChild(r) && r.policy.timeoutMs > 2147483647)
            && (s.NotAPath? ==> s == b) && (b.NotAPath? ==> s == b)
            && (s.Ran? && b.Ran? ==>
                  && s.binary == binary && b.binary == binary && AgreeButForStderr(s.exec, b.exec)
                  && (|ErrBytes(trace)| <= 4 * r.policy.maxOutput + READ_CHUNK ==> s.exec.stderr == b.exec.stderr))
  {
    hide BuildArgv, StreamRun, BufferedRun, CarriageFree, Spawns, Decode, OutReads, ErrBytes, Join, Encodable,
      FileSystemPath, FileSystemText, CheckGates;
    var argv := LlamaArgv(r, r.weights.value, r.binary.value);
    var out, err := Join(OutReads(trace)), ErrBytes(trace);
    var ending := Ending(Some(code), false, streamedMs);
    if Spawns(r.policy, argv, r.dirExists, r.spawned) {
      StreamAgreesOnOverflow(r.policy, r.prepared, argv, r.dirExists, r.spawned, out, err, code,
                             streamedMs, bufferedMs);
      StreamEqualsBuffered(r.policy, r.prepared, argv, r.dirExists, r.spawned, out, err, code, streamedMs, bufferedMs);
    } else {
      RefusedRunsAgree(r.policy, r.prepared, argv, r.dirExists, r.spawned, out, err, ending,
                       InTime(out, err, code), bufferedMs);
    }
  }

  /** The buffered execution of the same child, which finds the same binary again. */
  function InTimeBuffered(r: Request, trace: seq<Read>, code: int, ms: nat): Execution {
    Buffered(r.binary, InTime(Join(OutReads(trace)), ErrBytes(trace), code), ms)
  }

  /** Two responses that differ in nothing but the duration and the stderr text. */
  ghost predicate SameAnswer(s: Response, b: Response) {
    && (s.Raised? || b.Raised? ==> s == b)
    && (s.Response? <==> b.Response?)
    && (s.Response? ==>
          && s.exit == b.exit
          && (s.wrapper.RunResult? <==> b.wrapper.RunResult?)
          && s.wrapper.requestId == b.wrapper.requestId
          && (s.wrapper.RunResult? ==>
                var (sr, br) := (s.wrapper.result, b.wrapper.result);
                sr == br.(durationMs := sr.durationMs, stderr := sr.stderr)))
  }

  ghost predicate SameStderr(s: Response, b: Response) {
    s.Response? && b.Response? && s.wrapper.RunResult? && b.wrapper.RunResult? ==>
      s.wrapper.result.stderr == b.wrapper.result.stderr
  }

  /** The two transports answer alike: for a child that finished in time, without visible carriage
      returns, the streamed response is the buffered one in everything but the duration - and the
      stderr text when it overflowed its retention - exactly unless a child runs and one of them alone
      breaks: the streamed one on a prompt that cannot be encoded, the buffered one on a budget that
      `poll` cannot take. What breaks before any event breaks both. */
  lemma TransportsAgree(r: Request, trace: seq<Read>, code: int, streamedMs: nat, bufferedMs: nat)
    requires Sensible(r)
    requires CarriageFree(Utf8.Text(Join(OutReads(trace))), r.policy.maxOutput)
    requires CarriageFree(Utf8.Text(ErrBytes(trace)), r.policy.maxOutput)
    ensures var s := Respond(r, false, Streamed(trace, Ending(Some(code), false, streamedMs)));
            var b := Respond(r, false, InTimeBuffered(r, trace, code, bufferedMs));
            && (s.Escaped? <==> BreaksEarly(r) || (RunsChild(r) && !Encodable(r.prompt)))
            && (b.Escaped? <==> BreaksEarly(r) || (RunsChild(r) && r.policy.timeoutMs > 2147483647))
            && (SameAnswer(s, b) <==> BreakAlike(r))
            && (|ErrBytes(trace)| <= 4 * r.policy.maxOutput + READ_CHUNK ==> SameStderr(s, b))
  {
    hide Respond, LlamaResult, TooManyTokens, Decode, Universal, OutReads, ErrBytes, Join, CarriageFree, Spawns,
      Encodable, Executed, InTimeBuffered, BreaksEarly, FileSystemPath, FileSystemText, CheckGates,
      ChildSpawns;
    var x := Streamed(trace, Ending(Some(code), false, streamedMs));
    var y := InTimeBuffered(r, trace, code, bufferedMs);
    if Accepted(r) && r.catalog.value.family.LlamaFamily? {
      var (w, binary) := (r.weights.value, r.binary.value);
      RespondExecutes(r, x);
      RespondExecutes(r, y);
      ExecutionsAgree(r, trace, code, streamedMs, bufferedMs);
      var s, b := Executed(r, w, binary, x), Executed(r, w, binary, y);
      if s.Ran? && b.Ran? {
        SameButForStderr(r, r.catalog.value, w, binary, s.exec, b.exec);
      }
    } else {
      RespondIgnores(r, x, y);
    }
  }

  /** A running child does not make one transport break and the other not. */
  predicate BreakAlike(r: Request) {
    RunsChild(r) ==> (Encodable(r.prompt) <==> r.policy.timeoutMs <= 2147483647)
  }

  // ---------------------------------------------------------------- the inputs

  /** A request that runs a child. */
  const PLAIN := Request(
    Fine, None, [0x61], 1, None, None, false, Policy(true, ["llama-cli"], "offline", "1", 1000, 1, None),
    [0x63], Good(Profile("m", LlamaFamily, [0x6D], "", None, None, [0x45])), Some("/m"),
    Good(Weights("/m/m", "full")), Good("llama-cli"), None, "/m", Prepared([], []), None, true, Spawned, 0)

  /** Its prompt may be one lone surrogate ... */
  const SURROGATE := PLAIN.(prompt := [0xD800])

  /** ... its catalog path may be, or it may hold a NUL. */
  const BAD_CATALOG := PLAIN.(catalogPath := [0xD800])
  const NUL_CATALOG := PLAIN.(catalogPath := [0])

  /** And so may the catalog's relative path. */
  const NUL_PATH := PLAIN.(catalog := Good(Profile("m", LlamaFamily, [0], "", None, None, [0x45])))

  lemma PlainIsAccepted()
    ensures Accepted(PLAIN) && Accepted(SURROGATE) && Sensible(PLAIN)
  {
    assert FileSystemPath(PLAIN.catalogPath) && FileSystemPath(PLAIN.catalog.value.relativePath);
    assert FileSystemText(PLAIN.catalog.value.cacheDirEnv);
  }

  lemma PlainRuns()
    ensures Sensible(PLAIN) && RunsChild(PLAIN) && RunsChild(SURROGATE)
  {
    PlainIsAccepted();
    hide BuildArgv, FileSystemPath, FileSystemText, Accepted;
    var argv := LlamaArgv(PLAIN, PLAIN.weights.value, PLAIN.binary.value);
    ArgvReadsBack("llama-cli", "/m/m", 1, None, None);
    assert argv[0] == "llama-cli" && '/' !in argv[0] && '\\' !in argv[0];
  }

  /** On a prompt with a lone surrogate the stream is a lone start, and the buffered transport answers. */
  lemma SurrogatePromptBreaksTheStream(trace: seq<Read>, ending: Ending, how: Communicated, ms: nat)
    ensures Sensible(SURROGATE) && RunsChild(SURROGATE)
    ensures Respond(SURROGATE, false, Streamed(trace, ending)) == Escaped
    ensures InferEvents(SURROGATE, false, Streamed(trace, ending)) == [Start(None, ModelOf(SURROGATE, false))]
    ensures Respond(SURROGATE, false, Buffered(SURROGATE.binary, how, ms)).Response?
  {
    PlainRuns();
    assert !IsScalar(SURROGATE.prompt[0]);
    EndsUnlessItBreaks(SURROGATE, trace, ending);
    RespondExecutes(SURROGATE, Buffered(SURROGATE.binary, how, ms));
    hide Respond, InferEvents, Starts, ModelOf, BufferedRun, Encodable, LlamaResult, LlamaArgv, CheckGates;
  }

  /** On such a catalog path, or relative path below a root that is set, there is no event at all, and
      neither transport answers. */
  lemma BadPathsBreakSilently(trace: seq<Read>, ending: Ending, how: Communicated, ms: nat)
    ensures forall r | r in [BAD_CATALOG, NUL_CATALOG, NUL_PATH] ::
              && Sensible(r) && Respond(r, false, Streamed(trace, ending)) == Escaped
              && InferEvents(r, false, Streamed(trace, ending)) == []
              && Respond(r, false, Buffered(r.binary, how, ms)) == Escaped
  {
    assert !IsScalar(BAD_CATALOG.catalogPath[0]);
    assert FileSystemPath(NUL_PATH.catalogPath);
    assert NUL_CATALOG.catalogPath[0] == 0 && NUL_PATH.catalog.value.relativePath[0] == 0;
    forall r | r in [BAD_CATALOG, NUL_CATALOG, NUL_PATH]
      ensures Sensible(r) && Respond(r, false, Streamed(trace, ending)) == Escaped
      ensures InferEvents(r, false, Streamed(trace, ending)) == []
      ensures Respond(r, false, Buffered(r.binary, how, ms)) == Escaped
    {
      UnpassableIff(r.catalogPath);
      UnpassableIff(r.catalog.value.relativePath);
      UnacceptedNamesBreak(r);
      BreaksBeforeAccepted(r);
      EndsUnlessItBreaks(r, trace, ending);
      RespondIgnores(r, Streamed(trace, ending), Buffered(r.binary, how, ms));
    }
  }

  // ---------------------------------------------------------------- chunks against the final text

  lemma MarkerHasNoSlash(n: nat)
    ensures '/' !in Marker(n)
  {
    if '/' in Decimal(n) {
      DecimalDigits(n, '/');
    }
    assert '/' !in MARKER_HEAD && '/' !in MARKER_TAIL;
  }

  /** Every streamed run of a spawned child, from its raw bytes and its end to the response: the status
      and the process exit follow the flag and the code, the reported texts are the scrubs of the cut
      texts, a generation is there exactly for ok, no argument shows the weight path, and the events
      are the relay's. */
  lemma StreamedResponse(r: Request, p: Profile, w: Weights, binary: string, trace: seq<Read>, ending: Ending)
    requires Sensible(r) && Starts(r, false) && r.catalog == Good(p) && p.family.LlamaFamily?
    requires r.weights == Good(w) && r.binary == Good(binary) && Encodable(r.prompt)
    ensures var x := Streamed(trace, ending);
            var text := Utf8.Text(Join(OutReads(trace)));
            var (stdout, cutOut) := Truncate(text, r.policy.maxOutput);
            var (stderr, cutErr) := StreamStderr(ErrBytes(trace), r.policy.maxOutput);
            var response := Respond(r, false, x);
            && response.Response? && response.wrapper.RunResult?
            && var result := response.wrapper.result;
               && (result.status, response.exit) == (if ending.deadlineHit then (InferTimeout, 124)
                                                     else if ending.code == Some(0) then (InferOk, 0)
                                                     else (GenerationError, 1))
               && result.exitCode == ending.code && result.truncated == (cutOut || cutErr)
               && result.stdout == ScrubFor(r, p, w, stdout) && result.stderr == ScrubFor(r, p, w, stderr)
               && (result.generation.Generation? <==> result.status == InferOk)
               && (result.status == InferOk ==> result.generation.text == result.stdout)
               && (w.absPath[0] == '/' ==> w.absPath !in result.argv)
               && MiddleEvents(r, false, x) == RelayEvents(text, OutReads(trace), r.policy.maxOutput, true)
  {
    hide Respond, Decode, RelayEvents, Slices, ScrubText, BuildArgv, RecordedArgv, StreamStderr, CheckGates, Truncate;
    RespondExecutes(r, Streamed(trace, ending));
    var mark := WeightLabel(p.Env(), p.Relative());
    assert mark[0] == '$';
    if w.absPath[0] == '/' {
      RecordedArgvHides(LlamaArgv(r, w, binary), mark, w.absPath);
    }
  }

  /** The final text of an ok streamed run is the scrub of the chunk text plus, when the output was
      cut, the marker. Chunk text and final text are the same exactly when nothing was cut and the
      chunk text does not contain the cache root. */
  lemma FinalTextAgainstChunks(r: Request, p: Profile, w: Weights, binary: string, trace: seq<Read>, ms: nat)
    returns (digits: string)
    requires Sensible(r) && Starts(r, false) && r.catalog == Good(p) && p.family.LlamaFamily?
    requires r.weights == Good(w) && r.binary == Good(binary) && Encodable(r.prompt)
    requires |r.realRoot| > 1 && r.realRoot[0] == '/' && r.realRoot + "/" <= w.absPath
    ensures var x := Streamed(trace, Ending(Some(0), false, ms));
            var text := Utf8.Text(Join(OutReads(trace)));
            var chunkText := Concat(ChunkTexts(MiddleEvents(r, false, x)));
            var result := Respond(r, false, x).wrapper.result;
            && result.status == InferOk
            && (|text| <= r.policy.maxOutput ==>
                  Scrubbed(chunkText, w.absPath, r.realRoot, p.Env(), p.Relative(), result.generation.text))
            && (|text| > r.policy.maxOutput ==>
                  && Scrubbed(chunkText + "\n...[truncated " + digits + " chars]", w.absPath, r.realRoot,
                              p.Env(), p.Relative(), result.generation.text)
                  && Numeral(digits, |text| - r.policy.maxOutput))
            && (chunkText == result.generation.text <==>
                  |text| <= r.policy.maxOutput && !Contains(chunkText, r.realRoot))
  {
    hide Respond, MiddleEvents, Starts, RelayEvents, Slices, ScrubText, Scrubbed, StreamStderr, Contains, Decode,
      OutReads, Join, Decimal, ChunkTexts, ChunkEvents, Crosses;
    StreamedResponse(r, p, w, binary, trace, Ending(Some(0), false, ms));
    var cap := r.policy.maxOutput;
    var text := Utf8.Text(Join(OutReads(trace)));
    var x := Streamed(trace, Ending(Some(0), false, ms));
    ConsumerView(text, OutReads(trace), cap);
    var chunkText := Concat(ChunkTexts(MiddleEvents(r, false, x)));
    assert chunkText == text[..Min(cap, |text|)];
    var mark := WeightLabel(p.Env(), p.Relative());
    digits := TruncateReports(text, cap);
    var reported := Truncate(text, cap).0;
    ScrubSpelled(reported, w.absPath, r.realRoot, p.Env(), p.Relative(), ScrubFor(r, p, w, reported));
    if |text| > cap {
      CutTextDiffers(chunkText, |text| - cap, w.absPath, mark, r.realRoot, p.Env());
    } else {
      assert chunkText == text && chunkText + "" == chunkText;
      ScrubChanges(text, w.absPath, mark, r.realRoot, p.Env());
    }
  }

  lemma SlashBeforeMarker(prefix: string, n: nat, j: nat)
    requires j < |prefix + Marker(n)| && (prefix + Marker(n))[j] == '/'
    ensures j < |prefix| && prefix[j] == '/'
  {
    var marker := Marker(n);
    assert (prefix + marker)[j] == if j < |prefix| then prefix[j] else marker[j - |prefix|];
    MarkerHasNoSlash(n);
  }

  /** A '/' that the scrub replaces lies before the marker, so a cut text never scrubs to its prefix. */
  lemma CutTextDiffers(prefix: string, n: nat, weight: string, mark: string, root: string, env: string)
    requires |root| > 1 && root[0] == '/' && root + "/" <= weight && mark != "" && mark[0] == '$'
    ensures ScrubText(prefix + Marker(n), weight, mark, root, env) != prefix
  {
    hide ScrubText, Contains;
    var whole := prefix + Marker(n);
    if Contains(whole, root) {
      var j := ScrubShows(whole, weight, mark, root, env);
      SlashBeforeMarker(prefix, n, j);
    } else {
      ScrubChanges(whole, weight, mark, root, env);
      assert |Marker(n)| > 0;
    }
  }
}
