/** The values that cross the seams: execution results, model blocks, inference results and
    the wrappers around them. */
module Results {
  import opened Text

  datatype Status = Ok | ExitNonzero | Denied | Timeout | SpawnError

  /** `result.ExecResult`; names and limits are carried as opaque strings. */
  datatype ExecResult = ExecResult(
    status: Status, argv: seq<string>, reason: string, exitCode: Option<int>,
    stdout: string, stderr: string, durationMs: nat, truncated: bool,
    network: string, envKeys: seq<string>, limits: seq<string>)

  function DeniedResult(argv: seq<string>, reason: string): ExecResult {
    ExecResult(Denied, argv, reason, None, "", "", 0, false, "offline", [], [])
  }

  function SpawnErrorResult(argv: seq<string>, reason: string): ExecResult {
    ExecResult(SpawnError, argv, reason, None, "", "", 0, false, "offline", [], [])
  }

  /** The model block of a result and of the start event. */
  datatype ModelBlock =
    | NoModel
    | Model(profile: string, runner: string, runnerBinary: Option<string>, runnerVersion: Option<string>,
            relativePath: string, sha256: string, sha256Verified: string, isFake: bool,
            quantization: Option<string>, contextLength: Option<nat>)

  datatype InferStatus = InferOk | GenerationError | InferDenied | InferSpawnError | ModelError | InferTimeout

  datatype Generation = NoGeneration
                      | Generation(text: string, promptChars: nat, completionChars: nat, finishReason: string)

  datatype InferResult = InferResult(
    status: InferStatus, argv: seq<string>, reason: string, reasonCode: Option<string>, exitCode: Option<int>,
    stdout: string, stderr: string, durationMs: nat, truncated: bool, network: string,
    envKeys: seq<string>, limits: seq<string>, model: ModelBlock, generation: Generation)

  /** The body of a non-streaming response: a run result, or the flat request error. */
  datatype Wrapper =
    | RunResult(requestId: Option<string>, result: InferResult)
    | RequestError(requestId: Option<string>, reason: string)
}
