# Broker-lane sandbox: streaming, verification cache and request layer

A Dafny model of the part of the sandbox that decides what an inference request answers, with proofs
about all inputs, all runs and all interleavings. It has four cores.

**The relay.** `run_llama_stream` reads a child's stdout and stderr in arbitrary pieces through one
incremental UTF-8 decoder, keeps at most `cap` characters, counts the rest and re-slices what it keeps
into events of at most 8192 characters. `Utf8` models the decoder byte by byte (RFC 3629 and sections
3.9 and Table 3-7 of the Unicode Standard, U+FFFD for each maximal subpart); `Relay` is the object with
the source's own variables; `Stream` is the call around it; `Executor` is the buffered
`SafeExecutor.run` it has to agree with; `Parity` says exactly when it does.

**The run as a protocol.** `Protocol` has the child, escaped descendants, the stdin writer, the relay
loop, the watchdog (kill and flag are two steps) and the clock as actors over bounded pipes, in any
interleaving. `Buffered` is the same for `SafeExecutor.run` and `_drain_after_kill`, over the same
child. `EndToEnd` puts the reads of every protocol run through the relay and compares the two
transports over every pair of runs.

**The sidecar cache.** `ModelCache` has `resolve_and_verify` as a method on one directory entry, and
as a step system in which several verifiers interleave with changes of the weight file, of the sidecar
and of the catalog pin. `Paths` is the lexical containment argument.

**The request layer.** `Infer` and `Cli` carry one request to one wrapper, one event log and one exit
code; `Answers` spells out what a caller reads in each answer; `Llama` is the command line; `Emitter` is the event grammar; `Scrub` is the path scrub as a
string-rewriting theorem.

`dafny verify dfyconfig.toml` checks the project.

## Where the code and its own documentation differ

The model follows the code.

- The module text of `streaming.py` (lines 21-22) speaks of a separate stderr-drain thread; the code
  drains stderr in the same selector loop (lines 300-331), and so does `Protocol`.
- "Byte-parity with `SafeExecutor.run`" (`streaming.py:193-195`) holds exactly when no carriage return is
  among the first `cap` characters, none stands before a line feed anywhere, in either output, and
  stderr fits 4 * cap + 65536 bytes (`Parity.StreamEqualsBuffered`): text-mode pipes translate
  newlines (`executor.py:112-117`), the relay does not.
- "Emits ONE warning" at the cap (`streaming.py:28-30`) holds exactly when no read leaves the decoded
  text exactly at the cap (`Parity.WarnsUnlessAReadEndsAtTheCap`, `Parity.CutWithoutWarning`).
- "The final generation text is exactly the concatenation of the emitted chunk text, plus the marker"
  (`streaming.py:26-27`) holds before the path scrub; the reported text equals the chunk text exactly
  when nothing was cut and the cache root does not occur in it (`Infer.FinalTextAgainstChunks`).
- A status other than timeout does not mean that the child was not killed. Over every run, a killed
  child is reported as anything but a timeout exactly when the watchdog has sent its kill and neither
  the watchdog nor the relay has set the flag by the time the relay judges
  (`Protocol.KillUnreportedIffInTheGap`, with a run in `Protocol.KilledWithoutTimeout`). The buffered path
  has no such gap (`Buffered.ReturnMeaning`).
- A verdict answered from the cache is that of hashing the content at the stat in every run in which all
  sidecar writes are harmless (`ModelCache.CachedVerdictsAreRight`); and a write is harmless exactly when
  nobody who looks right after it is answered wrongly (`ModelCache.HarmlessIffNobodyIsMisled`). A write
  by a verifier whose file stayed as it was is harmless (`ModelCache.SteadyIsHarmless`), and so is any
  write while no other verifier of the same stat still has to look. For any two contents of one size with
  different hashes there is a run of two verifiers with a harmful write and a wrong verdict
  (`ModelCache.UnsteadyCacheDiffers`). Verifications that do not overlap never do that to each other,
  whatever happens to the file (`ModelCache.NoOverlapIsHarmless`).
- "Sidecar problems can only ever cause MORE verification" (`modelcache.py:290-291`) fails for a sidecar
  nested deeper than the JSON parser follows: `modelcache.py:296` lets its RecursionError pass, and the
  verification ends in an exception that is no typed error (`ModelCache.WeightEntry.Raises`, which says
  exactly when that happens at all).
- "The terminal final is emitted exactly once" (`cli.py:163-168`) and a single final for "a pre-emission
  failure" (`cli.py:165-166`) fail exactly where something raises that neither `infer.py:294-367` nor
  `cli.py:209` handles (`Cli.CmdInferStream`, `Infer.EndsUnlessItBreaks`).
  - Before any event, and then the stream is empty: a catalog path with a NUL or with a surrogate that the
    file system encoding refuses (`modelcache.py:110-111`), a name of the root's variable with such a
    surrogate (`modelcache.py:321`), below a root that is set a relative path with either
    (`modelcache.py:331`), all checkable beforehand (`Infer.UnacceptedNamesBreak`, with three requests in
    `Infer.BadPathsBreakSilently`); a sidecar nested too deep or weights that cannot be read
    (`modelcache.py:295-296, 277-284`); a request the JSON parser or the field checks give up on, such as a
    budget too large for a float (`policy.py:132`).
  - After the start, and then the stream is a lone start and the running child is left to itself: a prompt
    with a lone surrogate, which `infer.py:221-223` accepts and `streaming.py:218` encodes strictly
    (`Infer.SurrogatePromptBreaksTheStream`).
- The transports break alike before any event, and each alone once a child runs: the streamed one on such a
  prompt, which the buffered one encodes with errors="replace"; the buffered one on a budget above
  2147483647 ms, which `poll` refuses below `executor.py:178` and the stream's waits never reach
  (`Infer.TransportsAgree`).

## Model

| member | source | states |
|---|---|---|
| Utf8.EncodingExamples | src/broker_lane_sandbox/streaming.py:218 | the encoding form at the ends of its ranges and on the examples of RFC 3629 section 7 |
| Utf8.EncodingKeepsOrder | src/broker_lane_sandbox/streaming.py:218 | byte order of the encodings is the order of the characters, as RFC 3629 section 1 says |
| Utf8.ScanOfEncoding | src/broker_lane_sandbox/streaming.py:222 | the decoder recognises the encoding of every scalar value, whatever follows it |
| Utf8.ScanCharIsEncoding | src/broker_lane_sandbox/streaming.py:222 | and recognises nothing else: the bytes it consumes for a character are that character's one encoding |
| Utf8.PartialIffInitial | src/broker_lane_sandbox/streaming.py:222 | bytes are kept waiting exactly when they are a proper initial part of some character's encoding |
| Utf8.BadIsMaximalSubpart | src/broker_lane_sandbox/streaming.py:222 | an ill-formed head, as the scan delimits it, is a maximal subpart as section 3.9 of the Unicode Standard defines it |
| Utf8.DecodeWellFormedHead | src/broker_lane_sandbox/streaming.py:265 | a well-formed head decodes to its character, and decoding goes on behind it |
| Utf8.DecodeIllFormedHead | src/broker_lane_sandbox/streaming.py:222 | a maximal subpart, said in terms of the encoding form alone, becomes one U+FFFD, and decoding goes on behind all of it |
| Utf8.DecodeInitial | src/broker_lane_sandbox/streaming.py:265 | what may still become a character waits, or becomes one U+FFFD at the end |
| Utf8.DecodeIsLawful | src/broker_lane_sandbox/streaming.py:222 | the decoder has these laws |
| Utf8.LawsDetermineDecode | src/broker_lane_sandbox/streaming.py:222 | and no other decoder has them |
| Utf8.DecodeOfEncode | src/broker_lane_sandbox/streaming.py:265 | decoding encoded text gives the text back with nothing pending |
| Utf8.DecodeConcat | src/broker_lane_sandbox/streaming.py:265 | decoding two pieces in turn, carrying the pending bytes, is decoding them joined |
| Utf8.WaitingFlush | src/broker_lane_sandbox/streaming.py:349 | at most 3 bytes ever wait, and flushing them yields at most one replacement character |
| Utf8.DecodeBytesPerChar | src/broker_lane_sandbox/streaming.py:263-267 | every decoded character accounts for one to four bytes |
| Utf8.FeedIsDecode | src/broker_lane_sandbox/streaming.py:263-267 | the cutting of the input into reads changes neither the text nor the pending bytes |
| Utf8.PartitionIndependent | src/broker_lane_sandbox/streaming.py:23-27 | any cutting of any bytes, fed and then flushed, gives the text of decoding them in one call |
| Utf8.EncodingsAgree | src/broker_lane_sandbox/streaming.py:218 | the prompt's strict encoding exists exactly when it has no surrogate, and is then what a text-mode pipe would send |
| Utf8.ReplacingIsPointwise | src/broker_lane_sandbox/executor.py:112-117 | text-mode encoding goes character by character, and a surrogate becomes a question mark |
| Utf8.PromptArrives | src/broker_lane_sandbox/streaming.py:213-219 | the bytes of such a prompt decode to the prompt |
| Text.DecimalIsNumeral | src/broker_lane_sandbox/executor.py:238 | a number is written as its decimal numeral: digits without a leading zero whose value, read by the distance from "0", is the number |
| Slicing.SlicesIsSlicing | src/broker_lane_sandbox/streaming.py:252-261 | the slices spell the text, none is empty or over-long, only the last may be short |
| Slicing.SlicingUnique | src/broker_lane_sandbox/infer.py:584-587 | there is only one such slicing, so any two producers with these properties emit the same pieces |
| Slicing.WholeAppend | src/broker_lane_sandbox/streaming.py:252-261 | slicing as text arrives gives the slices and the remainder of slicing it all at once |
| Slicing.SliceLoop | src/broker_lane_sandbox/runners/fake_runner.py:57-60 | the slicing loop of the fake runner (step 5) and of the fake path (step 8192) yields exactly the canonical slicing of the text |
| Emitter.BoundedIsPrefix | src/broker_lane_sandbox/streaming.py:136 | a message keeps its first 8192 characters |
| Emitter.ApplyKeeps | src/broker_lane_sandbox/streaming.py:107-143 | a call is accepted exactly when its event may follow the log; then it appends that event, otherwise it leaves the log alone |
| Emitter.RunKeepsGrammar | src/broker_lane_sandbox/streaming.py:78-143 | after any sequence of calls the log is in the grammar: gapless seq from 0, start only first, at most 8 bounded warnings, final last, one flush after each write |
| Emitter.GrammarIsReachable | src/broker_lane_sandbox/streaming.py:78-143 | every log of the grammar is written by some sequence of calls |
| Emitter.StreamEmitter.constructor | src/broker_lane_sandbox/streaming.py:87-105 | a new emitter has an empty log |
| Emitter.StreamEmitter.Put | src/broker_lane_sandbox/streaming.py:107-117 | one line, one flush and one seq, or an error and no change after final |
| Emitter.StreamEmitter.EmitStart | src/broker_lane_sandbox/streaming.py:119-125 | the grammar's transition for start; always written on a fresh emitter |
| Emitter.StreamEmitter.EmitChunk | src/broker_lane_sandbox/streaming.py:127-128 | the grammar's transition for a chunk |
| Emitter.StreamEmitter.EmitWarning | src/broker_lane_sandbox/streaming.py:130-137 | the grammar's transition for a warning; written exactly below the bound, with its message cut to 8192 |
| Emitter.StreamEmitter.EmitFinal | src/broker_lane_sandbox/streaming.py:139-143 | the grammar's transition for the one final |
| Executor.CheckGates | src/broker_lane_sandbox/executor.py:50-76 | passes exactly when all five gates hold; a refusal is denied or spawn_error without an exit code |
| Executor.TruncateReports | src/broker_lane_sandbox/executor.py:233-238 | a longer text is reported as its first `cap` characters and the spelled-out marker with the numeral of exactly the characters dropped; any other as it is |
| Executor.TruncateInjective | src/broker_lane_sandbox/executor.py:233-238 | a cut text determines the kept prefix and the original length |
| Executor.UniversalIsTwoReplacements | src/broker_lane_sandbox/executor.py:112-117 | newline translation is replacing CR LF by LF and then CR by LF |
| Executor.UniversalLeavesNoCr | src/broker_lane_sandbox/executor.py:112-117 | no CR is left |
| Executor.UniversalUndoesCrLf | src/broker_lane_sandbox/executor.py:112-117 | a text written with CR LF line ends comes back with LF line ends |
| Executor.UniversalPointwise | src/broker_lane_sandbox/executor.py:112-117 | newline translation keeps the length exactly when there is no CR LF, and then only turns CR into LF |
| Executor.TranslationInvisible | src/broker_lane_sandbox/executor.py:112-117 | translation leaves the truncated report unchanged exactly when no CR is within the cap and no CR LF stands anywhere |
| Executor.JudgeSays | src/broker_lane_sandbox/executor.py:188-196 | status and reason of a finished run, with the numeral of its code |
| Relay.TextAppend | src/broker_lane_sandbox/streaming.py:263-267 | the text a read adds is what the incremental decoder returns for it |
| Relay.CrossesAppend | src/broker_lane_sandbox/streaming.py:268-287 | a read crosses the cap exactly when it starts strictly below and ends strictly above it |
| Relay.CrossedAbove | src/broker_lane_sandbox/streaming.py:275-287 | a crossing leaves the decoded text above the cap for good |
| Relay.Relay.constructor | src/broker_lane_sandbox/streaming.py:221-231 | a new relay is valid with nothing read |
| Relay.Relay.FlushPending | src/broker_lane_sandbox/streaming.py:252-261 | emits exactly the whole slices of the pending text, and the remainder when forced |
| Relay.Relay.ConsumeStdout | src/broker_lane_sandbox/streaming.py:263-291 | keeps every field a function of the reads so far: decoder state, kept prefix, overage, pending text, the warning flag set exactly at a crossing, and the events |
| Relay.Relay.Overflow | src/broker_lane_sandbox/streaming.py:275-285 | the first text past the cap flushes the exact prefix and is followed by the one warning |
| Relay.Relay.Keep | src/broker_lane_sandbox/streaming.py:268-274 | the kept prefix grows and the slices it completes are emitted |
| Relay.Relay.ConsumeStderr | src/broker_lane_sandbox/streaming.py:293-298 | retains exactly the first 4 * cap + 65536 bytes and counts all |
| Relay.Relay.KeepTail | src/broker_lane_sandbox/streaming.py:350-358 | what the flush adds is kept up to the cap and counted beyond it |
| Relay.Relay.Finish | src/broker_lane_sandbox/streaming.py:349-359 | after the flush the kept text is the first `cap` characters of decoding everything, the overage is exact, and the events are the canonical ones |
| Stream.Pump | src/broker_lane_sandbox/streaming.py:310-331 | every read reaches its consumer, in order |
| Stream.ReportStderr | src/broker_lane_sandbox/streaming.py:380-388 | the reported stderr and its flag, from the retained bytes and the total |
| Stream.ReportStdout | src/broker_lane_sandbox/streaming.py:390-396 | prefix, overage and marker are the truncation of the whole text |
| Stream.Communicate | src/broker_lane_sandbox/streaming.py:221-396 | for any reads, stdout is decode-everything-then-truncate, and the log grows by the canonical events |
| Stream.StartAndRelay | src/broker_lane_sandbox/streaming.py:210-219 | a lone start when the prompt cannot be encoded, else start and the canonical events |
| Stream.RunLlamaStream | src/broker_lane_sandbox/streaming.py:176-424 | the whole call returns the reference result of the joined outputs, exactly unless it spawns on a prompt that cannot be encoded; without a spawn it emits nothing |
| Parity.PrefixDecodes | src/broker_lane_sandbox/streaming.py:229-231 | 4 * cap + 3 bytes decode to at least `cap` characters, the same as those of the whole |
| Parity.BytesWithinWeight | src/broker_lane_sandbox/streaming.py:293-298 | a text of k characters stands for at most 4k bytes, replacement characters included |
| Parity.RetentionSuffices | src/broker_lane_sandbox/streaming.py:293-298 | bounded retention reports the first `cap` characters and the truncated flag of decoding all of stderr |
| Parity.StderrParity | src/broker_lane_sandbox/streaming.py:380-388 | the two stderr reports are equal exactly when nothing was dropped and no newline was translated |
| Parity.StderrReports | src/broker_lane_sandbox/streaming.py:380-388 | what is reported of stderr, spelled out below and above 4 * cap + 65536 bytes |
| Parity.StreamEqualsBuffered | src/broker_lane_sandbox/executor.py:157-210 | the streamed result is the buffered one, duration apart, exactly under the stated condition on the two outputs |
| Parity.StreamEqualsLateDrained | src/broker_lane_sandbox/executor.py:179-186 | the same, under the same exact condition, for a flagged streamed run and a buffered run drained after its kill |
| Parity.AbandonedReport | src/broker_lane_sandbox/executor.py:225-230 | a run given up reports a timeout, no stdout, and the notice on stderr, cut like any text |
| Parity.StreamAgreesOnOverflow | src/broker_lane_sandbox/streaming.py:381-386 | when stderr overflows, everything else and its first `cap` characters still agree |
| Parity.RefusalSays | src/broker_lane_sandbox/executor.py:58-76 | status and reason of a run that does not spawn, gate by gate, and that it carries nothing of the policy |
| Parity.ConsumerView | src/broker_lane_sandbox/streaming.py:252-287 | the chunks are the unique slicing of the kept prefix; a warning stands exactly after a crossing, once, last, behind exactly `cap` characters |
| Parity.CapMessageSays | src/broker_lane_sandbox/streaming.py:280-284 | the warning's text, with the numeral of the cap |
| Parity.WarnsUnlessAReadEndsAtTheCap | src/broker_lane_sandbox/streaming.py:268-287 | a longer output is announced exactly when no read ends at the cap |
| Parity.CutWithoutWarning | src/broker_lane_sandbox/streaming.py:286-287 | two one-byte reads under cap 1: cut, and no warning |
| Protocol.StepKeeps | src/broker_lane_sandbox/streaming.py:233-377 | every step of every actor keeps pipes lossless, ordered and bounded, an end of file final, and kill, flag, reaping and phase consistent |
| Protocol.RunKeeps | src/broker_lane_sandbox/streaming.py:233-377 | so does every run |
| Protocol.StdinIsThePrompt | src/broker_lane_sandbox/streaming.py:146-173 | over every run the child reads the prompt in order and without loss, and comes to the end of stdin only after the whole of it |
| Protocol.VerdictMeaning | src/broker_lane_sandbox/streaming.py:398-410 | over every run: timeout means the deadline passed; any other status means both pipes ended, all output was collected in order and the child was reaped; ok means its own exit with 0; exit_nonzero a real non-zero code |
| Protocol.KillUnreportedIffInTheGap | src/broker_lane_sandbox/streaming.py:244-246 | over every run up to the judgement, a killed child is reported as anything but a timeout exactly when the watchdog has killed and nobody has set the flag |
| Protocol.KilledWithoutTimeout | src/broker_lane_sandbox/streaming.py:244-246 | such a run: both pipes end before the deadline, the watchdog kills at it, and the relay reaps and judges before the flag |
| Protocol.ChildOrRelayMoves | src/broker_lane_sandbox/streaming.py:300-331 | a live child, or the actor it is waiting for, can always move |
| Protocol.NoDeadlock | src/broker_lane_sandbox/streaming.py:146-173 | no reachable unfinished state is stuck, for any script, prompt and pipe capacities, without help from a timeout |
| Protocol.UndisturbedRunCompletes | src/broker_lane_sandbox/streaming.py:300-348 | a maximal undisturbed run ends with the child's own code and both outputs complete |
| Protocol.CancelledWatchdogIsHarmless | src/broker_lane_sandbox/streaming.py:360-361 | over every run the watchdog kills nobody once the relay has flushed its output |
| Protocol.StepFollows | src/broker_lane_sandbox/streaming.py:333-377 | every step leaves the relay where it is or takes it along the way of the source: which wait follows which, which kill is followed by a drain, and that only a child a second kill did not bring in is judged without a code |
| Protocol.WaitLastsItsGrace | src/broker_lane_sandbox/streaming.py:347-377 | over every run the drain, the join and each reaping wait are given up only after their whole grace |
| Protocol.StepOnTime | src/broker_lane_sandbox/streaming.py:310-377 | every step keeps each phase within its share of the time bound |
| Protocol.ReturnsInTime | src/broker_lane_sandbox/streaming.py:233-241 | with a non-blocking emitter every run stays within max(deadline, spawn return) plus four graces, whatever descendants do |
| Protocol.RelayOrClockMoves | src/broker_lane_sandbox/streaming.py:310-377 | until it returns, the relay or the clock can move |
| Protocol.StepDecreases | src/broker_lane_sandbox/streaming.py:310-331 | every step of every actor decreases one measure |
| Protocol.RunsAreBounded | src/broker_lane_sandbox/streaming.py:310-377 | so no run is longer than the measure of its start |
| Buffered.StepKeeps | src/broker_lane_sandbox/executor.py:176-182 | every step keeps the pipes lossless and the one kill after the deadline, sent by the calling thread itself |
| Buffered.ReturnMeaning | src/broker_lane_sandbox/executor.py:176-230 | over every run: in time means complete outputs and the child's own exit, never a kill; anything else means the deadline had passed |
| Buffered.ReturnStep | src/broker_lane_sandbox/executor.py:213-230 | what the returning step reports in each case, the code of an exited child when the output was given up included |
| Buffered.StepFollows | src/broker_lane_sandbox/executor.py:176-230 | every step leaves the thread where it is or takes it along the way of the source |
| Buffered.WaitLastsItsGrace | src/broker_lane_sandbox/executor.py:224-229 | over every run the drain and the last wait are given up only after their whole grace |
| Buffered.ReturnsInTime | src/broker_lane_sandbox/executor.py:213-230 | every run stays within the budget plus two graces, whatever descendants do |
| Buffered.ThreadOrClockMoves | src/broker_lane_sandbox/executor.py:176-230 | until it returns, the calling thread or the clock can move |
| Buffered.NoDeadlock | src/broker_lane_sandbox/executor.py:176-178 | without descendants, talking to the child never depends on the timeout |
| Buffered.StepDecreases | src/broker_lane_sandbox/executor.py:176-230 | every step decreases one measure |
| Buffered.RunsAreBounded | src/broker_lane_sandbox/executor.py:176-230 | so every run is bounded by the measure of its start |
| EndToEnd.CollectedIsRead | src/broker_lane_sandbox/streaming.py:310-331 | what the protocol's relay has collected is what its reads joined spell |
| EndToEnd.ReadsAreBounded | src/broker_lane_sandbox/streaming.py:317-324 | every read of every run is non-empty and at most 64 KiB |
| EndToEnd.ReadsAreTheScript | src/broker_lane_sandbox/streaming.py:300-348 | a run that neither timed out nor lost its child to a kill has read exactly what the script writes and returns its code |
| EndToEnd.StreamedRunReportsTheScript | src/broker_lane_sandbox/streaming.py:176-424 | over every interleaving, such a run reports the buffered result of the script's outputs, exactly under the parity condition |
| EndToEnd.TransportsAgreeOverRuns | src/broker_lane_sandbox/executor.py:157-210 | any such streamed run and any in-time buffered run of the same child report the same result, exactly under the parity condition |
| EndToEnd.BufferedRunReports | src/broker_lane_sandbox/executor.py:176-210 | over every run of the buffered protocol: a timeout exactly when it did not end in time; drained late, what the streamed path would report of all that was written, exactly under the parity condition; given up, nothing |
| EndToEnd.TimeoutsAgreeOverRuns | src/broker_lane_sandbox/executor.py:179-182 | a flagged streamed run and a buffered run drained late that collected the same report the same, exactly under the parity condition |
| EndToEnd.StreamedRequestOverRuns | src/broker_lane_sandbox/infer.py:407-491 | over every interleaving the final event carries the verdict and the process exits by it; the chunks are the one slicing of the script's output up to the cap, and the final text its scrub |
| EndToEnd.RequestsAgreeOverRuns | src/broker_lane_sandbox/infer.py:406-491 | one request over any in-time run of either transport gets the same answer, stderr apart on overflow, exactly unless its running child breaks one transport alone; what breaks before any event breaks both |
| ModelCache.SidecarRoundTrip | src/broker_lane_sandbox/modelcache.py:287-310 | a written sidecar is read back as the record written |
| ModelCache.WrittenFields | src/broker_lane_sandbox/modelcache.py:388-396 | the four fields that are written |
| ModelCache.ReadsBackIff | src/broker_lane_sandbox/modelcache.py:287-310 | a stored value reads back as a record exactly when it agrees with what would be written of it in every written field |
| ModelCache.Sha256File | src/broker_lane_sandbox/modelcache.py:276-284 | hashing in chunks is hashing the whole content |
| ModelCache.WeightEntry.ResolveAndVerify | src/broker_lane_sandbox/modelcache.py:313-414 | for absolute and relative roots and any names, each refusal and each untyped exception exactly under its condition and in order; otherwise accepted exactly when size and hash agree, cached or not; the sidecar stays sound, and exactly the verified record is written, only by a successful full hash |
| ModelCache.StepKeeps | src/broker_lane_sandbox/modelcache.py:349-401 | every step of every verifier, of the file and of the sidecar keeps the cache invariant |
| ModelCache.RunKeeps | src/broker_lane_sandbox/modelcache.py:349-401 | so does every run |
| ModelCache.CacheIsSound | src/broker_lane_sandbox/modelcache.py:349-401 | over every run without reused modification times a sidecar matching the current time carries the current hash, and every steady verdict, cached or not, that is no untyped exception is that of hashing the content at the stat |
| ModelCache.CachedVerdictsAreRight | src/broker_lane_sandbox/modelcache.py:361-375 | over every run whose sidecar writes are harmless, every verdict from the cache, steady or not, is that of hashing the content at the stat |
| ModelCache.HarmlessIffNobodyIsMisled | src/broker_lane_sandbox/modelcache.py:386-396 | in every reachable state a write is harmless - it records the hash of what its verifier saw, or nobody of the same stat waits for it - exactly when nobody who looks right after it is answered wrongly |
| ModelCache.SteadyIsHarmless | src/broker_lane_sandbox/modelcache.py:377-396 | the write of a verifier whose file stayed as it was is harmless |
| ModelCache.SteadyWritesAreHarmless | src/broker_lane_sandbox/modelcache.py:377-396 | and a run in which all writes are of this kind is one whose cached verdicts are all right |
| ModelCache.TruncatedSidecarAnswersNobody | src/broker_lane_sandbox/modelcache.py:386-388 | between the opening of the sidecar and its writing nobody is answered from the cache |
| ModelCache.NoOverlapIsHarmless | src/broker_lane_sandbox/modelcache.py:349-401 | in a run in which at most one verification is under way at a time all writes are harmless |
| ModelCache.UnsteadyCacheDiffers | src/broker_lane_sandbox/modelcache.py:361-375 | for any two contents of one size with different hashes, a run in which a cached verdict is not that of the stat-time content |
| ModelCache.ReuseBreaksSoundness | src/broker_lane_sandbox/modelcache.py:364-369 | with a reused modification time, a run that leaves a matching sidecar with another content's hash |
| Paths.ContainedIffComponents | src/broker_lane_sandbox/modelcache.py:334 | the startswith test is strict component-wise containment, and refuses everything below "/" |
| Paths.ResolveSteps | src/broker_lane_sandbox/modelcache.py:330-331 | how a path resolves segment by segment: empty and "." stay, ".." goes up but not above the root, a name goes down |
| Paths.RealPathIsReal | src/broker_lane_sandbox/modelcache.py:330-331 | resolving a resolved path changes nothing |
| Paths.SplitSegments | src/broker_lane_sandbox/modelcache.py:161 | the segments are exactly what stands between slashes or ends |
| Paths.ValidRelativeIff | src/broker_lane_sandbox/modelcache.py:145-167 | what the segment check refuses, by positions in the path |
| Paths.JoinJoin | src/broker_lane_sandbox/modelcache.py:330-331 | joining is associative for a relative last part, so a relative root resolves as its absolute form does |
| Paths.ResolveJoined | src/broker_lane_sandbox/modelcache.py:330-331 | joining an accepted relative path walks down from the root by the segments that name something |
| Paths.AcceptedPathContained | src/broker_lane_sandbox/modelcache.py:145-167 | for any root and working directory, without symlinks, an accepted path passes the test exactly when the root is not "/" and some segment is neither empty nor "." |
| Scrub.ReplaceFirst | src/broker_lane_sandbox/infer.py:456-460 | the first occurrence is the first replaced |
| Scrub.ReplaceGlued | src/broker_lane_sandbox/infer.py:457 | a text cut at its occurrences is put together with the label in their place, for any number of them |
| Scrub.ScrubSpelled | src/broker_lane_sandbox/infer.py:453-460 | the scrub is exactly that: cut at the weight path and put together with "${env}/rel", then cut at the root and put together with "${env}" |
| Scrub.WeightBecomesLabel | src/broker_lane_sandbox/infer.py:457 | one mention of the weight path becomes its label and nothing else changes |
| Scrub.RootBecomesLabel | src/broker_lane_sandbox/infer.py:459 | one mention of the root becomes its label and nothing else changes |
| Scrub.ReplaceRemoves | src/broker_lane_sandbox/infer.py:459 | what does not overlap its label cannot come back |
| Scrub.RemovedFromEveryText | src/broker_lane_sandbox/infer.py:459 | a replacement removes its target from every text exactly when target and label do not overlap: neither inside the other, neither's end the other's head |
| Scrub.CleanForEveryWeight | src/broker_lane_sandbox/infer.py:456-460 | for both replacements together: no weight file that a catalog can name below the root and no text can keep the root exactly when the root and its label do not overlap |
| Scrub.PlainRootDoesNotOverlap | src/broker_lane_sandbox/infer.py:453-460 | a root without "$" does not overlap the label of a name without "/"; nor, without "}", of any name it does not stand in |
| Scrub.ScrubIsClean | src/broker_lane_sandbox/infer.py:456-463 | for any environment name, unless root and label overlap, scrubbed text holds neither the weight path nor the root, and scrubbing again changes nothing |
| Scrub.ScrubShows | src/broker_lane_sandbox/infer.py:456-460 | scrubbing a text that holds the root turns one of its "/" into "$" in place, for any root, environment name and label |
| Scrub.ScrubChanges | src/broker_lane_sandbox/infer.py:456-463 | the scrub changes a text exactly when the root occurs in it, without any condition on the root or the environment name |
| Infer.ExitOf | src/broker_lane_sandbox/infer.py:47-54 | the exit code of every status: 0 exactly for ok, 1 for generation_error, 124 for timeout, 2 for the rest |
| Llama.ArgvReadsBack | src/broker_lane_sandbox/runners/llama_cpp.py:101-123 | the command line reads back as the request: the binary, the weight path, the prompt from stdin, the token bound, temperature and seed exactly when set |
| Llama.ArgvSays | src/broker_lane_sandbox/runners/llama_cpp.py:101-123 | the same with the numbers read as numerals |
| Llama.ArgvDetermines | src/broker_lane_sandbox/runners/llama_cpp.py:101-123 | different binaries, paths, bounds, temperatures or seeds have different command lines |
| Llama.RecordedArgvHides | src/broker_lane_sandbox/runners/llama_cpp.py:126-140 | the recorded command line never holds the model path and differs from the real one only there |
| Infer.Finalize | src/broker_lane_sandbox/infer.py:186-193 | the response's wrapper is the final event in stream mode, and the response is the same without |
| Infer.EmitChunks | src/broker_lane_sandbox/infer.py:586-587 | the pieces are emitted in order |
| Infer.RunFake | src/broker_lane_sandbox/infer.py:494-588 | start, the canonical slices of the fake text, and the final; the same result without an emitter |
| Infer.ResolveAndRun | src/broker_lane_sandbox/infer.py:347-358 | weights and binary, each with its refusal or its unhandled exception before any event |
| Infer.RunLlama | src/broker_lane_sandbox/infer.py:377-491 | preflight or either transport, then the one shared result and its events |
| Infer.StreamLlama | src/broker_lane_sandbox/infer.py:406-435 | the streamed transport: its events, then the final; a working directory that is no path is reported before any event, and an unencodable prompt leaves a lone start |
| Infer.BufferLlama | src/broker_lane_sandbox/infer.py:436-445 | the buffered transport, with its second look for the binary and the budget that `poll` refuses |
| Infer.RunInferRequest | src/broker_lane_sandbox/infer.py:158-491 | with or without an emitter the response is one function of the request; with one, the log is exactly its events, and a raised request error has emitted nothing |
| Answers.TokensDecide | src/broker_lane_sandbox/infer.py:297-303 | a request with a readable profile is raised for its tokens exactly when it asks for more than the context length, and a start excludes it |
| Answers.RunsChildIff | src/broker_lane_sandbox/infer.py:289-358 | exactly when a request runs a child, in terms of the request, the catalog and the world |
| Answers.CatalogRefuses | src/broker_lane_sandbox/infer.py:289-323 | the catalog's refusals, the unknown family and the fake not allowed: reason, code and an otherwise empty result |
| Answers.WeightsRefuse | src/broker_lane_sandbox/infer.py:347-355 | the refusals of the variable, the weights and the binary, in order |
| Answers.FakeAnswers | src/broker_lane_sandbox/infer.py:526-588 | an accepted fake run: text, counts, model block and every other field, and start, slicing and final in the log |
| Answers.PreflightAnswers | src/broker_lane_sandbox/infer.py:377-404 | a preflight's every field, and its start and final |
| Answers.LlamaResultCarriesOver | src/broker_lane_sandbox/infer.py:448-490 | every field of an executed result: the status map, the scrubbed texts, the reported command line, the model block, the counts, and what is passed through |
| Answers.RunsAssemble | src/broker_lane_sandbox/executor.py:184-210 | every field of either transport's execution result, in time or late, from the raw bytes |
| Answers.ExecutedAnswer | src/broker_lane_sandbox/infer.py:428-491 | the answer to an executed request carries its execution's result, its id and the exit code of its status, on either transport |
| Answers.RefusedAnswer | src/broker_lane_sandbox/infer.py:465-491 | a request whose child does not spawn is denied by a policy gate, and a spawn error otherwise, with nothing captured |
| Answers.StartSays | src/broker_lane_sandbox/streaming.py:211 | the start event carries the request's id and the model block |
| Answers.BadDirectoryRaises | src/broker_lane_sandbox/executor.py:73-74 | a working directory that is no path is reported when the gates come to it, on either transport |
| Answers.BufferedBreaks | src/broker_lane_sandbox/infer.py:436-445 | exactly when the buffered transport of an accepted request ends in an unhandled exception |
| Infer.EveryResponseIsAStream | src/broker_lane_sandbox/infer.py:186-193 | for every response in stream mode: a single final, or start, chunks and warnings, and one final; a start exactly for a request that runs; exit 0 exactly for ok |
| Infer.EndsUnlessItBreaks | src/broker_lane_sandbox/infer.py:186-193 | for every request, the stream ends in its final exactly unless it is raised before any event, a step before any event raises something unhandled (no event), or a child runs on a prompt that cannot be encoded (a lone start) |
| Infer.UnacceptedNamesBreak | src/broker_lane_sandbox/modelcache.py:110-111 | the early breaks that can be checked beforehand: the code points of the catalog path, of the variable's name and of the relative path |
| Infer.BadPathsBreakSilently | src/broker_lane_sandbox/modelcache.py:321-331 | concrete requests: a catalog path with a surrogate or a NUL, a relative path with a NUL; no event, no answer on either transport |
| Infer.SurrogatePromptBreaksTheStream | src/broker_lane_sandbox/streaming.py:211-219 | a concrete request that the buffered transport answers and whose stream is a lone start |
| Infer.CutTextDiffers | src/broker_lane_sandbox/infer.py:462 | the scrub of a cut text is never its kept prefix: it cannot swallow the marker |
| Infer.ExecutionsAgree | src/broker_lane_sandbox/infer.py:407-445 | the two transports' execution results differ only in duration and, on overflow, the stderr text; exactly an unencodable prompt keeps the streamed one from a result, and a budget that `poll` refuses the buffered one |
| Infer.TransportsAgree | src/broker_lane_sandbox/infer.py:406-491 | the streamed answer equals the buffered one but for the duration, and the stderr text on overflow, exactly unless a running child breaks one of them alone; and exactly when each breaks |
| Infer.FinalTextAgainstChunks | src/broker_lane_sandbox/infer.py:456-475 | generation.text is the spelled-out scrub of the chunk text and the marker; it equals the chunk text exactly when nothing was cut and the root does not occur |
| Cli.SingleFinal | src/broker_lane_sandbox/cli.py:175-192 | a pre-emission failure is a single seq-0 final |
| Cli.CmdInferStream | src/broker_lane_sandbox/cli.py:160-212 | whatever the flag, file and request: the stream shape around one final exactly unless it breaks; no event exactly when it breaks silently, a lone start when after the start; a start exactly for a request that runs; a flag conflict, an unreadable file and a raised request each answer with their own reason and id and exit 2; exit 0 exactly when there is a final that carries ok |

## Left out

- Infer.FakeRefusal: names in refusal and gate messages are carried without the quotes and escapes of Python's `repr`.
- ModelCache.WeightEntry.ResolveAndVerify: one verification with no concurrent change; a file that vanishes between the existence test and the stat is not modelled. The file system encoding is UTF-8 with surrogateescape; in labels and paths a surrogate is shown as U+FFFD.
- ModelCache.StepKeeps: a sidecar write is a truncation followed by one write of the whole record; a partly written sidecar is covered only as corruption that no longer reads as a record.
- ModelCache.CacheIsSound: the interleaved system has one weight file that always exists, and no environment or containment steps.
- Scrub.ScrubIsClean: sufficient for each single weight path; exact for all weight files below a root together (`Scrub.CleanForEveryWeight`), because a given weight path can shield a text from the root's replacement.
- Infer.TransportsAgree: compares the transports in one world, in which the second look for the binary finds the same one.
- Infer.RunInferRequest: request, policy and catalog validation is one outcome, refused or unhandled, that precedes every event; JSON, YAML, argument parsing and file reading are parameters, and so are running out of memory or threads.
- Infer.TransportsAgree: the command around the buffered transport, which also handles OSError (`cli.py:150-154`), is not modelled; the time from entering `communicate` to its first `poll` is taken as none.
- Infer.EveryResponseIsAStream: failures of a write to the consumer, and the streams they cut short.
- Protocol.StepKeeps: signals, process groups, resource limits and selectors are replaced by steps; a kill asks for the direct child's death, which comes later or never, and never reaches descendants.
- Protocol.VerdictMeaning: past the deadline the code's pump finishes only the reads its last `select` returned; the model lets any ready read still happen, so it has more runs than the code.
- Protocol.NoDeadlock: a child computes or sleeps only by not being scheduled; descendants may hold and write the output pipes but do not read stdin.
- Protocol.ReturnsInTime: time is counted in whole units, and steps other than waits take none; a consumer that blocks the relay inside a write is the case it excludes.
- Buffered.ReturnsInTime: the budget is taken to start when `communicate` is entered, and to be one that `poll` accepts.
- Protocol.StepKeeps: a budget beyond `threading.TIMEOUT_MAX` ends the watchdog's thread at once; the model keeps its watchdog.
- SHA-256 itself is an arbitrary function of the bytes fed.
- Symbolic links in `os.path.realpath`: only the lexical case and the string test on its result.
- `envscrub.py`, `limits.py`, `preflight.py`, `probe_version`, `resolve_binary` and `scripts/check_model_artifacts.py`: filters and look-ups whose results are parameters here.
- Constant result fields (`size_verified`, `schema_version`) and the JSON form of events and wrappers.
