/** One streamed run as a protocol between its actors: the child, its escaped descendants, the
    stdin-writer thread, the relay loop, the watchdog timer and the clock, each step of any of them
    interleaving with the others. Pipes are bounded; the watchdog's kill and its flag are two steps;
    a kill only asks for the child's death, which comes later or never. */
module Protocol {
  import opened Text
  import opened Utf8

  // ---------------------------------------------------------------- actors and state

  /** What the child does, in order; it exits when the script is empty. */
  datatype Op =
    | PutOut(bytes: seq<Byte>)
    | PutErr(bytes: seq<Byte>)
    | Take(n: nat)               // read up to n bytes of stdin, or until its end
    | CloseOut
    | CloseErr

  datatype Config = Config(
    script: seq<Op>, exitCode: int, prompt: seq<Byte>,
    capIn: nat, capOut: nat, capErr: nat,            // pipe capacities
    deadline: nat, spawnedAt: nat, grace: nat,       // deadline = start + budget; _KILL_GRACE
    heldOut: bool, heldErr: bool, stray: nat,        // descendants: pipes they hold, bytes they may write
    stalls: bool)                                    // the consumer may block the relay inside a write
  {
    predicate Valid() { capIn >= 1 && capOut >= 1 && capErr >= 1 }

    predicate NoDescendants() { !heldOut && !heldErr }

    /** The last moment of the budget the relay can observe. */
    function Horizon(): nat { if deadline >= spawnedAt then deadline else spawnedAt }
  }

  datatype Child = Alive | Exited(code: int, killed: bool)

  datatype Watch = Armed | Killing | Fired | Cancelled

  datatype Verdict = VOk | VExitNonzero | VTimeout

  /** Where the relay thread stands in `run_llama_stream`. */
  datatype Phase =
    | Pump                          // _pump(until=deadline)
    | Wait                          // both pipes closed: proc.wait within the budget
    | KillNow(drains: bool)         // _on_deadline, first half
    | FlagNow(drains: bool)         // _on_deadline, second half
    | Drain(until: nat)             // _pump after the kill
    | Tail                          // flush the decoder, emit the tail
    | JoinWriter(until: nat)
    | Reap(until: nat)
    | KillAgain
    | ReapAgain(until: nat)
    | Judging
    | Returned(verdict: Verdict, code: Option<int>)

  datatype State = State(
    child: Child, script: seq<Op>, outOpen: bool, errOpen: bool, killSent: bool,
    inPipe: seq<Byte>, outPipe: seq<Byte>, errPipe: seq<Byte>,
    toWrite: seq<Byte>, writerDone: bool, taken: seq<Byte>,   // what the child has read of stdin
    heldOut: bool, heldErr: bool, stray: nat,
    phase: Phase, outEof: bool, errEof: bool, gotOut: seq<Byte>, gotErr: seq<Byte>, reaped: Option<int>,
    watch: Watch, flag: bool, now: nat,
    sentOut: seq<Byte>, sentErr: seq<Byte>)          // every byte ever put into each pipe

  function Initial(c: Config): State {
    State(Alive, c.script, true, true, false, [], [], [], c.prompt, false, [],
          c.heldOut, c.heldErr, c.stray, Pump, false, false, [], [], None,
          Armed, false, c.spawnedAt, [], [])
  }

  /** Somebody can still write to the pipe. */
  predicate OutWriters(s: State) { (s.child.Alive? && s.outOpen) || s.heldOut }

  predicate ErrWriters(s: State) { (s.child.Alive? && s.errOpen) || s.heldErr }

  const SIGKILLED: int := -9

  datatype ChildAction =
    | WriteOut(k: nat) | WriteErr(k: nat) | TakeStdin(k: nat) | StdinEnds | Skip | ShutOut | ShutErr
    | Exit | Die

  datatype StrayAction = StrayOut(b: Byte) | StrayErr(b: Byte) | LetGoOut | LetGoErr

  datatype WriterAction = Feed(k: nat) | FeedDone | FeedBroken

  /** The relay inside its two pumps. */
  datatype PumpAction =
    | ReadOut(k: nat) | ReadErr(k: nat) | EofOut | EofErr
    | PumpDone | PumpLate | DrainDone | DrainLate

  /** The relay outside them. */
  datatype RelayAction = WaitOk | WaitLate | Kill | SetFlag | Flush | JoinDone | JoinLate | ReapOk | ReapLate | Judge

  datatype ClockAction = WatchKill | WatchFlag | Tick

  datatype Action =
    | OfChild(child: ChildAction)
    | OfStray(stray: StrayAction)
    | OfWriter(writer: WriterAction)
    | OfPump(pump: PumpAction)
    | OfRelay(relay: RelayAction)
    | OfClock(clock: ClockAction)

  predicate Reading(p: Phase) { p.Pump? || p.Drain? }

  /** Phases in which the relay sits in a bounded wait, and until when. */
  function WaitsUntil(c: Config, p: Phase): Option<nat> {
    match p
    case Pump => Some(c.deadline)
    case Wait => Some(c.deadline)
    case Drain(u) => Some(u)
    case JoinWriter(u) => Some(u)
    case Reap(u) => Some(u)
    case ReapAgain(u) => Some(u)
    case _ => None
  }

  /** A write by the head of the script that has no effect: nothing to write, or a closed pipe. */
  predicate Idle(s: State) {
    s.script != [] &&
    match s.script[0]
    case PutOut(bytes) => bytes == [] || !s.outOpen
    case PutErr(bytes) => bytes == [] || !s.errOpen
    case Take(n) => n == 0
    case _ => false
  }

  predicate ChildEnabled(c: Config, s: State, a: ChildAction) {
    s.child.Alive? &&
    match a
    case WriteOut(k) => s.script != [] && s.script[0].PutOut? && s.outOpen
                        && 1 <= k <= |s.script[0].bytes| && |s.outPipe| + k <= c.capOut
    case WriteErr(k) => s.script != [] && s.script[0].PutErr? && s.errOpen
                        && 1 <= k <= |s.script[0].bytes| && |s.errPipe| + k <= c.capErr
    case TakeStdin(k) => s.script != [] && s.script[0].Take? && 1 <= k <= s.script[0].n && k <= |s.inPipe|
    case StdinEnds => s.script != [] && s.script[0].Take? && s.inPipe == [] && s.writerDone
    case Skip => Idle(s)
    case ShutOut => s.script != [] && s.script[0].CloseOut?
    case ShutErr => s.script != [] && s.script[0].CloseErr?
    case Exit => s.script == []
    case Die => s.killSent
  }

  predicate StrayEnabled(c: Config, s: State, a: StrayAction) {
    match a
    case StrayOut(b) => s.heldOut && s.stray > 0 && |s.outPipe| < c.capOut
    case StrayErr(b) => s.heldErr && s.stray > 0 && |s.errPipe| < c.capErr
    case LetGoOut => s.heldOut
    case LetGoErr => s.heldErr
  }

  predicate WriterEnabled(c: Config, s: State, a: WriterAction) {
    !s.writerDone &&
    match a
    case Feed(k) => 1 <= k <= |s.toWrite| && |s.inPipe| + k <= c.capIn
    case FeedDone => s.toWrite == []
    case FeedBroken => s.child.Exited?
  }

  predicate PumpEnabled(c: Config, s: State, a: PumpAction) {
    Reading(s.phase) &&
    match a
    case ReadOut(k) => !s.outEof && 1 <= k <= |s.outPipe| && k <= READ_CHUNK
    case ReadErr(k) => !s.errEof && 1 <= k <= |s.errPipe| && k <= READ_CHUNK
    case EofOut => !s.outEof && s.outPipe == [] && !OutWriters(s)
    case EofErr => !s.errEof && s.errPipe == [] && !ErrWriters(s)
    case PumpDone => s.phase.Pump? && s.outEof && s.errEof
    case PumpLate => s.phase.Pump? && !(s.outEof && s.errEof) && s.now >= c.deadline
    case DrainDone => s.phase.Drain? && s.outEof && s.errEof
    case DrainLate => s.phase.Drain? && !(s.outEof && s.errEof) && s.now >= s.phase.until
  }

  predicate RelayEnabled(c: Config, s: State, a: RelayAction) {
    match a
    case WaitOk => s.phase.Wait? && s.child.Exited?
    case WaitLate => s.phase.Wait? && s.child.Alive? && s.now >= c.deadline
    case Kill => s.phase.KillNow? || s.phase.KillAgain?
    case SetFlag => s.phase.FlagNow?
    case Flush => s.phase.Tail?
    case JoinDone => s.phase.JoinWriter? && s.writerDone
    case JoinLate => s.phase.JoinWriter? && !s.writerDone && s.now >= s.phase.until
    case ReapOk => (s.phase.Reap? || s.phase.ReapAgain?) && s.child.Exited?
    case ReapLate => (s.phase.Reap? || s.phase.ReapAgain?) && s.child.Alive? && s.now >= s.phase.until
    case Judge => s.phase.Judging?
  }

  predicate ClockEnabled(c: Config, s: State, a: ClockAction) {
    match a
    case WatchKill => s.watch.Armed? && s.now >= c.deadline
    case WatchFlag => s.watch.Killing?
    case Tick =>
      !s.phase.Returned? && (c.stalls || (WaitsUntil(c, s.phase).Some? && s.now < WaitsUntil(c, s.phase).value))
  }

  predicate Enabled(c: Config, s: State, a: Action) {
    match a
    case OfChild(x) => ChildEnabled(c, s, x)
    case OfStray(x) => StrayEnabled(c, s, x)
    case OfWriter(x) => WriterEnabled(c, s, x)
    case OfPump(x) => PumpEnabled(c, s, x)
    case OfRelay(x) => RelayEnabled(c, s, x)
    case OfClock(x) => ClockEnabled(c, s, x)
  }

  /** The script without the first `k` bytes of its first write. */
  function Advance(script: seq<Op>, k: nat): seq<Op>
    requires script != [] && (script[0].PutOut? || script[0].PutErr?) && k <= |script[0].bytes|
  {
    if k == |script[0].bytes| then script[1..]
    else [Cut(script[0], k)] + script[1..]
  }

  /** A write without its first `k` bytes. */
  function Cut(op: Op, k: nat): Op
    requires (op.PutOut? || op.PutErr?) && k <= |op.bytes|
  {
    if op.PutOut? then PutOut(op.bytes[k..]) else PutErr(op.bytes[k..])
  }

  function ChildStep(c: Config, s: State, a: ChildAction): State
    requires ChildEnabled(c, s, a)
  {
    match a
    case WriteOut(k) =>
      var bytes := s.script[0].bytes[..k];
      s.(outPipe := s.outPipe + bytes, sentOut := s.sentOut + bytes, script := Advance(s.script, k))
    case WriteErr(k) =>
      var bytes := s.script[0].bytes[..k];
      s.(errPipe := s.errPipe + bytes, sentErr := s.sentErr + bytes, script := Advance(s.script, k))
    case TakeStdin(k) =>
      s.(inPipe := s.inPipe[k..], taken := s.taken + s.inPipe[..k],
         script := if k == s.script[0].n then s.script[1..] else [Take(s.script[0].n - k)] + s.script[1..])
    case StdinEnds => s.(script := s.script[1..])
    case Skip => s.(script := s.script[1..])
    case ShutOut => s.(outOpen := false, script := s.script[1..])
    case ShutErr => s.(errOpen := false, script := s.script[1..])
    case Exit => s.(child := Exited(c.exitCode, false))
    case Die => s.(child := Exited(SIGKILLED, true))
  }

  function StrayStep(c: Config, s: State, a: StrayAction): State
    requires StrayEnabled(c, s, a)
  {
    match a
    case StrayOut(b) => s.(outPipe := s.outPipe + [b], sentOut := s.sentOut + [b], stray := s.stray - 1)
    case StrayErr(b) => s.(errPipe := s.errPipe + [b], sentErr := s.sentErr + [b], stray := s.stray - 1)
    case LetGoOut => s.(heldOut := false)
    case LetGoErr => s.(heldErr := false)
  }

  function WriterStep(c: Config, s: State, a: WriterAction): State
    requires WriterEnabled(c, s, a)
  {
    match a
    case Feed(k) => s.(inPipe := s.inPipe + s.toWrite[..k], toWrite := s.toWrite[k..])
    case _ => s.(writerDone := true)
  }

  function PumpStep(c: Config, s: State, a: PumpAction): State
    requires PumpEnabled(c, s, a)
  {
    match a
    case ReadOut(k) => s.(gotOut := s.gotOut + s.outPipe[..k], outPipe := s.outPipe[k..])
    case ReadErr(k) => s.(gotErr := s.gotErr + s.errPipe[..k], errPipe := s.errPipe[k..])
    case EofOut => s.(outEof := true)
    case EofErr => s.(errEof := true)
    case PumpDone => s.(phase := Wait)
    case PumpLate => s.(phase := KillNow(true))
    case _ => s.(phase := Tail)
  }

  function RelayStep(c: Config, s: State, a: RelayAction): State
    requires RelayEnabled(c, s, a)
  {
    match a
    case WaitOk => s.(phase := Tail, reaped := Some(s.child.code))
    case WaitLate => s.(phase := KillNow(false))
    case Kill => s.(killSent := true,
                    phase := if s.phase.KillAgain? then ReapAgain(s.now + c.grace) else FlagNow(s.phase.drains))
    case SetFlag => s.(flag := true, phase := if s.phase.drains then Drain(s.now + c.grace) else Tail)
    case Flush => s.(phase := JoinWriter(s.now + c.grace), watch := if s.watch.Armed? then Cancelled else s.watch)
    case JoinDone => s.(phase := Reap(s.now + c.grace))
    case JoinLate => s.(phase := Reap(s.now + c.grace))
    case ReapOk => s.(phase := Judging, reaped := Some(s.child.code))
    case ReapLate => s.(phase := if s.phase.Reap? then KillAgain else Judging)
    case Judge =>
      s.(phase := Returned(if s.flag then VTimeout else if s.reaped == Some(0) then VOk else VExitNonzero, s.reaped))
  }

  function ClockStep(c: Config, s: State, a: ClockAction): State
    requires ClockEnabled(c, s, a)
  {
    match a
    case WatchKill => s.(killSent := true, watch := Killing)
    case WatchFlag => s.(flag := true, watch := Fired)
    case Tick => s.(now := s.now + 1)
  }

  function Step(c: Config, s: State, a: Action): State
    requires Enabled(c, s, a)
  {
    match a
    case OfChild(x) => ChildStep(c, s, x)
    case OfStray(x) => StrayStep(c, s, x)
    case OfWriter(x) => WriterStep(c, s, x)
    case OfPump(x) => PumpStep(c, s, x)
    case OfRelay(x) => RelayStep(c, s, x)
    case OfClock(x) => ClockStep(c, s, x)
  }

  /** The states of a run: every prefix of the action list is enabled. */
  ghost predicate IsRun(c: Config, s: State, actions: seq<Action>)
    decreases |actions|
  {
    actions == [] || (Enabled(c, s, actions[0]) && IsRun(c, Step(c, s, actions[0]), actions[1..]))
  }

  function After(c: Config, s: State, actions: seq<Action>): State
    requires IsRun(c, s, actions)
    decreases |actions|
  {
    if actions == [] then s else After(c, Step(c, s, actions[0]), actions[1..])
  }

  // ---------------------------------------------------------------- invariants

  /** What the script writes to stdout from here on; a closed end swallows the rest. */
  function OutOf(script: seq<Op>, open: bool): (bytes: seq<Byte>)
    ensures !open ==> bytes == []
  {
    if script == [] || !open then []
    else match script[0]
      case PutOut(bytes) => bytes + OutOf(script[1..], open)
      case CloseOut => []
      case _ => OutOf(script[1..], open)
  }

  function ErrOf(script: seq<Op>, open: bool): (bytes: seq<Byte>)
    ensures !open ==> bytes == []
  {
    if script == [] || !open then []
    else match script[0]
      case PutErr(bytes) => bytes + ErrOf(script[1..], open)
      case CloseErr => []
      case _ => ErrOf(script[1..], open)
  }

  /** Pipes are bounded, lose nothing and keep order; an end of file is final. */
  ghost predicate PipesInv(c: Config, s: State) {
    && |s.inPipe| <= c.capIn && |s.outPipe| <= c.capOut && |s.errPipe| <= c.capErr
    && s.sentOut == s.gotOut + s.outPipe
    && s.sentErr == s.gotErr + s.errPipe
    && (s.outEof ==> s.outPipe == [] && !OutWriters(s))
    && (s.errEof ==> s.errPipe == [] && !ErrWriters(s))
  }

  /** Without descendants, what was sent and what the script still writes is the child's output. */
  ghost predicate DeliveryInv(c: Config, s: State) {
    c.NoDescendants() ==>
      && !s.heldOut && !s.heldErr
      && s.sentOut + OutOf(s.script, s.outOpen) == OutOf(c.script, true)
      && s.sentErr + ErrOf(s.script, s.errOpen) == ErrOf(c.script, true)
  }

  /** The child ends by its own exit or by a kill that was sent. */
  ghost predicate ChildInv(c: Config, s: State) {
    && (s.child.Exited? ==> if s.child.killed then s.killSent && s.child.code == SIGKILLED
                            else s.script == [] && s.child.code == c.exitCode)
    && (s.reaped.Some? ==> s.child.Exited? && s.reaped.value == s.child.code)
  }

  /** The child ended by a kill. */
  predicate Killed(s: State) { s.child.Exited? && s.child.killed }

  /** The relay has seen a complete, ordinary end of the child. */
  ghost predicate Complete(s: State) { s.outEof && s.errEof && s.reaped.Some? }

  ghost predicate ControlInv(c: Config, s: State) {
    && (s.killSent ==> s.now >= c.deadline)
    && (s.flag ==> s.killSent)
    && (s.watch.Killing? || s.watch.Fired? ==> s.killSent)
    && (s.watch.Fired? ==> s.flag)
    && (s.killSent && !s.flag ==> s.watch.Killing? || s.phase.FlagNow?)
    && (s.phase.Pump? || s.phase.Wait? || s.phase.KillNow? || s.phase.FlagNow? || s.phase.Drain? ==> s.reaped.None?)
    && (s.phase.Wait? ==> s.outEof && s.errEof)
    && (s.phase.KillNow? ==> s.now >= c.deadline)
    && (s.phase.FlagNow? ==> s.killSent)
    && (s.phase.Drain? || s.phase.KillAgain? || s.phase.ReapAgain? ==> s.flag)
    && (s.phase.Tail? || s.phase.JoinWriter? || s.phase.Reap? || s.phase.Judging? ==> s.flag || Complete(s))
    && (PastCancel(s.phase) ==> !s.watch.Armed?)
    && (s.phase.Returned? ==> s.phase.code == s.reaped && Honest(s, s.phase.verdict, s.phase.code))
  }

  /** The relay has cancelled its watchdog. */
  predicate PastCancel(p: Phase) {
    p.JoinWriter? || p.Reap? || p.KillAgain? || p.ReapAgain? || p.Judging? || p.Returned?
  }

  /** What a verdict entitles the caller to conclude. */
  ghost predicate Honest(s: State, v: Verdict, code: Option<int>) {
    && (v == VTimeout ==> s.flag)
    && (v != VTimeout ==> Complete(s))
    && (v == VOk ==> code == Some(0))
    && (v == VExitNonzero ==> code != Some(0))
  }

  ghost predicate Inv(c: Config, s: State) {
    PipesInv(c, s) && DeliveryInv(c, s) && ChildInv(c, s) && ControlInv(c, s)
  }

  lemma Cons(script: seq<Op>)
    requires script != []
    ensures script == [script[0]] + script[1..]
  {
  }

  lemma OutOfCons(op: Op, script: seq<Op>, open: bool)
    ensures OutOf([op] + script, open) ==
              if !open || op.CloseOut? then []
              else if op.PutOut? then op.bytes + OutOf(script, open)
              else OutOf(script, open)
  {
    assert ([op] + script)[1..] == script;
    assert [] + OutOf(script, open) == OutOf(script, open);
  }

  lemma ErrOfCons(op: Op, script: seq<Op>, open: bool)
    ensures ErrOf([op] + script, open) ==
              if !open || op.CloseErr? then []
              else if op.PutErr? then op.bytes + ErrOf(script, open)
              else ErrOf(script, open)
  {
    assert ([op] + script)[1..] == script;
    assert [] + ErrOf(script, open) == ErrOf(script, open);
  }

  /** Writing the first `k` bytes of the script's head moves exactly those bytes. */
  lemma OutAdvances(script: seq<Op>, k: nat, open: bool)
    requires script != [] && (script[0].PutOut? || script[0].PutErr?) && k <= |script[0].bytes|
    ensures OutOf(script, open)
            == (if script[0].PutOut? && open then script[0].bytes[..k] else []) + OutOf(Advance(script, k), open)
  {
    hide OutOf, ErrOf;
    var op, rest := script[0], script[1..];
    var later := OutOf(rest, open);
    Cons(script);
    OutOfCons(op, rest, open);
    if k < |op.bytes| {
      OutOfCons(Cut(op, k), rest, open);
      Regroup(op.bytes[..k], op.bytes[k..], later);
      assert op.bytes[..k] + op.bytes[k..] == op.bytes;
    } else {
      assert op.bytes[..k] == op.bytes;
    }
    assert [] + OutOf(Advance(script, k), open) == OutOf(Advance(script, k), open) && [] + later == later;
  }

  lemma ErrAdvances(script: seq<Op>, k: nat, open: bool)
    requires script != [] && (script[0].PutOut? || script[0].PutErr?) && k <= |script[0].bytes|
    ensures ErrOf(script, open)
            == (if script[0].PutErr? && open then script[0].bytes[..k] else []) + ErrOf(Advance(script, k), open)
  {
    hide OutOf, ErrOf;
    var op, rest := script[0], script[1..];
    var later := ErrOf(rest, open);
    Cons(script);
    ErrOfCons(op, rest, open);
    if k < |op.bytes| {
      ErrOfCons(Cut(op, k), rest, open);
      Regroup(op.bytes[..k], op.bytes[k..], later);
      assert op.bytes[..k] + op.bytes[k..] == op.bytes;
    } else {
      assert op.bytes[..k] == op.bytes;
    }
    assert [] + ErrOf(Advance(script, k), open) == ErrOf(Advance(script, k), open) && [] + later == later;
  }

  /** A write appends to what was sent and takes the same bytes off the script. */
  lemma WriteDelivers(c: Config, s: State, a: ChildAction)
    requires DeliveryInv(c, s) && ChildEnabled(c, s, a) && (a.WriteOut? || a.WriteErr?)
    ensures DeliveryInv(c, ChildStep(c, s, a))
  {
    hide Advance, OutOf, ErrOf;
    OutAdvances(s.script, a.k, s.outOpen);
    ErrAdvances(s.script, a.k, s.errOpen);
    var bytes := s.script[0].bytes[..a.k];
    var rest := Advance(s.script, a.k);
    assert s.sentOut + (bytes + OutOf(rest, s.outOpen)) == (s.sentOut + bytes) + OutOf(rest, s.outOpen);
    assert s.sentErr + (bytes + ErrOf(rest, s.errOpen)) == (s.sentErr + bytes) + ErrOf(rest, s.errOpen);
    assert [] + OutOf(rest, s.outOpen) == OutOf(rest, s.outOpen);
    assert [] + ErrOf(rest, s.errOpen) == ErrOf(rest, s.errOpen);
  }

  lemma TakeDelivers(c: Config, s: State, k: nat)
    requires DeliveryInv(c, s) && ChildEnabled(c, s, TakeStdin(k))
    ensures DeliveryInv(c, ChildStep(c, s, TakeStdin(k)))
  {
    var n, rest := s.script[0].n, s.script[1..];
    Cons(s.script);
    OutOfCons(Take(n), rest, s.outOpen);
    ErrOfCons(Take(n), rest, s.errOpen);
    OutOfCons(Take(n - k), rest, s.outOpen);
    ErrOfCons(Take(n - k), rest, s.errOpen);
    hide OutOf, ErrOf;
  }

  /** An operation that ends without writing leaves what is still to come as it is. */
  lemma NothingWritten(s: State)
    requires s.script != [] && (Idle(s) || s.script[0].Take? || s.script[0].CloseOut? || s.script[0].CloseErr?)
    ensures !s.script[0].CloseOut? ==> OutOf(s.script, s.outOpen) == OutOf(s.script[1..], s.outOpen)
    ensures !s.script[0].CloseErr? ==> ErrOf(s.script, s.errOpen) == ErrOf(s.script[1..], s.errOpen)
    ensures s.script[0].CloseOut? ==> OutOf(s.script, s.outOpen) == []
    ensures s.script[0].CloseErr? ==> ErrOf(s.script, s.errOpen) == []
  {
    Cons(s.script);
    OutOfCons(s.script[0], s.script[1..], s.outOpen);
    ErrOfCons(s.script[0], s.script[1..], s.errOpen);
    hide OutOf, ErrOf;
  }

  lemma PassDelivers(c: Config, s: State, a: ChildAction)
    requires DeliveryInv(c, s) && ChildEnabled(c, s, a) && (a.StdinEnds? || a.Skip? || a.ShutOut? || a.ShutErr?)
    ensures DeliveryInv(c, ChildStep(c, s, a))
  {
    NothingWritten(s);
    hide OutOf, ErrOf;
    var t := ChildStep(c, s, a);
    assert t.script == s.script[1..] && t.sentOut == s.sentOut && t.sentErr == s.sentErr;
    assert t.heldOut == s.heldOut && t.heldErr == s.heldErr;
    assert t.outOpen == (s.outOpen && !a.ShutOut?) && t.errOpen == (s.errOpen && !a.ShutErr?);
  }

  lemma ChildDelivers(c: Config, s: State, a: ChildAction)
    requires DeliveryInv(c, s) && ChildEnabled(c, s, a)
    ensures DeliveryInv(c, ChildStep(c, s, a))
  {
    hide OutOf, ErrOf, Advance;
    if a.WriteOut? || a.WriteErr? {
      WriteDelivers(c, s, a);
    } else if a.TakeStdin? {
      TakeDelivers(c, s, a.k);
    } else if !a.Exit? && !a.Die? {
      PassDelivers(c, s, a);
    }
  }

  lemma ChildPipes(c: Config, s: State, a: ChildAction)
    requires PipesInv(c, s) && ChildEnabled(c, s, a)
    ensures PipesInv(c, ChildStep(c, s, a))
  {
    hide Advance;
    if a.WriteOut? || a.WriteErr? {
      var bytes := s.script[0].bytes[..a.k];
      assert s.gotOut + (s.outPipe + bytes) == (s.gotOut + s.outPipe) + bytes;
      assert s.gotErr + (s.errPipe + bytes) == (s.gotErr + s.errPipe) + bytes;
    }
  }

  lemma ChildEnds(c: Config, s: State, a: ChildAction)
    requires ChildInv(c, s) && ChildEnabled(c, s, a)
    ensures ChildInv(c, ChildStep(c, s, a))
  {
    hide Advance;
    ChildFrame(c, s, a);
  }

  /** Only the relay, the watchdog and the clock touch what the control invariant speaks of. */
  lemma ControlFrame(c: Config, s: State, s': State)
    requires ControlInv(c, s) && SameControl(s, s')
    ensures ControlInv(c, s')
  {
  }

  lemma ChildControl(c: Config, s: State, a: ChildAction)
    requires ChildInv(c, s) && ControlInv(c, s) && ChildEnabled(c, s, a)
    ensures ChildInv(c, ChildStep(c, s, a)) && ControlInv(c, ChildStep(c, s, a))
  {
    hide ChildStep, ChildEnabled, ChildInv, ControlInv, SameControl;
    ChildEnds(c, s, a);
    ChildFrame(c, s, a);
    ControlFrame(c, s, ChildStep(c, s, a));
  }

  lemma ChildKeeps(c: Config, s: State, a: ChildAction)
    requires Inv(c, s) && ChildEnabled(c, s, a)
    ensures Inv(c, ChildStep(c, s, a))
  {
    hide PipesInv, DeliveryInv, ChildInv, ControlInv, ChildStep;
    ChildPipes(c, s, a);
    ChildDelivers(c, s, a);
    ChildControl(c, s, a);
  }

  lemma StrayKeeps(c: Config, s: State, a: StrayAction)
    requires Inv(c, s) && StrayEnabled(c, s, a)
    ensures Inv(c, StrayStep(c, s, a))
  {
    hide OutOf, ErrOf;
  }

  lemma WriterKeeps(c: Config, s: State, a: WriterAction)
    requires Inv(c, s) && WriterEnabled(c, s, a)
    ensures Inv(c, WriterStep(c, s, a))
  {
    hide OutOf, ErrOf;
  }

  lemma PumpPipes(c: Config, s: State, a: PumpAction)
    requires PipesInv(c, s) && PumpEnabled(c, s, a)
    ensures PipesInv(c, PumpStep(c, s, a))
  {
    match a
    case ReadOut(k) => assert s.outPipe == s.outPipe[..k] + s.outPipe[k..];
    case ReadErr(k) => assert s.errPipe == s.errPipe[..k] + s.errPipe[k..];
    case _ =>
  }

  lemma PumpDelivers(c: Config, s: State, a: PumpAction)
    requires DeliveryInv(c, s) && PumpEnabled(c, s, a)
    ensures DeliveryInv(c, PumpStep(c, s, a))
  {
    hide OutOf, ErrOf;
  }

  lemma PumpControl(c: Config, s: State, a: PumpAction)
    requires ChildInv(c, s) && ControlInv(c, s) && PumpEnabled(c, s, a)
    ensures ChildInv(c, PumpStep(c, s, a)) && ControlInv(c, PumpStep(c, s, a))
  {
  }

  lemma PumpKeeps(c: Config, s: State, a: PumpAction)
    requires Inv(c, s) && PumpEnabled(c, s, a)
    ensures Inv(c, PumpStep(c, s, a))
  {
    hide PipesInv, DeliveryInv, ChildInv, ControlInv, PumpStep;
    PumpPipes(c, s, a);
    PumpDelivers(c, s, a);
    PumpControl(c, s, a);
  }

  lemma RelayPipes(c: Config, s: State, a: RelayAction)
    requires PipesInv(c, s) && DeliveryInv(c, s) && RelayEnabled(c, s, a)
    ensures PipesInv(c, RelayStep(c, s, a)) && DeliveryInv(c, RelayStep(c, s, a))
  {
    hide OutOf, ErrOf;
  }

  lemma RelayChild(c: Config, s: State, a: RelayAction)
    requires ChildInv(c, s) && RelayEnabled(c, s, a)
    ensures ChildInv(c, RelayStep(c, s, a))
  {
  }

  lemma RelayControl(c: Config, s: State, a: RelayAction)
    requires ChildInv(c, s) && ControlInv(c, s) && RelayEnabled(c, s, a)
    ensures ControlInv(c, RelayStep(c, s, a))
  {
    match a
    case WaitOk =>
    case WaitLate =>
    case Kill =>
    case SetFlag =>
    case Flush =>
    case JoinDone =>
    case JoinLate =>
    case ReapOk =>
    case ReapLate =>
    case Judge =>
  }

  lemma RelayKeeps(c: Config, s: State, a: RelayAction)
    requires Inv(c, s) && RelayEnabled(c, s, a)
    ensures Inv(c, RelayStep(c, s, a))
  {
    hide PipesInv, DeliveryInv, ChildInv, ControlInv, RelayStep;
    RelayPipes(c, s, a);
    RelayChild(c, s, a);
    RelayControl(c, s, a);
  }

  lemma ClockKeeps(c: Config, s: State, a: ClockAction)
    requires Inv(c, s) && ClockEnabled(c, s, a)
    ensures Inv(c, ClockStep(c, s, a))
  {
    hide OutOf, ErrOf;
  }

  /** Every step of every actor keeps the invariant. */
  lemma StepKeeps(c: Config, s: State, a: Action)
    requires Inv(c, s) && Enabled(c, s, a)
    ensures Inv(c, Step(c, s, a))
  {
    hide Inv;
    match a
    case OfChild(x) => ChildKeeps(c, s, x);
    case OfStray(x) => StrayKeeps(c, s, x);
    case OfWriter(x) => WriterKeeps(c, s, x);
    case OfPump(x) => PumpKeeps(c, s, x);
    case OfRelay(x) => RelayKeeps(c, s, x);
    case OfClock(x) => ClockKeeps(c, s, x);
  }

  lemma {:induction false} RunKeeps(c: Config, s: State, actions: seq<Action>)
    requires Inv(c, s) && IsRun(c, s, actions)
    ensures Inv(c, After(c, s, actions))
    decreases |actions|
  {
    hide Inv, Enabled, Step;
    if actions != [] {
      StepKeeps(c, s, actions[0]);
      RunKeeps(c, Step(c, s, actions[0]), actions[1..]);
    }
  }

  lemma InitialInv(c: Config)
    ensures Inv(c, Initial(c))
  {
  }

  // ---------------------------------------------------------------- the prompt on its way

  /** The prompt is what the child has read, what lies in the pipe and what is still to be written; and
      the writer gives up early only when the child is gone. */
  ghost predicate StdinInv(c: Config, s: State) {
    && s.taken + s.inPipe + s.toWrite == c.prompt
    && (s.writerDone && s.child.Alive? ==> s.toWrite == [])
  }

  ghost predicate SameStdin(s: State, s': State) {
    && s'.taken == s.taken && s'.inPipe == s.inPipe && s'.toWrite == s.toWrite && s'.writerDone == s.writerDone
    && (s'.child.Alive? ==> s.child.Alive?)
  }

  lemma ChildStdin(c: Config, s: State, a: ChildAction)
    requires StdinInv(c, s) && ChildEnabled(c, s, a)
    ensures StdinInv(c, ChildStep(c, s, a))
  {
    hide Advance;
    if a.TakeStdin? {
      Regroup(s.taken, s.inPipe[..a.k], s.inPipe[a.k..]);
      assert s.inPipe[..a.k] + s.inPipe[a.k..] == s.inPipe;
    } else {
      assert SameStdin(s, ChildStep(c, s, a));
    }
  }

  lemma WriterStdin(c: Config, s: State, a: WriterAction)
    requires StdinInv(c, s) && WriterEnabled(c, s, a)
    ensures StdinInv(c, WriterStep(c, s, a))
  {
    if a.Feed? {
      Regroup(s.taken + s.inPipe, s.toWrite[..a.k], s.toWrite[a.k..]);
      Regroup(s.taken, s.inPipe, s.toWrite[..a.k]);
      assert s.toWrite[..a.k] + s.toWrite[a.k..] == s.toWrite;
    }
  }

  lemma StrayStdin(c: Config, s: State, a: StrayAction)
    requires StrayEnabled(c, s, a)
    ensures SameStdin(s, StrayStep(c, s, a))
  {
  }

  lemma PumpStdin(c: Config, s: State, a: PumpAction)
    requires PumpEnabled(c, s, a)
    ensures SameStdin(s, PumpStep(c, s, a))
  {
  }

  lemma RelayStdin(c: Config, s: State, a: RelayAction)
    requires RelayEnabled(c, s, a)
    ensures SameStdin(s, RelayStep(c, s, a))
  {
  }

  lemma ClockStdin(c: Config, s: State, a: ClockAction)
    requires ClockEnabled(c, s, a)
    ensures SameStdin(s, ClockStep(c, s, a))
  {
  }

  lemma StepKeepsStdin(c: Config, s: State, a: Action)
    requires StdinInv(c, s) && Enabled(c, s, a)
    ensures StdinInv(c, Step(c, s, a))
  {
    hide ChildStep, ChildEnabled, StrayStep, StrayEnabled, WriterStep, WriterEnabled, PumpStep, PumpEnabled,
      RelayStep, RelayEnabled, ClockStep, ClockEnabled;
    match a
    case OfChild(x) => ChildStdin(c, s, x);
    case OfWriter(x) => WriterStdin(c, s, x);
    case OfStray(x) => StrayStdin(c, s, x);
    case OfPump(x) => PumpStdin(c, s, x);
    case OfRelay(x) => RelayStdin(c, s, x);
    case OfClock(x) => ClockStdin(c, s, x);
  }

  lemma {:induction false} RunKeepsStdin(c: Config, s: State, actions: seq<Action>)
    requires StdinInv(c, s) && IsRun(c, s, actions)
    ensures StdinInv(c, After(c, s, actions))
    decreases |actions|
  {
    hide StdinInv, Enabled, Step;
    if actions != [] {
      StepKeepsStdin(c, s, actions[0]);
      RunKeepsStdin(c, Step(c, s, actions[0]), actions[1..]);
    }
  }

  /** Over every run the child reads a prefix of the prompt, in order and without loss, and comes to the
      end of stdin only after the whole of it. */
  lemma StdinIsThePrompt(c: Config, actions: seq<Action>)
    requires IsRun(c, Initial(c), actions)
    ensures var s := After(c, Initial(c), actions);
            && s.taken + s.inPipe + s.toWrite == c.prompt
            && (Enabled(c, s, OfChild(StdinEnds)) ==> s.taken == c.prompt)
  {
    assert [] + [] + c.prompt == c.prompt;
    RunKeepsStdin(c, Initial(c), actions);
    hide IsRun, After;
    var s := After(c, Initial(c), actions);
    assert s.taken + [] + [] == s.taken;
  }

  // ---------------------------------------------------------------- what a verdict means

  /** Every returned verdict of every run. A verdict other than timeout means that both pipes
      reached their end, that everything ever written to them was collected in order, and that the
      child was reaped; ok means it exited by itself with code 0, exit_nonzero that its code is not
      0, timeout that the deadline had passed. Without descendants an ok run has collected exactly
      what the child's script writes. */
  lemma VerdictMeaning(c: Config, actions: seq<Action>)
    requires IsRun(c, Initial(c), actions) && After(c, Initial(c), actions).phase.Returned?
    ensures var s := After(c, Initial(c), actions);
            var (v, code) := (s.phase.verdict, s.phase.code);
            && (v == VTimeout ==> s.now >= c.deadline)
            && (v != VTimeout ==>
                  && s.outEof && s.errEof && s.gotOut == s.sentOut && s.gotErr == s.sentErr
                  && s.child.Exited? && code == Some(s.child.code))
            && (v == VOk ==> code == Some(0) && !Killed(s))
            && (v == VExitNonzero ==> code.Some? && code != Some(0))
            && (v != VTimeout && c.NoDescendants() && !Killed(s) ==>
                  s.gotOut == OutOf(c.script, true) && s.gotErr == ErrOf(c.script, true))
  {
    InitialInv(c);
    RunKeeps(c, Initial(c), actions);
    hide After, IsRun;
    var s := After(c, Initial(c), actions);
    assert s.phase.verdict != VTimeout ==> s.sentOut == s.gotOut + [] && s.sentErr == s.gotErr + [];
    assert s.sentOut + [] == s.sentOut && s.sentErr + [] == s.sentErr;
  }

  /** The flag decides: the relay reports a timeout exactly when the flag is set as it judges. */
  lemma JudgedByTheFlag(c: Config, s: State)
    requires Inv(c, s) && s.phase.Judging?
    ensures var s' := Step(c, s, OfRelay(Judge));
            && (s'.phase.verdict == VTimeout <==> s.flag)
            && (s'.phase.verdict == VOk <==> !s.flag && s.child.Exited? && !s.child.killed && s.child.code == 0)
  {
    hide OutOf, ErrOf;
  }

  lemma RunFrom(c: Config, s: State, a: Action, rest: seq<Action>, last: State)
    requires Enabled(c, s, a) && IsRun(c, Step(c, s, a), rest) && After(c, Step(c, s, a), rest) == last
    ensures IsRun(c, s, [a] + rest) && After(c, s, [a] + rest) == last
  {
    hide Enabled, Step;
    assert ([a] + rest)[1..] == rest;
  }

  /** A child that closes its outputs and waits for stdin; the budget is one unit of time. */
  const GAP := Config([CloseOut, CloseErr, Take(1)], 0, [0x41, 0x41], 1, 1, 1, 1, 0, 5, false, false, 0, false)

  /** Before the deadline both pipes have ended, and the relay waits for the exit. */
  function WaitingForExit(): State {
    Initial(GAP).(script := [Take(1)], outOpen := false, errOpen := false, outEof := true, errEof := true,
                  phase := Wait)
  }

  /** At the deadline the watchdog has killed the child and not yet set the flag. */
  function KilledUnflagged(): State {
    WaitingForExit().(now := 1, killSent := true, watch := Killing, child := Exited(SIGKILLED, true))
  }

  function JudgingUnflagged(): State {
    KilledUnflagged().(reaped := Some(SIGKILLED), writerDone := true, phase := Judging)
  }

  lemma {:induction false} RunAppend(c: Config, s: State, a: seq<Action>, b: seq<Action>)
    requires IsRun(c, s, a) && IsRun(c, After(c, s, a), b)
    ensures IsRun(c, s, a + b) && After(c, s, a + b) == After(c, After(c, s, a), b)
    decreases |a|
  {
    hide Enabled, Step;
    if a == [] {
      assert a + b == b;
    } else {
      Append(a, b);
      RunAppend(c, Step(c, s, a[0]), a[1..], b);
    }
  }

  lemma PipesEndEarly() returns (actions: seq<Action>)
    ensures IsRun(GAP, Initial(GAP), actions) && After(GAP, Initial(GAP), actions) == WaitingForExit()
    ensures actions == [OfChild(ShutOut), OfChild(ShutErr), OfPump(EofOut), OfPump(EofErr), OfPump(PumpDone)]
  {
    var s0 := Initial(GAP);
    var s1 := s0.(script := [CloseErr, Take(1)], outOpen := false);
    var s2 := s1.(script := [Take(1)], errOpen := false);
    var s3 := s2.(outEof := true);
    var s4 := s3.(errEof := true);
    var last := WaitingForExit();
    actions := [];
    RunFrom(GAP, s4, OfPump(PumpDone), actions, last);
    actions := [OfPump(PumpDone)] + actions;
    RunFrom(GAP, s3, OfPump(EofErr), actions, last);
    actions := [OfPump(EofErr)] + actions;
    RunFrom(GAP, s2, OfPump(EofOut), actions, last);
    actions := [OfPump(EofOut)] + actions;
    RunFrom(GAP, s1, OfChild(ShutErr), actions, last);
    actions := [OfChild(ShutErr)] + actions;
    RunFrom(GAP, s0, OfChild(ShutOut), actions, last);
    actions := [OfChild(ShutOut)] + actions;
  }

  lemma KilledAtTheDeadline() returns (actions: seq<Action>)
    ensures IsRun(GAP, WaitingForExit(), actions) && After(GAP, WaitingForExit(), actions) == KilledUnflagged()
    ensures actions == [OfClock(Tick), OfClock(WatchKill), OfChild(Die)]
  {
    var s5 := WaitingForExit();
    var s6 := s5.(now := 1);
    var s7 := s6.(killSent := true, watch := Killing);
    var last := KilledUnflagged();
    actions := [];
    RunFrom(GAP, s7, OfChild(Die), actions, last);
    actions := [OfChild(Die)] + actions;
    RunFrom(GAP, s6, OfClock(WatchKill), actions, last);
    actions := [OfClock(WatchKill)] + actions;
    RunFrom(GAP, s5, OfClock(Tick), actions, last);
    actions := [OfClock(Tick)] + actions;
  }

  lemma ReapedInTheGap() returns (actions: seq<Action>)
    ensures IsRun(GAP, KilledUnflagged(), actions) && After(GAP, KilledUnflagged(), actions) == JudgingUnflagged()
    ensures actions == [OfRelay(WaitOk), OfRelay(Flush), OfWriter(FeedBroken), OfRelay(JoinDone), OfRelay(ReapOk)]
  {
    var s8 := KilledUnflagged();
    var s9 := s8.(phase := Tail, reaped := Some(SIGKILLED));
    var s10 := s9.(phase := JoinWriter(6));
    var s11 := s10.(writerDone := true);
    var s12 := s11.(phase := Reap(6));
    var last := JudgingUnflagged();
    actions := [];
    RunFrom(GAP, s12, OfRelay(ReapOk), actions, last);
    actions := [OfRelay(ReapOk)] + actions;
    RunFrom(GAP, s11, OfRelay(JoinDone), actions, last);
    actions := [OfRelay(JoinDone)] + actions;
    RunFrom(GAP, s10, OfWriter(FeedBroken), actions, last);
    actions := [OfWriter(FeedBroken)] + actions;
    RunFrom(GAP, s9, OfRelay(Flush), actions, last);
    actions := [OfRelay(Flush)] + actions;
    RunFrom(GAP, s8, OfRelay(WaitOk), actions, last);
    actions := [OfRelay(WaitOk)] + actions;
  }

  /** Kill and flag are two steps, and the gap shows. Both pipes end before the deadline; at the
      deadline the watchdog kills the child the relay is waiting for; and the relay reaps and judges
      it before the flag is set. That run reports exit_nonzero with the kill's code. */
  lemma KilledWithoutTimeout() returns (actions: seq<Action>)
    ensures IsRun(GAP, Initial(GAP), actions)
    ensures var s := After(GAP, Initial(GAP), actions);
            && s.phase.Judging? && Killed(s) && s.now == GAP.deadline
            && Step(GAP, s, OfRelay(Judge)).phase == Returned(VExitNonzero, Some(-9))
  {
    var a := PipesEndEarly();
    var b := KilledAtTheDeadline();
    var d := ReapedInTheGap();
    hide IsRun, After;
    RunAppend(GAP, WaitingForExit(), b, d);
    RunAppend(GAP, Initial(GAP), a, b + d);
    actions := a + (b + d);
  }

  // ---------------------------------------------------------------- exactly when a kill goes unreported

  /** The state the two halves of `_on_deadline` leave behind, as the history of a run tells it. */
  ghost predicate Recorded(s: State, actions: seq<Action>, s': State) {
    && (s'.flag <==> s.flag || OfClock(WatchFlag) in actions || OfRelay(SetFlag) in actions)
    && (s'.watch.Killing? ==> s.watch.Killing? || OfClock(WatchKill) in actions)
    && (s'.watch.Armed? || s'.watch.Killing? ==>
          OfClock(WatchFlag) !in actions && (s.watch.Armed? || s.watch.Killing?))
  }

  ghost predicate SameVerdictParts(s: State, s': State) { s'.flag == s.flag && s'.watch == s.watch }

  lemma PumpRecords(c: Config, s: State, a: PumpAction)
    requires PumpEnabled(c, s, a)
    ensures SameVerdictParts(s, PumpStep(c, s, a))
  {
    match a
    case ReadOut(_) =>
    case ReadErr(_) =>
    case EofOut =>
    case EofErr =>
    case PumpDone =>
    case PumpLate =>
    case DrainDone =>
    case DrainLate =>
  }

  lemma RelayRecords(c: Config, s: State, a: RelayAction)
    requires RelayEnabled(c, s, a)
    ensures Recorded(s, [OfRelay(a)], RelayStep(c, s, a))
  {
  }

  lemma ClockRecords(c: Config, s: State, a: ClockAction)
    requires ClockEnabled(c, s, a)
    ensures Recorded(s, [OfClock(a)], ClockStep(c, s, a))
  {
  }

  lemma StepRecords(c: Config, s: State, a: Action)
    requires Enabled(c, s, a)
    ensures Recorded(s, [a], Step(c, s, a))
  {
    hide ChildStep, ChildEnabled, StrayStep, StrayEnabled, WriterStep, WriterEnabled, PumpStep, PumpEnabled,
      RelayStep, RelayEnabled, ClockStep, ClockEnabled;
    match a
    case OfPump(x) => PumpRecords(c, s, x);
    case OfRelay(x) => RelayRecords(c, s, x);
    case OfClock(x) => ClockRecords(c, s, x);
    case _ => OthersFrame(c, s, a);
  }

  lemma {:induction false} RunRecords(c: Config, s: State, actions: seq<Action>)
    requires IsRun(c, s, actions)
    ensures Recorded(s, actions, After(c, s, actions))
    decreases |actions|
  {
    hide Enabled, Step;
    if actions != [] {
      var a, rest := actions[0], actions[1..];
      StepRecords(c, s, a);
      RunRecords(c, Step(c, s, a), rest);
      assert actions == [a] + rest;
    }
  }

  /** Exactly when a killed child is reported as anything but a timeout, over every run up to the
      judgement: the watchdog has sent its kill, and neither it nor the relay has yet set the flag. */
  lemma KillUnreportedIffInTheGap(c: Config, actions: seq<Action>)
    requires IsRun(c, Initial(c), actions)
    requires var s := After(c, Initial(c), actions); s.phase.Judging? && Killed(s)
    ensures var s := After(c, Initial(c), actions);
            Step(c, s, OfRelay(Judge)).phase.verdict != VTimeout <==>
              OfClock(WatchKill) in actions && OfClock(WatchFlag) !in actions && OfRelay(SetFlag) !in actions
  {
    InitialInv(c);
    RunKeeps(c, Initial(c), actions);
    RunRecords(c, Initial(c), actions);
    hide IsRun, After, PipesInv, DeliveryInv;
    JudgedByTheFlag(c, After(c, Initial(c), actions));
  }

  // ---------------------------------------------------------------- no deadlock among the pipes

  /** Steps in which somebody moves data or finishes: no timeout, no kill, no clock. */
  predicate IsWork(a: Action) {
    match a
    case OfChild(x) => !x.Die?
    case OfWriter(_) => true
    case OfPump(x) => !x.PumpLate? && !x.DrainLate?
    case OfRelay(x) => x.WaitOk? || x.Flush? || x.JoinDone? || x.ReapOk? || x.Judge?
    case _ => false
  }

  /** A live child can always do something, unless the relay is the one to move. */
  lemma ChildOrRelayMoves(c: Config, s: State) returns (a: Action)
    requires c.Valid() && PipesInv(c, s) && s.child.Alive?
    requires s.phase.Pump? || (s.phase.Wait? && s.outEof && s.errEof)
    ensures IsWork(a) && Enabled(c, s, a)
    ensures a.OfChild? || a.OfWriter? || (a.OfPump? && (a.pump.ReadOut? || a.pump.ReadErr?))
  {
    if s.script == [] {
      a := OfChild(Exit);
    } else {
      match s.script[0] {
        case PutOut(bytes) =>
          a := if Idle(s) then OfChild(Skip) else if s.outPipe == [] then OfChild(WriteOut(1)) else OfPump(ReadOut(1));
        case PutErr(bytes) =>
          a := if Idle(s) then OfChild(Skip) else if s.errPipe == [] then OfChild(WriteErr(1)) else OfPump(ReadErr(1));
        case Take(n) =>
          a := if n == 0 then OfChild(Skip)
               else if s.inPipe != [] then OfChild(TakeStdin(1))
               else if s.writerDone then OfChild(StdinEnds)
               else if s.toWrite == [] then OfWriter(FeedDone) else OfWriter(Feed(1));
        case CloseOut => a := OfChild(ShutOut);
        case CloseErr => a := OfChild(ShutErr);
      }
    }
  }

  /** No reachable unfinished state is stuck, and none needs the clock, the watchdog or a timeout to
      go on - as long as no descendant holds a pipe and no kill was sent. */
  lemma NoDeadlock(c: Config, s: State) returns (a: Action)
    requires c.Valid() && c.NoDescendants() && Inv(c, s) && Quiet(s) && !s.phase.Returned?
    ensures IsWork(a) && Enabled(c, s, a)
  {
    hide OutOf, ErrOf;
    match s.phase {
      case Pump =>
        if s.outEof && s.errEof {
          a := OfPump(PumpDone);
        } else if s.child.Alive? {
          a := ChildOrRelayMoves(c, s);
        } else if !s.outEof {
          a := OfPump(if s.outPipe != [] then ReadOut(1) else EofOut);
        } else {
          a := OfPump(if s.errPipe != [] then ReadErr(1) else EofErr);
        }
      case Wait =>
        if s.child.Alive? {
          a := ChildOrRelayMoves(c, s);
        } else {
          a := OfRelay(WaitOk);
        }
      case Tail => a := OfRelay(Flush);
      case JoinWriter(_) => a := if s.writerDone then OfRelay(JoinDone) else OfWriter(FeedBroken);
      case Reap(_) => a := OfRelay(ReapOk);
      case _ => a := OfRelay(Judge);
    }
  }

  /** Nothing has gone wrong: no kill, no flag, and the relay on its ordinary path. */
  ghost predicate Quiet(s: State) {
    && !s.killSent && !s.flag && (s.watch.Armed? || s.watch.Cancelled?)
    && !s.phase.KillNow? && !s.phase.FlagNow? && !s.phase.Drain? && !s.phase.KillAgain? && !s.phase.ReapAgain?
  }

  /** The part of the state that only the relay, the watchdog and the clock change. */
  ghost predicate SameControl(s: State, s': State) {
    && s'.phase == s.phase && s'.killSent == s.killSent && s'.flag == s.flag && s'.watch == s.watch && s'.now == s.now
    && s'.outEof == s.outEof && s'.errEof == s.errEof && s'.gotOut == s.gotOut && s'.gotErr == s.gotErr
    && s'.reaped == s.reaped
  }

  lemma ChildFrame(c: Config, s: State, a: ChildAction)
    requires ChildEnabled(c, s, a)
    ensures SameControl(s, ChildStep(c, s, a))
  {
    hide Advance;
    match a
    case WriteOut(_) =>
    case WriteErr(_) =>
    case TakeStdin(_) =>
    case StdinEnds =>
    case Skip =>
    case ShutOut =>
    case ShutErr =>
    case Exit =>
    case Die =>
  }

  lemma StrayFrame(c: Config, s: State, a: StrayAction)
    requires StrayEnabled(c, s, a)
    ensures SameControl(s, StrayStep(c, s, a))
  {
    match a
    case StrayOut(_) =>
    case StrayErr(_) =>
    case LetGoOut =>
    case LetGoErr =>
  }

  lemma WriterFrame(c: Config, s: State, a: WriterAction)
    requires WriterEnabled(c, s, a)
    ensures SameControl(s, WriterStep(c, s, a))
  {
  }

  /** Nothing was read in between. */
  ghost predicate SameGot(s: State, s': State) {
    s'.gotOut == s.gotOut && s'.gotErr == s.gotErr
  }

  lemma RelayReadsNothing(c: Config, s: State, a: RelayAction)
    requires RelayEnabled(c, s, a)
    ensures SameGot(s, RelayStep(c, s, a))
  {
  }

  lemma ClockReadsNothing(c: Config, s: State, a: ClockAction)
    requires ClockEnabled(c, s, a)
    ensures SameGot(s, ClockStep(c, s, a))
  {
  }

  lemma OthersFrame(c: Config, s: State, a: Action)
    requires Enabled(c, s, a) && (a.OfChild? || a.OfStray? || a.OfWriter?)
    ensures SameControl(s, Step(c, s, a))
  {
    hide SameControl, ChildStep, ChildEnabled, StrayStep, StrayEnabled, WriterStep, WriterEnabled, PumpStep,
      PumpEnabled, RelayStep, RelayEnabled, ClockStep, ClockEnabled;
    match a
    case OfChild(x) => ChildFrame(c, s, x);
    case OfStray(x) => StrayFrame(c, s, x);
    case OfWriter(x) => WriterFrame(c, s, x);
  }

  lemma PumpQuiet(c: Config, s: State, a: PumpAction)
    requires Quiet(s) && PumpEnabled(c, s, a) && !a.PumpLate?
    ensures Quiet(PumpStep(c, s, a))
  {
  }

  lemma RelayQuiet(c: Config, s: State, a: RelayAction)
    requires Quiet(s) && RelayEnabled(c, s, a) && IsWork(OfRelay(a))
    ensures Quiet(RelayStep(c, s, a))
  {
  }

  lemma WorkStaysQuiet(c: Config, s: State, a: Action)
    requires Inv(c, s) && Quiet(s) && Enabled(c, s, a) && IsWork(a)
    ensures Quiet(Step(c, s, a))
  {
    hide Inv, ChildStep, ChildEnabled, StrayStep, StrayEnabled, WriterStep, WriterEnabled, PumpStep, PumpEnabled,
      RelayStep, RelayEnabled, ClockStep, ClockEnabled;
    match a
    case OfPump(x) => PumpQuiet(c, s, x);
    case OfRelay(x) => RelayQuiet(c, s, x);
    case _ => OthersFrame(c, s, a);
  }

  lemma {:induction false} QuietRun(c: Config, s: State, actions: seq<Action>)
    requires Inv(c, s) && Quiet(s) && IsRun(c, s, actions) && forall i | 0 <= i < |actions| :: IsWork(actions[i])
    ensures Inv(c, After(c, s, actions)) && Quiet(After(c, s, actions))
    decreases |actions|
  {
    hide Inv, Quiet, Enabled, Step, IsWork;
    if actions != [] {
      StepKeeps(c, s, actions[0]);
      WorkStaysQuiet(c, s, actions[0]);
      QuietRun(c, Step(c, s, actions[0]), actions[1..]);
    }
  }

  /** An undisturbed run, whatever the script, the prompt, the pipe capacities and the interleaving:
      it can only stop by returning the child's own exit code with both outputs complete. */
  lemma UndisturbedRunCompletes(c: Config, actions: seq<Action>)
    requires c.Valid() && c.NoDescendants()
    requires IsRun(c, Initial(c), actions) && forall i | 0 <= i < |actions| :: IsWork(actions[i])
    requires forall a | IsWork(a) :: !Enabled(c, After(c, Initial(c), actions), a)
    ensures var s := After(c, Initial(c), actions);
            && s.phase == Returned(if c.exitCode == 0 then VOk else VExitNonzero, Some(c.exitCode))
            && s.gotOut == OutOf(c.script, true) && s.gotErr == ErrOf(c.script, true)
  {
    InitialInv(c);
    QuietRun(c, Initial(c), actions);
    var s := After(c, Initial(c), actions);
    if !s.phase.Returned? {
      var a := NoDeadlock(c, s);
      assert false;
    }
    VerdictMeaning(c, actions);
    hide IsRun, After, OutOf, ErrOf;
  }

  // ---------------------------------------------------------------- time

  /** How late each phase can be. */
  function LatestAt(c: Config, p: Phase): nat {
    var d, g := c.Horizon(), c.grace;
    match p
    case Drain(_) => d + g
    case Tail => d + g
    case JoinWriter(_) => d + 2 * g
    case Reap(_) => d + 3 * g
    case KillAgain => d + 3 * g
    case ReapAgain(_) => d + 4 * g
    case Judging => d + 4 * g
    case Returned(_, _) => d + 4 * g
    case _ => d
  }

  ghost predicate OnTime(c: Config, s: State) {
    && s.now <= LatestAt(c, s.phase)
    && (s.phase.Drain? || s.phase.JoinWriter? || s.phase.Reap? || s.phase.ReapAgain? ==>
          s.now <= s.phase.until <= LatestAt(c, s.phase))
  }

  lemma PumpOnTime(c: Config, s: State, a: PumpAction)
    requires OnTime(c, s) && PumpEnabled(c, s, a)
    ensures OnTime(c, PumpStep(c, s, a))
  {
  }

  lemma RelayOnTime(c: Config, s: State, a: RelayAction)
    requires OnTime(c, s) && RelayEnabled(c, s, a)
    ensures OnTime(c, RelayStep(c, s, a))
  {
  }

  lemma ClockOnTime(c: Config, s: State, a: ClockAction)
    requires !c.stalls && OnTime(c, s) && ClockEnabled(c, s, a)
    ensures OnTime(c, ClockStep(c, s, a))
  {
  }

  lemma StepOnTime(c: Config, s: State, a: Action)
    requires !c.stalls && OnTime(c, s) && Enabled(c, s, a)
    ensures OnTime(c, Step(c, s, a))
  {
    hide ChildStep, ChildEnabled, StrayStep, StrayEnabled, WriterStep, WriterEnabled, PumpStep, PumpEnabled,
      RelayStep, RelayEnabled, ClockStep, ClockEnabled;
    match a
    case OfPump(x) => PumpOnTime(c, s, x);
    case OfRelay(x) => RelayOnTime(c, s, x);
    case OfClock(x) => ClockOnTime(c, s, x);
    case _ => OthersFrame(c, s, a);
  }

  lemma {:induction false} RunOnTime(c: Config, s: State, actions: seq<Action>)
    requires !c.stalls && OnTime(c, s) && IsRun(c, s, actions)
    ensures OnTime(c, After(c, s, actions))
    decreases |actions|
  {
    hide OnTime, Enabled, Step;
    if actions != [] {
      StepOnTime(c, s, actions[0]);
      RunOnTime(c, Step(c, s, actions[0]), actions[1..]);
    }
  }

  /** With an emitter that does not block, every reachable state - with descendants that never let
      go of a pipe, a child that never dies, a writer that never finishes - lies within the budget
      plus four graces. */
  lemma ReturnsInTime(c: Config, actions: seq<Action>)
    requires !c.stalls && IsRun(c, Initial(c), actions)
    ensures After(c, Initial(c), actions).now
            <= (if c.deadline >= c.spawnedAt then c.deadline else c.spawnedAt) + 4 * c.grace
  {
    RunOnTime(c, Initial(c), actions);
    hide After, IsRun;
  }

  /** Once the output is flushed the watchdog kills nobody any more, in any run. */
  lemma CancelledWatchdogIsHarmless(c: Config, actions: seq<Action>)
    requires IsRun(c, Initial(c), actions) && PastCancel(After(c, Initial(c), actions).phase)
    ensures !Enabled(c, After(c, Initial(c), actions), OfClock(WatchKill))
  {
    InitialInv(c);
    RunKeeps(c, Initial(c), actions);
    hide IsRun, After, PipesInv, DeliveryInv, ChildInv;
  }

  /** The way through `run_llama_stream`: the pump ends in the wait, or at the deadline in the kill that is
      followed by a drain; the wait ends in the tail or in a kill without a drain; then the writer is joined
      and the child reaped; and only a child that a second kill and a second wait did not bring in is judged
      without a code. */
  ghost predicate Follows(s: State, s': State) {
    match s.phase
    case Pump => s'.phase == Wait || s'.phase == KillNow(true)
    case Wait => s'.phase == KillNow(false) || (s'.phase == Tail && s'.reaped.Some?)
    case KillNow(drains) => s'.phase == FlagNow(drains) && s'.killSent
    case FlagNow(drains) => s'.flag && (if drains then s'.phase.Drain? else s'.phase == Tail)
    case Drain(_) => s'.phase == Tail
    case Tail => s'.phase.JoinWriter?
    case JoinWriter(_) => s'.phase.Reap?
    case Reap(_) => s'.phase == KillAgain || (s'.phase == Judging && s'.reaped.Some?)
    case KillAgain => s'.phase.ReapAgain? && s'.killSent
    case ReapAgain(_) => s'.phase == Judging
    case Judging => s'.phase.Returned?
    case Returned(_, _) => false
  }

  ghost predicate StaysOrFollows(s: State, s': State) { s'.phase == s.phase || Follows(s, s') }

  lemma PumpFollows(c: Config, s: State, a: PumpAction)
    requires PumpEnabled(c, s, a)
    ensures StaysOrFollows(s, PumpStep(c, s, a))
  {
  }

  lemma RelayFollows(c: Config, s: State, a: RelayAction)
    requires RelayEnabled(c, s, a)
    ensures StaysOrFollows(s, RelayStep(c, s, a))
  {
  }

  lemma ClockFollows(c: Config, s: State, a: ClockAction)
    requires ClockEnabled(c, s, a)
    ensures StaysOrFollows(s, ClockStep(c, s, a))
  {
  }

  /** Every step of every actor leaves the relay where it is or takes it along that way. */
  lemma StepFollows(c: Config, s: State, a: Action)
    requires Enabled(c, s, a)
    ensures Step(c, s, a).phase == s.phase || Follows(s, Step(c, s, a))
  {
    hide ChildStep, ChildEnabled, StrayStep, StrayEnabled, WriterStep, WriterEnabled, PumpStep, PumpEnabled,
      RelayStep, RelayEnabled, ClockStep, ClockEnabled, Follows;
    match a
    case OfPump(x) => PumpFollows(c, s, x);
    case OfRelay(x) => RelayFollows(c, s, x);
    case OfClock(x) => ClockFollows(c, s, x);
    case _ => OthersFrame(c, s, a);
  }

  /** The relay gives up waiting. */
  predicate GivesUp(a: Action) {
    a in [OfPump(DrainLate), OfRelay(JoinLate), OfRelay(ReapLate)]
  }

  /** A bounded wait after the pump lasts its whole grace: from the step that enters it, over any run that
      stays in it, giving up is possible only once the grace has passed. */
  lemma WaitLastsItsGrace(c: Config, s: State, a: Action, rest: seq<Action>, late: Action)
    requires Enabled(c, s, a) && IsRun(c, Step(c, s, a), rest)
    ensures var (entered, end) := (Step(c, s, a), After(c, Step(c, s, a), rest));
            entered.phase != s.phase && end.phase == entered.phase && Enabled(c, end, late) && GivesUp(late) ==>
              end.now >= s.now + c.grace
  {
    hide IsRun, After, Step, Enabled, GivesUp;
    EntersWithGrace(c, s, a);
    var end := After(c, Step(c, s, a), rest);
    if Enabled(c, end, late) && GivesUp(late) {
      GivesUpLate(c, end, late);
    }
  }

  lemma GivesUpLate(c: Config, s: State, late: Action)
    requires Enabled(c, s, late) && GivesUp(late)
    ensures (s.phase.Drain? || s.phase.JoinWriter? || s.phase.Reap? || s.phase.ReapAgain?) && s.now >= s.phase.until
  {
  }

  ghost predicate WithGrace(c: Config, s: State, s': State) {
    s'.phase != s.phase && (s'.phase.Drain? || s'.phase.JoinWriter? || s'.phase.Reap? || s'.phase.ReapAgain?) ==>
      s'.phase.until == s.now + c.grace
  }

  lemma PumpEnters(c: Config, s: State, a: PumpAction)
    requires PumpEnabled(c, s, a)
    ensures WithGrace(c, s, PumpStep(c, s, a))
  {
  }

  lemma RelayEnters(c: Config, s: State, a: RelayAction)
    requires RelayEnabled(c, s, a)
    ensures WithGrace(c, s, RelayStep(c, s, a))
  {
  }

  lemma ClockEnters(c: Config, s: State, a: ClockAction)
    requires ClockEnabled(c, s, a)
    ensures WithGrace(c, s, ClockStep(c, s, a))
  {
  }

  lemma EntersWithGrace(c: Config, s: State, a: Action)
    requires Enabled(c, s, a)
    ensures WithGrace(c, s, Step(c, s, a))
  {
    hide ChildStep, ChildEnabled, StrayStep, StrayEnabled, WriterStep, WriterEnabled, PumpStep, PumpEnabled,
      RelayStep, RelayEnabled, ClockStep, ClockEnabled;
    match a
    case OfPump(x) => PumpEnters(c, s, x);
    case OfRelay(x) => RelayEnters(c, s, x);
    case OfClock(x) => ClockEnters(c, s, x);
    case _ => OthersFrame(c, s, a);
  }

  /** The relay itself is never stuck: until it returns, it or the clock can move. */
  lemma RelayOrClockMoves(c: Config, s: State) returns (a: Action)
    requires Inv(c, s) && !s.phase.Returned?
    ensures Enabled(c, s, a) && (a.OfPump? || a.OfRelay? || a == OfClock(Tick))
  {
    hide OutOf, ErrOf;
    match s.phase {
      case Pump =>
        a := if s.outEof && s.errEof then OfPump(PumpDone)
             else if s.now >= c.deadline then OfPump(PumpLate) else OfClock(Tick);
      case Drain(u) =>
        a := if s.outEof && s.errEof then OfPump(DrainDone)
             else if s.now >= u then OfPump(DrainLate) else OfClock(Tick);
      case Wait =>
        a := if s.child.Exited? then OfRelay(WaitOk)
             else if s.now >= c.deadline then OfRelay(WaitLate) else OfClock(Tick);
      case JoinWriter(u) =>
        a := if s.writerDone then OfRelay(JoinDone) else if s.now >= u then OfRelay(JoinLate) else OfClock(Tick);
      case Reap(u) =>
        a := if s.child.Exited? then OfRelay(ReapOk) else if s.now >= u then OfRelay(ReapLate) else OfClock(Tick);
      case ReapAgain(u) =>
        a := if s.child.Exited? then OfRelay(ReapOk) else if s.now >= u then OfRelay(ReapLate) else OfClock(Tick);
      case KillNow(_) => a := OfRelay(Kill);
      case KillAgain => a := OfRelay(Kill);
      case FlagNow(_) => a := OfRelay(SetFlag);
      case Tail => a := OfRelay(Flush);
      case Judging => a := OfRelay(Judge);
    }
  }

  // ---------------------------------------------------------------- termination

  function OpSize(op: Op): nat {
    match op
    case PutOut(bytes) => 1 + 2 * |bytes|
    case PutErr(bytes) => 1 + 2 * |bytes|
    case Take(n) => 1 + n
    case _ => 1
  }

  function ScriptSize(script: seq<Op>): nat {
    if script == [] then 0 else OpSize(script[0]) + ScriptSize(script[1..])
  }

  function PhaseRank(p: Phase): nat {
    match p
    case Pump => 11
    case Wait => 10
    case KillNow(_) => 9
    case FlagNow(_) => 8
    case Drain(_) => 7
    case Tail => 6
    case JoinWriter(_) => 5
    case Reap(_) => 4
    case KillAgain => 3
    case ReapAgain(_) => 2
    case Judging => 1
    case Returned(_, _) => 0
  }

  function One(b: bool): nat { if b then 1 else 0 }

  function WatchRank(w: Watch): nat { if w.Armed? then 2 else if w.Killing? then 1 else 0 }

  /** Data still to move; bytes in a script or a prompt count twice. */
  function DataLeft(s: State): nat {
    ScriptSize(s.script) + One(s.child.Alive?)
    + |s.inPipe| + |s.outPipe| + |s.errPipe|
    + 2 * |s.toWrite| + One(!s.writerDone)
    + 2 * s.stray + One(s.heldOut) + One(s.heldErr)
  }

  /** Turns still to take by the relay, the watchdog and the clock. */
  function TurnsLeft(c: Config, s: State): int {
    (c.Horizon() + 4 * c.grace - s.now)
    + PhaseRank(s.phase) + One(!s.outEof) + One(!s.errEof) + WatchRank(s.watch)
  }

  function Measure(c: Config, s: State): int { DataLeft(s) + TurnsLeft(c, s) }

  lemma AdvanceSize(script: seq<Op>, k: nat)
    requires script != [] && (script[0].PutOut? || script[0].PutErr?) && 1 <= k <= |script[0].bytes|
    ensures ScriptSize(Advance(script, k)) + 2 * k <= ScriptSize(script)
  {
    assert k < |script[0].bytes| ==> Advance(script, k)[1..] == script[1..];
  }

  lemma TakeSize(s: State, k: nat)
    requires s.script != [] && s.script[0].Take? && k < s.script[0].n
    ensures ScriptSize([Take(s.script[0].n - k)] + s.script[1..]) == ScriptSize(s.script) - k
  {
    assert ([Take(s.script[0].n - k)] + s.script[1..])[1..] == s.script[1..];
  }

  lemma WriteMovesData(c: Config, s: State, a: ChildAction)
    requires ChildEnabled(c, s, a) && (a.WriteOut? || a.WriteErr?)
    ensures DataLeft(ChildStep(c, s, a)) < DataLeft(s)
  {
    hide Advance, ScriptSize;
    AdvanceSize(s.script, a.k);
  }

  /** Outside the pipes, only the script and the child's life count. */
  ghost predicate SamePipes(s: State, s': State) {
    && s'.outPipe == s.outPipe && s'.errPipe == s.errPipe && s'.toWrite == s.toWrite && s'.writerDone == s.writerDone
    && s'.stray == s.stray && s'.heldOut == s.heldOut && s'.heldErr == s.heldErr
  }

  lemma LessToDo(s: State, s': State)
    requires SamePipes(s, s')
    requires |s'.inPipe| + One(s'.child.Alive?) + ScriptSize(s'.script)
             < |s.inPipe| + One(s.child.Alive?) + ScriptSize(s.script)
    ensures DataLeft(s') < DataLeft(s)
  {
    hide ScriptSize;
  }

  lemma TakeMovesData(c: Config, s: State, k: nat)
    requires ChildEnabled(c, s, TakeStdin(k))
    ensures DataLeft(ChildStep(c, s, TakeStdin(k))) < DataLeft(s)
  {
    hide ScriptSize, DataLeft;
    HeadSize(s.script);
    if k < s.script[0].n {
      TakeSize(s, k);
    }
    LessToDo(s, ChildStep(c, s, TakeStdin(k)));
  }

  lemma PassMovesData(c: Config, s: State, a: ChildAction)
    requires ChildEnabled(c, s, a) && (a.StdinEnds? || a.Skip? || a.ShutOut? || a.ShutErr?)
    ensures DataLeft(ChildStep(c, s, a)) < DataLeft(s)
  {
    hide ScriptSize, DataLeft;
    HeadSize(s.script);
    var t := ChildStep(c, s, a);
    assert t.script == s.script[1..] && t.child == s.child && t.inPipe == s.inPipe;
    assert SamePipes(s, t);
    LessToDo(s, t);
  }

  lemma EndMovesData(c: Config, s: State, a: ChildAction)
    requires ChildEnabled(c, s, a) && (a.Exit? || a.Die?)
    ensures DataLeft(ChildStep(c, s, a)) < DataLeft(s)
  {
    hide ScriptSize, DataLeft;
    LessToDo(s, ChildStep(c, s, a));
  }

  lemma ChildDecreases(c: Config, s: State, a: ChildAction)
    requires ChildEnabled(c, s, a)
    ensures Measure(c, ChildStep(c, s, a)) < Measure(c, s)
  {
    hide ChildStep, ChildEnabled, DataLeft, TurnsLeft;
    if a.WriteOut? || a.WriteErr? {
      WriteMovesData(c, s, a);
    } else if a.TakeStdin? {
      TakeMovesData(c, s, a.k);
    } else if a.Exit? || a.Die? {
      EndMovesData(c, s, a);
    } else {
      PassMovesData(c, s, a);
    }
    ChildFrame(c, s, a);
    SameTurns(c, s, ChildStep(c, s, a));
  }

  lemma SameTurns(c: Config, s: State, s': State)
    requires SameControl(s, s')
    ensures TurnsLeft(c, s') == TurnsLeft(c, s)
  {
  }

  lemma HeadSize(script: seq<Op>)
    requires script != []
    ensures ScriptSize(script) == OpSize(script[0]) + ScriptSize(script[1..])
  {
  }

  lemma StrayDecreases(c: Config, s: State, a: StrayAction)
    requires StrayEnabled(c, s, a)
    ensures Measure(c, StrayStep(c, s, a)) < Measure(c, s)
  {
    hide ScriptSize;
  }

  lemma WriterDecreases(c: Config, s: State, a: WriterAction)
    requires WriterEnabled(c, s, a)
    ensures Measure(c, WriterStep(c, s, a)) < Measure(c, s)
  {
    hide ScriptSize;
  }

  lemma ClockDecreases(c: Config, s: State, a: ClockAction)
    requires ClockEnabled(c, s, a)
    ensures Measure(c, ClockStep(c, s, a)) < Measure(c, s)
  {
    hide ScriptSize;
  }

  lemma PumpDecreases(c: Config, s: State, a: PumpAction)
    requires PumpEnabled(c, s, a)
    ensures Measure(c, PumpStep(c, s, a)) < Measure(c, s)
  {
    hide ScriptSize;
  }

  /** The relay moves no data outside its pumps. */
  ghost predicate SameData(s: State, s': State) {
    && s'.script == s.script && s'.child == s.child
    && s'.inPipe == s.inPipe && s'.outPipe == s.outPipe && s'.errPipe == s.errPipe
    && s'.toWrite == s.toWrite && s'.writerDone == s.writerDone
    && s'.stray == s.stray && s'.heldOut == s.heldOut && s'.heldErr == s.heldErr
  }

  lemma RelayMovesNoData(c: Config, s: State, a: RelayAction)
    requires RelayEnabled(c, s, a)
    ensures SameData(s, RelayStep(c, s, a))
  {
    match a
    case WaitOk =>
    case WaitLate =>
    case Kill =>
    case SetFlag =>
    case Flush =>
    case JoinDone =>
    case JoinLate =>
    case ReapOk =>
    case ReapLate =>
    case Judge =>
  }

  lemma RelayTakesATurn(c: Config, s: State, a: RelayAction)
    requires RelayEnabled(c, s, a)
    ensures TurnsLeft(c, RelayStep(c, s, a)) < TurnsLeft(c, s)
  {
  }

  lemma RelayDecreases(c: Config, s: State, a: RelayAction)
    requires RelayEnabled(c, s, a)
    ensures Measure(c, RelayStep(c, s, a)) < Measure(c, s)
  {
    hide RelayStep, RelayEnabled, TurnsLeft, ScriptSize;
    RelayMovesNoData(c, s, a);
    RelayTakesATurn(c, s, a);
  }

  /** Every step of every actor, clock included, uses up the one measure. */
  lemma StepDecreases(c: Config, s: State, a: Action)
    requires Enabled(c, s, a)
    ensures Measure(c, Step(c, s, a)) < Measure(c, s)
  {
    hide Measure, ChildStep, ChildEnabled, StrayStep, StrayEnabled, WriterStep, WriterEnabled, PumpStep,
      PumpEnabled, RelayStep, RelayEnabled, ClockStep, ClockEnabled;
    match a
    case OfChild(x) => ChildDecreases(c, s, x);
    case OfStray(x) => StrayDecreases(c, s, x);
    case OfWriter(x) => WriterDecreases(c, s, x);
    case OfPump(x) => PumpDecreases(c, s, x);
    case OfRelay(x) => RelayDecreases(c, s, x);
    case OfClock(x) => ClockDecreases(c, s, x);
  }

  /** So no run without stalls is longer than the measure of its start, and every run can be
      continued until the relay returns (RelayOrClockMoves). */
  lemma {:induction false} RunsAreBounded(c: Config, s: State, actions: seq<Action>)
    requires !c.stalls && OnTime(c, s) && IsRun(c, s, actions)
    ensures |actions| <= Measure(c, s)
    decreases |actions|
  {
    hide Enabled, Step;
    if actions != [] {
      StepDecreases(c, s, actions[0]);
      StepOnTime(c, s, actions[0]);
      RunsAreBounded(c, Step(c, s, actions[0]), actions[1..]);
    }
  }
}
