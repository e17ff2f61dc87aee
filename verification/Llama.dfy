/** The command line of the llama.cpp runner (`build_argv`) and the form of it that is reported
    (`recorded_argv`). */
module Llama {
  import opened Text
  import opened Executor

  /** The command line of a generation; the prompt is not on it. */
  function BuildArgv(binary: string, modelPath: string, maxTokens: nat, temperature: Option<string>, seed: Option<int>)
    : seq<string>
  {
    [binary, "-m", modelPath, "-f", "/dev/stdin", "-no-cnv", "--no-display-prompt", "--simple-io", "-n",
     Decimal(maxTokens)]
    + (if temperature.Some? then ["--temp", temperature.value] else [])
    + (if seed.Some? then ["--seed", SignedDecimal(seed.value)] else [])
  }

  /** `build_argv`. */
  method MakeArgv(binary: string, modelPath: string, maxTokens: nat, temperature: Option<string>, seed: Option<int>)
    returns (argv: seq<string>)
    ensures argv == BuildArgv(binary, modelPath, maxTokens, temperature, seed)
  {
    argv := [binary, "-m", modelPath, "-f", "/dev/stdin", "-no-cnv", "--no-display-prompt", "--simple-io", "-n",
             Decimal(maxTokens)];
    if temperature.Some? {
      argv := argv + ["--temp", temperature.value];
    }
    if seed.Some? {
      argv := argv + ["--seed", SignedDecimal(seed.value)];
    }
  }

  // ---------------------------------------------------------------- what the runner reads

  /** The options that take the next argument as their value. */
  predicate TakesValue(option: string) { option in ["-m", "-f", "-n", "--temp", "--seed"] }

  /** The command line as the runner reads it: the options in order, each with its value if it takes one. */
  function Options(args: seq<string>): seq<(string, Option<string>)> {
    if args == [] then []
    else if TakesValue(args[0]) && |args| >= 2 then [(args[0], Some(args[1]))] + Options(args[2..])
    else [(args[0], None)] + Options(args[1..])
  }

  lemma OptionWithValue(name: string, value: string, rest: seq<string>)
    requires TakesValue(name)
    ensures Options([name, value] + rest) == [(name, Some(value))] + Options(rest)
  {
    assert ([name, value] + rest)[2..] == rest;
  }

  lemma OptionAlone(name: string, rest: seq<string>)
    requires !TakesValue(name)
    ensures Options([name] + rest) == [(name, None)] + Options(rest)
  {
    assert ([name] + rest)[1..] == rest;
  }

  /** What a request asks for, as options. */
  function Wanted(modelPath: string, maxTokens: nat, temperature: Option<string>, seed: Option<int>)
    : seq<(string, Option<string>)>
  {
    [("-m", Some(modelPath)), ("-f", Some("/dev/stdin")), ("-no-cnv", None), ("--no-display-prompt", None),
     ("--simple-io", None), ("-n", Some(Decimal(maxTokens)))] + WantedLast(temperature, seed)
  }

  function WantedLast(temperature: Option<string>, seed: Option<int>): seq<(string, Option<string>)> {
    (if temperature.Some? then [("--temp", temperature)] else [])
    + (if seed.Some? then [("--seed", Some(SignedDecimal(seed.value)))] else [])
  }

  function Last(temperature: Option<string>, seed: Option<int>): seq<string> {
    (if temperature.Some? then ["--temp", temperature.value] else [])
    + (if seed.Some? then ["--seed", SignedDecimal(seed.value)] else [])
  }

  lemma LastReadsBack(temperature: Option<string>, seed: Option<int>)
    ensures Options(Last(temperature, seed)) == WantedLast(temperature, seed)
  {
    var last := if seed.Some? then ["--seed", SignedDecimal(seed.value)] else [];
    if seed.Some? {
      OptionWithValue("--seed", SignedDecimal(seed.value), []);
      assert ["--seed", SignedDecimal(seed.value)] + [] == last;
    }
    assert Options(last) == WantedLast(None, seed);
    if temperature.Some? {
      OptionWithValue("--temp", temperature.value, last);
    } else {
      assert Last(temperature, seed) == last;
    }
  }

  lemma SwitchesTakeNoValue()
    ensures !TakesValue("-no-cnv") && !TakesValue("--no-display-prompt") && !TakesValue("--simple-io")
  {
    assert |"-no-cnv"| == 7 && |"--simple-io"| == 11 && |"--no-display-prompt"| == 19;
    assert forall option | TakesValue(option) :: |option| <= 6;
  }

  /** The runner reads back what the request says, even where a value looks like an option itself: the
      binary, the weight path, the prompt from stdin, the token bound, and the temperature and the seed
      exactly when they are set. */
  lemma ArgvReadsBack(binary: string, modelPath: string, maxTokens: nat, temperature: Option<string>, seed: Option<int>)
    ensures var argv := BuildArgv(binary, modelPath, maxTokens, temperature, seed);
            argv != [] && argv[0] == binary && Options(argv[1..]) == Wanted(modelPath, maxTokens, temperature, seed)
  {
    var n := ["-n", Decimal(maxTokens)] + Last(temperature, seed);
    var cnv := ["-no-cnv"] + (["--no-display-prompt"] + (["--simple-io"] + n));
    ArgvInPieces(binary, modelPath, maxTokens, temperature, seed);
    hide BuildArgv, Options, Wanted, WantedLast, Decimal;
    SwitchesTakeNoValue();
    LastReadsBack(temperature, seed);
    OptionWithValue("-n", Decimal(maxTokens), Last(temperature, seed));
    OptionAlone("--simple-io", n);
    OptionAlone("--no-display-prompt", ["--simple-io"] + n);
    OptionAlone("-no-cnv", ["--no-display-prompt"] + (["--simple-io"] + n));
    OptionWithValue("-f", "/dev/stdin", cnv);
    OptionWithValue("-m", modelPath, ["-f", "/dev/stdin"] + cnv);
    WantedInPieces(modelPath, maxTokens, temperature, seed);
  }

  /** The same, spelled out: the numbers on the command line are the numerals of the request's. */
  lemma ArgvSays(binary: string, modelPath: string, maxTokens: nat, temperature: Option<string>, seed: Option<int>)
    returns (bound: string, seedText: string)
    ensures var argv := BuildArgv(binary, modelPath, maxTokens, temperature, seed);
            && argv != [] && argv[0] == binary
            && Options(argv[1..])
               == [("-m", Some(modelPath)), ("-f", Some("/dev/stdin")), ("-no-cnv", None),
                   ("--no-display-prompt", None), ("--simple-io", None), ("-n", Some(bound))]
                  + ((if temperature.Some? then [("--temp", temperature)] else [])
                     + (if seed.Some? then [("--seed", Some(seedText))] else []))
    ensures Numeral(bound, maxTokens) && (seed.Some? ==> SignedNumeral(seedText, seed.value))
  {
    hide BuildArgv, Options;
    ArgvReadsBack(binary, modelPath, maxTokens, temperature, seed);
    bound, seedText := Decimal(maxTokens), if seed.Some? then SignedDecimal(seed.value) else "";
    DecimalIsNumeral(maxTokens);
    if seed.Some? {
      SignedDecimalIsNumeral(seed.value);
    }
  }

  lemma ArgvInPieces(binary: string, modelPath: string, maxTokens: nat, temperature: Option<string>, seed: Option<int>)
    ensures var argv := BuildArgv(binary, modelPath, maxTokens, temperature, seed);
            var n := ["-n", Decimal(maxTokens)] + Last(temperature, seed);
            var cnv := ["-no-cnv"] + (["--no-display-prompt"] + (["--simple-io"] + n));
            argv != [] && argv[0] == binary && argv[1..] == ["-m", modelPath] + (["-f", "/dev/stdin"] + cnv)
  {
  }

  lemma WantedInPieces(modelPath: string, maxTokens: nat, temperature: Option<string>, seed: Option<int>)
    ensures var n := [("-n", Some(Decimal(maxTokens)))] + WantedLast(temperature, seed);
            var cnv := [("-no-cnv", None)] + ([("--no-display-prompt", None)] + ([("--simple-io", None)] + n));
            Wanted(modelPath, maxTokens, temperature, seed)
            == [("-m", Some(modelPath))] + ([("-f", Some("/dev/stdin"))] + cnv)
  {
  }

  lemma SignedDecimalInjective(m: int, n: int)
    requires SignedDecimal(m) == SignedDecimal(n)
    ensures m == n
  {
    if m < 0 && n < 0 {
      assert Decimal(-m) == SignedDecimal(m)[1..] == SignedDecimal(n)[1..] == Decimal(-n);
      DecimalInjective(-m, -n);
    } else if m >= 0 && n >= 0 {
      DecimalInjective(m, n);
    } else {
      var k := if m < 0 then n else m;
      assert '-' == Decimal(k)[0];
      DecimalDigits(k, '-');
    }
  }

  lemma WantedLastDetermines(temperature: Option<string>, seed: Option<int>,
                             temperature': Option<string>, seed': Option<int>)
    requires WantedLast(temperature, seed) == WantedLast(temperature', seed')
    ensures temperature == temperature' && seed == seed'
  {
    var a, b := WantedLast(temperature, seed), WantedLast(temperature', seed');
    assert |"--temp"| == |"--seed"| == 6 && "--temp"[2] == 't' && "--seed"[2] == 's';
    assert temperature.Some? <==> a != [] && a[0].0 == "--temp";
    assert temperature'.Some? <==> b != [] && b[0].0 == "--temp";
    if temperature.Some? {
      assert a[0].1 == b[0].1;
    }
    assert |a| == |b| && (seed.Some? <==> seed'.Some?);
    if seed.Some? {
      assert a[|a| - 1].1 == b[|b| - 1].1;
      SignedDecimalInjective(seed.value, seed'.value);
    }
  }

  /** What a command line is built from. */
  datatype Invocation = Invocation(
    binary: string, modelPath: string, maxTokens: nat, temperature: Option<string>, seed: Option<int>)
  {
    function Argv(): seq<string> { BuildArgv(binary, modelPath, maxTokens, temperature, seed) }
  }

  /** Different requests have different command lines. */
  lemma ArgvDetermines(a: Invocation, b: Invocation)
    requires a.Argv() == b.Argv()
    ensures a == b
  {
    ArgvReadsBack(a.binary, a.modelPath, a.maxTokens, a.temperature, a.seed);
    ArgvReadsBack(b.binary, b.modelPath, b.maxTokens, b.temperature, b.seed);
    hide BuildArgv, Options, WantedLast;
    var x := Wanted(a.modelPath, a.maxTokens, a.temperature, a.seed);
    var y := Wanted(b.modelPath, b.maxTokens, b.temperature, b.seed);
    assert x[0].1 == y[0].1 && x[5].1 == y[5].1;
    DecimalInjective(a.maxTokens, b.maxTokens);
    assert WantedLast(a.temperature, a.seed) == x[6..] == y[6..] == WantedLast(b.temperature, b.seed);
    WantedLastDetermines(a.temperature, a.seed, b.temperature, b.seed);
  }

  // ---------------------------------------------------------------- what is reported

  function WeightLabel(env: string, relativePath: string): string { EnvLabel(env) + "/" + relativePath }

  /** `recorded_argv`: the model path is replaced by its label wherever it is an argument. */
  function RecordedArgv(argv: seq<string>, mark: string, modelPath: string): seq<string> {
    seq(|argv|, i requires 0 <= i < |argv| => if argv[i] == modelPath then mark else argv[i])
  }

  /** No recorded argument is the absolute model path; all others are what the child received. */
  lemma RecordedArgvHides(argv: seq<string>, mark: string, modelPath: string)
    requires mark != modelPath
    ensures var rec := RecordedArgv(argv, mark, modelPath);
            modelPath !in rec && |rec| == |argv|
            && forall i | 0 <= i < |argv| :: rec[i] != argv[i] ==> argv[i] == modelPath && rec[i] == mark
  {
  }
}
