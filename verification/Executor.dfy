/** The buffered executor: gates, newline-translating text pipes, truncation to the output cap
    and the assembly of a finished run (`SafeExecutor.run` and the helpers it shares). */
module Executor {
  import opened Text
  import Scrub
  import opened Results
  import opened Utf8

  /** `SandboxPolicy` as far as execution reads it. `maxOutput` is validated positive; `timeoutMs` is the
      budget in milliseconds, rounded up. */
  datatype Policy = Policy(
    allowExec: bool, allowedCommands: seq<string>, network: string, timeoutText: string, timeoutMs: nat,
    maxOutput: nat, workingDir: Option<string>)
  {
    predicate Valid() { maxOutput >= 1 }

    /** `poll` takes no more, and `communicate` raises. */
    predicate TooLongToPoll() { timeoutMs > 0x7FFF_FFFF }
  }

  /** The environment names and limits summary built before spawning. */
  datatype Prepared = Prepared(envKeys: seq<string>, limits: seq<string>)

  // ---------------------------------------------------------------- gates

  predicate IsBareCommand(command: string) {
    command != "" && '/' !in command && '\\' !in command
  }

  /** Gates before any spawn, in order; None when all pass. */
  function CheckGates(policy: Policy, argv: seq<string>, dirExists: bool): (denial: Option<ExecResult>)
    ensures denial.None? <==>
              && argv != [] && policy.allowExec && IsBareCommand(argv[0])
              && argv[0] in policy.allowedCommands && (policy.workingDir.Some? ==> dirExists)
    ensures denial.Some? ==>
              && denial.value.argv == argv && denial.value.exitCode.None?
              && denial.value.stdout == "" && denial.value.stderr == "" && !denial.value.truncated
              && denial.value.status == (if argv != [] && policy.allowExec && IsBareCommand(argv[0])
                                            && argv[0] in policy.allowedCommands then SpawnError else Denied)
  {
    if argv == [] then Some(DeniedResult(argv, "empty argv"))
    else if !policy.allowExec then Some(DeniedResult(argv, "execution disabled (allow_exec is false)"))
    else if !IsBareCommand(argv[0]) then
      Some(DeniedResult(argv, "argv[0] must be a bare command name with no path component: " + argv[0]))
    else if argv[0] !in policy.allowedCommands then
      Some(DeniedResult(argv, "command " + argv[0] + " not in allowed_commands"))
    else if policy.workingDir.Some? && !dirExists then
      Some(SpawnErrorResult(argv, "working_dir does not exist: " + policy.workingDir.value))
    else None
  }

  // ---------------------------------------------------------------- truncation

  const MARKER_HEAD := "\n...[truncated "
  const MARKER_TAIL := " chars]"

  function Marker(overage: nat): string { MARKER_HEAD + Decimal(overage) + MARKER_TAIL }

  /** `_truncate`: the text and whether it was cut. */
  function Truncate(text: string, cap: nat): (string, bool) {
    if |text| <= cap then (text, false)
    else (text[..cap] + Marker(|text| - cap), true)
  }

  /** What is reported of a text longer than the cap, spelled out: its first `cap` characters and the
      decimal numeral of the number of characters dropped; any other text is reported as it is. */
  lemma TruncateReports(text: string, cap: nat) returns (digits: string)
    ensures |text| <= cap ==> Truncate(text, cap) == (text, false)
    ensures |text| > cap ==>
              && Truncate(text, cap) == (text[..cap] + "\n...[truncated " + digits + " chars]", true)
              && Numeral(digits, |text| - cap)
  {
    digits := "";
    if |text| > cap {
      digits := Decimal(|text| - cap);
      DecimalIsNumeral(|text| - cap);
      Regroup(text[..cap], MARKER_HEAD + digits, MARKER_TAIL);
      Regroup(text[..cap], MARKER_HEAD, digits);
    }
  }

  lemma MarkerInjective(m: nat, n: nat)
    requires Marker(m) == Marker(n)
    ensures m == n
  {
    var h, t := |MARKER_HEAD|, |MARKER_TAIL|;
    assert Decimal(m) == Marker(m)[h..|Marker(m)| - t] == Decimal(n);
    DecimalInjective(m, n);
  }

  /** The cut text still tells the kept prefix and the exact number of characters dropped. */
  lemma TruncateInjective(a: string, b: string, cap: nat)
    requires Truncate(a, cap).0 == Truncate(b, cap).0 && (|a| <= cap <==> |b| <= cap)
    ensures |a| == |b| && a[..Min(cap, |a|)] == b[..Min(cap, |b|)]
  {
    if |a| > cap {
      var x, y := Truncate(a, cap).0, Truncate(b, cap).0;
      assert x[..cap] == a[..cap] && y[..cap] == b[..cap];
      assert x[cap..] == Marker(|a| - cap) && y[cap..] == Marker(|b| - cap);
      MarkerInjective(|a| - cap, |b| - cap);
    } else {
      assert a[..|a|] == a && b[..|b|] == b;
    }
  }

  // ---------------------------------------------------------------- text-mode pipes

  /** Newline translation of text-mode pipes: CR LF and lone CR both become LF. */
  function Universal(t: string): (u: string)
    ensures |u| <= |t|
  {
    if t == "" then ""
    else if t[0] == '\r' then
      ['\n'] + (if |t| > 1 && t[1] == '\n' then Universal(t[2..]) else Universal(t[1..]))
    else [t[0]] + Universal(t[1..])
  }

  /** The translation is the two replacements of the text-mode decoder, one after the other. */
  lemma {:induction false} UniversalIsTwoReplacements(t: string)
    ensures Universal(t) == Scrub.Replace(Scrub.Replace(t, "\r\n", "\n"), "\r", "\n")
  {
    if t != "" {
      var tail := if |t| > 1 && t[0] == '\r' && t[1] == '\n' then t[2..] else t[1..];
      var mark := if |t| > 1 && t[0] == '\r' && t[1] == '\n' then '\n' else t[0];
      UniversalIsTwoReplacements(tail);
      FirstReplacement(t);
      var once := Scrub.Replace(tail, "\r\n", "\n");
      SecondReplacement(mark, once);
    }
  }

  lemma FirstReplacement(t: string)
    requires t != ""
    ensures Scrub.Replace(t, "\r\n", "\n")
            == if |t| > 1 && t[0] == '\r' && t[1] == '\n' then ['\n'] + Scrub.Replace(t[2..], "\r\n", "\n")
               else [t[0]] + Scrub.Replace(t[1..], "\r\n", "\n")
  {
    if |t| > 1 {
      assert "\r\n" <= t <==> t[0] == '\r' && t[1] == '\n' by {
        assert "\r\n" <= t <==> t[..2] == "\r\n";
      }
    } else {
      assert t == [t[0]] + t[1..];
    }
  }

  lemma SecondReplacement(c: char, rest: string)
    ensures Scrub.Replace([c] + rest, "\r", "\n")
            == [if c == '\r' then '\n' else c] + Scrub.Replace(rest, "\r", "\n")
  {
    assert ([c] + rest)[1..] == rest;
    assert "\r" <= [c] + rest <==> c == '\r' by {
      assert "\r" <= [c] + rest <==> ([c] + rest)[..1] == "\r";
      assert ([c] + rest)[..1] == [c];
    }
  }

  /** No CR is left. */
  lemma {:induction false} UniversalLeavesNoCr(t: string)
    ensures '\r' !in Universal(t)
  {
    if t != "" {
      if t[0] == '\r' && |t| > 1 && t[1] == '\n' {
        UniversalLeavesNoCr(t[2..]);
      } else {
        UniversalLeavesNoCr(t[1..]);
      }
    }
  }

  /** A CR before each LF. */
  function CrLf(t: string): string {
    if t == "" then "" else (if t[0] == '\n' then "\r\n" else [t[0]]) + CrLf(t[1..])
  }

  /** Text with CR LF line ends comes back with LF line ends. */
  lemma {:induction false} UniversalUndoesCrLf(t: string)
    requires '\r' !in t
    ensures Universal(CrLf(t)) == t
  {
    if t != "" {
      UniversalUndoesCrLf(t[1..]);
      var rest := CrLf(t[1..]);
      if t[0] == '\n' {
        assert ("\r\n" + rest)[2..] == rest;
      } else {
        assert t[0] in t;
        assert ([t[0]] + rest)[1..] == rest;
      }
      assert [t[0]] + t[1..] == t;
    }
  }

  ghost predicate HasCrLf(t: string) {
    exists i | 0 <= i < |t| - 1 :: t[i] == '\r' && t[i + 1] == '\n'
  }

  lemma {:induction false} UniversalPointwise(t: string)
    ensures |Universal(t)| == |t| <==> !HasCrLf(t)
    ensures !HasCrLf(t) ==>
              forall i | 0 <= i < |t| :: Universal(t)[i] == if t[i] == '\r' then '\n' else t[i]
  {
    if t != "" {
      if t[0] == '\r' && |t| > 1 && t[1] == '\n' {
        assert HasCrLf(t);
      } else {
        var s := t[1..];
        UniversalPointwise(s);
        assert HasCrLf(s) ==> HasCrLf(t) by {
          if HasCrLf(s) {
            var i :| 0 <= i < |s| - 1 && s[i] == '\r' && s[i + 1] == '\n';
            assert t[i + 1] == '\r' && t[i + 2] == '\n';
          }
        }
        assert HasCrLf(t) ==> HasCrLf(s) by {
          if HasCrLf(t) {
            var i :| 0 <= i < |t| - 1 && t[i] == '\r' && t[i + 1] == '\n';
            assert s[i - 1] == '\r' && s[i] == '\n';
          }
        }
      }
    }
  }

  /** When the newline translation of the buffered path leaves the reported text unchanged:
      exactly when no CR is among the first `cap` characters and no CR LF pair stands anywhere. */
  ghost predicate CarriageFree(t: string, cap: nat) {
    '\r' !in t[..Min(cap, |t|)] && !HasCrLf(t)
  }

  lemma TranslationInvisible(t: string, cap: nat)
    ensures Truncate(Universal(t), cap).0 == Truncate(t, cap).0 <==> CarriageFree(t, cap)
    ensures CarriageFree(t, cap) ==> Truncate(Universal(t), cap) == Truncate(t, cap)
  {
    var u, k := Universal(t), Min(cap, |t|);
    UniversalPointwise(t);
    if CarriageFree(t, cap) {
      assert u[..k] == t[..k] by {
        forall i | 0 <= i < k ensures u[i] == t[i] {
          assert t[i] == t[..k][i];
        }
      }
      assert |t| <= cap ==> u == u[..k] && t == t[..k];
    }
    if Truncate(u, cap).0 == Truncate(t, cap).0 {
      assert |u| <= cap <==> |t| <= cap;
      TruncateInjective(u, t, cap);
      forall i | 0 <= i < k ensures t[i] != '\r' {
        assert u[..k][i] == t[..k][i];
      }
    }
  }

  // ---------------------------------------------------------------- a finished run

  /** How `communicate` ended: in time, drained within the grace after the kill, or abandoned. */
  datatype Communicated =
    | InTime(out: seq<Byte>, err: seq<Byte>, code: int)
    | LateDrained(out: seq<Byte>, err: seq<Byte>, lateCode: Option<int>)
    | Abandoned(abandonedCode: Option<int>)

  datatype Spawned = SpawnFailed(reason: string) | Spawned

  const ABANDONED := "[output abandoned: a descendant leaked past the process-group kill]"

  /** `assemble_exec_result`. */
  function Assemble(policy: Policy, prepared: Prepared, argv: seq<string>, status: Status, reason: string,
                    code: Option<int>, stdout: string, stderr: string, durationMs: nat, truncated: bool): ExecResult
  {
    ExecResult(status, argv, reason, code, stdout, stderr, durationMs, truncated,
               policy.network, prepared.envKeys, prepared.limits)
  }

  /** The status and reason of a reaped child; a code of None never equals 0. */
  function Judge(policy: Policy, timedOut: bool, code: Option<int>): (Status, string) {
    if timedOut then (Timeout, "killed after " + policy.timeoutText + "s timeout")
    else if code == Some(0) then (Ok, "completed")
    else (ExitNonzero, "exited with code " + (if code.None? then "None" else SignedDecimal(code.value)))
  }

  function SignedDecimal(n: int): string { if n < 0 then "-" + Decimal(-n) else Decimal(n) }

  lemma SignedDecimalIsNumeral(n: int)
    ensures SignedNumeral(SignedDecimal(n), n)
  {
    if n < 0 {
      DecimalIsNumeral(-n);
      assert ("-" + Decimal(-n))[1..] == Decimal(-n);
    } else {
      DecimalIsNumeral(n);
    }
  }

  /** What is said of a run, spelled out. */
  lemma JudgeSays(policy: Policy, timedOut: bool, code: Option<int>) returns (digits: string)
    ensures var (status, reason) := Judge(policy, timedOut, code);
            && (status == Timeout <==> timedOut)
            && (status == Ok <==> !timedOut && code == Some(0))
            && (status == ExitNonzero <==> !timedOut && code != Some(0))
            && (timedOut ==> reason == "killed after " + policy.timeoutText + "s timeout")
            && (status == Ok ==> reason == "completed")
            && (status == ExitNonzero ==> reason == "exited with code " + digits)
            && (code.Some? ==> SignedNumeral(digits, code.value))
            && (code.None? ==> digits == "None")
  {
    digits := "None";
    if code.Some? {
      digits := SignedDecimal(code.value);
      SignedDecimalIsNumeral(code.value);
    }
  }

  /** `SafeExecutor.run` with its world as parameters. */
  function BufferedRun(policy: Policy, prepared: Prepared, argv: seq<string>, dirExists: bool,
                       spawned: Spawned, how: Communicated, durationMs: nat): ExecResult
  {
    var denial := CheckGates(policy, argv, dirExists);
    if denial.Some? then denial.value
    else if spawned.SpawnFailed? then SpawnErrorResult(argv, "could not start process: " + spawned.reason)
    else
      var (out, err, code) :=
        match how
        case InTime(o, e, c) => (Universal(Utf8.Text(o)), Universal(Utf8.Text(e)), Some(c))
        case LateDrained(o, e, c) => (Universal(Utf8.Text(o)), Universal(Utf8.Text(e)), c)
        case Abandoned(c) => ("", ABANDONED, c);
      var (stdout, t1) := Truncate(out, policy.maxOutput);
      var (stderr, t2) := Truncate(err, policy.maxOutput);
      var (status, reason) := Judge(policy, !how.InTime?, code);
      Assemble(policy, prepared, argv, status, reason, code, stdout, stderr, durationMs, t1 || t2)
  }
}
