/** The streamed result against the buffered one: why bounded stderr retention is enough, when the
    two results are equal, and what a consumer of the events can rely on. */
module Parity {
  import opened Text
  import opened Results
  import opened Utf8
  import opened Slicing
  import opened Emitter
  import opened Executor
  import opened Relay
  import opened Stream

  // ---------------------------------------------------------------- stderr retention

  /** An upper bound for the bytes behind a text: one for an ASCII character, four otherwise. */
  function Weight(text: string): nat {
    if text == "" then 0 else (if text[0] as int < 0x80 then 1 else 4) + Weight(text[1..])
  }

  lemma {:induction false} BytesWithinWeight(s: seq<Byte>)
    ensures |s| <= Weight(Utf8.Text(s))
  {
    if s != [] {
      var text := Utf8.Text(s);
      assert text[0] == (match Scan(s) case Char(c, _) => c case _ => REPLACEMENT);
      if !Scan(s).Partial? {
        var n := Scan(s).size;
        BytesWithinWeight(s[n..]);
        assert text[1..] == Utf8.Text(s[n..]);
      }
    }
  }

  /** Translating newlines shortens a text, but never below a quarter of its bytes. */
  lemma {:induction false} WeightAfterTranslation(t: string)
    ensures Weight(t) <= 4 * |Universal(t)|
  {
    if t != "" {
      if t[0] == '\r' && |t| > 1 && t[1] == '\n' {
        WeightAfterTranslation(t[2..]);
        assert t[1..][1..] == t[2..];
      } else {
        WeightAfterTranslation(t[1..]);
      }
    }
  }

  /** A byte prefix decodes to a text whose first characters are those of the whole. */
  lemma PrefixDecodes(s: seq<Byte>, k: nat, cap: nat)
    requires k <= |s| && 4 * cap + 3 <= k
    ensures |Utf8.Text(s[..k])| >= cap && |Utf8.Text(s)| >= cap
    ensures Utf8.Text(s[..k])[..cap] == Utf8.Text(s)[..cap]
  {
    hide Decode;
    var a, b := s[..k], s[k..];
    assert a + b == s && a + [] == a;
    DecodeBytesPerChar(a);
    DecodeConcat(a, b, true);
    DecodeConcat(a, [], true);
    var head := Decode(a, false).text;
    assert 4 * |head| >= 4 * cap;
    assert Utf8.Text(a)[..cap] == head[..cap] && Utf8.Text(s)[..cap] == head[..cap];
  }

  /** Keeping 4 * cap + 65536 bytes loses nothing that is reported: the retained bytes stay in
      bound, the first `cap` reported characters are those of decoding all of stderr, and the
      truncation flag is the one decoding everything would set - also after newline translation
      when bytes were dropped. */
  lemma RetentionSuffices(err: seq<Byte>, cap: nat)
    ensures |Retained(err, cap)| <= 4 * cap + READ_CHUNK
    ensures var (reported, cut) := StreamStderr(err, cap);
            var whole := Utf8.Text(err);
            && reported[..Min(cap, |reported|)] == whole[..Min(cap, |whole|)]
            && cut == Truncate(whole, cap).1
            && (|err| > 4 * cap + READ_CHUNK ==> cut && Truncate(Universal(whole), cap).1)
  {
    hide Decode, Universal, Weight;
    var whole := Utf8.Text(err);
    var kept := Retained(err, cap);
    if |err| > |kept| {
      PrefixDecodes(err, |kept|, cap);
      BytesWithinWeight(err);
      WeightAfterTranslation(whole);
    } else {
      assert kept == err;
    }
  }

  // ---------------------------------------------------------------- equality of the two results

  /** The two stderr reports are equal exactly when nothing was dropped and newline translation
      does not show. */
  lemma StderrParity(err: seq<Byte>, cap: nat)
    ensures var translated := Truncate(Universal(Utf8.Text(err)), cap);
            StreamStderr(err, cap).0 == translated.0 <==>
              |err| <= 4 * cap + READ_CHUNK && CarriageFree(Utf8.Text(err), cap)
    ensures |err| <= 4 * cap + READ_CHUNK ==> StreamStderr(err, cap) == Truncate(Utf8.Text(err), cap)
  {
    hide Decode, Universal, Weight;
    var whole := Utf8.Text(err);
    var kept := Retained(err, cap);
    if |err| > |kept| {
      RetentionSuffices(err, cap);
      PrefixDecodes(err, |kept|, cap);
      var a := StreamStderr(err, cap).0;
      var b := Truncate(Universal(whole), cap).0;
      var at := cap + |MARKER_HEAD| - 1;
      assert a[at] == ':' && b[at] == ' ';
    } else {
      assert kept == err;
      TranslationInvisible(whole, cap);
    }
  }

  /** The streamed result of a finished child is the buffered result, duration apart, exactly when
      stderr fits the retention bound and no carriage return shows in either output. */
  lemma StreamEqualsBuffered(policy: Policy, prepared: Prepared, argv: seq<string>, dirExists: bool, spawned: Spawned,
                             out: seq<Byte>, err: seq<Byte>, code: int, streamedMs: nat, bufferedMs: nat)
    requires Spawns(policy, argv, dirExists, spawned)
    ensures var ending := Ending(Some(code), false, streamedMs);
            var s := StreamRun(policy, prepared, argv, dirExists, spawned, out, err, ending);
            var b := BufferedRun(policy, prepared, argv, dirExists, spawned, InTime(out, err, code), bufferedMs);
            var cap := policy.maxOutput;
            s == b.(durationMs := streamedMs) <==>
              && CarriageFree(Utf8.Text(out), cap)
              && CarriageFree(Utf8.Text(err), cap)
              && |err| <= 4 * cap + READ_CHUNK
  {
    hide Decode, Universal, StreamStderr, Truncate, CheckGates, CarriageFree;
    TranslationInvisible(Utf8.Text(out), policy.maxOutput);
    TranslationInvisible(Utf8.Text(err), policy.maxOutput);
    StderrParity(err, policy.maxOutput);
  }

  /** When stderr overflows its retention the results still agree in everything but the duration
      and the stderr text, and the first `cap` characters of that text. */
  lemma StreamAgreesOnOverflow(policy: Policy, prepared: Prepared, argv: seq<string>, dirExists: bool, spawned: Spawned,
                               out: seq<Byte>, err: seq<Byte>, code: int, streamedMs: nat, bufferedMs: nat)
    requires Spawns(policy, argv, dirExists, spawned)
    requires CarriageFree(Utf8.Text(out), policy.maxOutput) && CarriageFree(Utf8.Text(err), policy.maxOutput)
    ensures var ending := Ending(Some(code), false, streamedMs);
            var s := StreamRun(policy, prepared, argv, dirExists, spawned, out, err, ending);
            var b := BufferedRun(policy, prepared, argv, dirExists, spawned, InTime(out, err, code), bufferedMs);
            var cap := policy.maxOutput;
            && s == b.(durationMs := streamedMs, stderr := s.stderr)
            && s.stderr[..Min(cap, |s.stderr|)] == b.stderr[..Min(cap, |b.stderr|)]
  {
    hide Decode, Universal, StreamStderr, CheckGates, CarriageFree;
    TranslationInvisible(Utf8.Text(out), policy.maxOutput);
    TranslationInvisible(Utf8.Text(err), policy.maxOutput);
    RetentionSuffices(err, policy.maxOutput);
    var whole := Utf8.Text(err);
    var cap := policy.maxOutput;
    assert |whole| > cap ==> (whole[..cap] + Marker(|whole| - cap))[..cap] == whole[..cap];
  }

  /** The same holds of runs over their budget, as long as each transport collects these outputs: the
      streamed result of a flagged run is the buffered result of one drained after its kill. */
  lemma StreamEqualsLateDrained(policy: Policy, prepared: Prepared, argv: seq<string>, dirExists: bool,
                                spawned: Spawned, out: seq<Byte>, err: seq<Byte>, code: Option<int>,
                                streamedMs: nat, bufferedMs: nat)
    requires Spawns(policy, argv, dirExists, spawned)
    ensures var s := StreamRun(policy, prepared, argv, dirExists, spawned, out, err, Ending(code, true, streamedMs));
            var how := LateDrained(out, err, code);
            var b := BufferedRun(policy, prepared, argv, dirExists, spawned, how, bufferedMs);
            var cap := policy.maxOutput;
            && b.status == Timeout && b.exitCode == code
            && (s == b.(durationMs := streamedMs) <==>
                  && CarriageFree(Utf8.Text(out), cap)
                  && CarriageFree(Utf8.Text(err), cap)
                  && |err| <= 4 * cap + READ_CHUNK)
  {
    hide Decode, Universal, StreamStderr, Truncate, CheckGates, CarriageFree;
    TranslationInvisible(Utf8.Text(out), policy.maxOutput);
    TranslationInvisible(Utf8.Text(err), policy.maxOutput);
    StderrParity(err, policy.maxOutput);
  }

  /** A run whose output was given up reports no stdout and says so on stderr, cut at the cap like any
      other text. */
  lemma AbandonedReport(policy: Policy, prepared: Prepared, argv: seq<string>, dirExists: bool,
                        spawned: Spawned, code: Option<int>, ms: nat) returns (digits: string)
    requires Spawns(policy, argv, dirExists, spawned)
    ensures var b := BufferedRun(policy, prepared, argv, dirExists, spawned, Abandoned(code), ms);
            var notice := "[output abandoned: a descendant leaked past the process-group kill]";
            var cap := policy.maxOutput;
            && b.status == Timeout && b.exitCode == code && b.stdout == ""
            && (|notice| <= cap ==> b.stderr == notice && !b.truncated)
            && (|notice| > cap ==>
                  && b.stderr == notice[..cap] + "\n...[truncated " + digits + " chars]" && b.truncated
                  && Numeral(digits, |notice| - cap))
  {
    hide CheckGates;
    digits := TruncateReports(ABANDONED, policy.maxOutput);
  }

  /** What is reported of stderr, spelled out: decoded and cut like stdout as long as it fits the
      retention, else the first `cap` characters of what was kept and the cap itself. */
  lemma StderrReports(err: seq<Byte>, cap: nat) returns (digits: string)
    ensures |err| <= 4 * cap + 65536 ==> StreamStderr(err, cap) == Truncate(Utf8.Text(err), cap)
    ensures |err| > 4 * cap + 65536 ==>
              var text := Utf8.Text(err[..4 * cap + 65536]);
              && StreamStderr(err, cap)
                 == (text[..Min(cap, |text|)] + "\n...[truncated: stderr exceeded " + digits + " chars]", true)
              && Numeral(digits, cap)
  {
    hide Decode;
    digits := Decimal(cap);
    DecimalIsNumeral(cap);
    assert err[..|err|] == err;
    var text := Utf8.Text(Retained(err, cap));
    Regroup(text[..Min(cap, |text|)], STDERR_MARKER_HEAD + digits, MARKER_TAIL);
    Regroup(text[..Min(cap, |text|)], STDERR_MARKER_HEAD, digits);
  }

  /** What the warning says. */
  lemma CapMessageSays(cap: nat) returns (digits: string)
    ensures CapMessage(cap)
            == "output cap of " + digits + " chars reached; further generation "
               + "is discarded and the child is drained to its natural "
               + "exit (not killed)"
    ensures Numeral(digits, cap)
  {
    digits := Decimal(cap);
    DecimalIsNumeral(cap);
  }

  /** Why a run did not spawn, spelled out: the first gate that refuses, or the failure to start. Nothing
      was run, so the result carries nothing of the policy. */
  lemma RefusalSays(policy: Policy, prepared: Prepared, argv: seq<string>, dirExists: bool, spawned: Spawned,
                    how: Communicated, ms: nat)
    requires !Spawns(policy, argv, dirExists, spawned)
    ensures var b := BufferedRun(policy, prepared, argv, dirExists, spawned, how, ms);
            && b.argv == argv && b.exitCode.None? && b.stdout == "" && b.stderr == "" && b.durationMs == 0
            && !b.truncated && b.network == "offline" && b.envKeys == [] && b.limits == []
            && (b.status, b.reason)
               == if argv == [] then (Denied, "empty argv")
                  else if !policy.allowExec then (Denied, "execution disabled (allow_exec is false)")
                  else if argv[0] == "" || '/' in argv[0] || '\\' in argv[0] then
                    (Denied, "argv[0] must be a bare command name with no path component: " + argv[0])
                  else if argv[0] !in policy.allowedCommands then
                    (Denied, "command " + argv[0] + " not in allowed_commands")
                  else if policy.workingDir.Some? && !dirExists then
                    (SpawnError, "working_dir does not exist: " + policy.workingDir.value)
                  else (SpawnError, "could not start process: " + spawned.reason)
  {
    hide Decode, Universal, Truncate, Judge;
  }

  /** A run that never spawned is the same value on both paths. */
  lemma RefusedRunsAgree(policy: Policy, prepared: Prepared, argv: seq<string>, dirExists: bool, spawned: Spawned,
                         out: seq<Byte>, err: seq<Byte>, ending: Ending, how: Communicated, ms: nat)
    ensures !Spawns(policy, argv, dirExists, spawned) <==>
              StreamRun(policy, prepared, argv, dirExists, spawned, out, err, ending).status in {Denied, SpawnError}
    ensures !Spawns(policy, argv, dirExists, spawned) ==>
              StreamRun(policy, prepared, argv, dirExists, spawned, out, err, ending)
              == BufferedRun(policy, prepared, argv, dirExists, spawned, how, ms)
  {
  }

  // ---------------------------------------------------------------- what a consumer sees

  function ChunkTexts(log: seq<Body>): seq<string> {
    if log == [] then [] else (if log[0].Chunk? then [log[0].text] else []) + ChunkTexts(log[1..])
  }

  lemma {:induction false} ChunkTextsAppend(a: seq<Body>, b: seq<Body>)
    ensures ChunkTexts(a + b) == ChunkTexts(a) + ChunkTexts(b)
  {
    if a == [] {
      assert a + b == b;
    } else {
      ChunkTextsAppend(a[1..], b);
      Append(a, b);
      Regroup(if a[0].Chunk? then [a[0].text] else [], ChunkTexts(a[1..]), ChunkTexts(b));
    }
  }

  lemma {:induction false} ChunkTextsOfEvents(pieces: seq<string>)
    ensures ChunkTexts(ChunkEvents(pieces)) == pieces
  {
    if pieces != [] {
      ChunkTextsOfEvents(pieces[1..]);
      assert ChunkEvents(pieces)[1..] == ChunkEvents(pieces[1..]);
    }
  }

  /** Whatever the reads, the chunk events are a slicing of the kept prefix - and there is only
      one such slicing - so they are the events the fake path writes for that prefix. The warning
      is there exactly when some read crossed the cap; it is then the last event, and the chunks
      before it spell exactly `cap` characters. */
  lemma ConsumerView(text: string, outs: seq<seq<Byte>>, cap: nat)
    requires text == Utf8.Text(Join(outs))
    ensures var log := RelayEvents(text, outs, cap, true);
            var prefix := text[..Min(cap, |text|)];
            && IsSlicing(prefix, ChunkTexts(log), MAX_EVENT_TEXT_CHARS)
            && (Crosses(outs, cap) ==>
                  && |prefix| == cap < |text|
                  && log == ChunkEvents(ChunkTexts(log)) + [Warning(Bounded(CapMessage(cap)))])
            && (!Crosses(outs, cap) ==> log == ChunkEvents(ChunkTexts(log)))
  {
    hide Decode, Slices;
    var prefix := text[..Min(cap, |text|)];
    var pieces := Slices(prefix, MAX_EVENT_TEXT_CHARS);
    var log := RelayEvents(text, outs, cap, true);
    SlicesIsSlicing(prefix, MAX_EVENT_TEXT_CHARS);
    ChunkTextsOfEvents(pieces);
    if Crosses(outs, cap) {
      CrossedAbove(outs, cap);
      FinalText(outs);
      ChunkTextsAppend(ChunkEvents(pieces), CapEvents(cap, true));
      assert ChunkTexts(CapEvents(cap, true)) == [] by {
        assert CapEvents(cap, true)[1..] == [];
      }
      assert ChunkTexts(log) == pieces;
    } else {
      assert log == ChunkEvents(pieces);
    }
  }

  lemma {:induction false} NoCrossingBelow(outs: seq<seq<Byte>>, cap: nat, k: nat)
    requires k <= |outs| && cap >= 1 && !Crosses(outs, cap)
    requires forall i | 0 <= i <= |outs| :: |TextSoFar(outs[..i])| != cap
    ensures |TextSoFar(outs[..k])| < cap
  {
    if k == 0 {
      assert outs[..0] == [];
    } else {
      NoCrossingBelow(outs, cap, k - 1);
      assert !CrossesAt(outs, k - 1, cap);
    }
  }

  /** The exact condition of the warning: an output longer than the cap is announced exactly when
      no read leaves the decoded text exactly at the cap. */
  lemma WarnsUnlessAReadEndsAtTheCap(outs: seq<seq<Byte>>, cap: nat)
    requires cap >= 1 && |Utf8.Text(Join(outs))| > cap
    ensures Crosses(outs, cap) <==> forall i | 0 <= i <= |outs| :: |TextSoFar(outs[..i])| != cap
  {
    hide Decode;
    if Crosses(outs, cap) {
      var i: nat :| i < |outs| && CrossesAt(outs, i, cap);
      forall j | 0 <= j <= |outs| ensures |TextSoFar(outs[..j])| != cap {
        if j <= i {
          TextGrows(outs, j, i);
        } else {
          TextGrows(outs, i + 1, j);
        }
      }
    } else if forall i | 0 <= i <= |outs| :: |TextSoFar(outs[..i])| != cap {
      NoCrossingBelow(outs, cap, |outs|);
      assert outs[..|outs|] == outs;
      FinalText(outs);
      RestIsWaiting(Join(outs), false);
      WaitingFlush(Decode(Join(outs), false).rest);
      assert false;
    }
  }

  /** A cut output need not have warned: a read that ends exactly at the cap hides the crossing.
      The output is cut without a warning exactly when it is longer than the cap and no read
      crosses; this run of two one-byte reads under cap 1 is one. */
  lemma CutWithoutWarning()
    ensures var outs := [[0x41], [0x42]];
            !Crosses(outs, 1) && |Utf8.Text(Join(outs))| > 1
  {
    var outs: seq<seq<Byte>> := [[0x41], [0x42]];
    assert outs[..0] == [] && outs[..1] == [[0x41]] && outs[..2] == outs;
    assert Join([[0x41]]) == [0x41] + Join([]) == [0x41];
    assert Join(outs) == [0x41, 0x42] by {
      assert outs[1..] == [[0x42]];
      assert Join([[0x42]]) == [0x42] + Join([]) == [0x42];
    }
    OneAscii(0x41);
    OneAscii(0x42);
    var two: seq<Byte> := [0x41, 0x42];
    assert two[1..] == [0x42];
    assert Decode(two, true) == Prepend('A', Decode([0x42], true));
    assert |TextSoFar(outs[..1])| == 1;
  }

  lemma OneAscii(b: Byte)
    requires b < 0x80
    ensures forall final :: Decode([b], final) == Decoded([b as char], [])
  {
    assert [b][1..] == [];
  }
}
