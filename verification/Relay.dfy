/** The streaming relay of `run_llama_stream`: one incremental decoder, a kept prefix of at most
    `cap` characters, the overage count, the event re-slicing buffer and bounded stderr retention. */
module Relay {
  import opened Text
  import opened Utf8
  import opened Slicing
  import opened Emitter
  import opened Executor

  // ---------------------------------------------------------------- specification

  /** The text decoded from the reads so far, without flushing the decoder. */
  function TextSoFar(outs: seq<seq<Byte>>): string { Decode(Join(outs), false).text }

  /** Some read starts strictly below the cap and ends strictly above it. */
  ghost predicate Crosses(outs: seq<seq<Byte>>, cap: nat) {
    exists i: nat | i < |outs| :: CrossesAt(outs, i, cap)
  }

  predicate CrossesAt(outs: seq<seq<Byte>>, i: nat, cap: nat)
    requires i < |outs|
  {
    |TextSoFar(outs[..i])| < cap < |TextSoFar(outs[..i + 1])|
  }

  function CapMessage(cap: nat): string {
    "output cap of " + Decimal(cap) + " chars reached; further generation "
    + "is discarded and the child is drained to its natural "
    + "exit (not killed)"
  }

  function ChunkEvents(pieces: seq<string>): seq<Body> {
    seq(|pieces|, i requires 0 <= i < |pieces| => Chunk(pieces[i]))
  }

  function CapEvents(cap: nat, room: bool): seq<Body> {
    if room then [Warning(Bounded(CapMessage(cap)))] else []
  }

  /** The events a finished relay has written for a decoded text: the canonical slicing of the
      kept prefix, then the cap warning if a read crossed the cap. */
  ghost function RelayEvents(text: string, outs: seq<seq<Byte>>, cap: nat, room: bool): seq<Body> {
    ChunkEvents(Slices(text[..Min(cap, |text|)], MAX_EVENT_TEXT_CHARS))
    + if Crosses(outs, cap) then CapEvents(cap, room) else []
  }

  /** The stderr bytes kept by bounded retention. */
  function Retained(err: seq<Byte>, cap: nat): seq<Byte> { err[..Min(|err|, cap * 4 + READ_CHUNK)] }

  const STDERR_MARKER_HEAD := "\n...[truncated: stderr exceeded "

  /** Stderr as the streaming path reports it. */
  function StreamStderr(err: seq<Byte>, cap: nat): (string, bool) {
    var kept := Retained(err, cap);
    var text := Utf8.Text(kept);
    if |err| > |kept| then (text[..Min(cap, |text|)] + STDERR_MARKER_HEAD + Decimal(cap) + MARKER_TAIL, true)
    else Truncate(text, cap)
  }

  // ---------------------------------------------------------------- lemmas about the specification

  lemma {:induction false} JoinAppend(outs: seq<seq<Byte>>, b: seq<Byte>)
    ensures Join(outs + [b]) == Join(outs) + b
  {
    if outs == [] {
      assert Join([b]) == b + Join([b][1..]);
    } else {
      JoinAppend(outs[1..], b);
      assert (outs + [b])[1..] == outs[1..] + [b];
    }
  }

  /** One more read decodes exactly what the incremental decoder returns for it. */
  lemma TextAppend(outs: seq<seq<Byte>>, b: seq<Byte>)
    ensures var d := Decode(Join(outs), false);
            var e := Decode(d.rest + b, false);
            TextSoFar(outs + [b]) == TextSoFar(outs) + e.text &&
            Decode(Join(outs + [b]), false).rest == e.rest
  {
    JoinAppend(outs, b);
    DecodeConcat(Join(outs), b, false);
  }

  lemma CrossesAppend(outs: seq<seq<Byte>>, b: seq<Byte>, cap: nat)
    ensures Crosses(outs + [b], cap) <==>
              Crosses(outs, cap) || |TextSoFar(outs)| < cap < |TextSoFar(outs + [b])|
  {
    hide CrossesAt;
    forall i: nat | i < |outs| ensures CrossesAt(outs + [b], i, cap) <==> CrossesAt(outs, i, cap) {
      CrossesAtEarlier(outs, b, i, cap);
    }
    CrossesAtLast(outs, b, cap);
    assert Crosses(outs + [b], cap) ==> Crosses(outs, cap) || CrossesAt(outs + [b], |outs|, cap);
  }

  lemma CrossesAtEarlier(outs: seq<seq<Byte>>, b: seq<Byte>, i: nat, cap: nat)
    requires i < |outs|
    ensures CrossesAt(outs + [b], i, cap) <==> CrossesAt(outs, i, cap)
  {
    Prefix(outs, [b], i);
    Prefix(outs, [b], i + 1);
  }

  lemma CrossesAtLast(outs: seq<seq<Byte>>, b: seq<Byte>, cap: nat)
    ensures CrossesAt(outs + [b], |outs|, cap) <==> |TextSoFar(outs)| < cap < |TextSoFar(outs + [b])|
  {
    Prefix(outs, [b], |outs|);
    assert outs[..|outs|] == outs && (outs + [b])[..|outs| + 1] == outs + [b];
  }

  lemma ChunkEventsAppend(a: seq<string>, b: seq<string>)
    ensures ChunkEvents(a + b) == ChunkEvents(a) + ChunkEvents(b)
  {
  }

  lemma NoChunkEvents()
    ensures ChunkEvents([]) == []
  {
  }

  lemma OneMoreChunk(done: seq<string>, piece: string)
    ensures ChunkEvents(done + [piece]) == ChunkEvents(done) + [Chunk(piece)]
  {
    ChunkEventsAppend(done, [piece]);
  }

  lemma WholeUnfolds(text: string)
    ensures var n := MAX_EVENT_TEXT_CHARS;
            if |text| < n then Whole(text, n) == [] && Remainder(text, n) == text
            else Whole(text, n) == [text[..n]] + Whole(text[n..], n) && Remainder(text, n) == Remainder(text[n..], n)
  {
  }

  /** Decoding more input only extends the text. */
  lemma {:induction false} TextGrows(outs: seq<seq<Byte>>, i: nat, j: nat)
    requires i <= j <= |outs|
    ensures |TextSoFar(outs[..i])| <= |TextSoFar(outs[..j])|
    decreases j - i
  {
    if i < j {
      TextGrows(outs, i, j - 1);
      assert outs[..j] == outs[..j - 1] + [outs[j - 1]];
      TextAppend(outs[..j - 1], outs[j - 1]);
    }
  }

  /** A crossing leaves the decoded text strictly above the cap for good. */
  lemma CrossedAbove(outs: seq<seq<Byte>>, cap: nat)
    requires Crosses(outs, cap)
    ensures |TextSoFar(outs)| > cap
  {
    var i: nat :| i < |outs| && CrossesAt(outs, i, cap);
    TextGrows(outs, i + 1, |outs|);
    assert outs[..|outs|] == outs;
  }

  /** The kept prefix grows by what still fits under the cap. */
  lemma KeptAppend(text: string, more: string, cap: nat)
    ensures var k := Min(cap, |text|);
            var take := more[..Min(cap - k, |more|)];
            && text[..k] + take == (text + more)[..Min(cap, |text + more|)]
            && |text + more| - Min(cap, |text + more|) == (|text| - k) + (|more| - |take|)
  {
  }

  /** Slicing what arrives: whole slices of the old remainder followed by the new text extend
      the whole slices of the prefix, and the rest completes the canonical slicing. */
  lemma SlicesOnArrival(prefix: string, take: string)
    ensures ChunkEvents(Whole(prefix, MAX_EVENT_TEXT_CHARS))
            + ChunkEvents(Whole(Remainder(prefix, MAX_EVENT_TEXT_CHARS) + take, MAX_EVENT_TEXT_CHARS))
            == ChunkEvents(Whole(prefix + take, MAX_EVENT_TEXT_CHARS))
    ensures Remainder(Remainder(prefix, MAX_EVENT_TEXT_CHARS) + take, MAX_EVENT_TEXT_CHARS)
            == Remainder(prefix + take, MAX_EVENT_TEXT_CHARS)
  {
    WholeAppend(prefix, take, MAX_EVENT_TEXT_CHARS);
    ChunkEventsAppend(Whole(prefix, MAX_EVENT_TEXT_CHARS),
                      Whole(Remainder(prefix, MAX_EVENT_TEXT_CHARS) + take, MAX_EVENT_TEXT_CHARS));
  }

  lemma SlicesOnFlush(prefix: string, take: string)
    ensures ChunkEvents(Whole(prefix, MAX_EVENT_TEXT_CHARS))
            + ChunkEvents(Slices(Remainder(prefix, MAX_EVENT_TEXT_CHARS) + take, MAX_EVENT_TEXT_CHARS))
            == ChunkEvents(Slices(prefix + take, MAX_EVENT_TEXT_CHARS))
  {
    var n := MAX_EVENT_TEXT_CHARS;
    var r := Remainder(prefix, n) + take;
    WholeAppend(prefix, take, n);
    SlicesSplit(r, n);
    SlicesSplit(prefix + take, n);
    ChunkEventsAppend(Whole(prefix, n), Slices(r, n));
    assert Whole(prefix, n) + Slices(r, n) == Slices(prefix + take, n);
  }

  lemma NoSlices()
    ensures ChunkEvents(Slices("", MAX_EVENT_TEXT_CHARS)) == []
  {
  }

  lemma AppendPiece(kept: seq<string>, take: string)
    ensures Concat(kept + [take]) == Concat(kept) + take
  {
    ConcatAppend(kept, [take]);
    assert Concat([take]) == take;
  }

  /** The whole text is the text so far and whatever flushing the decoder still yields. */
  lemma FinalText(outs: seq<seq<Byte>>)
    ensures Utf8.Text(Join(outs)) == TextSoFar(outs) + Decode(Decode(Join(outs), false).rest, true).text
  {
    var r := Decode(Join(outs), false).rest;
    DecodeConcat(Join(outs), [], true);
    assert Join(outs) + [] == Join(outs) && r + [] == r;
  }

  // ---------------------------------------------------------------- the relay

  class Relay {
    const cap: nat
    const emitter: StreamEmitter
    var buffer: seq<Byte>        // the incremental decoder's state
    var kept: seq<string>
    var keptLen: nat
    var overage: nat
    var pending: string
    var capWarned: bool
    var stderrBuf: seq<Byte>
    var stderrTotal: nat
    ghost const before: seq<Body>   // the log when the relay started
    ghost const room: bool          // the emitter may still write a warning
    ghost var outs: seq<seq<Byte>> // stdout reads so far
    ghost var err: seq<Byte>        // stderr bytes so far

    /** Every field as a function of the reads so far. */
    ghost predicate Valid()
      reads this, emitter
    {
      && EmitterReady()
      && Decoding()
      && Stderr()
      && emitter.Log() == before + LogSoFar()
      && pending == (if capWarned then "" else Remainder(Concat(kept), MAX_EVENT_TEXT_CHARS))
      && (capWarned <==> Crosses(outs, cap))
      && (!capWarned ==> room == (emitter.warnings < MAX_WARNINGS))
    }

    ghost predicate EmitterReady()
      reads this, emitter
    {
      emitter.Valid() && !emitter.finalSent
    }

    ghost predicate Decoding()
      reads this
    {
      var d := Decode(Join(outs), false);
      && buffer == d.rest
      && keptLen == Min(cap, |d.text|)
      && Concat(kept) == d.text[..keptLen]
      && overage == |d.text| - keptLen
    }

    ghost predicate Stderr()
      reads this`stderrBuf, this`stderrTotal, this`err
    {
      stderrBuf == Retained(err, cap) && stderrTotal == |err|
    }

    /** The relay's own events: whole slices while below the cap; all of them, then the
        warning, once a read has crossed it. */
    ghost function LogSoFar(): seq<Body>
      reads this
    {
      if capWarned then ChunkEvents(Slices(Concat(kept), MAX_EVENT_TEXT_CHARS)) + CapEvents(cap, room)
      else ChunkEvents(Whole(Concat(kept), MAX_EVENT_TEXT_CHARS))
    }

    constructor (cap: nat, emitter: StreamEmitter)
      requires emitter.Valid() && !emitter.finalSent
      ensures this.cap == cap && this.emitter == emitter
      ensures before == emitter.Log() && room == (emitter.warnings < MAX_WARNINGS)
      ensures outs == [] && err == [] && Valid()
    {
      this.cap, this.emitter := cap, emitter;
      buffer, kept, keptLen, overage, pending, capWarned := [], [], 0, 0, "", false;
      stderrBuf, stderrTotal := [], 0;
      before, room := emitter.Log(), emitter.warnings < MAX_WARNINGS;
      outs, err := [], [];
    }

    /** `_flush_pending`: whole slices of `pending`, and the remainder when forced. */
    method FlushPending(force: bool)
      requires EmitterReady()
      modifies this`pending, emitter
      ensures EmitterReady() && emitter.warnings == old(emitter.warnings)
      ensures emitter.Log() == old(emitter.Log()) + ChunkEvents(
                if force then Slices(old(pending), MAX_EVENT_TEXT_CHARS) else Whole(old(pending), MAX_EVENT_TEXT_CHARS))
      ensures pending == if force then "" else Remainder(old(pending), MAX_EVENT_TEXT_CHARS)
    {
      SlicesSplit(pending, MAX_EVENT_TEXT_CHARS);
      hide StreamEmitter.Valid, StreamEmitter.State, StreamEmitter.Log, Apply, CapMessage, Whole, Slices, Remainder,
        ChunkEvents;
      ghost var done: seq<string> := [];
      NoChunkEvents();
      while |pending| >= MAX_EVENT_TEXT_CHARS
        invariant EmitterReady() && emitter.warnings == old(emitter.warnings)
        invariant emitter.Log() == old(emitter.Log()) + ChunkEvents(done)
        invariant done + Whole(pending, MAX_EVENT_TEXT_CHARS) == Whole(old(pending), MAX_EVENT_TEXT_CHARS)
        invariant Remainder(pending, MAX_EVENT_TEXT_CHARS) == Remainder(old(pending), MAX_EVENT_TEXT_CHARS)
        decreases |pending|
      {
        WholeUnfolds(pending);
        var piece := pending[..MAX_EVENT_TEXT_CHARS];
        var _ := emitter.EmitChunk(piece);
        OneMoreChunk(done, piece);
        Regroup(old(emitter.Log()), ChunkEvents(done), [Chunk(piece)]);
        Regroup(done, [piece], Whole(pending[MAX_EVENT_TEXT_CHARS..], MAX_EVENT_TEXT_CHARS));
        done := done + [piece];
        pending := pending[MAX_EVENT_TEXT_CHARS..];
      }
      WholeUnfolds(pending);
      assert done + [] == done;
      if force && pending != "" {
        var _ := emitter.EmitChunk(pending);
        OneMoreChunk(done, pending);
        Regroup(old(emitter.Log()), ChunkEvents(done), [Chunk(pending)]);
        pending := "";
      }
    }

    /** `_consume_stdout`. */
    method ConsumeStdout(b: seq<Byte>)
      requires Valid()
      modifies this`buffer, this`kept, this`keptLen, this`overage, this`pending, this`capWarned, this`outs, emitter
      ensures Valid() && outs == old(outs) + [b]
    {
      hide Decode, StreamEmitter.Valid, StreamEmitter.State, StreamEmitter.Log, Apply, CapMessage, Crosses, Whole,
        Slices, Remainder, ChunkEvents, Concat, Retained, StreamStderr, CapEvents, Join, Stderr;
      ghost var soFar := TextSoFar(outs);
      TextAppend(outs, b);
      CrossesAppend(outs, b, cap);
      if Crosses(outs, cap) {
        CrossedAbove(outs, cap);
      }
      var d := Decode(buffer + b, false);
      var text := d.text;
      buffer := d.rest;
      outs := outs + [b];
      KeptAppend(soFar, text, cap);
      if text == "" {
        return;
      }
      if keptLen < cap {
        var left := cap - keptLen;
        var take := text[..Min(left, |text|)];
        Keep(take);
        var rest := text[Min(left, |text|)..];
        if rest != "" {
          Overflow(rest);
        }
        assert Concat(kept) == TextSoFar(outs)[..keptLen];
      } else {
        overage := overage + |text|;
      }
      assert Decoding();
      assert capWarned <==> Crosses(outs, cap);
      assert emitter.Log() == before + LogSoFar();
    }

    /** The first text past the cap: the exact prefix is flushed and the warning follows it. */
    method Overflow(rest: string)
      requires EmitterReady() && !capWarned && rest != ""
      requires room == (emitter.warnings < MAX_WARNINGS)
      requires emitter.Log() == before + LogSoFar()
      requires pending == Remainder(Concat(kept), MAX_EVENT_TEXT_CHARS)
      modifies this`overage, this`pending, this`capWarned, emitter
      ensures EmitterReady() && capWarned && pending == ""
      ensures overage == old(overage) + |rest|
      ensures emitter.Log() == before + LogSoFar()
    {
      hide StreamEmitter.Valid, StreamEmitter.State, StreamEmitter.Log, Apply, CapMessage, Whole, Slices,
        Remainder, ChunkEvents, Concat;
      overage := overage + |rest|;
      if !capWarned {
        SlicesOnFlush(Concat(kept), "");
        assert pending + "" == pending && Concat(kept) + "" == Concat(kept);
        FlushPending(true);
        var _ := emitter.EmitWarning(CapMessage(cap));
        capWarned := true;
      }
    }

    /** Append to the kept prefix and emit the slices it completes. */
    method Keep(take: string)
      requires EmitterReady() && !capWarned
      requires emitter.Log() == before + LogSoFar()
      requires pending == Remainder(Concat(kept), MAX_EVENT_TEXT_CHARS)
      modifies this`kept, this`keptLen, this`pending, emitter
      ensures EmitterReady() && emitter.warnings == old(emitter.warnings)
      ensures Concat(kept) == old(Concat(kept)) + take && keptLen == old(keptLen) + |take|
      ensures emitter.Log() == before + LogSoFar()
      ensures pending == Remainder(Concat(kept), MAX_EVENT_TEXT_CHARS)
    {
      hide StreamEmitter.Valid, StreamEmitter.State, StreamEmitter.Log, Apply, CapMessage, Whole, Slices,
        Remainder, ChunkEvents, Concat;
      AppendPiece(kept, take);
      SlicesOnArrival(Concat(kept), take);
      kept := kept + [take];
      keptLen := keptLen + |take|;
      pending := pending + take;
      FlushPending(false);
    }

    /** `_consume_stderr`: keep up to the retention bound, count everything. */
    method ConsumeStderr(b: seq<Byte>)
      requires Valid()
      modifies this`stderrBuf, this`stderrTotal, this`err
      ensures Valid() && err == old(err) + b
    {
      hide Decode, StreamEmitter.Valid, StreamEmitter.State, StreamEmitter.Log, Crosses, Whole, Slices, Remainder,
        ChunkEvents, Concat;
      var stderrCap := cap * 4 + READ_CHUNK;
      stderrTotal := stderrTotal + |b|;
      if |stderrBuf| < stderrCap {
        stderrBuf := stderrBuf + b[..Min(|b|, stderrCap - |stderrBuf|)];
      }
      err := err + b;
      assert stderrBuf == Retained(err, cap);
    }

    /** The end of the stream: the decoder is flushed, then the tail slice is emitted. */
    method Finish()
      requires Valid()
      modifies this`buffer, this`kept, this`keptLen, this`overage, this`pending, emitter
      ensures var text := Utf8.Text(Join(outs));
              && Concat(kept) == text[..Min(cap, |text|)]
              && overage == |text| - Min(cap, |text|)
              && EmitterReady() && Stderr() && emitter.Log() == before + RelayEvents(text, outs, cap, room)
    {
      hide Decode, StreamEmitter.Valid, StreamEmitter.State, StreamEmitter.Log, Apply, CapMessage, Crosses, Whole,
        Slices, Remainder, ChunkEvents, Concat, Retained, StreamStderr, Emitter.Bounded;
      ghost var soFar, flushed := TextSoFar(outs), Concat(kept);
      var tail := Decode(buffer, true).text;
      FinalText(outs);
      KeptAppend(soFar, tail, cap);
      ghost var take := tail[..Min(cap - keptLen, |tail|)];
      SlicesOnFlush(flushed, take);
      buffer := [];
      KeepTail(tail);
      if capWarned {
        CrossedAbove(outs, cap);
        NoSlices();
        assert take == "" && flushed + "" == flushed;
      }
      FlushPending(true);
    }

    /** What flushing the decoder adds: up to the cap it is kept, the rest is counted. */
    method KeepTail(tail: string)
      requires keptLen <= cap
      modifies this`kept, this`keptLen, this`overage, this`pending
      ensures var take := tail[..Min(cap - old(keptLen), |tail|)];
              && Concat(kept) == old(Concat(kept)) + take && keptLen == old(keptLen) + |take|
              && pending == old(pending) + take && overage == old(overage) + (|tail| - |take|)
    {
      hide Concat;
      if tail != "" && keptLen < cap {
        var left := cap - keptLen;
        var take := tail[..Min(left, |tail|)];
        AppendPiece(kept, take);
        kept := kept + [take];
        keptLen := keptLen + |take|;
        pending := pending + take;
        overage := overage + (|tail| - |take|);
      } else if tail != "" {
        overage := overage + |tail|;
      }
    }
  }
}
