/** Fixed-size slicing of a text into event-sized pieces, shared by the relay (which slices
    as text arrives) and by the fake runner (which slices a finished text). */
module Slicing {
  import opened Text

  /** The pieces `text[i:i + n]` for `i` in `range(0, len(text), n)`. */
  function Slices(text: string, n: nat): seq<string>
    requires n > 0
  {
    if text == "" then []
    else if |text| <= n then [text]
    else [text[..n]] + Slices(text[n..], n)
  }

  /** The pieces of full length only, and what is left after them. */
  function Whole(text: string, n: nat): seq<string>
    requires n > 0
  {
    if |text| < n then [] else [text[..n]] + Whole(text[n..], n)
  }

  function Remainder(text: string, n: nat): (r: string)
    requires n > 0
    ensures |r| < n
  {
    if |text| < n then text else Remainder(text[n..], n)
  }

  function NonEmpty(text: string): seq<string> { if text == "" then [] else [text] }

  /** What a consumer of the pieces may rely on: they spell the text, none is empty or longer
      than `n`, and only the last may be shorter. */
  ghost predicate IsSlicing(text: string, pieces: seq<string>, n: nat) {
    && Concat(pieces) == text
    && (forall i | 0 <= i < |pieces| :: 0 < |pieces[i]| <= n)
    && (forall i | 0 <= i < |pieces| - 1 :: |pieces[i]| == n)
  }

  lemma {:induction false} SlicesIsSlicing(text: string, n: nat)
    requires n > 0
    ensures IsSlicing(text, Slices(text, n), n)
    decreases |text|
  {
    if |text| > n {
      SlicesIsSlicing(text[n..], n);
      assert text[..n] + text[n..] == text;
      assert Slices(text[n..], n) != [];
    }
  }

  /** The canonical slicing is the only one: two cuttings of a text with these properties
      are the same sequence of pieces. */
  lemma {:induction false} SlicingUnique(text: string, pieces: seq<string>, n: nat)
    requires n > 0 && IsSlicing(text, pieces, n)
    ensures pieces == Slices(text, n)
    decreases |text|
  {
    if pieces == [] {
    } else {
      var tail := pieces[1..];
      assert text == pieces[0] + Concat(tail);
      if tail == [] {
        assert text == pieces[0];
      } else {
        assert tail[0] != "" && |Concat(tail)| >= |tail[0]|;
        assert forall i | 0 <= i < |tail| :: tail[i] == pieces[i + 1];
        assert text[..n] == pieces[0] && text[n..] == Concat(tail);
        SlicingUnique(text[n..], tail, n);
      }
    }
  }

  lemma {:induction false} SlicesSplit(text: string, n: nat)
    requires n > 0
    ensures Slices(text, n) == Whole(text, n) + NonEmpty(Remainder(text, n))
    decreases |text|
  {
    if |text| > n {
      SlicesSplit(text[n..], n);
    } else if |text| == n {
      assert text[..n] == text && text[n..] == "";
    }
  }

  /** Slicing as text arrives: whole pieces taken out so far stay, and the rest is sliced
      together with what comes next. */
  lemma {:induction false} WholeAppend(a: string, b: string, n: nat)
    requires n > 0
    ensures Whole(a + b, n) == Whole(a, n) + Whole(Remainder(a, n) + b, n)
    ensures Remainder(a + b, n) == Remainder(Remainder(a, n) + b, n)
    decreases |a|
  {
    if |a| >= n {
      WholeAppend(a[n..], b, n);
      assert (a + b)[..n] == a[..n] && (a + b)[n..] == a[n..] + b;
    }
  }

  /** One turn of the loop below. */
  lemma SliceStep(text: string, i: nat, step: nat)
    requires step > 0 && i < |text|
    ensures Slices(text[i..], step) == [text[i..Min(i + step, |text|)]]
                                       + (if i + step < |text| then Slices(text[i + step..], step) else [])
  {
    var t := text[i..];
    assert text[i..Min(i + step, |text|)] == t[..Min(step, |t|)];
    assert |t| <= step ==> t[..|t|] == t;
    assert |t| > step ==> t[step..] == text[i + step..];
  }

  /** The slicing loop of the fake runner (`generate_stream`, step 5) and of the fake path of
      the request layer (step 8192). */
  method SliceLoop(text: string, step: nat) returns (pieces: seq<string>)
    requires step > 0
    ensures pieces == Slices(text, step)
    ensures IsSlicing(text, pieces, step)
  {
    SlicesIsSlicing(text, step);
    assert text == "" ==> Slices(text, step) == [];
    hide Slices, IsSlicing;
    pieces := [];
    var i := 0;
    assert text[0..] == text;
    while i < |text|
      invariant 0 <= i
      invariant Slices(text, step) == pieces + (if i < |text| then Slices(text[i..], step) else [])
    {
      SliceStep(text, i, step);
      pieces := pieces + [text[i..Min(i + step, |text|)]];
      i := i + step;
    }
  }
}
