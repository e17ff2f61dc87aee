/** The path scrub of captured output (`_scrub`): two leftmost, non-overlapping replacements. When
    the second one can leave the path it removes is settled exactly. */
module Scrub {
  import opened Text
  import Paths

  /** `text.replace(old, new)`. */
  function Replace(text: string, target: string, mark: string): string
    requires target != ""
  {
    if |text| < |target| then text
    else if target <= text then mark + Replace(text[|target|..], target, mark)
    else [text[0]] + Replace(text[1..], target, mark)
  }

  predicate At(text: string, i: nat, pattern: string) {
    i + |pattern| <= |text| && text[i..i + |pattern|] == pattern
  }

  ghost predicate Contains(text: string, pattern: string) {
    exists i: nat :: At(text, i, pattern)
  }

  lemma AtHead(text: string, i: nat, pattern: string)
    requires pattern != ""
    ensures At(text, i, pattern) ==> i < |text| && text[i] == pattern[0]
  {
    if At(text, i, pattern) {
      assert text[i..i + |pattern|][0] == text[i];
    }
  }

  /** Replacing what does not occur changes nothing. */
  lemma {:induction false} ReplaceAbsent(text: string, pattern: string, mark: string)
    requires pattern != "" && !Contains(text, pattern)
    ensures Replace(text, pattern, mark) == text
  {
    if |text| >= |pattern| {
      assert !At(text, 0, pattern);
      AbsentInTail(text, 1, pattern);
      ReplaceAbsent(text[1..], pattern, mark);
    }
  }

  lemma AbsentInTail(text: string, k: nat, pattern: string)
    requires k <= |text| && !Contains(text, pattern)
    ensures !Contains(text[k..], pattern)
  {
    if i: nat :| At(text[k..], i, pattern) {
      assert text[k..][i..i + |pattern|] == text[k + i..k + i + |pattern|];
      assert At(text, k + i, pattern);
    }
  }

  lemma ReplaceSkips(text: string, pattern: string, mark: string)
    requires pattern != "" && |text| >= |pattern| && !At(text, 0, pattern)
    ensures Replace(text, pattern, mark) == [text[0]] + Replace(text[1..], pattern, mark)
  {
  }

  lemma ReplaceHits(text: string, pattern: string, mark: string)
    requires pattern != "" && At(text, 0, pattern)
    ensures Replace(text, pattern, mark) == mark + Replace(text[|pattern|..], pattern, mark)
  {
    assert pattern <= text;
  }

  /** The first occurrence is the first replaced. */
  lemma {:induction false} ReplaceFirst(text: string, i: nat, pattern: string, mark: string)
    requires pattern != "" && At(text, i, pattern) && forall j: nat | j < i :: !At(text, j, pattern)
    ensures Replace(text, pattern, mark) == text[..i] + mark + Replace(text[i + |pattern|..], pattern, mark)
    decreases i
  {
    hide Replace;
    if i == 0 {
      ReplaceHits(text, pattern, mark);
      assert text[..0] + mark == mark;
    } else {
      var head, tail := [text[0]], text[1..];
      assert text == head + tail;
      ReplaceSkips(text, pattern, mark);
      AtPast(head, tail, i, pattern);
      forall j: nat | j < i - 1 ensures !At(tail, j, pattern) {
        AtPast(head, tail, j + 1, pattern);
      }
      ReplaceFirst(tail, i - 1, pattern, mark);
      PutBack(text, i, pattern, mark);
    }
  }

  lemma PutBack(text: string, i: nat, pattern: string, mark: string)
    requires 1 <= i && i + |pattern| <= |text|
    ensures var tail := text[1..];
            forall rest :: [text[0]] + (tail[..i - 1] + mark + rest) == text[..i] + mark + rest
    ensures text[1..][i - 1 + |pattern|..] == text[i + |pattern|..]
  {
    assert [text[0]] + text[1..][..i - 1] == text[..i];
  }

  // ---------------------------------------------------------------- what replacing makes of a text

  /** The pieces with a separator between them. */
  function Glue(pieces: seq<string>, between: string): string
    requires pieces != []
  {
    if |pieces| == 1 then pieces[0] else pieces[0] + between + Glue(pieces[1..], between)
  }

  /** No occurrence of the pattern starts in the piece, not even one that ends in the pattern behind it. */
  ghost predicate Before(piece: string, pattern: string) {
    forall j: nat | j < |piece| :: !At(piece + pattern, j, pattern)
  }

  /** The pieces of a text between the leftmost, non-overlapping occurrences of the pattern. */
  ghost predicate Cut(pieces: seq<string>, pattern: string) {
    && pieces != []
    && (forall i | 0 <= i < |pieces| - 1 :: Before(pieces[i], pattern))
    && !Contains(pieces[|pieces| - 1], pattern)
  }

  lemma CutTail(pieces: seq<string>, pattern: string)
    requires Cut(pieces, pattern) && |pieces| > 1
    ensures Cut(pieces[1..], pattern) && Before(pieces[0], pattern)
  {
    assert forall i | 0 <= i < |pieces| - 2 :: pieces[1..][i] == pieces[i + 1];
  }

  lemma FirstIsAtPiece(piece: string, pattern: string, rest: string)
    requires Before(piece, pattern)
    ensures var text := piece + pattern + rest;
            At(text, |piece|, pattern) && forall j: nat | j < |piece| :: !At(text, j, pattern)
  {
    var text, front := piece + pattern + rest, piece + pattern;
    assert text[|piece|..|piece| + |pattern|] == pattern;
    forall j: nat | j < |piece| ensures !At(text, j, pattern) {
      assert text[j..j + |pattern|] == front[j..j + |pattern|];
      assert !At(front, j, pattern);
    }
  }

  /** Every occurrence becomes the mark, and nothing else changes. */
  lemma {:induction false} ReplaceGlued(pieces: seq<string>, pattern: string, mark: string)
    requires pattern != "" && Cut(pieces, pattern)
    ensures Replace(Glue(pieces, pattern), pattern, mark) == Glue(pieces, mark)
    decreases |pieces|
  {
    if |pieces| == 1 {
      ReplaceAbsent(pieces[0], pattern, mark);
    } else {
      hide Replace, Before;
      CutTail(pieces, pattern);
      ReplaceGlued(pieces[1..], pattern, mark);
      var piece, rest := pieces[0], Glue(pieces[1..], pattern);
      FirstIsAtPiece(piece, pattern, rest);
      ReplaceFirst(piece + pattern + rest, |piece|, pattern, mark);
      MiddlePart(piece, pattern, rest);
    }
  }

  lemma MiddlePart(head: string, middle: string, tail: string)
    ensures var text := head + middle + tail;
            && At(text, |head|, middle) && text[..|head|] == head && text[|head| + |middle|..] == tail
  {
  }

  /** Every text has such pieces. */
  lemma {:induction false} CutExists(text: string, pattern: string) returns (pieces: seq<string>)
    requires pattern != ""
    ensures Cut(pieces, pattern) && Glue(pieces, pattern) == text
    decreases |text|
  {
    if !Contains(text, pattern) {
      pieces := [text];
    } else {
      var i := FirstAt(text, pattern);
      var rest := CutExists(text[i + |pattern|..], pattern);
      var piece := text[..i];
      pieces := [piece] + rest;
      assert text == piece + pattern + text[i + |pattern|..] by {
        assert text[i..i + |pattern|] == pattern;
      }
      assert pieces[1..] == rest;
      forall j: nat | j < |piece| ensures !At(piece + pattern, j, pattern) {
        assert text[j..j + |pattern|] == (piece + pattern)[j..j + |pattern|];
        assert !At(text, j, pattern);
      }
      assert forall k | 1 <= k < |pieces| :: pieces[k] == rest[k - 1];
    }
  }

  lemma FirstAt(text: string, pattern: string) returns (i: nat)
    requires Contains(text, pattern)
    ensures At(text, i, pattern) && forall j: nat | j < i :: !At(text, j, pattern)
  {
    i := 0;
    while !At(text, i, pattern)
      invariant forall j: nat | j < i :: !At(text, j, pattern)
      invariant i <= |text|
      decreases |text| - i
    {
      i := i + 1;
    }
  }

  // ---------------------------------------------------------------- when the pattern can come back

  /** The mark touches the pattern: it stands inside it, or a first part of it ends it. */
  ghost predicate Touches(pattern: string, mark: string) {
    Contains(pattern, mark) || exists k | 1 <= k <= |mark| && k <= |pattern| :: pattern[|pattern| - k..] == mark[..k]
  }

  /** Some overlap of the two, in any order: one inside the other, or the end of one the head of the other. */
  ghost predicate Overlaps(pattern: string, mark: string) {
    Touches(pattern, mark) || Touches(mark, pattern)
  }

  /** A tail of the pattern that heads a text starting with the mark makes them touch. */
  lemma HeadOfMark(pattern: string, mark: string, j: nat, rest: string)
    requires mark != "" && j < |pattern|
    ensures pattern[j..] <= mark + rest ==> Touches(pattern, mark)
  {
    var q := pattern[j..];
    var k := Min(|q|, |mark|);
    if q <= mark + rest {
      assert q[..k] == (mark + rest)[..k] == mark[..k];
      if |q| <= |mark| {
        assert pattern[|pattern| - k..] == q == mark[..k];
      } else {
        assert pattern[j..j + |mark|] == q[..k] == mark;
        assert At(pattern, j, mark);
      }
    }
  }

  /** A tail of the pattern that heads the output already headed the text. */
  lemma {:induction false} HeadSurvives(text: string, pattern: string, mark: string, j: nat)
    requires pattern != "" && mark != "" && j <= |pattern| && !Touches(pattern, mark)
    ensures pattern[j..] <= Replace(text, pattern, mark) ==> pattern[j..] <= text
    decreases |text|
  {
    if |text| < |pattern| || j == |pattern| {
    } else if pattern <= text {
      HeadOfMark(pattern, mark, j, Replace(text[|pattern|..], pattern, mark));
    } else {
      HeadSurvives(text[1..], pattern, mark, j + 1);
      var rest := Replace(text[1..], pattern, mark);
      assert pattern[j..] == [pattern[j]] + pattern[j + 1..] && text == [text[0]] + text[1..];
      assert pattern[j..] <= [text[0]] + rest ==> pattern[j] == text[0] && pattern[j + 1..] <= rest by {
        ConsPrefix(pattern[j], pattern[j + 1..], text[0], rest);
      }
    }
  }

  lemma ConsPrefix(x: char, xs: string, y: char, ys: string)
    ensures [x] + xs <= [y] + ys <==> x == y && xs <= ys
  {
    if [x] + xs <= [y] + ys {
      assert ([x] + xs)[0] == ([y] + ys)[0];
      assert xs == ([x] + xs)[1..] == ([y] + ys)[1..|xs| + 1] == ys[..|xs|];
    }
  }

  /** Occurrences past a prefix are occurrences in the rest. */
  lemma AtPast(prefix: string, rest: string, i: nat, pattern: string)
    requires |prefix| <= i
    ensures At(prefix + rest, i, pattern) <==> At(rest, i - |prefix|, pattern)
  {
    if i + |pattern| <= |prefix + rest| {
      assert (prefix + rest)[i..i + |pattern|] == rest[i - |prefix|..i - |prefix| + |pattern|];
    }
  }

  /** An occurrence that starts inside a leading mark makes them overlap. */
  lemma StartsInMark(pattern: string, mark: string, i: nat, rest: string)
    requires pattern != "" && i < |mark| && At(mark + rest, i, pattern)
    ensures Touches(mark, pattern)
  {
    var out := mark + rest;
    var k := Min(|pattern|, |mark| - i);
    assert out[i..i + k] == mark[i..i + k];
    assert out[i..i + |pattern|][..k] == out[i..i + k];
    if k == |pattern| {
      assert At(mark, i, pattern);
    } else {
      assert mark[|mark| - k..] == pattern[..k];
    }
  }

  /** What does not overlap its mark cannot come back. */
  lemma {:induction false} ReplaceRemoves(text: string, pattern: string, mark: string)
    requires pattern != "" && mark != "" && !Overlaps(pattern, mark)
    ensures !Contains(Replace(text, pattern, mark), pattern)
  {
    var out := Replace(text, pattern, mark);
    if |text| < |pattern| {
    } else if pattern <= text {
      var rest := Replace(text[|pattern|..], pattern, mark);
      ReplaceRemoves(text[|pattern|..], pattern, mark);
      forall i: nat ensures !At(out, i, pattern) {
        if i < |mark| {
          if At(out, i, pattern) {
            StartsInMark(pattern, mark, i, rest);
          }
        } else {
          AtPast(mark, rest, i, pattern);
        }
      }
    } else {
      var rest := Replace(text[1..], pattern, mark);
      ReplaceRemoves(text[1..], pattern, mark);
      HeadSurvives(text, pattern, mark, 0);
      forall i: nat ensures !At(out, i, pattern) {
        if i == 0 {
          assert At(out, 0, pattern) ==> pattern <= out;
          assert pattern[0..] == pattern;
        } else {
          AtPast([text[0]], rest, i, pattern);
        }
      }
    }
  }

  lemma NoEarlierInside(pattern: string, mark: string, a: nat, j: nat)
    requires At(pattern, a, mark) && j < a
    ensures var text := pattern[..a] + pattern + pattern[a + |mark|..];
            At(text, j, pattern) ==> At(pattern, j, mark)
  {
    var text := pattern[..a] + pattern + pattern[a + |mark|..];
    if At(text, j, pattern) {
      assert text[j + a..j + a + |mark|] == text[j..j + |pattern|][a..a + |mark|] == mark;
      assert text[j + a..j + a + |mark|] == pattern[j..j + |mark|];
    }
  }

  lemma AroundMark(pattern: string, mark: string, a: nat)
    requires At(pattern, a, mark)
    ensures var (head, tail) := (pattern[..a], pattern[a + |mark|..]);
            head + mark + tail == pattern
  {
    assert pattern == pattern[..a] + pattern[a..a + |mark|] + pattern[a + |mark|..];
  }

  /** The mark inside the pattern: removing the pattern from between its own two ends puts it back. */
  lemma MarkInside(pattern: string, mark: string) returns (text: string)
    requires pattern != "" && mark != "" && Contains(pattern, mark)
    ensures Contains(Replace(text, pattern, mark), pattern)
  {
    hide Replace;
    var a := FirstAt(pattern, mark);
    var head, tail := pattern[..a], pattern[a + |mark|..];
    text := head + pattern + tail;
    MiddlePart(head, pattern, tail);
    forall j: nat | j < a ensures !At(text, j, pattern) {
      NoEarlierInside(pattern, mark, a, j);
    }
    ReplaceFirst(text, a, pattern, mark);
    NothingToReplace(tail, pattern, mark);
    AroundMark(pattern, mark, a);
    assert At(pattern, 0, pattern);
  }

  /** A text shorter than the pattern stays. */
  lemma NothingToReplace(text: string, pattern: string, mark: string)
    requires |text| < |pattern|
    ensures Replace(text, pattern, mark) == text
  {
  }

  lemma NoEarlierAtEnd(pattern: string, n: nat, j: nat)
    requires j < n < |pattern|
    ensures At(pattern[..n] + pattern, j, pattern) ==> pattern[n] == pattern[0]
  {
    var text := pattern[..n] + pattern;
    if At(text, j, pattern) {
      assert text[j..j + |pattern|][0] == text[j] == pattern[j];
      assert text[j..j + |pattern|][n] == text[j + n] == pattern[j];
    }
  }

  /** The mark's first part at the pattern's end: the part before it, standing in front of an
      occurrence, is completed by the mark that replaces the occurrence. */
  lemma MarkAtEnd(pattern: string, mark: string, k: nat) returns (text: string)
    requires pattern != "" && mark != "" && pattern[0] != mark[0]
    requires 1 <= k <= |mark| && k <= |pattern| && pattern[|pattern| - k..] == mark[..k]
    ensures Contains(Replace(text, pattern, mark), pattern)
  {
    var n := |pattern| - k;
    var head := pattern[..n];
    assert pattern[n] == pattern[|pattern| - k..][0] == mark[0];
    text := head + pattern;
    assert text[n..n + |pattern|] == pattern;
    forall j: nat | j < n ensures !At(text, j, pattern) {
      NoEarlierAtEnd(pattern, n, j);
    }
    ReplaceFirst(text, n, pattern, mark);
    assert text[n + |pattern|..] == "" && text[..n] == head;
    var out := Replace(text, pattern, mark);
    assert out == head + mark;
    assert out[..|pattern|] == pattern;
    assert At(out, 0, pattern);
  }

  /** The pattern's first part at the mark's end, or all of it inside: what is missing stands behind. */
  lemma PatternInMark(pattern: string, mark: string, i: nat) returns (text: string)
    requires pattern != "" && i < |mark|
    requires var k := Min(|pattern|, |mark| - i); mark[i..i + k] == pattern[..k]
    ensures Contains(Replace(text, pattern, mark), pattern)
  {
    var k := Min(|pattern|, |mark| - i);
    var tail := pattern[k..];
    text := pattern + tail;
    ReplaceHits(text, pattern, mark);
    assert text[|pattern|..] == tail;
    var out := mark + tail;
    assert Replace(text, pattern, mark) == out;
    assert pattern == pattern[..k] + tail;
    assert k < |pattern| ==> out[i..i + |pattern|] == mark[i..i + k] + tail;
    assert At(out, i, pattern);
  }

  /** Every overlap lets some text keep the pattern. */
  lemma OverlapLeaks(pattern: string, mark: string) returns (text: string)
    requires pattern != "" && mark != "" && pattern[0] != mark[0] && Overlaps(pattern, mark)
    ensures Contains(Replace(text, pattern, mark), pattern)
  {
    if Contains(pattern, mark) {
      text := MarkInside(pattern, mark);
    } else if Touches(pattern, mark) {
      var k :| 1 <= k <= |mark| && k <= |pattern| && pattern[|pattern| - k..] == mark[..k];
      text := MarkAtEnd(pattern, mark, k);
    } else if Contains(mark, pattern) {
      var i: nat :| At(mark, i, pattern);
      text := PatternInMark(pattern, mark, i);
    } else {
      var k :| 1 <= k <= |mark| && k <= |pattern| && mark[|mark| - k..] == pattern[..k];
      assert mark[|mark| - k..|mark| - k + k] == mark[|mark| - k..];
      text := PatternInMark(pattern, mark, |mark| - k);
    }
  }

  ghost predicate RemovesFrom(text: string, pattern: string, mark: string)
    requires pattern != ""
  {
    !Contains(Replace(text, pattern, mark), pattern)
  }

  /** Exactly when replacing a pattern by a mark with another first character removes it from every text. */
  lemma RemovedFromEveryText(pattern: string, mark: string)
    requires pattern != "" && mark != "" && pattern[0] != mark[0]
    ensures (forall text :: RemovesFrom(text, pattern, mark)) <==> !Overlaps(pattern, mark)
  {
    if !Overlaps(pattern, mark) {
      forall text ensures RemovesFrom(text, pattern, mark) {
        ReplaceRemoves(text, pattern, mark);
      }
    } else {
      var text := OverlapLeaks(pattern, mark);
      assert !RemovesFrom(text, pattern, mark);
    }
  }

  // ---------------------------------------------------------------- the scrub

  /** `_scrub`: the weight path, then the cache root unless it is "/" or empty. */
  function ScrubText(text: string, weight: string, mark: string, root: string, env: string): string
    requires weight != ""
  {
    var once := Replace(text, weight, mark);
    if |root| > 1 then Replace(once, root, EnvLabel(env)) else once
  }

  /** What a caller can check at a glance: a root without '$' does not overlap the label of a name
      without '/', nor, if it has no '}' either, of any name it does not stand in. */
  lemma PlainRootDoesNotOverlap(root: string, env: string)
    requires root != "" && root[0] == '/' && '$' !in root
    requires '/' !in env || ('}' !in root && !Contains(env, root))
    ensures !Overlaps(root, EnvLabel(env))
  {
    var mark := EnvLabel(env);
    assert mark[0] == '$' && mark[|mark| - 1] == '}';
    forall i: nat ensures !At(root, i, mark) {
      AtHead(root, i, mark);
    }
    forall k | 1 <= k <= |mark| && k <= |root| ensures root[|root| - k..] != mark[..k] {
      assert root[|root| - k..][0] == root[|root| - k] != mark[..k][0];
    }
    forall k | 1 <= k <= |mark| && k <= |root| ensures mark[|mark| - k..] != root[..k] {
      assert mark[|mark| - k..][0] == mark[|mark| - k] && root[..k][0] == '/';
      assert mark[|mark| - k..][k - 1] == '}' && root[..k][k - 1] == root[k - 1];
    }
    forall i: nat ensures !At(mark, i, root) {
      if At(mark, i, root) {
        InLabel(root, env, i);
      }
    }
  }

  lemma InLabel(root: string, env: string, i: nat)
    requires root != "" && root[0] == '/' && At(EnvLabel(env), i, root)
    ensures '/' in env
    ensures '}' !in root ==> Contains(env, root)
  {
    var mark := EnvLabel(env);
    assert mark[i] == mark[i..i + |root|][0] == '/';
    assert env[i - 2] == '/';
    if i + |root| == |mark| {
      assert mark[i..i + |root|][|root| - 1] == '}';
    } else {
      assert env[i - 2..i - 2 + |root|] == mark[i..i + |root|];
      assert At(env, i - 2, root);
    }
  }

  /** What the scrub makes of a text, spelled out and without a replacement: cut at the weight path and
      put together with its label, then, unless the root is "/" or empty, cut at the root and put together
      with the root's label. */
  ghost predicate Scrubbed(text: string, weight: string, root: string, env: string, rel: string, out: string) {
    exists once: string ::
      && Rewritten(text, weight, "${" + env + "}/" + rel, once)
      && if |root| > 1 then Rewritten(once, root, "${" + env + "}", out) else out == once
  }

  ghost predicate Rewritten(text: string, pattern: string, mark: string, out: string) {
    exists pieces: seq<string> :: Cut(pieces, pattern) && Glue(pieces, pattern) == text && out == Glue(pieces, mark)
  }

  /** Cutting and putting together is replacing. */
  lemma RewrittenIffReplaced(text: string, pattern: string, mark: string, out: string)
    requires pattern != ""
    ensures Rewritten(text, pattern, mark, out) <==> out == Replace(text, pattern, mark)
  {
    var pieces := CutExists(text, pattern);
    ReplaceGlued(pieces, pattern, mark);
    if Rewritten(text, pattern, mark, out) {
      var others: seq<string> :| Cut(others, pattern) && Glue(others, pattern) == text && out == Glue(others, mark);
      ReplaceGlued(others, pattern, mark);
    }
  }

  /** The scrub does exactly that to every text. */
  lemma ScrubSpelled(text: string, weight: string, root: string, env: string, rel: string, out: string)
    requires weight != ""
    ensures Scrubbed(text, weight, root, env, rel, out) <==>
              out == ScrubText(text, weight, EnvLabel(env) + "/" + rel, root, env)
  {
    hide Replace, Rewritten;
    var mark, sign := "${" + env + "}/" + rel, "${" + env + "}";
    assert mark == EnvLabel(env) + "/" + rel;
    var once := Replace(text, weight, mark);
    RewrittenIffReplaced(text, weight, mark, once);
    if |root| > 1 {
      RewrittenIffReplaced(once, root, sign, out);
    }
    forall other: string | Rewritten(text, weight, mark, other) ensures other == once {
      RewrittenIffReplaced(text, weight, mark, other);
    }
  }

  /** One mention of the weight path in a text without the root becomes its label. */
  lemma WeightBecomesLabel(a: string, b: string, weight: string, root: string, env: string, rel: string)
    requires weight != "" && Before(a, weight) && !Contains(b, weight)
    requires !Contains(a + ("${" + env + "}/" + rel) + b, root)
    ensures ScrubText(a + weight + b, weight, EnvLabel(env) + "/" + rel, root, env) == a + ("${" + env + "}/" + rel) + b
  {
    var mark := EnvLabel(env) + "/" + rel;
    assert mark == "${" + env + "}/" + rel;
    assert [a, b][1..] == [b];
    ReplaceGlued([a, b], weight, mark);
    if |root| > 1 {
      ReplaceAbsent(a + mark + b, root, EnvLabel(env));
    }
  }

  /** One mention of the root in a text without the weight path becomes the root's label. */
  lemma RootBecomesLabel(a: string, b: string, weight: string, mark: string, root: string, env: string)
    requires weight != "" && |root| > 1 && Before(a, root) && !Contains(b, root) && !Contains(a + root + b, weight)
    ensures ScrubText(a + root + b, weight, mark, root, env) == a + ("${" + env + "}") + b
  {
    ReplaceAbsent(a + root + b, weight, mark);
    assert [a, b][1..] == [b];
    ReplaceGlued([a, b], root, EnvLabel(env));
  }

  lemma ContainsTransitive(text: string, long: string, short: string)
    requires Contains(text, long) && short <= long
    ensures Contains(text, short)
  {
    var i: nat :| At(text, i, long);
    assert text[i..i + |short|] == text[i..i + |long|][..|short|] == short;
    assert At(text, i, short);
  }

  /** Scrubbed text holds neither path, whatever the text; scrubbing again changes nothing. The
      weight path extends the root, as the containment check of the resolver ensures. */
  lemma ScrubIsClean(text: string, weight: string, mark: string, root: string, env: string)
    requires |root| > 1 && root + "/" <= weight && !Overlaps(root, EnvLabel(env))
    ensures var out := ScrubText(text, weight, mark, root, env);
            && !Contains(out, root)
            && !Contains(out, weight)
            && ScrubText(out, weight, mark, root, env) == out
  {
    ReplaceRemoves(Replace(text, weight, mark), root, EnvLabel(env));
    var out := ScrubText(text, weight, mark, root, env);
    assert root <= weight by {
      assert root == (root + "/")[..|root|] == weight[..|root|];
    }
    if Contains(out, weight) {
      ContainsTransitive(out, weight, root);
      assert false;
    }
    ReplaceAbsent(out, weight, mark);
    ReplaceAbsent(out, root, EnvLabel(env));
  }

  /** A relative path that a catalog may hold, and the names it resolves to. */
  ghost predicate LeadsTo(rel: string, names: seq<string>) {
    Paths.ValidRelative(rel) && '\0' !in rel && names != [] && Paths.Named(Paths.Split(rel)) == names
  }

  /** The weight file that `rel` leads to below the root, and its label. */
  ghost predicate Cleaned(text: string, names: seq<string>, rel: string, root: string, env: string)
    requires root != ""
  {
    !Contains(ScrubText(text, root + Paths.Body(names), EnvLabel(env) + "/" + rel, root, env), root)
  }

  lemma OneName(name: string)
    requires Paths.IsName(name) && '\\' !in name && '\0' !in name && !(|name| >= 2 && name[1] == ':')
    ensures LeadsTo(name, [name]) && Paths.Body([name]) == "/" + name
  {
    Paths.SplitName(name);
    assert Paths.Named([name]) == [name] + Paths.Named([]) by {
      assert [name][1..] == [];
    }
    assert Paths.Body([name]) == "/" + name + Paths.Body([name][1..]);
  }

  /** The exact condition for both replacements together, in terms of the root and the environment
      name alone: no weight file that a catalog can name below the root and no captured text can keep the
      root exactly when the root and its label do not overlap. */
  lemma CleanForEveryWeight(root: string, env: string)
    requires |root| > 1 && root[0] == '/'
    ensures (forall text, names, rel | LeadsTo(rel, names) :: Cleaned(text, names, rel, root, env)) <==>
              !Overlaps(root, EnvLabel(env))
  {
    if !Overlaps(root, EnvLabel(env)) {
      forall text, names, rel | LeadsTo(rel, names) ensures Cleaned(text, names, rel, root, env) {
        var weight := root + Paths.Body(names);
        assert Paths.Body(names)[..1] == "/";
        assert weight == root + "/" + Paths.Body(names)[1..];
        ScrubIsClean(text, weight, EnvLabel(env) + "/" + rel, root, env);
      }
    } else {
      var text := OverlapLeaks(root, EnvLabel(env));
      var name := seq(|text| + 3, _ => 'x');
      assert name[0] == 'x' && name[1] == 'x';
      OneName(name);
      var weight := root + Paths.Body([name]);
      assert Replace(text, weight, EnvLabel(env) + "/" + name) == text;
      assert !Cleaned(text, [name], name, root, env);
    }
  }

  /** A replacement shows: a '/' of the text has become the mark's '$', and nothing before it changed. */
  lemma ReplaceShows(text: string, pattern: string, mark: string) returns (j: nat)
    requires pattern != "" && pattern[0] == '/' && mark != "" && mark[0] == '$' && Contains(text, pattern)
    ensures var out := Replace(text, pattern, mark);
            j < |text| && text[j] == '/' && j < |out| && out[j] == '$' && out[..j] == text[..j]
  {
    hide Replace;
    j := FirstAt(text, pattern);
    AtHead(text, j, pattern);
    ReplaceFirst(text, j, pattern, mark);
    var out := text[..j] + mark + Replace(text[j + |pattern|..], pattern, mark);
    assert out[j] == mark[0] && out[..j] == text[..j];
  }

  /** Scrubbing a text that holds the root shows, whatever the root, the names and the labels. */
  lemma ScrubShows(text: string, weight: string, mark: string, root: string, env: string) returns (j: nat)
    requires |root| > 1 && root[0] == '/' && root + "/" <= weight
    requires mark != "" && mark[0] == '$' && Contains(text, root)
    ensures var out := ScrubText(text, weight, mark, root, env);
            j < |text| && text[j] == '/' && j < |out| && out[j] == '$'
  {
    hide Contains, Replace;
    var once := Replace(text, weight, mark);
    assert weight[0] == (root + "/")[0] == '/';
    if Contains(text, weight) {
      var k := ReplaceShows(text, weight, mark);
      j := k;
      if Contains(once, root) {
        var i := ReplaceShows(once, root, EnvLabel(env));
        var out := Replace(once, root, EnvLabel(env));
        if i < k {
          assert once[..k][i] == text[..k][i];
          j := i;
        } else {
          assert i != k;
          assert out[..i][k] == once[..i][k];
        }
      } else {
        ReplaceAbsent(once, root, EnvLabel(env));
      }
    } else {
      ReplaceAbsent(text, weight, mark);
      j := ReplaceShows(text, root, EnvLabel(env));
    }
  }

  /** The scrub changes a text exactly when the root occurs in it. */
  lemma ScrubChanges(text: string, weight: string, mark: string, root: string, env: string)
    requires |root| > 1 && root[0] == '/' && root + "/" <= weight && mark != "" && mark[0] == '$'
    ensures ScrubText(text, weight, mark, root, env) == text <==> !Contains(text, root)
  {
    if Contains(text, root) {
      var j := ScrubShows(text, weight, mark, root, env);
    } else {
      assert root == (root + "/")[..|root|] == weight[..|root|];
      if Contains(text, weight) {
        ContainsTransitive(text, weight, root);
        assert false;
      }
      ReplaceAbsent(text, weight, mark);
      ReplaceAbsent(text, root, EnvLabel(env));
    }
  }
}
