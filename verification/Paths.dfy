/** The containment argument of `resolve_and_verify`: lexical path normalisation in a tree without
    symlinks, the string test `abs_path.startswith(real_root + os.sep)`, and what the segment check
    on a catalog's relative path contributes to it. */
module Paths {
  import opened Text

  // ---------------------------------------------------------------- splitting and rendering

  /** `s.split("/")`; never empty. */
  function Split(s: string): (segments: seq<string>)
    ensures segments != []
  {
    if s == "" then [""]
    else
      var rest := Split(s[1..]);
      if s[0] == '/' then [""] + rest else [[s[0]] + rest[0]] + rest[1..]
  }

  /** A segment that names an entry of a directory. */
  predicate IsName(segment: string) {
    segment != "" && segment != "." && segment != ".." && '/' !in segment
  }

  predicate AllNames(names: seq<string>) { forall i | 0 <= i < |names| :: IsName(names[i]) }

  /** One segment of a walk from the root: "" and "." stay, ".." goes up (not above the root). */
  function Walk(at: seq<string>, segment: string): seq<string> {
    if segment == "" || segment == "." then at
    else if segment == ".." then (if at == [] then [] else at[..|at| - 1])
    else at + [segment]
  }

  function WalkAll(at: seq<string>, segments: seq<string>): seq<string>
    decreases |segments|
  {
    if segments == [] then at else WalkAll(Walk(at, segments[0]), segments[1..])
  }

  function Body(names: seq<string>): string {
    if names == [] then "" else "/" + names[0] + Body(names[1..])
  }

  /** The absolute path of a place in the tree. */
  function Render(names: seq<string>): string { if names == [] then "/" else Body(names) }

  /** The place an absolute path names, without symlinks. */
  function Resolve(path: string): seq<string> { WalkAll([], Split(path)) }

  /** `os.path.join(a, b)`. */
  function PathJoin(a: string, b: string): string {
    if b != "" && b[0] == '/' then b
    else if a == "" || a[|a| - 1] == '/' then a + b
    else a + "/" + b
  }

  /** `os.path.realpath`, without symlinks: a relative path starts at the working directory. */
  function RealPath(cwd: string, path: string): string { Render(Resolve(PathJoin(cwd, path))) }

  /** `abs_path.startswith(real_root + os.sep)`. */
  predicate Contained(root: string, path: string) { root + "/" <= path }

  // ---------------------------------------------------------------- the string test

  lemma ShorterDiffers(r: string, a: string, x: string, b: string)
    requires '/' !in x && a != "" && a[0] == '/' && |r| < |x|
    ensures !(r + a <= x + b)
  {
    assert (r + a)[|r|] == '/' && (x + b)[|r|] == x[|r|];
  }

  lemma LongerDiffers(r: string, a: string, x: string, b: string)
    requires '/' !in r && (b != "" ==> b[0] == '/') && |x| < |r|
    ensures !(r + a <= x + b)
  {
    assert (r + a)[|x|] == r[|x|];
    assert b != "" ==> (x + b)[|x|] == '/';
  }

  lemma SameLength(r: string, a: string, x: string, b: string)
    requires |r| == |x|
    ensures r + a <= x + b <==> r == x && a <= b
  {
    var left, right := r + a, x + b;
    if left <= right {
      assert r == left[..|r|] == right[..|x|] == x;
      assert a == left[|r|..] == right[|r|..|left|] == b[..|a|];
    }
  }

  /** Two names followed by separators or ends line up only if they are the same name. */
  lemma NamesAlign(r: string, a: string, x: string, b: string)
    requires '/' !in r && '/' !in x && a != "" && a[0] == '/' && (b != "" ==> b[0] == '/')
    ensures r + a <= x + b <==> r == x && a <= b
  {
    if |r| < |x| {
      ShorterDiffers(r, a, x, b);
    } else if |x| < |r| {
      LongerDiffers(r, a, x, b);
    } else {
      SameLength(r, a, x, b);
    }
  }

  /** Below any prefix of names the string test is the component test. */
  lemma {:induction false} BodyContained(root: seq<string>, names: seq<string>)
    requires AllNames(root) && AllNames(names)
    ensures Body(root) + "/" <= Body(names) <==> root < names
  {
    if names == [] {
      assert !(root < names);
    } else if root == [] {
      assert Body(names)[0] == '/';
      assert "" + "/" == "/" <= Body(names);
    } else {
      var a, b := Body(root[1..]) + "/", Body(names[1..]);
      BodyContained(root[1..], names[1..]);
      NamesAlign(root[0], a, names[0], b);
      Slashed(root[0], Body(root[1..]), names[0], b);
      ConsSeq(root, names);
    }
  }

  lemma Slashed(r: string, a: string, x: string, b: string)
    ensures ("/" + r + a) + "/" <= "/" + x + b <==> r + (a + "/") <= x + b
  {
    var left, right := r + (a + "/"), x + b;
    assert ("/" + r + a) + "/" == "/" + left && "/" + x + b == "/" + right;
    if "/" + left <= "/" + right {
      assert left == ("/" + left)[1..] == ("/" + right)[1..|left| + 1] == right[..|left|];
    }
  }

  lemma ConsSeq(root: seq<string>, names: seq<string>)
    requires root != [] && names != []
    ensures root < names <==> root[0] == names[0] && root[1..] < names[1..]
  {
    assert root == [root[0]] + root[1..] && names == [names[0]] + names[1..];
    if root < names {
      assert root[1..] == names[..|root|][1..] == names[1..][..|root| - 1];
    }
  }

  /** For places in the tree, the startswith test is exactly strict containment by components -
      except below "/", where it refuses everything. */
  lemma ContainedIffComponents(root: seq<string>, names: seq<string>)
    requires AllNames(root) && AllNames(names)
    ensures Contained(Render(root), Render(names)) <==> root != [] && root < names
  {
    if root == [] {
      if names != [] {
        assert Render(names)[1] == names[0][0] != '/';
      }
      assert (Render(root) + "/")[1] == '/';
    } else {
      BodyContained(root, names);
      if names == [] {
        assert |Body(root)| >= 1;
      }
    }
  }

  // ---------------------------------------------------------------- the relative path

  /** `_validate_relative_path` on a string. */
  predicate ValidRelative(rel: string) {
    && rel != "" && '\\' !in rel && rel[0] != '/'
    && !(|rel| >= 2 && rel[1] == ':' && ('a' <= rel[0] <= 'z' || 'A' <= rel[0] <= 'Z'))
    && ".." !in Split(rel)
  }

  /** A segment stands at a place of a path: between slashes or its ends. */
  ghost predicate SegmentAt(path: string, i: nat, segment: string) {
    && i + |segment| <= |path| && path[i..i + |segment|] == segment
    && (i == 0 || path[i - 1] == '/')
    && (i + |segment| == |path| || path[i + |segment|] == '/')
  }

  /** The first slash of a path, or its end. */
  lemma FirstSlash(s: string) returns (i: nat)
    ensures i <= |s| && '/' !in s[..i] && (i < |s| ==> s[i] == '/')
  {
    i := 0;
    while i < |s| && s[i] != '/'
      invariant i <= |s| && '/' !in s[..i]
    {
      assert s[..i + 1] == s[..i] + [s[i]];
      i := i + 1;
    }
  }

  /** The segments of a path are what stands between its slashes. */
  lemma {:induction false} SplitSegments(s: string, segment: string)
    requires '/' !in segment
    ensures segment in Split(s) <==> exists i: nat :: SegmentAt(s, i, segment)
    decreases |s|
  {
    var k := FirstSlash(s);
    var head := s[..k];
    if k == |s| {
      assert head == s;
      SplitName(s);
      OnlySegment(s, segment);
    } else {
      var tail := s[k + 1..];
      assert s == head + "/" + tail;
      SplitName(head);
      SplitJoined(head, tail);
      SplitSegments(tail, segment);
      SegmentsOfBoth(head, tail, segment);
    }
  }

  lemma OnlySegment(s: string, segment: string)
    requires '/' !in s
    ensures s == segment <==> exists i: nat :: SegmentAt(s, i, segment)
  {
    if s == segment {
      assert SegmentAt(s, 0, segment);
    }
    forall i: nat | SegmentAt(s, i, segment) ensures s == segment {
      assert i == 0 && |segment| == |s|;
    }
  }

  lemma SegmentsOfBoth(head: string, tail: string, segment: string)
    requires '/' !in head && '/' !in segment
    ensures var s := head + "/" + tail;
            (exists i: nat :: SegmentAt(s, i, segment)) <==>
              segment == head || exists i: nat :: SegmentAt(tail, i, segment)
  {
    hide SegmentAt;
    var s, k := head + "/" + tail, |head|;
    HeadIsSegment(head, tail);
    if j: nat :| SegmentAt(tail, j, segment) {
      BackSegment(head, tail, k + 1 + j, segment);
    }
    if i: nat :| SegmentAt(s, i, segment) {
      if i > k {
        BackSegment(head, tail, i, segment);
      } else {
        FrontSegment(head, tail, i, segment);
      }
    }
  }

  lemma HeadIsSegment(head: string, tail: string)
    requires '/' !in head
    ensures var s := head + "/" + tail;
            && SegmentAt(s, 0, head) && s[|head|] == '/'
            && forall j | 0 <= j < |head| :: s[j] == head[j] && s[j] != '/'
  {
    var s := head + "/" + tail;
    assert s[0..|head|] == head;
    assert forall j | 0 <= j < |head| :: head[j] in head;
  }

  lemma BackSegment(head: string, tail: string, i: nat, segment: string)
    requires i > |head|
    ensures SegmentAt(head + "/" + tail, i, segment) <==> SegmentAt(tail, i - |head| - 1, segment)
  {
    var s, j := head + "/" + tail, i - |head| - 1;
    if i + |segment| <= |s| {
      assert s[i..i + |segment|] == tail[j..j + |segment|];
    }
  }

  lemma SlashInside(path: string, i: nat, segment: string, k: nat)
    requires SegmentAt(path, i, segment)
    ensures i <= k < i + |segment| && path[k] == '/' ==> '/' in segment
  {
    assert i <= k < i + |segment| ==> path[i..i + |segment|][k - i] == path[k];
  }

  lemma FrontSegment(head: string, tail: string, i: nat, segment: string)
    requires '/' !in head && '/' !in segment && i <= |head| && SegmentAt(head + "/" + tail, i, segment)
    ensures segment == head
  {
    var s := head + "/" + tail;
    HeadIsSegment(head, tail);
    SlashInside(s, i, segment, |head|);
  }

  /** What the segment check refuses, spelled out: an empty path, a backslash, an absolute path, a drive
      letter, and ".." standing anywhere between slashes or ends. */
  lemma ValidRelativeIff(rel: string)
    ensures ValidRelative(rel) <==>
              && rel != "" && '\\' !in rel && rel[0] != '/'
              && (|rel| >= 2 && rel[1] == ':' ==> !('a' <= rel[0] <= 'z') && !('A' <= rel[0] <= 'Z'))
              && !exists i: nat :: SegmentAt(rel, i, "..")
  {
    hide Split;
    SplitSegments(rel, "..");
  }

  predicate Stays(segment: string) { segment == "" || segment == "." }

  /** The segments that name something. */
  function Named(segments: seq<string>): seq<string> {
    if segments == [] then []
    else (if Stays(segments[0]) then [] else [segments[0]]) + Named(segments[1..])
  }

  lemma {:induction false} SplitNoSlash(s: string)
    ensures forall i | 0 <= i < |Split(s)| :: '/' !in Split(s)[i]
  {
    if s != "" {
      SplitNoSlash(s[1..]);
      var rest := Split(s[1..]);
      forall i | 0 <= i < |Split(s)| ensures '/' !in Split(s)[i] {
        if s[0] == '/' {
          assert Split(s) == [""] + rest;
          assert i > 0 ==> Split(s)[i] == rest[i - 1];
        } else {
          assert Split(s) == [[s[0]] + rest[0]] + rest[1..];
          assert i > 0 ==> Split(s)[i] == rest[i];
        }
      }
    }
  }

  lemma SplitCons(c: char, s: string)
    ensures Split([c] + s) == if c == '/' then [""] + Split(s) else [[c] + Split(s)[0]] + Split(s)[1..]
  {
    assert ([c] + s)[1..] == s;
  }

  lemma {:induction false} SplitJoined(a: string, b: string)
    ensures Split(a + "/" + b) == Split(a) + Split(b)
  {
    hide Split;
    if a == "" {
      assert "" + "/" + b == "/" + b && Split("") == [""] by { EmptySplit(); }
      SplitCons('/', b);
    } else {
      SplitJoined(a[1..], b);
      SplitCons(a[0], a[1..]);
      SplitCons(a[0], a[1..] + "/" + b);
      assert a == [a[0]] + a[1..] && a + "/" + b == [a[0]] + (a[1..] + "/" + b);
      HeadOfBoth(a[0], Split(a[1..]), Split(b));
    }
  }

  lemma EmptySplit()
    ensures Split("") == [""]
  {
  }

  /** Extending the first segment, or putting one in front, commutes with appending segments. */
  lemma HeadOfBoth(c: char, x: seq<string>, y: seq<string>)
    requires x != []
    ensures [[c] + (x + y)[0]] + (x + y)[1..] == ([[c] + x[0]] + x[1..]) + y
    ensures [""] + (x + y) == ([""] + x) + y
  {
    assert (x + y)[1..] == x[1..] + y;
  }

  lemma {:induction false} WalkAppend(at: seq<string>, a: seq<string>, b: seq<string>)
    ensures WalkAll(at, a + b) == WalkAll(WalkAll(at, a), b)
    decreases |a|
  {
    if a == [] {
      assert a + b == b;
    } else {
      assert (a + b)[0] == a[0] && (a + b)[1..] == a[1..] + b;
      WalkAppend(Walk(at, a[0]), a[1..], b);
    }
  }

  /** Without ".." a walk only appends the segments that name something. */
  lemma {:induction false} WalkDown(at: seq<string>, segments: seq<string>)
    requires ".." !in segments
    ensures WalkAll(at, segments) == at + Named(segments)
    decreases |segments|
  {
    if segments == [] {
      assert at + [] == at;
    } else {
      WalkDown(Walk(at, segments[0]), segments[1..]);
      assert (at + [segments[0]]) + Named(segments[1..]) == at + ([segments[0]] + Named(segments[1..]));
      assert [] + Named(segments[1..]) == Named(segments[1..]);
    }
  }

  lemma {:induction false} WalkNames(at: seq<string>, segments: seq<string>)
    requires AllNames(at) && forall i | 0 <= i < |segments| :: '/' !in segments[i]
    ensures AllNames(WalkAll(at, segments))
    decreases |segments|
  {
    if segments != [] {
      WalkNames(Walk(at, segments[0]), segments[1..]);
    }
  }

  lemma {:induction false} NamedEmpty(segments: seq<string>)
    ensures Named(segments) == [] <==> forall i | 0 <= i < |segments| :: Stays(segments[i])
  {
    if segments != [] {
      NamedEmpty(segments[1..]);
      if forall i | 0 <= i < |segments| :: Stays(segments[i]) {
        assert forall i | 0 <= i < |segments| - 1 :: segments[1..][i] == segments[i + 1];
      }
      if Named(segments) == [] {
        assert forall i | 1 <= i < |segments| :: segments[i] == segments[1..][i - 1];
      }
    }
  }

  /** Joining a relative path below an absolute root walks on from the root. */
  lemma ResolveJoined(root: string, rel: string)
    requires root != "" && root[0] == '/' && ValidRelative(rel)
    ensures Resolve(PathJoin(root, rel)) == Resolve(root) + Named(Split(rel))
  {
    hide Split, WalkAll, Named;
    var k := |root| - 1;
    if root[k] == '/' {
      var head := root[..k];
      assert PathJoin(root, rel) == head + "/" + rel;
      SplitJoined(head, rel);
      assert head + "/" + "" == root;
      SplitJoined(head, "");
      EmptyTail(Split(head));
      WalkAppend([], Split(head), Split(rel));
      WalkDown(WalkAll([], Split(head)), Split(rel));
    } else {
      SplitJoined(root, rel);
      WalkAppend([], Split(root), Split(rel));
      WalkDown(WalkAll([], Split(root)), Split(rel));
    }
  }

  lemma WalkOne(at: seq<string>, segment: string)
    ensures WalkAll(at, [segment]) == Walk(at, segment)
  {
    assert [segment][1..] == [];
  }

  lemma SplitName(name: string)
    requires '/' !in name
    ensures Split(name) == [name]
  {
    if name != "" {
      SplitName(name[1..]);
      assert [name[0]] + name[1..] == name;
    }
  }

  /** How a path resolves, step by step from its front: "/" is the root, an empty segment and "." stay,
      ".." goes up but never above the root, and a name goes down. */
  lemma ResolveSteps(path: string, segment: string)
    requires '/' !in segment
    ensures Resolve("/") == [] && Resolve("") == []
    ensures segment in ["", "."] ==> Resolve(path + "/" + segment) == Resolve(path)
    ensures segment == ".." ==>
              Resolve(path + "/" + segment)
              == if Resolve(path) == [] then [] else Resolve(path)[..|Resolve(path)| - 1]
    ensures IsName(segment) ==> Resolve(path + "/" + segment) == Resolve(path) + [segment]
  {
    SplitJoined("", "");
    assert "" + "/" + "" == "/";
    SplitName("");
    WalkOne([], "");
    WalkAppend([], [""], [""]);
    SplitJoined(path, segment);
    SplitName(segment);
    WalkAppend([], Split(path), [segment]);
    WalkOne(WalkAll([], Split(path)), segment);
  }

  lemma {:induction false} SplitBody(first: string, names: seq<string>)
    requires '/' !in first && AllNames(names)
    ensures Split(first + Body(names)) == [first] + names
    decreases |names|
  {
    hide Split;
    SplitName(first);
    if names == [] {
      assert first + "" == first && [first] + names == [first];
    } else {
      var more := names[1..];
      SplitBody(names[0], more);
      SplitJoined(first, names[0] + Body(more));
      BodyUnfolds(first, names);
      Regroup([first], [names[0]], more);
      assert [names[0]] + more == names;
    }
  }

  lemma BodyUnfolds(first: string, names: seq<string>)
    requires names != []
    ensures first + Body(names) == first + "/" + (names[0] + Body(names[1..]))
  {
    Regroup(first + "/", names[0], Body(names[1..]));
    Regroup(first, "/" + names[0], Body(names[1..]));
    Regroup(first, "/", names[0]);
  }

  lemma {:induction false} WalkNamesDown(at: seq<string>, names: seq<string>)
    requires AllNames(names)
    ensures WalkAll(at, names) == at + names
    decreases |names|
  {
    if names != [] {
      WalkNamesDown(Walk(at, names[0]), names[1..]);
      assert (at + [names[0]]) + names[1..] == at + names;
    }
  }

  /** Rendering and resolving are inverse, so resolving a resolved path changes nothing. */
  lemma ResolveRender(names: seq<string>)
    requires AllNames(names)
    ensures Resolve(Render(names)) == names
  {
    if names == [] {
      ResolveSteps("", "");
    } else {
      SplitBody("", names);
      assert "" + Body(names) == Body(names);
      WalkAppend([], [""], names);
      WalkOne([], "");
      WalkNamesDown([], names);
    }
  }

  lemma RealPathIsReal(cwd: string, path: string)
    requires cwd != "" && cwd[0] == '/'
    ensures RealPath(cwd, RealPath(cwd, path)) == RealPath(cwd, path)
  {
    hide Split, WalkAll, Body;
    var names := Resolve(PathJoin(cwd, path));
    SplitNoSlash(PathJoin(cwd, path));
    WalkNames([], Split(PathJoin(cwd, path)));
    ResolveRender(names);
    RenderIsAbsolute(names);
  }

  lemma RenderIsAbsolute(names: seq<string>)
    ensures Render(names) != "" && Render(names)[0] == '/'
  {
  }

  lemma EmptyTail(segments: seq<string>)
    ensures WalkAll([], segments + Split("")) == WalkAll([], segments)
  {
    WalkAppend([], segments, [""]);
    var at := WalkAll([], segments);
    assert WalkAll(at, [""]) == WalkAll(Walk(at, ""), [""][1..]) == at;
  }

  function Slash(a: string): string
    requires a != ""
  {
    if a[|a| - 1] == '/' then "" else "/"
  }

  lemma JoinRelative(a: string, b: string)
    requires a != "" && b != "" && b[0] != '/'
    ensures PathJoin(a, b) == a + Slash(a) + b && PathJoin(a, b)[0] == a[0]
  {
  }

  /** Joining is associative as long as the last part is relative. */
  lemma JoinJoin(cwd: string, root: string, rel: string)
    requires cwd != "" && root != "" && rel != "" && rel[0] != '/'
    ensures PathJoin(cwd, PathJoin(root, rel)) == PathJoin(PathJoin(cwd, root), rel)
    ensures cwd[0] == '/' ==> PathJoin(cwd, root)[0] == '/'
  {
    JoinRelative(root, rel);
    if root[0] != '/' {
      JoinRelative(cwd, root);
      JoinRelative(cwd, PathJoin(root, rel));
      JoinRelative(PathJoin(cwd, root), rel);
      hide PathJoin;
      var front := cwd + Slash(cwd);
      assert Slash(front + root) == Slash(root);
      Regroup(front, root + Slash(root), rel);
      Regroup(front, root, Slash(root));
    }
  }

  /** In a tree without symlinks a path that passed the segment check leaves the root exactly when
      the root is "/" or every one of its segments is empty or ".". */
  lemma AcceptedPathContained(cwd: string, root: string, rel: string)
    requires cwd != "" && cwd[0] == '/' && root != "" && ValidRelative(rel)
    ensures Contained(RealPath(cwd, root), RealPath(cwd, PathJoin(root, rel))) <==>
              RealPath(cwd, root) != "/" && exists i | 0 <= i < |Split(rel)| :: !Stays(Split(rel)[i])
  {
    hide Split, WalkAll, Named, Body, PathJoin;
    var names := Named(Split(rel));
    var base := PathJoin(cwd, root);
    JoinJoin(cwd, root, rel);
    SplitNoSlash(base);
    SplitNoSlash(PathJoin(base, rel));
    WalkNames([], Split(base));
    WalkNames([], Split(PathJoin(base, rel)));
    JoinedNotEmpty(cwd, root);
    ResolveJoined(base, rel);
    NamedEmpty(Split(rel));
    ContainedIffComponents(Resolve(base), Resolve(PathJoin(base, rel)));
    RenderIsSlash(Resolve(base));
    assert Resolve(base) < Resolve(base) + names <==> names != [];
  }

  lemma JoinedNotEmpty(cwd: string, root: string)
    requires root != ""
    ensures PathJoin(cwd, root) != ""
  {
  }

  lemma RenderIsSlash(names: seq<string>)
    requires AllNames(names)
    ensures Render(names) == "/" <==> names == []
  {
    if names != [] {
      assert |Body(names)| >= 1 + |names[0]|;
    }
  }
}
