/** Lexical path handling: the one-pass normaliser is a fold over the segments of the path. */
module Path {

  // ------------------------------------------------------------ segments

  predicate IsSeparator(c: char) {
    c == '/' || c == '\\'
  }

  /** The stretches between separators, empty ones included; the last is the one still open. */
  function Split(path: string): (segments: seq<string>)
    ensures |segments| > 0
  {
    if path == "" then [""]
    else
      var before, c := Split(path[..|path| - 1]), path[|path| - 1];
      if IsSeparator(c) then before + [""] else Extend(before, c)
  }

  /** One more character in the last segment. */
  function Extend(segments: seq<string>, c: char): (extended: seq<string>)
    requires |segments| > 0
    ensures |extended| == |segments|
  {
    segments[..|segments| - 1] + [segments[|segments| - 1] + [c]]
  }

  /** Segments with a slash between each two. */
  function Render(stack: seq<string>): string {
    if stack == [] then ""
    else if |stack| == 1 then stack[0]
    else Render(stack[..|stack| - 1]) + "/" + stack[|stack| - 1]
  }

  /** With a slash for every backslash. */
  function Slashed(path: string): (s: string)
    ensures |s| == |path|
  {
    seq(|path|, i requires 0 <= i < |path| => if path[i] == '\\' then '/' else path[i])
  }

  /** The segments with slashes between them are the path with slashes for its backslashes, and no segment holds
      either: both separate, and nothing else does. */
  lemma SplitExact(path: string)
    ensures Render(Split(path)) == Slashed(path)
    ensures forall segment :: segment in Split(path) ==> '/' !in segment && '\\' !in segment
  {
    hide Render, Slashed;
    SplitRendered(path);
    NoneInside(path);
  }

  lemma SlashedNext(path: string, c: char)
    ensures Slashed(path + [c]) == Slashed(path) + [if c == '\\' then '/' else c]
  {
  }

  lemma {:induction false} SplitRendered(path: string)
    ensures Render(Split(path)) == Slashed(path)
    decreases |path|
  {
    hide Render, Extend;
    if path == "" {
      RenderOne("");
    } else {
      var n := |path| - 1;
      SplitRendered(path[..n]);
      SlashedNext(path[..n], path[n]);
      assert path[..n] + [path[n]] == path;
      RenderPush(Split(path[..n]), "");
      RenderExtend(Split(path[..n]), path[n]);
    }
  }

  lemma RenderOne(segment: string)
    ensures Render([segment]) == segment
  {
  }

  lemma {:induction false} NoneInside(path: string)
    ensures forall k :: 0 <= k < |Split(path)| ==> '/' !in Split(path)[k] && '\\' !in Split(path)[k]
    decreases |path|
  {
    if path != "" { NoneInside(path[..|path| - 1]); }
  }

  lemma RenderPush(stack: seq<string>, segment: string)
    requires stack != []
    ensures Render(stack + [segment]) == Render(stack) + "/" + segment
  {
    assert (stack + [segment])[..|stack|] == stack;
  }

  lemma RenderExtend(stack: seq<string>, c: char)
    requires stack != []
    ensures Render(Extend(stack, c)) == Render(stack) + [c]
  {
    var n := |stack| - 1;
    assert Extend(stack, c)[..n] == stack[..n];
    if n > 0 { assert Render(stack[..n]) + "/" + (stack[n] + [c]) == Render(stack[..n]) + "/" + stack[n] + [c]; }
  }

  // ------------------------------------------------------------ what normalising means

  /** One segment: nothing and `.` are dropped, `..` takes back a real segment, or else is kept if the path
      may leave its start. */
  function Step(stack: seq<string>, segment: string, above: bool): seq<string> {
    if segment == "" || segment == "." then stack
    else if segment != ".." then stack + [segment]
    else if stack != [] && stack[|stack| - 1] != ".." then stack[..|stack| - 1]
    else if above then stack + [".."]
    else stack
  }

  function Fold(stack: seq<string>, segments: seq<string>, above: bool): seq<string> {
    if segments == [] then stack
    else Step(Fold(stack, segments[..|segments| - 1], above), segments[|segments| - 1], above)
  }

  predicate Plain(segment: string) {
    segment != "" && segment != "." && forall k :: 0 <= k < |segment| ==> !IsSeparator(segment[k])
  }

  /** Only real segments, except that a path that may leave its start can begin with `..`s. */
  predicate Canonical(stack: seq<string>, above: bool) {
    && (forall k :: 0 <= k < |stack| ==> Plain(stack[k]))
    && (forall k :: 0 <= k < |stack| && stack[k] == ".." ==> above && forall j :: 0 <= j < k ==> stack[j] == "..")
  }

  function Absolute(path: string): bool {
    path != "" && path[0] == '/'
  }

  function Trailing(path: string): bool {
    path != "" && path[|path| - 1] == '/'
  }

  function Stack(path: string): seq<string> {
    Fold([], Split(path), !Absolute(path))
  }

  /** The normal form. */
  function Normalize(path: string): string {
    var stack := Stack(path);
    if stack == [] then (if Absolute(path) then "/" else if Trailing(path) then "./" else ".")
    else (if Absolute(path) then "/" else "") + Render(stack) + (if Trailing(path) then "/" else "")
  }

  // ------------------------------------------------------------ folding

  lemma {:induction false} FoldAppend(stack: seq<string>, a: seq<string>, b: seq<string>, above: bool)
    ensures Fold(stack, a + b, above) == Fold(Fold(stack, a, above), b, above)
    decreases |b|
  {
    if b == [] {
      assert a + b == a;
    } else {
      assert (a + b)[..|a + b| - 1] == a + b[..|b| - 1];
      FoldAppend(stack, a, b[..|b| - 1], above);
    }
  }

  lemma {:induction false} SplitHasNoSeparators(path: string)
    ensures forall s, k :: s in Split(path) && 0 <= k < |s| ==> !IsSeparator(s[k])
    decreases |path|
  {
    if path != "" {
      SplitHasNoSeparators(path[..|path| - 1]);
    }
  }

  lemma StepCanonical(stack: seq<string>, segment: string, above: bool)
    requires Canonical(stack, above) && forall k :: 0 <= k < |segment| ==> !IsSeparator(segment[k])
    ensures Canonical(Step(stack, segment, above), above)
  {
    if segment == ".." && (stack == [] || stack[|stack| - 1] == "..") {
      assert forall j :: 0 <= j < |stack| ==> stack[j] == "..";
    }
  }

  /** Rooted results hold no `..`; relative ones hold it only at the front. */
  lemma {:induction false} FoldCanonical(stack: seq<string>, segments: seq<string>, above: bool)
    requires Canonical(stack, above)
    requires forall s, k :: s in segments && 0 <= k < |s| ==> !IsSeparator(s[k])
    ensures Canonical(Fold(stack, segments, above), above)
    decreases |segments|
  {
    if segments != [] {
      FoldCanonical(stack, segments[..|segments| - 1], above);
      StepCanonical(Fold(stack, segments[..|segments| - 1], above), segments[|segments| - 1], above);
    }
  }

  lemma StackCanonical(path: string)
    ensures Canonical(Stack(path), !Absolute(path))
  {
    SplitHasNoSeparators(path);
    FoldCanonical([], Split(path), !Absolute(path));
  }

  lemma {:induction false} FoldOfCanonical(stack: seq<string>, above: bool)
    requires Canonical(stack, above)
    ensures Fold([], stack, above) == stack
    decreases |stack|
  {
    if stack != [] {
      var n := |stack| - 1;
      FoldOfCanonical(stack[..n], above);
      assert stack == stack[..n] + [stack[n]];
      assert stack[n] == ".." && n > 0 ==> stack[n - 1] == "..";
    }
  }

  // ------------------------------------------------------------ splitting what was rendered

  lemma SplitSnoc(path: string, c: char)
    ensures Split(path + [c]) == if IsSeparator(c) then Split(path) + [""] else Extend(Split(path), c)
  {
    assert (path + [c])[..|path|] == path;
  }

  lemma ExtendBehind(a: seq<string>, b: seq<string>, c: char)
    requires |b| > 0
    ensures Extend(a + b, c) == a + Extend(b, c)
  {
  }

  lemma {:induction false} SplitJoin(a: string, c: char, b: string)
    requires IsSeparator(c)
    ensures Split(a + [c] + b) == Split(a) + Split(b)
    decreases |b|
  {
    hide Split, IsSeparator, Extend;
    if b == "" {
      assert a + [c] + b == a + [c];
      SplitSnoc(a, c);
      SplitPlain("");
    } else {
      var init, last := b[..|b| - 1], b[|b| - 1];
      assert a + [c] + b == (a + [c] + init) + [last] && b == init + [last];
      SplitJoin(a, c, init);
      SplitSnoc(a + [c] + init, last);
      SplitSnoc(init, last);
      ExtendBehind(Split(a), Split(init), last);
      assert (Split(a) + Split(init)) + [""] == Split(a) + (Split(init) + [""]);
    }
  }

  lemma {:induction false} SplitPlain(segment: string)
    requires forall k :: 0 <= k < |segment| ==> !IsSeparator(segment[k])
    ensures Split(segment) == [segment]
    decreases |segment|
  {
    if segment != "" {
      var init, last := segment[..|segment| - 1], segment[|segment| - 1];
      SplitPlain(init);
      assert init + [last] == segment;
      SplitSnoc(init, last);
    }
  }

  lemma {:induction false} SplitRender(stack: seq<string>)
    requires stack != [] && forall k :: 0 <= k < |stack| ==> Plain(stack[k])
    ensures Split(Render(stack)) == stack
    decreases |stack|
  {
    hide Split;
    var n := |stack| - 1;
    assert Plain(stack[n]);
    SplitPlain(stack[n]);
    if n > 0 {
      SplitRender(stack[..n]);
      SplitJoin(Render(stack[..n]), '/', stack[n]);
      assert Render(stack[..n]) + "/" + stack[n] == Render(stack[..n]) + ['/'] + stack[n];
      assert stack == stack[..n] + [stack[n]];
    }
  }

  lemma {:induction false} RenderEnds(stack: seq<string>)
    requires stack != [] && forall k :: 0 <= k < |stack| ==> Plain(stack[k])
    ensures var r := Render(stack); r != "" && r[0] != '/' && r[|r| - 1] != '/'
    decreases |stack|
  {
    var n := |stack| - 1;
    assert Plain(stack[n]);
    if n > 0 { RenderEnds(stack[..n]); }
  }

  // ------------------------------------------------------------ the normal form is one

  /** A segment that adds nothing, in front or behind. */
  lemma FoldEmpty(segments: seq<string>, above: bool)
    ensures Fold([], [""] + segments, above) == Fold([], segments, above)
    ensures Fold([], segments + [""], above) == Fold([], segments, above)
  {
    FoldAppend([], [""], segments, above);
    FoldOne("", above);
    FoldAppend([], segments, [""], above);
    var stack := Fold([], segments, above);
    assert Fold(stack, [""], above) == Step(Fold(stack, [""][..0], above), "", above) == stack;
  }

  /** A slash in front or behind adds nothing to the stack. */
  lemma FoldFront(front: string, above: bool)
    ensures Fold([], Split("/" + front), above) == Fold([], Split(front), above)
    ensures Fold([], Split(front + "/"), above) == Fold([], Split(front), above)
  {
    hide Split, Fold;
    SplitPlain("");
    SplitJoin("", '/', front);
    SplitJoin(front, '/', "");
    assert "" + ['/'] + front == "/" + front && front + ['/'] + "" == front + "/";
    FoldEmpty(Split(front), above);
  }

  /** What a path names when it is put together from a stack. */
  lemma StackOfText(stack: seq<string>, absolute: bool, trailing: bool)
    requires stack != [] && Canonical(stack, !absolute)
    ensures var n := (if absolute then "/" else "") + Render(stack) + (if trailing then "/" else "");
      n != "" && Absolute(n) == absolute && Trailing(n) == trailing && Stack(n) == stack
  {
    hide Split, Fold, Render;
    var r, above := Render(stack), !absolute;
    RenderEnds(stack);
    SplitRender(stack);
    FoldOfCanonical(stack, above);
    FoldFront(r, above);
    var front := (if absolute then "/" else "") + r;
    assert "" + r == r && front + "" == front;
    FoldFront(front, above);
  }

  /** The three facts about a path that its normal form keeps. */
  lemma FactsOfNormalForm(path: string)
    ensures var n := Normalize(path);
      && n != "" && Absolute(n) == Absolute(path) && Stack(n) == Stack(path)
      && Trailing(n) == (Trailing(path) || (Absolute(path) && Stack(path) == []))
  {
    hide Stack, Render, Canonical;
    StackCanonical(path);
    if Stack(path) == [] {
      StackOfNothing(Normalize(path));
    } else {
      StackOfText(Stack(path), Absolute(path), Trailing(path));
    }
  }

  lemma FoldOne(segment: string, above: bool)
    ensures Fold([], [segment], above) == Step([], segment, above)
  {
    assert [segment][..0] == [];
    assert Fold([], [segment], above) == Step(Fold([], [segment][..0], above), segment, above);
  }

  lemma StackOfNothing(n: string)
    requires n == "/" || n == "./" || n == "."
    ensures Stack(n) == []
  {
    hide Split, Fold;
    SplitPlain("");
    SplitPlain(".");
    FoldOne("", false);
    FoldOne(".", true);
    FoldFront("", false);
    FoldFront(".", true);
    assert "/" + "" == "/" && "." + "/" == "./";
  }

  /** Normalising again changes nothing. */
  lemma NormalizeIdempotent(path: string)
    ensures Normalize(Normalize(path)) == Normalize(path)
  {
    FactsOfNormalForm(path);
  }

  /** Two paths have the same normal form exactly if they start at the same place, name the same stack, and
      end the same way, which for the root itself does not show. */
  lemma NormalFormsAgree(p: string, q: string)
    ensures Normalize(p) == Normalize(q) <==>
            && Absolute(p) == Absolute(q) && Stack(p) == Stack(q)
            && (Trailing(p) == Trailing(q) || (Absolute(p) && Stack(p) == []))
  {
    FactsOfNormalForm(p);
    FactsOfNormalForm(q);
  }

  // ------------------------------------------------------------ where a path leads

  /** One move in a tree of directories, where the root is its own parent. */
  function Move(place: seq<string>, segment: string): seq<string> {
    if segment == "" || segment == "." then place
    else if segment != ".." then place + [segment]
    else if place == [] then []
    else place[..|place| - 1]
  }

  function Walk(place: seq<string>, segments: seq<string>): seq<string> {
    if segments == [] then place
    else Move(Walk(place, segments[..|segments| - 1]), segments[|segments| - 1])
  }

  /** Where `path` leads from the directory `here`. */
  function Resolve(here: seq<string>, path: string): seq<string> {
    Walk(if Absolute(path) then [] else here, Split(path))
  }

  lemma WalkOn(place: seq<string>, stack: seq<string>, segment: string)
    ensures Walk(place, stack + [segment]) == Move(Walk(place, stack), segment)
  {
    hide Move;
    assert (stack + [segment])[..|stack|] == stack;
  }

  /** A step of the fold leads where the segment itself leads. */
  lemma WalkStep(place: seq<string>, stack: seq<string>, segment: string, above: bool)
    requires above || (place == [] && Walk([], stack) == stack && forall k :: 0 <= k < |stack| ==> stack[k] != "..")
    requires forall k :: 0 <= k < |stack| ==> stack[k] != "" && stack[k] != "."
    ensures Walk(place, Step(stack, segment, above)) == Move(Walk(place, stack), segment)
  {
    WalkOn(place, stack, segment);
    if stack != [] {
      var k := |stack| - 1;
      WalkOn(place, stack[..k], stack[k]);
      assert stack == stack[..k] + [stack[k]];
    }
  }

  lemma {:induction false} WalkFold(place: seq<string>, segments: seq<string>, above: bool)
    requires above || place == []
    ensures Walk(place, Fold([], segments, above)) == Walk(place, segments)
    ensures !above ==> Walk([], segments) == Fold([], segments, above)
    decreases |segments|
  {
    hide Step, Move;
    if segments != [] {
      var n := |segments| - 1;
      var stack := Fold([], segments[..n], above);
      WalkFold(place, segments[..n], above);
      FoldDropsNothing(segments[..n], above);
      if !above {
        NoParents(segments[..n]);
        WalkRooted(stack, segments[n]);
      }
      WalkStep(place, stack, segments[n], above);
    }
  }

  lemma WalkRooted(stack: seq<string>, segment: string)
    requires stack != [] ==> stack[|stack| - 1] != ".."
    ensures Step(stack, segment, false) == Move(stack, segment)
  {
  }

  lemma {:induction false} FoldDropsNothing(segments: seq<string>, above: bool)
    ensures forall k :: 0 <= k < |Fold([], segments, above)| ==>
              Fold([], segments, above)[k] != "" && Fold([], segments, above)[k] != "."
    decreases |segments|
  {
    if segments != [] { FoldDropsNothing(segments[..|segments| - 1], above); }
  }

  lemma {:induction false} NoParents(segments: seq<string>)
    ensures forall k :: 0 <= k < |Fold([], segments, false)| ==> Fold([], segments, false)[k] != ".."
    decreases |segments|
  {
    if segments != [] { NoParents(segments[..|segments| - 1]); }
  }

  /** A path and its normal form lead to the same place from everywhere. */
  lemma NormalizeKeepsMeaning(here: seq<string>, path: string)
    ensures Resolve(here, Normalize(path)) == Resolve(here, path)
  {
    var n, above := Normalize(path), !Absolute(path);
    FactsOfNormalForm(path);
    var start := if Absolute(path) then [] else here;
    WalkFold(start, Split(path), above);
    WalkFold(start, Split(n), above);
  }

  // ------------------------------------------------------------ the code

  function LastIndexOf(s: string, c: char): (k: int)
    ensures -1 <= k < |s|
  {
    if s == "" then -1 else if s[|s| - 1] == c then |s| - 1 else LastIndexOf(s[..|s| - 1], c)
  }

  lemma {:induction false} LastIndexBehind(s: string, t: string, c: char)
    requires forall k :: 0 <= k < |t| ==> t[k] != c
    ensures LastIndexOf(s + [c] + t, c) == |s|
    ensures LastIndexOf(t, c) == -1
    decreases |t|
  {
    if t == "" {
    } else {
      var n := |t| - 1;
      assert (s + [c] + t)[..|s| + 1 + n] == s + [c] + t[..n];
      LastIndexBehind(s, t[..n], c);
    }
  }

  /** Length of the last segment of a rendered stack. */
  function TopLength(stack: seq<string>): nat {
    if stack == [] then 0 else |stack[|stack| - 1]|
  }

  /** What the dot counter says of an open segment. */
  function Dots(open: string): int {
    if forall k :: 0 <= k < |open| ==> open[k] == '.' then |open| else -1
  }

  /** Taking the last segment off a rendered stack. */
  lemma Unrender(stack: seq<string>, above: bool)
    requires Canonical(stack, above) && stack != []
    ensures var n, r := |stack| - 1, Render(stack);
      && (n == 0 ==> LastIndexOf(r, '/') == -1 && |r| == |stack[0]| && Render(stack[..n]) == "")
      && (n > 0 ==> LastIndexOf(r, '/') == |Render(stack[..n])| && r[..|Render(stack[..n])|] == Render(stack[..n])
                    && |r| > 2 && Render(stack[..n]) != "")
      && |r| - 1 - LastIndexOf(r, '/') == |stack[n]|
      && r[|r| - |stack[n]|..] == stack[n]
  {
    var n := |stack| - 1;
    assert Plain(stack[n]);
    if n > 0 {
      LastIndexBehind(Render(stack[..n]), stack[n], '/');
      RenderEnds(stack[..n]);
      assert Render(stack) == Render(stack[..n]) + ['/'] + stack[n];
    } else {
      LastIndexBehind("", stack[0], '/');
    }
  }

  /** The test for a top segment of two dots. */
  predicate EndsInDots(res: string, lastSegmentLength: int) {
    !(|res| < 2 || lastSegmentLength != 2 || res[|res| - 1] != '.' || res[|res| - 2] != '.')
  }

  lemma DotsOnTop(stack: seq<string>, above: bool)
    requires Canonical(stack, above)
    ensures EndsInDots(Render(stack), TopLength(stack)) <==> stack != [] && stack[|stack| - 1] == ".."
    ensures Render(stack) == "" <==> stack == []
  {
    hide Render, LastIndexOf;
    if stack == [] {
      NothingRendered();
    } else {
      Unrender(stack, above);
      var top, r := stack[|stack| - 1], Render(stack);
      assert Plain(top);
      if |top| == 2 {
        assert top[0] == r[|r| - 2] && top[1] == r[|r| - 1];
        assert top == [top[0], top[1]];
      }
    }
  }

  lemma NothingRendered()
    ensures Render([]) == ""
  {
  }

  /** Takes the last segment off the rendered text. */
  method PopSegment(res: string, above: bool, ghost stack: seq<string>) returns (next: string, length: int)
    requires Canonical(stack, above) && stack != [] && res == Render(stack)
    ensures next == Render(stack[..|stack| - 1]) && length == TopLength(stack[..|stack| - 1])
  {
    hide Canonical, LastIndexOf, Render;
    Unrender(stack, above);
    if |res| > 2 {
      var lastSlashIndex := LastIndexOf(res, '/');
      if lastSlashIndex == -1 {
        next, length := "", 0;
      } else {
        next := res[..lastSlashIndex];
        Shorter(stack, above);
        Unrender(stack[..|stack| - 1], above);
        length := |next| - 1 - LastIndexOf(next, '/');
      }
    } else {
      next, length := "", 0;
    }
  }

  /** A segment of two dots, on the rendered text. */
  method StepBack(res: string, lastSegmentLength: int, above: bool, ghost stack: seq<string>)
    returns (next: string, length: int)
    requires Canonical(stack, above) && res == Render(stack) && lastSegmentLength == TopLength(stack)
    ensures next == Render(Step(stack, "..", above)) && length == TopLength(Step(stack, "..", above))
  {
    hide Canonical, Render, EndsInDots;
    next, length := res, lastSegmentLength;
    DotsOnTop(stack, above);
    if !EndsInDots(res, lastSegmentLength) {
      if |res| != 0 {
        next, length := PopSegment(res, above, stack);
        return;
      }
    }
    if above {
      PushDots(stack, above);
      next := next + (if |next| > 0 then "/.." else "..");
      length := 2;
    }
  }

  lemma PushDots(stack: seq<string>, above: bool)
    requires Canonical(stack, above)
    ensures Render(stack + [".."]) == Render(stack) + (if Render(stack) != "" then "/.." else "..")
    ensures TopLength(stack + [".."]) == 2
  {
    assert (stack + [".."])[..|stack|] == stack;
    if stack != [] {
      RenderEnds(stack);
      assert Render(stack) + "/" + ".." == Render(stack) + "/..";
    }
  }

  lemma Shorter(stack: seq<string>, above: bool)
    requires Canonical(stack, above) && stack != []
    ensures Canonical(stack[..|stack| - 1], above)
  {
  }

  /** The closed segments of a prefix are folded into `stack`, and `open` is its last one. */
  ghost predicate Parted(prefix: string, stack: seq<string>, open: string, above: bool) {
    var segments := Split(prefix);
    && open == segments[|segments| - 1] && stack == Fold([], segments[..|segments| - 1], above)
    && Canonical(stack, above) && forall k :: 0 <= k < |open| ==> !IsSeparator(open[k])
  }

  /** One more character. */
  lemma PartedNext(path: string, i: nat, stack: seq<string>, open: string, above: bool)
    requires i < |path| && Parted(path[..i], stack, open, above)
    ensures IsSeparator(path[i]) ==> Parted(path[..i + 1], Step(stack, open, above), "", above)
    ensures !IsSeparator(path[i]) ==> Parted(path[..i + 1], stack, open + [path[i]], above)
    ensures Canonical(stack, above)
  {
    hide Canonical, Step;
    assert path[..i + 1][..i] == path[..i];
    var segments := Split(path[..i]);
    assert segments + [""] == Split(path[..i + 1]) || !IsSeparator(path[i]);
    assert (segments + [""])[..|segments|] == segments;
    StepCanonical(stack, open, above);
  }

  lemma PartedEnd(path: string, stack: seq<string>, open: string, above: bool)
    requires Parted(path, stack, open, above)
    ensures Fold([], Split(path), above) == Step(stack, open, above) && Canonical(stack, above)
    ensures open == "" ==> Step(stack, open, above) == stack
  {
    StepCanonical(stack, open, above);
  }

  /** The counter knows the three segments that are not names. */
  lemma DotsTell(open: string)
    ensures Dots(open) == 0 <==> open == ""
    ensures Dots(open) == 1 <==> open == "."
    ensures Dots(open) == 2 <==> open == ".."
  {
  }

  lemma DotsNext(open: string, c: char)
    ensures Dots(open + [c]) == if c == '.' && Dots(open) != -1 then Dots(open) + 1 else -1
  {
    var next := open + [c];
    assert next[|open|] == c && forall k :: 0 <= k < |open| ==> next[k] == open[k];
  }

  lemma PushRender(stack: seq<string>, name: string, above: bool)
    requires Canonical(stack, above) && name != "" && name != "." && name != ".."
    ensures Step(stack, name, above) == stack + [name] && TopLength(stack + [name]) == |name|
    ensures Render(stack + [name]) == if Render(stack) != "" then Render(stack) + "/" + name else name
  {
    assert (stack + [name])[..|stack|] == stack;
    if stack != [] { RenderEnds(stack); }
  }

  /** What a separator at `i` does with the segment it closes. */
  method CloseSegment(path: string, res: string, lastSegmentLength: int, lastSlash: int, dots: int, i: nat,
                      above: bool, ghost stack: seq<string>)
    returns (next: string, length: int)
    requires -1 <= lastSlash < i <= |path| && dots == Dots(path[lastSlash + 1..i])
    requires Canonical(stack, above) && res == Render(stack) && lastSegmentLength == TopLength(stack)
    ensures var after := Step(stack, path[lastSlash + 1..i], above);
      next == Render(after) && length == TopLength(after)
  {
    hide Render, Canonical, Dots;
    next, length := res, lastSegmentLength;
    DotsTell(path[lastSlash + 1..i]);
    if lastSlash == i - 1 || dots == 1 {
    } else if dots == 2 {
      next, length := StepBack(res, lastSegmentLength, above, stack);
    } else {
      PushRender(stack, path[lastSlash + 1..i], above);
      if |res| > 0 {
        next := res + "/" + path[lastSlash + 1..i];
      } else {
        next := path[lastSlash + 1..i];
      }
      length := i - lastSlash - 1;
    }
  }

  /** Where the loop stands: before position `i`, or, past the end, done. */
  ghost predicate Scanned(path: string, i: nat, lastSlash: int, dots: int, stack: seq<string>, above: bool) {
    if i <= |path| then
      && -1 <= lastSlash < i && dots == Dots(path[lastSlash + 1..i])
      && Parted(path[..i], stack, path[lastSlash + 1..i], above)
    else
      stack == Fold([], Split(path), above)
  }

  lemma ScanStart(path: string, above: bool)
    ensures Scanned(path, 0, -1, 0, [], above) && Render([]) == ""
  {
    assert path[..0] == "" && path[0..0] == "";
  }

  lemma ScanNext(path: string, i: nat, lastSlash: int, dots: int, stack: seq<string>, above: bool)
    requires i < |path| && Scanned(path, i, lastSlash, dots, stack, above)
    ensures -1 <= lastSlash < i && dots == Dots(path[lastSlash + 1..i]) && Canonical(stack, above)
    ensures var c := path[i];
      if IsSeparator(c) then
        Scanned(path, i + 1, i, 0, Step(stack, path[lastSlash + 1..i], above), above)
      else
        Scanned(path, i + 1, lastSlash, if c == '.' && dots != -1 then dots + 1 else -1, stack, above)
  {
    hide Parted, Canonical, Step, Dots;
    var open := path[lastSlash + 1..i];
    PartedNext(path, i, stack, open, above);
    assert path[lastSlash + 1..i + 1] == open + [path[i]];
    assert path[i + 1..i + 1] == "";
    DotsNext(open, path[i]);
    DotsTell("");
  }

  lemma ScanEnd(path: string, lastSlash: int, dots: int, stack: seq<string>, above: bool)
    requires Scanned(path, |path|, lastSlash, dots, stack, above)
    ensures -1 <= lastSlash < |path| && dots == Dots(path[lastSlash + 1..|path|]) && Canonical(stack, above)
    ensures Scanned(path, |path| + 1, |path|, 0, Step(stack, path[lastSlash + 1..|path|], above), above)
    ensures path != "" && IsSeparator(path[|path| - 1]) ==> Scanned(path, |path| + 1, lastSlash, dots, stack, above)
  {
    hide Canonical, Dots;
    assert path[..|path|] == path;
    PartedEnd(path, stack, path[lastSlash + 1..|path|], above);
  }

  lemma ScanDone(path: string, lastSlash: int, dots: int, stack: seq<string>, above: bool)
    requires Scanned(path, |path| + 1, lastSlash, dots, stack, above)
    ensures stack == Fold([], Split(path), above)
  {
  }

  /** `normalizeString`, with the separator that its one caller passes. */
  method NormalizeString(path: string, allowAboveRoot: bool) returns (res: string)
    ensures res == Render(Fold([], Split(path), allowAboveRoot))
  {
    hide Render, Canonical, Step, Scanned, Dots, Fold, Split;
    res := "";
    var lastSegmentLength, lastSlash, dots := 0, -1, 0;
    var code := 0 as char;
    ghost var stack := [];
    ScanStart(path, allowAboveRoot);
    for i := 0 to |path| + 1
      invariant i <= |path| ==> code == if i == 0 then 0 as char else path[i - 1]
      invariant Scanned(path, i, lastSlash, dots, stack, allowAboveRoot)
      invariant res == Render(stack) && lastSegmentLength == TopLength(stack)
    {
      if i < |path| {
        code := path[i];
        ScanNext(path, i, lastSlash, dots, stack, allowAboveRoot);
      } else {
        ScanEnd(path, lastSlash, dots, stack, allowAboveRoot);
        if IsSeparator(code) {
          break;
        }
        code := '/';
      }
      if IsSeparator(code) {
        res, lastSegmentLength := CloseSegment(path, res, lastSegmentLength, lastSlash, dots, i, allowAboveRoot, stack);
        stack := Step(stack, path[lastSlash + 1..i], allowAboveRoot);
        lastSlash := i;
        dots := 0;
      } else {
        dots := if code == '.' && dots != -1 then dots + 1 else -1;
      }
    }
    ScanDone(path, lastSlash, dots, stack, allowAboveRoot);
  }

  /** `normalize` */
  method NormalizePath(path: string) returns (r: string)
    ensures r == Normalize(path)
  {
    hide Render, Fold, Split;
    if |path| == 0 {
      StackOfEmpty();
      return ".";
    }
    var isAbsolute := path[0] == '/';
    var sep := path[|path| - 1] == '/';
    var normal := NormalizeString(path, !isAbsolute);
    StackCanonical(path);
    DotsOnTop(Stack(path), !isAbsolute);
    if |normal| == 0 {
      if isAbsolute { return "/"; }
      return if sep then "./" else ".";
    }
    if sep { normal := normal + "/"; }
    r := if isAbsolute then "/" + normal else normal;
  }

  lemma StackOfEmpty()
    ensures Stack("") == []
  {
    SplitPlain("");
    FoldOne("", true);
  }

  lemma NormalOfEmpty()
    ensures Normalize("") == "."
  {
    StackOfEmpty();
  }

  // ------------------------------------------------------------ joining

  datatype Joined = Undefined | Text(text: string)

  /** The arguments that are not empty, with a slash between each two. */
  function Joining(args: seq<string>): Joined {
    if args == [] then Undefined
    else
      var before, arg := Joining(args[..|args| - 1]), args[|args| - 1];
      if arg == "" then before
      else if before == Undefined then Text(arg)
      else Text(before.text + "/" + arg)
  }

  /** Of two arguments an absolute second one stands alone; other arguments are joined and normalised. */
  function Join(args: seq<string>): string {
    if |args| == 2 && Absolute(args[1]) then Normalize(args[1])
    else
      match Joining(args)
      case Undefined => "."
      case Text(text) => Normalize(text)
  }

  method JoinPaths(args: seq<string>) returns (r: string)
    ensures r == Join(args)
  {
    hide Normalize;
    if |args| == 0 { return "."; }
    if |args| == 2 && |args[1]| > 0 && args[1][0] == '/' {
      r := NormalizePath(args[1]);
      return;
    }
    var joined := Undefined;
    for i := 0 to |args|
      invariant joined == Joining(args[..i])
    {
      var arg := args[i];
      assert args[..i + 1][..i] == args[..i];
      if |arg| > 0 {
        if joined == Undefined {
          joined := Text(arg);
        } else {
          joined := Text(joined.text + "/" + arg);
        }
      }
    }
    assert args[..|args|] == args;
    if joined == Undefined { return "."; }
    r := NormalizePath(joined.text);
  }

  /** Joining is a text in front, and then the rest of the arguments. */
  lemma {:induction false} JoiningFront(first: string, rest: seq<string>)
    requires first != ""
    ensures Joining([first] + rest) ==
            if Joining(rest) == Undefined then Text(first) else Text(first + "/" + Joining(rest).text)
    decreases |rest|
  {
    var args := [first] + rest;
    if rest == [] {
      assert args[..0] == [];
      assert Joining(args[..|args| - 1]) == Undefined;
    } else {
      var n := |rest| - 1;
      assert args[..|args| - 1] == [first] + rest[..n];
      JoiningFront(first, rest[..n]);
    }
  }

  lemma {:induction false} JoiningEmptyFront(rest: seq<string>)
    ensures Joining([""] + rest) == Joining(rest)
    decreases |rest|
  {
    var args := [""] + rest;
    if rest == [] {
      assert args[..0] == [];
    } else {
      assert args[..|args| - 1] == [""] + rest[..|rest| - 1];
      JoiningEmptyFront(rest[..|rest| - 1]);
    }
  }

  lemma {:induction false} JoinedIsText(args: seq<string>)
    ensures Joining(args).Text? ==> Joining(args).text != ""
    decreases |args|
  {
    if args != [] { JoinedIsText(args[..|args| - 1]); }
  }

  lemma BehindSlash(a: string, b: string)
    requires a != "" && b != ""
    ensures var path := a + "/" + b;
      && Absolute(path) == Absolute(a) && Trailing(path) == Trailing(b)
      && Stack(path) == Fold(Stack(a), Split(b), !Absolute(a))
  {
    hide Split, Fold;
    var path := a + "/" + b;
    assert path == a + ['/'] + b;
    SplitJoin(a, '/', b);
    FoldAppend([], Split(a), Split(b), !Absolute(a));
  }

  /** What a text in front of a slash adds is what its normal form adds. */
  lemma NormalFront(a: string, b: string)
    requires a != "" && b != ""
    ensures Normalize(Normalize(a) + "/" + b) == Normalize(a + "/" + b)
  {
    hide Normalize, Stack, Absolute, Trailing, Split, Fold;
    FactsOfNormalForm(a);
    BehindSlash(a, b);
    BehindSlash(Normalize(a), b);
    NormalFormsAgree(a + "/" + b, Normalize(a) + "/" + b);
  }

  /** A dot in front makes no difference to a path that is not absolute. */
  lemma DotFront(dot: string, b: string)
    requires dot == "." && b != ""
    ensures Normalize(dot + "/" + b) == Normalize(b) <==> !Absolute(b)
  {
    hide Normalize, Split, Fold, Render;
    var path := dot + "/" + b;
    assert path == dot + ['/'] + b;
    SplitJoin(dot, '/', b);
    SplitPlain(dot);
    FoldAppend([], [dot], Split(b), true);
    FoldOne(dot, true);
    NormalFormsAgree(path, b);
  }

  /** Normalising the first argument first makes no difference, unless it is empty, the others make an
      absolute path, and they are not one alone. */
  lemma JoinOfNormalized(first: string, rest: seq<string>)
    ensures Join([Normalize(first)] + rest) == Join([first] + rest) <==>
            !(first == "" && |rest| != 1 && Joining(rest).Text? && Absolute(Joining(rest).text))
  {
    hide Normalize, Absolute, Joining;
    FactsOfNormalForm(first);
    JoiningFront(Normalize(first), rest);
    if |rest| == 1 && Absolute(rest[0]) {
      JoiningOne(rest[0]);
    } else if first == "" {
      NormalOfEmpty();
      JoinOfDot(first, Normalize(first), rest);
    } else {
      JoiningFront(first, rest);
      NormalizeIdempotent(first);
      JoinedIsText(rest);
      if Joining(rest).Text? { NormalFront(first, Joining(rest).text); }
    }
  }

  lemma JoiningOne(arg: string)
    ensures Joining([arg]) == if arg == "" then Undefined else Text(arg)
  {
    assert [arg][..0] == [];
  }

  lemma JoinOfMany(arg: string, rest: seq<string>)
    requires !(|rest| == 1 && Absolute(rest[0]))
    ensures Join([arg] + rest) == match Joining([arg] + rest) case Undefined => "." case Text(text) => Normalize(text)
  {
    hide Normalize, Absolute, Joining;
    var args := [arg] + rest;
    assert |args| == 2 ==> args[1] == rest[0];
  }

  lemma JoinOfDot(first: string, dot: string, rest: seq<string>)
    requires first == "" && dot == "." && Normalize(first) == dot && !(|rest| == 1 && Absolute(rest[0]))
    ensures Join([dot] + rest) == Join([first] + rest) <==>
            !(|rest| != 1 && Joining(rest).Text? && Absolute(Joining(rest).text))
  {
    hide Join, Normalize, Absolute, Joining;
    JoinOfMany(dot, rest);
    JoinOfMany(first, rest);
    JoiningFront(dot, rest);
    JoiningEmptyFront(rest);
    JoinedIsText(rest);
    NormalizeIdempotent(first);
    if |rest| == 1 { JoiningOne(rest[0]); assert [rest[0]] == rest; }
    if Joining(rest).Text? { DotFront(dot, Joining(rest).text); }
  }
}
