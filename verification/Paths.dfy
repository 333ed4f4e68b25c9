/**
 Lexical paths as Go's path/filepath sees them on Unix: Clean, IsLocal, Join and
 Dir, and the source's SafeJoin on top of them.
 */
module Paths {
  import opened Wrappers
  import opened GoStrings

  /** A cleaned path: rooted or not, and its segments. */
  datatype Path = Path(rooted: bool, segs: seq<Str>)

  predicate IsAbs(s: Str) {
    HasPrefix(s, "/")
  }

  /** One segment of the input meets the segments kept so far. */
  function Push(stack: seq<Str>, rooted: bool, seg: Str): seq<Str> {
    if seg == "" || seg == "." then stack
    else if seg == ".." then
      if stack != [] && stack[|stack| - 1] != ".." then stack[..|stack| - 1]
      else if rooted then stack
      else stack + [seg]
    else stack + [seg]
  }

  function Fold(stack: seq<Str>, rooted: bool, input: seq<Str>): seq<Str>
    decreases |input|
  {
    if input == [] then stack else Fold(Push(stack, rooted, input[0]), rooted, input[1..])
  }

  function Parse(s: Str): Path {
    Path(IsAbs(s), Fold([], IsAbs(s), Split(s, '/')))
  }

  function Render(p: Path): Str {
    if p.rooted then "/" + Join(p.segs, '/')
    else if p.segs == [] then "."
    else Join(p.segs, '/')
  }

  /** filepath.Clean. */
  function Clean(s: Str): Str {
    Render(Parse(s))
  }

  /** filepath.IsLocal. */
  predicate IsLocal(s: Str) {
    !IsAbs(s) && s != "" &&
    var hasDots := "." in Split(s, '/') || ".." in Split(s, '/');
    var c := if hasDots then Clean(s) else s;
    c != ".." && !HasPrefix(c, "../")
  }

  /** filepath.Join of two elements. */
  function JoinTwo(p: Str, n: Str): Str {
    if p != "" then Clean(p + "/" + n) else if n != "" then Clean(n) else ""
  }

  /** filepath.Dir. */
  function Dir(s: Str): Str {
    Clean(UpToLastSlash(s))
  }

  function UpToLastSlash(s: Str): Str {
    if s == "" || s[|s| - 1] == '/' then s else UpToLastSlash(s[..|s| - 1])
  }

  predicate Refused(n: Str) {
    !IsLocal(n) || Clean(n) == "."
  }

  /** SafeJoin; None is ErrPathEscape. */
  function SafeJoined(base: Str, names: seq<Str>): Option<Str>
    decreases |names|
  {
    if names == [] then Some(base)
    else if Refused(names[0]) then None
    else SafeJoined(JoinTwo(base, names[0]), names[1..])
  }

  method SafeJoin(base: Str, names: seq<Str>) returns (r: Option<Str>)
    ensures r == SafeJoined(base, names)
  {
    var p := base;
    for i := 0 to |names|
      invariant SafeJoined(base, names) == SafeJoined(p, names[i..])
    {
      if !IsLocal(names[i]) || Clean(names[i]) == "." {
        return None;
      }
      p := JoinTwo(p, names[i]);
      assert names[i..][1..] == names[i + 1..];
    }
    return Some(p);
  }

  // ------------------------------------------------------------------
  // Splitting and cleaning.

  /** A segment that names something: not empty, not a dot, not a climb, no separator. */
  predicate Real(seg: Str) {
    seg != "" && seg != "." && seg != ".." && '/' !in seg
  }

  predicate AllReal(segs: seq<Str>) {
    forall x :: x in segs ==> Real(x)
  }

  /** What cleaning leaves: climbs, only at the front of an unrooted path, then real segments. */
  ghost predicate Normal(p: Path) {
    exists k :: NormalAt(p, k)
  }

  predicate NormalAt(p: Path, k: int) {
    0 <= k <= |p.segs| && (p.rooted ==> k == 0) &&
    (forall i :: 0 <= i < k ==> p.segs[i] == "..") && (forall i :: k <= i < |p.segs| ==> Real(p.segs[i]))
  }

  lemma SplitConcat(a: Str, b: Str)
    ensures Split(a + "/" + b, '/') == Split(a, '/') + Split(b, '/')
  {
    JoinConcat(Split(a, '/'), Split(b, '/'));
    SplitUnique(Split(a, '/') + Split(b, '/'), '/');
  }

  lemma {:induction false} JoinConcat(x: seq<Str>, y: seq<Str>)
    requires x != [] && y != []
    ensures Join(x + y, '/') == Join(x, '/') + "/" + Join(y, '/')
  {
    if |x| == 1 {
      assert (x + y)[1..] == y;
    } else {
      JoinConcat(x[1..], y);
      assert (x + y)[1..] == x[1..] + y;
      var h: Str := "/";
      assert Join(x + y, '/') == x[0] + h + (Join(x[1..], '/') + "/" + Join(y, '/'));
    }
  }

  lemma {:induction false} FoldConcat(stack: seq<Str>, rooted: bool, a: seq<Str>, b: seq<Str>)
    ensures Fold(stack, rooted, a + b) == Fold(Fold(stack, rooted, a), rooted, b)
    decreases |a|
  {
    if a == [] {
      assert a + b == b;
    } else {
      assert (a + b)[1..] == a[1..] + b;
      FoldConcat(Push(stack, rooted, a[0]), rooted, a[1..], b);
    }
  }

  /** Segments that need no cleaning are kept as they are. */
  lemma {:induction false} FoldKeeps(stack: seq<Str>, rooted: bool, k: nat, segs: seq<Str>)
    requires k <= |segs| && (k > 0 ==> !rooted && forall x :: x in stack ==> x == "..")
    requires forall i :: 0 <= i < k ==> segs[i] == ".."
    requires forall i :: k <= i < |segs| ==> Real(segs[i])
    ensures Fold(stack, rooted, segs) == stack + segs
    decreases |segs|
  {
    if segs == [] {
      assert stack + segs == stack;
    } else {
      if k > 0 {
        assert stack != [] ==> stack[|stack| - 1] in stack;
      } else {
        assert Real(segs[0]);
      }
      assert Push(stack, rooted, segs[0]) == stack + [segs[0]];
      FoldKeeps(stack + [segs[0]], rooted, if k == 0 then 0 else k - 1, segs[1..]);
      assert stack + [segs[0]] + segs[1..] == stack + segs;
    }
  }

  lemma {:induction false} FoldNormal(stack: seq<Str>, rooted: bool, input: seq<Str>)
    requires Normal(Path(rooted, stack)) && forall x :: x in input ==> '/' !in x
    ensures Normal(Path(rooted, Fold(stack, rooted, input)))
    decreases |input|
  {
    if input != [] {
      assert input[0] in input;
      PushNormal(stack, rooted, input[0]);
      FoldNormal(Push(stack, rooted, input[0]), rooted, input[1..]);
    }
  }

  lemma PushNormal(stack: seq<Str>, rooted: bool, seg: Str)
    requires Normal(Path(rooted, stack)) && '/' !in seg
    ensures Normal(Path(rooted, Push(stack, rooted, seg)))
  {
    var k :| NormalAt(Path(rooted, stack), k);
    var after := Push(stack, rooted, seg);
    if |stack| > 0 {
      var top := stack[|stack| - 1];
      assert k < |stack| ==> Real(top);
      assert k == |stack| ==> top == "..";
    }
    assert NormalAt(Path(rooted, after), if seg == ".." && |after| > |stack| then k + 1 else k);
  }

  lemma ParseNormal(s: Str)
    ensures Normal(Parse(s))
  {
    assert NormalAt(Path(IsAbs(s), []), 0);
    FoldNormal([], IsAbs(s), Split(s, '/'));
  }

  lemma NormalSegs(p: Path)
    requires Normal(p)
    ensures forall x :: x in p.segs ==> '/' !in x && x != "" && x != "."
    ensures Fold([], p.rooted, p.segs) == p.segs
  {
    var k :| NormalAt(p, k);
    forall x | x in p.segs ensures '/' !in x && x != "" && x != "." {
      var i :| 0 <= i < |p.segs| && p.segs[i] == x;
    }
    FoldKeeps([], p.rooted, k, p.segs);
  }

  lemma ParseRooted(body: Str)
    ensures Parse("/" + body) == Path(true, Fold([], true, Split(body, '/')))
  {
    SplitConcat("", body);
    assert "" + "/" + body == "/" + body;
    assert Split("", '/') == [""];
    var parts := Split(body, '/');
    assert ([""] + parts)[1..] == parts;
  }

  /** Rendering a cleaned path and reading it back gives the same path, so cleaning twice is cleaning once. */
  lemma ParseRender(p: Path)
    requires Normal(p)
    ensures Parse(Render(p)) == p
  {
    NormalSegs(p);
    var body := Join(p.segs, '/');
    if p.segs == [] {
      assert Split("", '/') == [""];
      SplitUnique(["."], '/');
    } else {
      SplitUnique(p.segs, '/');
      assert p.segs[0] in p.segs;
      assert body[0] == p.segs[0][0];
    }
    if p.rooted {
      ParseRooted(body);
    }
  }

  lemma CleanIdempotent(s: Str)
    ensures Clean(Clean(s)) == Clean(s)
  {
    ParseNormal(s);
    ParseRender(Parse(s));
  }

  lemma RenderInjective(p: Path, q: Path)
    requires Normal(p) && Normal(q) && Render(p) == Render(q)
    ensures p == q
  {
    ParseRender(p);
    ParseRender(q);
  }

  // ------------------------------------------------------------------
  // SafeJoin.

  /** A climb at the bottom of an unrooted path is never undone. */
  lemma {:induction false} ClimbStays(stack: seq<Str>, input: seq<Str>)
    requires stack != [] && stack[0] == ".."
    ensures Fold(stack, false, input) != [] && Fold(stack, false, input)[0] == ".."
    decreases |input|
  {
    if input != [] {
      ClimbStays(Push(stack, false, input[0]), input[1..]);
    }
  }

  /** A relative path that never climbs out can be folded onto any stack. */
  lemma {:induction false} FoldOnto(base: seq<Str>, rooted: bool, stack: seq<Str>, input: seq<Str>)
    requires AllReal(stack) && forall x :: x in input ==> '/' !in x
    requires (Fold(stack, false, input) != [] ==> Fold(stack, false, input)[0] != "..")
    ensures AllReal(Fold(stack, false, input))
    ensures Fold(base + stack, rooted, input) == base + Fold(stack, false, input)
    decreases |input|
  {
    if input != [] {
      var seg := input[0];
      var after := Push(stack, false, seg);
      if stack != [] {
        assert stack[|stack| - 1] in stack && (base + stack)[|base + stack| - 1] == stack[|stack| - 1];
        assert (base + stack)[..|base + stack| - 1] == base + stack[..|stack| - 1];
      } else if seg == ".." {
        ClimbStays(after, input[1..]);
        assert false;
      }
      assert base + stack + [seg] == base + (stack + [seg]);
      assert Push(base + stack, rooted, seg) == base + after;
      assert seg in input && AllReal(after);
      FoldOnto(base, rooted, after, input[1..]);
    }
  }

  lemma SplitHead(s: Str)
    ensures HasPrefix(s, "../") <==> |Split(s, '/')| >= 2 && Split(s, '/')[0] == ".."
    ensures IsAbs(s) <==> |Split(s, '/')| >= 2 && Split(s, '/')[0] == ""
  {
    var parts := Split(s, '/');
    assert Join(parts, '/') == s;
    if HasPrefix(s, "../") {
      SplitConcat("..", s[3..]);
      assert ".." + "/" + s[3..] == s;
      SplitUnique([".."], '/');
    }
    if IsAbs(s) {
      SplitConcat("", s[1..]);
      assert "" + "/" + s[1..] == s;
      assert Split("", '/') == [""];
    }
  }

  /** What the source's test on a name means: it is relative, names at least one thing, and never climbs out. */
  predicate StaysInside(p: Path) {
    !p.rooted && p.segs != [] && AllReal(p.segs)
  }

  lemma NormalNoClimb(p: Path)
    requires Normal(p)
    ensures AllReal(p.segs) <==> p.segs == [] || p.segs[0] != ".."
  {
    var k :| NormalAt(p, k);
    forall x | x in p.segs && k == 0 ensures Real(x) {
      var i :| 0 <= i < |p.segs| && p.segs[i] == x;
    }
    if p.segs != [] && p.segs[0] == ".." {
      assert p.segs[0] in p.segs;
    }
  }

  /** A cleaned unrooted path climbs out exactly when its text is ".." or starts with "../". */
  lemma ClimbText(p: Path)
    requires Normal(p) && !p.rooted
    ensures (Render(p) == ".." || HasPrefix(Render(p), "../")) <==> p.segs != [] && p.segs[0] == ".."
  {
    NormalSegs(p);
    SplitHead(Render(p));
    if p.segs == [] {
      SplitUnique(["."], '/');
    } else {
      SplitUnique(p.segs, '/');
      SplitUnique([".."], '/');
      assert |p.segs| == 1 ==> p.segs == [p.segs[0]];
    }
  }

  /** Without dots in it, a non-empty relative path is its own segments minus the empty ones. */
  lemma {:induction false} FoldNoDots(stack: seq<Str>, input: seq<Str>)
    requires AllReal(stack) && forall x :: x in input ==> '/' !in x && x != "." && x != ".."
    ensures AllReal(Fold(stack, false, input))
    ensures stack <= Fold(stack, false, input)
    ensures stack != [] || (exists x :: x in input && x != "") ==> Fold(stack, false, input) != []
    decreases |input|
  {
    if input != [] {
      assert input[0] in input;
      assert AllReal(Push(stack, false, input[0]));
      assert forall x :: x in input[1..] ==> x in input;
      FoldNoDots(Push(stack, false, input[0]), input[1..]);
      forall x | x in input && x != "" ensures x == input[0] || x in input[1..] {
      }
    }
  }

  lemma RefusedMeaning(n: Str)
    ensures !Refused(n) <==> StaysInside(Parse(n))
  {
    ParseNormal(n);
    var p := Parse(n);
    var parts := Split(n, '/');
    NormalNoClimb(p);
    if !IsAbs(n) {
      ClimbText(p);
      ParseRender(p);
      RenderDot(p);
      if "." !in parts && ".." !in parts {
        FoldNoDots([], parts);
        SplitHead(n);
        SplitUnique([".."], '/');
        assert parts[0] in parts;
        assert n != ".." && !HasPrefix(n, "../");
      }
    }
  }

  lemma RenderDot(p: Path)
    requires Normal(p) && !p.rooted
    ensures Render(p) == "." <==> p.segs == []
  {
    NormalSegs(p);
    SplitUnique(["."], '/');
    if p.segs != [] {
      SplitUnique(p.segs, '/');
      assert p.segs[0] in p.segs;
    }
  }

  /** Joining a name that stays inside appends its segments. */
  lemma JoinAppends(base: Str, n: Str)
    requires !Refused(n)
    ensures Parse(JoinTwo(base, n)) == Path(IsAbs(base), Parse(base).segs + Parse(n).segs)
    ensures Clean(JoinTwo(base, n)) == JoinTwo(base, n)
  {
    RefusedMeaning(n);
    ParseNormal(base);
    ParseNormal(n);
    if base == "" {
      ParseRender(Parse(n));
      CleanIdempotent(n);
      assert Split("", '/') == [""];
      assert [] + Parse(n).segs == Parse(n).segs;
      assert Parse(base).segs == [];
    } else {
      var joined := base + "/" + n;
      ParseNormal(joined);
      SplitConcat(base, n);
      FoldConcat([], IsAbs(base), Split(base, '/'), Split(n, '/'));
      var front := Parse(base).segs;
      assert Parse(n).segs[0] in Parse(n).segs;
      FoldOnto(front, IsAbs(base), [], Split(n, '/'));
      assert front + [] == front;
      assert IsAbs(joined) == IsAbs(base);
      ParseRender(Parse(joined));
      CleanIdempotent(joined);
    }
  }

  function AllSegs(names: seq<Str>): seq<Str> {
    if names == [] then [] else Parse(names[0]).segs + AllSegs(names[1..])
  }

  lemma {:induction false} SafeJoinSucceedsIff(base: Str, names: seq<Str>)
    ensures SafeJoined(base, names).Some? <==> forall n :: n in names ==> StaysInside(Parse(n))
    decreases |names|
  {
    if names != [] {
      var first, rest := names[0], names[1..];
      RefusedMeaning(first);
      assert forall n :: n in names <==> n == first || n in rest;
      if !Refused(first) {
        SafeJoinSucceedsIff(JoinTwo(base, first), rest);
      }
    }
  }

  lemma {:induction false} AllSegsReal(names: seq<Str>)
    requires forall n :: n in names ==> StaysInside(Parse(n))
    ensures AllReal(AllSegs(names)) && |AllSegs(names)| >= |names|
  {
    if names != [] {
      assert names[0] in names;
      AllSegsReal(names[1..]);
    }
  }

  lemma JoinStep(base: Str, name: Str, p: Path, extra: seq<Str>, more: seq<Str>)
    requires !Refused(name) && p == Parse(base) && extra == Parse(name).segs
    ensures Parse(JoinTwo(base, name)).segs + more == p.segs + (extra + more)
    ensures IsAbs(JoinTwo(base, name)) == p.rooted
  {
    JoinAppends(base, name);
    assert Parse(JoinTwo(base, name)).rooted == IsAbs(JoinTwo(base, name));
  }

  lemma {:induction false} SafeJoinAppends(base: Str, names: seq<Str>)
    requires SafeJoined(base, names).Some?
    ensures Parse(SafeJoined(base, names).value) == Path(IsAbs(base), Parse(base).segs + AllSegs(names))
    decreases |names|
  {
    if names == [] {
      assert Parse(base).segs + [] == Parse(base).segs;
    } else {
      var next, rest := JoinTwo(base, names[0]), names[1..];
      SafeJoinAppends(next, rest);
      JoinStep(base, names[0], Parse(base), Parse(names[0]).segs, AllSegs(rest));
    }
  }

  lemma {:induction false} SafeJoinIsClean(base: Str, names: seq<Str>)
    requires SafeJoined(base, names).Some? && names != []
    ensures Clean(SafeJoined(base, names).value) == SafeJoined(base, names).value
    decreases |names|
  {
    var next := JoinTwo(base, names[0]);
    if names[1..] == [] {
      RefusedMeaning(names[0]);
      JoinAppends(base, names[0]);
      assert SafeJoined(base, names) == Some(next);
    } else {
      SafeJoinIsClean(next, names[1..]);
    }
  }

  /**
   SafeJoin succeeds exactly when every name is relative, names something and never climbs out; the result
   is then the base extended, name after name, by at least one real segment each, and nothing else.
   */
  lemma SafeJoinExtends(base: Str, names: seq<Str>)
    ensures SafeJoined(base, names).Some? <==> forall n :: n in names ==> StaysInside(Parse(n))
    ensures SafeJoined(base, names).Some? ==>
      Parse(SafeJoined(base, names).value) == Path(IsAbs(base), Parse(base).segs + AllSegs(names)) &&
      AllReal(AllSegs(names)) && |AllSegs(names)| >= |names| &&
      (names != [] ==> Clean(SafeJoined(base, names).value) == SafeJoined(base, names).value)
  {
    SafeJoinSucceedsIff(base, names);
    if SafeJoined(base, names).Some? {
      AllSegsReal(names);
      SafeJoinAppends(base, names);
      if names != [] { SafeJoinIsClean(base, names); }
    }
  }

  /** Joining names in one call or in two calls gives the same path, or the same refusal. */
  lemma {:induction false} SafeJoinInTwoCalls(base: Str, a: seq<Str>, b: seq<Str>)
    ensures SafeJoined(base, a + b) ==
      match SafeJoined(base, a) { case Some(p) => SafeJoined(p, b) case None => None }
    decreases |a|
  {
    if a == [] {
      assert a + b == b;
    } else {
      assert (a + b)[1..] == a[1..] + b;
      SafeJoinInTwoCalls(JoinTwo(base, a[0]), a[1..], b);
    }
  }

  /**
   The upload path joins root, bucket and key in one call, the delete path joins the bucket first and then the
   key: same object path, so same lock stripe, whatever the stripe function.
   */
  lemma UploadAndDeleteLockTheSameStripe(root: Str, bucket: Str, key: Str, stripe: Str -> nat)
    ensures var up := SafeJoined(root, [bucket, TrimPrefix(key, "/")]);
      var bucketDir := SafeJoined(root, [bucket]);
      var del := if bucketDir == None then None else SafeJoined(bucketDir.value, [TrimPrefix(key, "/")]);
      up == del && (up.Some? ==> stripe(up.value) == stripe(del.value))
  {
    SafeJoinInTwoCalls(root, [bucket], [TrimPrefix(key, "/")]);
    assert [bucket] + [TrimPrefix(key, "/")] == [bucket, TrimPrefix(key, "/")];
  }

  // ------------------------------------------------------------------
  // Dir.

  function Parent(p: Path): Path
    requires p.segs != []
  {
    p.(segs := p.segs[..|p.segs| - 1])
  }

  lemma {:induction false} UpToLastSlashOf(a: Str, b: Str)
    requires '/' !in b
    ensures UpToLastSlash(a + "/" + b) == a + "/"
    decreases |b|
  {
    var s := a + "/" + b;
    if b == "" {
      assert s == a + "/";
    } else {
      var b' := b[..|b| - 1];
      assert s[..|s| - 1] == a + "/" + b';
      UpToLastSlashOf(a, b');
    }
  }

  lemma JoinSnoc(front: seq<Str>, last: Str)
    requires front != []
    ensures Join(front + [last], '/') == Join(front, '/') + "/" + last
  {
    JoinConcat(front, [last]);
  }

  lemma JoinLast(segs: seq<Str>)
    requires |segs| >= 2
    ensures Join(segs, '/') == Join(segs[..|segs| - 1], '/') + "/" + segs[|segs| - 1]
  {
    var front, last := segs[..|segs| - 1], segs[|segs| - 1];
    assert front + [last] == segs;
    JoinSnoc(front, last);
  }

  lemma CleanDropsTrailingSlash(segs: seq<Str>)
    requires segs != [] && AllReal(segs)
    ensures Clean("/" + Join(segs, '/') + "/") == "/" + Join(segs, '/')
  {
    var body := Join(segs, '/');
    SplitUnique(segs, '/');
    SplitConcat(body, "");
    assert body + "/" + "" == body + "/";
    assert "/" + (body + "/") == "/" + body + "/";
    ParseRooted(body + "/");
    FoldConcat([], true, segs, [""]);
    assert Split("", '/') == [""];
    FoldKeeps([], true, 0, segs) by {
      forall i | 0 <= i < |segs| ensures Real(segs[i]) { assert segs[i] in segs; }
    }
    assert [] + segs == segs;
  }

  /** filepath.Dir of a rooted path of real segments drops the last one. */
  lemma DirIsParent(p: Path)
    requires p.rooted && p.segs != [] && AllReal(p.segs)
    ensures Dir(Render(p)) == Render(Parent(p))
  {
    var front := p.segs[..|p.segs| - 1];
    var last := p.segs[|p.segs| - 1];
    assert last in p.segs;
    if |p.segs| == 1 {
      UpToLastSlashOf("", last);
      assert "" + "/" + last == Render(p);
      assert "" + "/" == "/";
      assert "/" + "" == "/";
      ParseRooted("");
    } else {
      JoinLast(p.segs);
      var body := Join(front, '/');
      UpToLastSlashOf("/" + body, last);
      assert "/" + body + "/" + last == Render(p);
      CleanDropsTrailingSlash(front) by {
        forall x | x in front ensures Real(x) { assert x in p.segs; }
      }
    }
  }

  // ------------------------------------------------------------------
  // What a path names: where walking its segments leads, starting from a directory given by its segments from the root.

  function StepInto(dir: seq<Str>, seg: Str): seq<Str> {
    if seg == "" || seg == "." then dir
    else if seg == ".." then if dir == [] then [] else dir[..|dir| - 1]
    else dir + [seg]
  }

  function Walk(dir: seq<Str>, parts: seq<Str>): seq<Str>
    decreases |parts|
  {
    if parts == [] then dir else Walk(StepInto(dir, parts[0]), parts[1..])
  }

  lemma {:induction false} WalkSnoc(dir: seq<Str>, parts: seq<Str>, seg: Str)
    ensures Walk(dir, parts + [seg]) == StepInto(Walk(dir, parts), seg)
    decreases |parts|
  {
    var all := parts + [seg];
    if parts == [] {
      assert all == [seg] && all[1..] == [];
    } else {
      assert all[0] == parts[0] && all[1..] == parts[1..] + [seg];
      WalkSnoc(StepInto(dir, parts[0]), parts[1..], seg);
    }
  }

  /** Segments kept so far: none is empty or a dot, and climbs only where there is no root. */
  predicate StackOk(stack: seq<Str>, rooted: bool) {
    forall x :: x in stack ==> x != "" && x != "." && (rooted ==> x != "..")
  }

  /** Taking the last real segment off is stepping back up. */
  lemma PopWalks(dir: seq<Str>, front: seq<Str>, last: Str)
    requires last != "" && last != "." && last != ".."
    ensures Walk(dir, front) == StepInto(Walk(dir, front + [last]), "..")
  {
    WalkSnoc(dir, front, last);
    var up := Walk(dir, front);
    assert (up + [last])[..|up|] == up;
  }

  lemma PushWalks(dir: seq<Str>, stack: seq<Str>, rooted: bool, seg: Str)
    requires StackOk(stack, rooted) && (rooted ==> dir == [])
    ensures StackOk(Push(stack, rooted, seg), rooted)
    ensures Walk(dir, Push(stack, rooted, seg)) == StepInto(Walk(dir, stack), seg)
  {
    WalkSnoc(dir, stack, seg);
    if seg == ".." && stack != [] {
      var front, last := stack[..|stack| - 1], stack[|stack| - 1];
      assert stack == front + [last] && last in stack;
      assert forall x :: x in front ==> x in stack;
      if last != ".." { PopWalks(dir, front, last); }
    }
  }

  lemma {:induction false} FoldWalks(dir: seq<Str>, stack: seq<Str>, rooted: bool, input: seq<Str>)
    requires StackOk(stack, rooted) && (rooted ==> dir == [])
    ensures Walk(dir, Fold(stack, rooted, input)) == Walk(Walk(dir, stack), input)
    decreases |input|
  {
    if input != [] {
      PushWalks(dir, stack, rooted, input[0]);
      FoldWalks(dir, Push(stack, rooted, input[0]), rooted, input[1..]);
    }
  }

  /** Where a path starts: at the root or at the directory given. */
  function StartOf(dir: seq<Str>, s: Str): seq<Str> {
    if IsAbs(s) then [] else dir
  }

  /** Cleaning a path does not change what it names, from whatever directory. */
  lemma CleanNamesTheSame(dir: seq<Str>, s: Str)
    ensures Walk(StartOf(dir, s), Parse(s).segs) == Walk(StartOf(dir, s), Split(s, '/'))
    ensures IsAbs(Clean(s)) <==> IsAbs(s)
    ensures Walk(StartOf(dir, Clean(s)), Split(Clean(s), '/')) == Walk(StartOf(dir, s), Split(s, '/'))
  {
    var start, c := StartOf(dir, s), Clean(s);
    FoldWalks(start, [], IsAbs(s), Split(s, '/'));
    ParseNormal(s);
    ParseRender(Parse(s));
    assert Parse(c) == Parse(s);
    assert IsAbs(c) == Parse(c).rooted && IsAbs(s) == Parse(s).rooted;
    FoldWalks(start, [], IsAbs(c), Split(c, '/'));
  }

  lemma {:induction false} WalkReals(dir: seq<Str>, segs: seq<Str>)
    requires AllReal(segs)
    ensures Walk(dir, segs) == dir + segs
    decreases |segs|
  {
    if segs == [] {
      assert dir + [] == dir;
    } else {
      assert segs[0] in segs;
      WalkReals(dir + [segs[0]], segs[1..]);
      assert dir + [segs[0]] + segs[1..] == dir + segs;
    }
  }

  lemma {:induction false} WalkNormal(dir: seq<Str>, p: Path, k: nat, i: nat)
    requires NormalAt(p, k) && i <= k
    ensures Walk(dir, p.segs[i..]) == dir[..Max(0, |dir| - (k - i))] + p.segs[k..]
    decreases k - i
  {
    if i == k {
      assert AllReal(p.segs[k..]) by {
        forall x | x in p.segs[k..] ensures Real(x) {
          var j :| 0 <= j < |p.segs[k..]| && p.segs[k..][j] == x;
          assert p.segs[k + j] == x;
        }
      }
      WalkReals(dir, p.segs[k..]);
      assert dir[..|dir|] == dir;
    } else {
      var rest := p.segs[i..];
      assert rest[0] == ".." && rest[1..] == p.segs[i + 1..];
      var up := StepInto(dir, "..");
      WalkNormal(up, p, k, i + 1);
      assert up[..Max(0, |up| - (k - i - 1))] == dir[..Max(0, |dir| - (k - i))];
    }
  }

  /** From every directory alike the name leads to the same place, at least one real segment below it. */
  ghost predicate LeadsBelow(n: Str, segs: seq<Str>) {
    segs != [] && AllReal(segs) && forall dir :: Walk(dir, Split(n, '/')) == dir + segs
  }

  /** SafeJoin refuses exactly the names that are absolute or do not lead strictly below wherever they are joined. */
  lemma RefusedIffNotBelow(n: Str)
    ensures !Refused(n) <==> !IsAbs(n) && exists segs :: LeadsBelow(n, segs)
  {
    RefusedMeaning(n);
    var p := Parse(n);
    ParseNormal(n);
    if !Refused(n) {
      forall dir ensures Walk(dir, Split(n, '/')) == dir + p.segs {
        CleanNamesTheSame(dir, n);
        WalkReals(dir, p.segs);
      }
      assert LeadsBelow(n, p.segs);
    }
    if !IsAbs(n) && exists segs :: LeadsBelow(n, segs) {
      var segs :| LeadsBelow(n, segs);
      var k :| NormalAt(p, k);
      LeadsBelowStays(n, p, k, segs);
    }
  }

  lemma LeadsBelowStays(n: Str, p: Path, k: nat, segs: seq<Str>)
    requires !IsAbs(n) && p == Parse(n) && NormalAt(p, k) && LeadsBelow(n, segs)
    ensures StaysInside(p)
  {
    var deep: seq<Str> := seq(k, _ => "d");
    CleanNamesTheSame([], n);
    CleanNamesTheSame(deep, n);
    WalkNormal([], p, k, 0);
    WalkNormal(deep, p, k, 0);
    assert p.segs[0..] == p.segs;
    assert Walk([], Split(n, '/')) == [] + segs && Walk(deep, Split(n, '/')) == deep + segs;
    assert |p.segs[k..]| == |segs| && |p.segs[k..]| == k + |segs|;
    assert p.segs[k..] == p.segs;
    forall x | x in p.segs ensures Real(x) {
      var i :| 0 <= i < |p.segs| && p.segs[i] == x;
    }
  }
}
