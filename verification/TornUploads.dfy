/** Why the operations of module Commit must not address temp names: a run of two uploads that tears an object. */
module TornUploads {
  import opened Wrappers
  import opened GoStrings
  import Decimal
  import opened Commit

  lemma Prepend(env: Env, s: State, a: Action, rest: seq<Action>)
    requires Enabled(env, s, a) && Enableds(env, Step(env, s, a), rest)
    ensures Enableds(env, s, [a] + rest) && Run(env, s, [a] + rest) == Run(env, Step(env, s, a), rest)
  {
    assert ([a] + rest)[1..] == rest;
  }

  lemma ThreeSteps(env: Env, s0: State, s1: State, s2: State, s3: State, a: Action, b: Action, c: Action)
    requires Enabled(env, s0, a) && s1 == Step(env, s0, a) && Enabled(env, s1, b) && s2 == Step(env, s1, b)
    requires Enabled(env, s2, c) && s3 == Step(env, s2, c)
    ensures Enableds(env, s0, [a, b, c]) && Run(env, s0, [a, b, c]) == s3
  {
    Prepend(env, s2, c, []);
    Prepend(env, s1, b, [c] + []);
    Prepend(env, s0, a, [b] + ([c] + []));
    assert [a] + ([b] + ([c] + [])) == [a, b, c];
  }

  /** A thread invokes an upload, takes its lock and creates its temp file. */
  lemma OpensTemp(env: Env, s: State, t: Thread, op: Op, tmp: Path) returns (s3: State)
    requires op.Put? && PhaseOf(s, t).Idle? && env.stripe(op.path) !in s.held
    requires tmp !in s.files && IsTemp(tmp) && DirSlash(tmp) == DirSlash(op.path)
    ensures var run := [Invoke(t, op), Acquire(t), CreateTemp(t, tmp)]; Enableds(env, s, run) && Run(env, s, run) == s3
    ensures s3 == State(s.files[tmp := Partial(t)], s.held[env.stripe(op.path) := t],
                        s.threads[t := Streaming(op, tmp, [], [])], s.log + [op])
  {
    var s1 := Step(env, s, Invoke(t, op));
    var s2 := Step(env, s1, Acquire(t));
    assert s2.threads == s.threads[t := Locked(op)];
    s3 := Step(env, s2, CreateTemp(t, tmp));
    assert s3.threads == s.threads[t := Streaming(op, tmp, [], [])];
    ThreeSteps(env, s, s1, s2, s3, Invoke(t, op), Acquire(t), CreateTemp(t, tmp));
  }

  lemma {:induction false} RunConcat(env: Env, s: State, a: seq<Action>, b: seq<Action>)
    requires Enableds(env, s, a) && Enableds(env, Run(env, s, a), b)
    ensures Enableds(env, s, a + b) && Run(env, s, a + b) == Run(env, Run(env, s, a), b)
    decreases |a|
  {
    if a == [] {
      assert a + b == b;
    } else {
      var ab := a + b;
      assert ab[0] == a[0] && ab[1..] == a[1..] + b;
      RunConcat(env, Step(env, s, a[0]), a[1..], b);
    }
  }

  lemma FourRuns(env: Env, s: State, a: seq<Action>, b: seq<Action>, c: seq<Action>, d: seq<Action>)
    requires Enableds(env, s, a) && Enableds(env, Run(env, s, a), b)
    requires Enableds(env, Run(env, Run(env, s, a), b), c) && Enableds(env, Run(env, Run(env, Run(env, s, a), b), c), d)
    ensures Enableds(env, s, a + (b + (c + d)))
    ensures Run(env, s, a + (b + (c + d))) == Run(env, Run(env, Run(env, Run(env, s, a), b), c), d)
  {
    var s1 := Run(env, s, a);
    var s2 := Run(env, s1, b);
    RunConcat(env, s2, c, d);
    RunConcat(env, s1, b, c + d);
    RunConcat(env, s, a, b + (c + d));
  }

  predicate UploadsObjects(run: seq<Action>) {
    forall a :: a in run && a.Invoke? ==> a.op.Put? && IsObject(a.op.path)
  }

  lemma FourUploads(a: seq<Action>, b: seq<Action>, c: seq<Action>, d: seq<Action>)
    requires UploadsObjects(a) && UploadsObjects(b) && UploadsObjects(c) && UploadsObjects(d)
    ensures UploadsObjects(a + (b + (c + d)))
  {
  }

  /** What the intruder leaves for thread 0 to rename. */
  lemma IntruderUploads(env: Env, s1: State, p: Path, p2: Path) returns (b: seq<Action>, c: seq<Action>, s3: State)
    requires IsTemp(p) && IsTemp(p2) && p != p2 && DirSlash(p2) == DirSlash(p)
    requires env.stripe(p) !in s1.held && 1 !in s1.threads && p2 !in s1.files
    ensures UploadsObjects(b) && Enableds(env, s1, b)
    ensures UploadsObjects(c) && Enableds(env, Run(env, s1, b), c) && Run(env, Run(env, s1, b), c) == s3
    ensures 0 in s1.threads ==> 0 in s3.threads && s3.threads[0] == s1.threads[0]
    ensures p in s3.files && s3.files[p] == Data("") && s3.held == s1.held
  {
    TempIsObject(p);
    var s2;
    b, s2 := IntruderWrites(env, s1, p, p2);
    c, s3 := IntruderCommits(env, s2, s1.files, s1.held, p, p2);
  }

  /** Thread 0 uploads one byte to q through the temp name p, up to the rename. */
  lemma BeforeRename(env: Env, q: Path, p: Path) returns (run: seq<Action>, s: State)
    requires IsTemp(p) && DirSlash(p) == DirSlash(q) && IsObject(q)
    ensures Enableds(env, Start(map[]), run) && Run(env, Start(map[]), run) == s && UploadsObjects(run)
    ensures var op := Put(q, "a", map[]);
      s == State(map[p := Data("a")], map[env.stripe(q) := 0], map[0 := Closed(op, p, "a")], [op])
  {
    var op := Put(q, "a", map[]);
    var s0 := Start(map[]);
    var head := [Invoke(0, op), Acquire(0), CreateTemp(0, p)];
    var s3 := OpensTemp(env, s0, 0, op, p);
    var s4 := Step(env, s3, Copy(0, 1));
    assert op.body[0..1] == op.body && [] + op.body == op.body;
    assert s4 == s3.(threads := map[0 := Streaming(op, p, "a", "a")]);
    s := Step(env, s4, Close(0));
    var tail := [Copy(0, 1)] + ([Close(0)] + []);
    Prepend(env, s4, Close(0), []);
    Prepend(env, s3, Copy(0, 1), [Close(0)] + []);
    RunConcat(env, s0, head, tail);
    run := head + tail;
  }

  /** Thread 1 uploads the empty object whose key is the name of that temp file, through temp name p2. */
  lemma IntruderWrites(env: Env, s: State, p: Path, p2: Path) returns (run: seq<Action>, s': State)
    requires IsTemp(p2) && DirSlash(p2) == DirSlash(p) && IsObject(p)
    requires env.stripe(p) !in s.held && 1 !in s.threads && p2 !in s.files
    ensures Enableds(env, s, run) && Run(env, s, run) == s' && UploadsObjects(run)
    ensures var op := Put(p, "", map[]);
      s' == State(s.files[p2 := Data("")], s.held[env.stripe(p) := 1], s.threads[1 := Closed(op, p2, "")], s.log + [op])
  {
    var op := Put(p, "", map[]);
    var head := [Invoke(1, op), Acquire(1), CreateTemp(1, p2)];
    var s3 := OpensTemp(env, s, 1, op, p2);
    s' := Step(env, s3, Close(1));
    Prepend(env, s3, Close(1), []);
    RunConcat(env, s, head, [Close(1)] + []);
    run := head + ([Close(1)] + []);
  }

  lemma IntruderCommits(env: Env, s: State, files: Files, held: map<nat, Thread>, p: Path, p2: Path)
    returns (run: seq<Action>, s': State)
    requires p != p2 && p2 !in files && s.files == files[p2 := Data("")]
    requires env.stripe(p) !in held && s.held == held[env.stripe(p) := 1]
    requires 1 in s.threads && s.threads[1] == Closed(Put(p, "", map[]), p2, "")
    ensures Enableds(env, s, run) && Run(env, s, run) == s' && UploadsObjects(run)
    ensures p in s'.files && s'.files[p] == Data("") && s'.held == held && s'.threads == s.threads[1 := Idle]
  {
    MetaPathFacts(p);
    var s1 := Step(env, s, Rename(1));
    assert s1.files == files[p := Data("")];
    var s2 := Step(env, s1, WriteSidecar(1));
    s' := Step(env, s2, Unlock(1));
    assert s'.held == held;
    run := [Rename(1), WriteSidecar(1), Unlock(1)];
    ThreeSteps(env, s, s1, s2, s', Rename(1), WriteSidecar(1), Unlock(1));
  }

  lemma AfterRename(env: Env, s: State, q: Path, p: Path) returns (run: seq<Action>, s': State)
    requires 0 in s.threads && s.threads[0] == Closed(Put(q, "a", map[]), p, "a") && p != q
    requires p in s.files && s.files[p] == Data("") && s.held == map[env.stripe(q) := 0]
    ensures Enableds(env, s, run) && Run(env, s, run) == s' && UploadsObjects(run)
    ensures s'.held == map[] && q in s'.files && s'.files[q] == Data("") &&
      MetaPath(q) in s'.files && s'.files[MetaPath(q)] == Sidecar(Stamp(env, "a", map[]))
  {
    MetaPathFacts(q);
    var s1 := Step(env, s, Rename(0));
    var s2 := Step(env, s1, WriteSidecar(0));
    s' := Step(env, s2, Unlock(0));
    assert s'.held == map[];
    run := [Rename(0), WriteSidecar(0), Unlock(0)];
    ThreeSteps(env, s, s1, s2, s', Rename(0), WriteSidecar(0), Unlock(0));
  }

  lemma TornAtEnd(env: Env, files: Files, q: Path)
    requires q in files && files[q] == Data("")
    requires MetaPath(q) in files && files[MetaPath(q)] == Sidecar(Stamp(env, "a", map[]))
    ensures !Paired(env, files, q)
  {
    assert |Decimal.Itoa(0)| == 1 && |Decimal.Itoa(1)| == 1 && Decimal.Itoa(0) != Decimal.Itoa(1);
  }

  lemma TempIsObject(p: Path)
    requires IsTemp(p)
    ensures IsObject(p)
  {
    if HasSuffix(p, ".meta") {
      MetaIsNotTemp(p);
    }
  }

  /**
   The restriction in the theorems above is needed. Validation accepts keys whose last segment looks
   like a temp file, such as ".upload-7"; for every such key p, and every q beside it on another
   stripe, there is a run of two uploads after which nobody holds a lock and q is torn.
   */
  lemma TempKeyTears(env: Env, q: Path, p: Path, p2: Path) returns (run: seq<Action>)
    requires LegalOp(Put(q, "a", map[])) && IsTemp(p) && IsTemp(p2) && p != p2
    requires DirSlash(p) == DirSlash(q) && DirSlash(p2) == DirSlash(p) && env.stripe(p) != env.stripe(q)
    ensures UploadsObjects(run) && Enableds(env, Start(map[]), run)
    ensures Run(env, Start(map[]), run).held == map[] && !Paired(env, Run(env, Start(map[]), run).files, q)
  {
    TempIsObject(p);
    var a, s1 := BeforeRename(env, q, p);
    var b, c, s3 := IntruderUploads(env, s1, p, p2);
    var d, s4 := AfterRename(env, s3, q, p);
    FourRuns(env, Start(map[]), a, b, c, d);
    FourUploads(a, b, c, d);
    TornAtEnd(env, s4.files, q);
    run := a + (b + (c + d));
  }
}
