/**
 The commit protocol behind PutObject and DeleteObject: a data file and its
 `.meta` sidecar, changed in several filesystem steps under one of a fixed number
 of mutexes chosen by hashing the object's path. Any number of threads, any
 interleaving, success paths only.
 */
module Commit {
  import opened Wrappers
  import opened GoStrings
  import Decimal

  type Path = Str
  type Thread = nat
  type Meta = map<Str, Str>

  /** The hash functions, about which nothing is assumed. */
  datatype Env = Env(stripe: Path -> nat, etag: Str -> Str, crc: Str -> Str)

  datatype Op = Put(path: Path, body: Str, meta: Meta) | Delete(path: Path)

  /** `Partial(t)` is a temp file whose bytes are still only what thread t has written to its handle. */
  datatype File = Data(bytes: Str) | Sidecar(meta: Meta) | Partial(writer: Thread)

  type Files = map<Path, File>

  function MetaPath(p: Path): Path {
    p + ".meta"
  }

  /** The sidecar of a finished upload. */
  function Stamp(env: Env, bytes: Str, meta: Meta): Meta {
    meta["x-amz-checksum-crc32" := env.crc(bytes)]["ETag" := env.etag(bytes)]["Content-Length" := Decimal.Itoa(|bytes|)]
  }

  /** The part of a path after its last slash, and the part up to and including it. */
  function Base(p: Path): Path {
    if '/' in p then Base(p[1..]) else p
  }

  function DirSlash(p: Path): (d: Path)
    ensures d + Base(p) == p
  {
    if '/' in p then [p[0]] + DirSlash(p[1..]) else []
  }

  const TEMP_PREFIX: Str := ".upload-"

  const TEMP_NAMES := 0x1_0000_0000

  /** The names os.CreateTemp makes for the pattern ".upload-*": the star becomes a 32-bit number in decimal. */
  predicate IsTemp(p: Path) {
    exists n :: 0 <= n < TEMP_NAMES && IsTempNumber(p, n)
  }

  predicate IsTempNumber(p: Path, n: nat) {
    Base(p) == TEMP_PREFIX + Decimal.Itoa(n)
  }

  /** Object paths: validation has rejected every name that ends in `.meta`. */
  predicate IsObject(p: Path) {
    !HasSuffix(p, ".meta")
  }

  // ------------------------------------------------------------------
  // The step system.

  datatype Phase =
    | Idle
    | Waiting(op: Op)
    | Locked(op: Op)
    | Streaming(op: Op, tmp: Path, written: Str, hashed: Str)
    | Closed(op: Op, tmp: Path, hashed: Str)
    | Renamed(op: Op, hashed: Str)
    | Removed(op: Op)
    | Finished(op: Op, reply: Option<(Str, nat)>)

  /** `log` is history: the operations in the order in which they took their lock. */
  datatype State = State(files: Files, held: map<nat, Thread>, threads: map<Thread, Phase>, log: seq<Op>)

  datatype Action =
    | Invoke(t: Thread, op: Op)
    | Acquire(t: Thread)
    | CreateTemp(t: Thread, tmp: Path)
    | Copy(t: Thread, n: nat)
    | Close(t: Thread)
    | Rename(t: Thread)
    | WriteSidecar(t: Thread)
    | RemoveData(t: Thread)
    | RemoveSidecar(t: Thread)
    | Unlock(t: Thread)

  function PhaseOf(s: State, t: Thread): Phase {
    if t in s.threads then s.threads[t] else Idle
  }

  /** One write of io.Copy: the same bytes go to the temp file and to the hashers. */
  function Copied(ph: Phase, n: nat): Phase
    requires ph.Streaming? && ph.op.Put? && |ph.written| + n <= |ph.op.body|
  {
    var chunk := ph.op.body[|ph.written|..|ph.written| + n];
    ph.(written := ph.written + chunk, hashed := ph.hashed + chunk)
  }

  function Without(files: Files, p: Path): Files {
    map x | x in files && x != p :: files[x]
  }

  predicate Enabled(env: Env, s: State, a: Action) {
    var ph := PhaseOf(s, a.t);
    match a
    case Invoke(t, op) => ph.Idle?
    case Acquire(t) => ph.Waiting? && env.stripe(ph.op.path) !in s.held
    case CreateTemp(t, tmp) =>
      ph.Locked? && ph.op.Put? && tmp !in s.files && IsTemp(tmp) && DirSlash(tmp) == DirSlash(ph.op.path)
    case Copy(t, n) => ph.Streaming? && ph.op.Put? && |ph.written| + n <= |ph.op.body|
    case Close(t) => ph.Streaming? && ph.op.Put? && |ph.written| == |ph.op.body|
    case Rename(t) => ph.Closed? && ph.tmp in s.files
    case WriteSidecar(t) => ph.Renamed? && ph.op.Put?
    case RemoveData(t) => ph.Locked? && ph.op.Delete?
    case RemoveSidecar(t) => ph.Removed?
    case Unlock(t) => ph.Finished?
  }

  function Step(env: Env, s: State, a: Action): State
    requires Enabled(env, s, a)
  {
    var ph := PhaseOf(s, a.t);
    match a
    case Invoke(t, op) => s.(threads := s.threads[t := Waiting(op)])
    case Acquire(t) =>
      s.(held := s.held[env.stripe(ph.op.path) := t], threads := s.threads[t := Locked(ph.op)], log := s.log + [ph.op])
    case CreateTemp(t, tmp) =>
      s.(files := s.files[tmp := Partial(t)], threads := s.threads[t := Streaming(ph.op, tmp, [], [])])
    case Copy(t, n) =>
      s.(threads := s.threads[t := Copied(ph, n)])
    case Close(t) =>
      // The handle's bytes become the content of the name, if the name still refers to the handle's file.
      var files := if ph.tmp in s.files && s.files[ph.tmp] == Partial(t)
                   then s.files[ph.tmp := Data(ph.written)] else s.files;
      s.(files := files, threads := s.threads[t := Closed(ph.op, ph.tmp, ph.hashed)])
    case Rename(t) =>
      s.(files := Without(s.files, ph.tmp)[ph.op.path := s.files[ph.tmp]],
         threads := s.threads[t := Renamed(ph.op, ph.hashed)])
    case WriteSidecar(t) =>
      s.(files := s.files[MetaPath(ph.op.path) := Sidecar(Stamp(env, ph.hashed, ph.op.meta))],
         threads := s.threads[t := Finished(ph.op, Some((env.etag(ph.hashed), |ph.hashed|)))])
    case RemoveData(t) =>
      s.(files := Without(s.files, ph.op.path), threads := s.threads[t := Removed(ph.op)])
    case RemoveSidecar(t) =>
      s.(files := Without(s.files, MetaPath(ph.op.path)), threads := s.threads[t := Finished(ph.op, None)])
    case Unlock(t) =>
      s.(held := map k | k in s.held && k != env.stripe(ph.op.path) :: s.held[k], threads := s.threads[t := Idle])
  }

  predicate Enableds(env: Env, s: State, run: seq<Action>)
    decreases |run|
  {
    run == [] || (Enabled(env, s, run[0]) && Enableds(env, Step(env, s, run[0]), run[1..]))
  }

  function Run(env: Env, s: State, run: seq<Action>): State
    requires Enableds(env, s, run)
    decreases |run|
  {
    if run == [] then s else Run(env, Step(env, s, run[0]), run[1..])
  }

  function Start(files: Files): State {
    State(files, map[], map[], [])
  }

  // ------------------------------------------------------------------
  // The sequential store: each operation in one step.

  function Apply(env: Env, files: Files, op: Op): Files {
    match op
    case Put(p, body, meta) => files[p := Data(body)][MetaPath(p) := Sidecar(Stamp(env, body, meta))]
    case Delete(p) => Without(Without(files, p), MetaPath(p))
  }

  function Sequential(env: Env, files: Files, log: seq<Op>): Files {
    if log == [] then files else Apply(env, Sequential(env, files, log[..|log| - 1]), log[|log| - 1])
  }

  predicate Agree(a: Files, b: Files, x: Path) {
    (x in a <==> x in b) && (x in a ==> a[x] == b[x])
  }

  /** Data and sidecar are both absent, or both present and the sidecar describes exactly those bytes. */
  predicate Paired(env: Env, files: Files, p: Path) {
    (p !in files && MetaPath(p) !in files)
    || (p in files && MetaPath(p) in files && files[p].Data? && files[MetaPath(p)].Sidecar? &&
        Describes(env, files[MetaPath(p)].meta, files[p].bytes))
  }

  predicate Describes(env: Env, meta: Meta, bytes: Str) {
    "ETag" in meta && meta["ETag"] == env.etag(bytes) &&
    "Content-Length" in meta && meta["Content-Length"] == Decimal.Itoa(|bytes|) &&
    "x-amz-checksum-crc32" in meta && meta["x-amz-checksum-crc32"] == env.crc(bytes)
  }

  /** The sidecar's own three entries describe the bytes; every other entry is exactly what the upload came with. */
  ghost predicate Carries(env: Env, stored: Meta, given: Meta, bytes: Str) {
    Describes(env, stored, bytes) &&
    forall k :: k != "ETag" && k != "Content-Length" && k != "x-amz-checksum-crc32" ==>
      (k in stored <==> k in given) && (k in stored ==> stored[k] == given[k])
  }

  lemma StampCarries(env: Env, bytes: Str, meta: Meta)
    ensures Carries(env, Stamp(env, bytes, meta), meta, bytes)
  {
    var a: Str, b: Str, c: Str := "ETag", "Content-Length", "x-amz-checksum-crc32";
    assert a[0] == 'E' && b[0] == 'C' && c[0] == 'x';
  }

  predicate LegalOp(op: Op) {
    IsObject(op.path) && !IsTemp(op.path)
  }

  predicate LegalLog(log: seq<Op>) {
    forall op :: op in log ==> LegalOp(op)
  }

  predicate LegalRun(run: seq<Action>) {
    forall i :: 0 <= i < |run| && run[i].Invoke? ==> LegalOp(run[i].op)
  }

  // ------------------------------------------------------------------
  // The invariant.

  /** The phases in which a thread holds its lock. */
  predicate Holding(ph: Phase) {
    !ph.Idle? && !ph.Waiting?
  }

  /** The names a thread may have changed since it took its lock. */
  predicate Touches(ph: Phase, x: Path) {
    Holding(ph) && (x == ph.op.path || x == MetaPath(ph.op.path) || ((ph.Streaming? || ph.Closed?) && x == ph.tmp))
  }

  predicate InFlight(s: State, x: Path) {
    exists t :: t in s.threads && Touches(s.threads[t], x)
  }

  /** What a thread in the middle of an operation knows about the files it has changed. */
  predicate Progress(env: Env, files: Files, t: Thread, ph: Phase) {
    match ph
    case Idle => true
    case Waiting(op) => true
    case Locked(op) => true
    case Streaming(op, tmp, written, hashed) =>
      op.Put? && IsTemp(tmp) && tmp in files && files[tmp] == Partial(t) && written <= op.body && hashed == written
    case Closed(op, tmp, hashed) => op.Put? && IsTemp(tmp) && tmp in files && files[tmp] == Data(op.body) && hashed == op.body
    case Renamed(op, hashed) => op.Put? && op.path in files && files[op.path] == Data(op.body) && hashed == op.body
    case Removed(op) => op.Delete? && op.path !in files
    case Finished(op, reply) =>
      Agree(files, Apply(env, map[], op), op.path) && Agree(files, Apply(env, map[], op), MetaPath(op.path)) &&
      reply == (if op.Put? then Some((env.etag(op.body), |op.body|)) else None)
  }

  /** Mutual exclusion: a thread in an operation holds its stripe, and only such threads hold stripes. */
  predicate LocksOk(env: Env, s: State) {
    && (forall t :: t in s.threads && Holding(s.threads[t]) ==>
          env.stripe(s.threads[t].op.path) in s.held && s.held[env.stripe(s.threads[t].op.path)] == t)
    && (forall k :: k in s.held ==>
          s.held[k] in s.threads && Holding(s.threads[s.held[k]]) && env.stripe(s.threads[s.held[k]].op.path) == k)
  }

  predicate LegalThreads(s: State) {
    forall t :: t in s.threads && !s.threads[t].Idle? ==> LegalOp(s.threads[t].op)
  }

  predicate HasTemp(ph: Phase) {
    ph.Streaming? || ph.Closed?
  }

  predicate TempsDistinct(s: State) {
    forall t, u :: t in s.threads && u in s.threads && t != u && HasTemp(s.threads[t]) && HasTemp(s.threads[u]) ==>
      s.threads[t].tmp != s.threads[u].tmp
  }

  predicate ProgressOk(env: Env, s: State) {
    forall t :: t in s.threads ==> Progress(env, s.files, t, s.threads[t])
  }

  /** In the sequential store q, the operation in flight on a path has already had the last word on it. */
  predicate LastWords(env: Env, s: State, q: Files) {
    forall t :: t in s.threads && Holding(s.threads[t]) ==> LastWord(env, q, s.threads[t].op)
  }

  predicate LastWord(env: Env, q: Files, op: Op) {
    Agree(q, Apply(env, map[], op), op.path) && Agree(q, Apply(env, map[], op), MetaPath(op.path))
  }

  /** No temp name in use is a file of the sequential store. */
  predicate TempsAreNew(s: State, q: Files) {
    forall t :: t in s.threads && HasTemp(s.threads[t]) ==> s.threads[t].tmp !in q
  }

  ghost predicate FilesOk(s: State, q: Files) {
    forall x :: InFlight(s, x) || Agree(s.files, q, x)
  }

  /** How the files stand to the sequential store q. */
  ghost predicate Inv(env: Env, s: State, q: Files) {
    LocksOk(env, s) && LegalThreads(s) && TempsDistinct(s) && ProgressOk(env, s) &&
    LastWords(env, s, q) && FilesOk(s, q) && TempsAreNew(s, q)
  }

  // ------------------------------------------------------------------
  // Names.

  lemma {:induction false} BaseIsSuffix(p: Path)
    ensures HasSuffix(p, Base(p))
  {
    if '/' in p {
      BaseIsSuffix(p[1..]);
    }
  }

  lemma MetaIsNotTemp(p: Path)
    requires HasSuffix(p, ".meta")
    ensures !IsTemp(p)
  {
    BaseIsSuffix(p);
    var b := Base(p);
    assert |b| > 0 ==> p[|p| - 1] == b[|b| - 1];
    assert |b| > |TEMP_PREFIX| ==> b[|b| - 1] == b[|TEMP_PREFIX|..][|b| - |TEMP_PREFIX| - 1];
    assert p[|p| - 1] == 'a';
  }

  lemma MetaPathFacts(p: Path)
    ensures HasSuffix(MetaPath(p), ".meta") && !IsTemp(MetaPath(p)) && MetaPath(p) != p
  {
    SuffixOfConcat(p, ".meta");
    MetaIsNotTemp(MetaPath(p));
  }

  lemma MetaPathInjective(p: Path, q: Path)
    ensures MetaPath(p) == MetaPath(q) ==> p == q
  {
    assert MetaPath(p)[..|MetaPath(p)| - 5] == p;
    assert MetaPath(q)[..|MetaPath(q)| - 5] == q;
  }

  /** Two operations on different legal paths touch different names. */
  lemma FootprintsDisjoint(a: Path, b: Path)
    requires IsObject(a) && IsObject(b) && a != b
    ensures MetaPath(a) != b && MetaPath(b) != a && MetaPath(a) != MetaPath(b)
  {
    MetaPathFacts(a);
    MetaPathFacts(b);
    MetaPathInjective(a, b);
  }

  // ------------------------------------------------------------------
  // Every step keeps the invariant.

  lemma TouchesDisjoint(a: Phase, b: Phase)
    requires Holding(a) && Holding(b) && LegalOp(a.op) && LegalOp(b.op) && a.op.path != b.op.path
    requires HasTemp(a) ==> IsTemp(a.tmp)
    requires HasTemp(b) ==> IsTemp(b.tmp)
    requires HasTemp(a) && HasTemp(b) ==> a.tmp != b.tmp
    ensures forall x :: !(Touches(a, x) && Touches(b, x))
  {
    var p, q := a.op.path, b.op.path;
    FootprintsDisjoint(p, q);
    TempTouchesNothing(a, q);
    TempTouchesNothing(b, p);
    DistinctNamesDisjoint(a, b);
  }

  lemma DistinctNamesDisjoint(a: Phase, b: Phase)
    requires Holding(a) && Holding(b)
    requires var p, q := a.op.path, b.op.path;
      p != q && p != MetaPath(q) && MetaPath(p) != q && MetaPath(p) != MetaPath(q) &&
      (HasTemp(a) ==> a.tmp != q && a.tmp != MetaPath(q)) && (HasTemp(b) ==> b.tmp != p && b.tmp != MetaPath(p)) &&
      (HasTemp(a) && HasTemp(b) ==> a.tmp != b.tmp)
    ensures forall x :: !(Touches(a, x) && Touches(b, x))
  {
  }

  lemma TempTouchesNothing(a: Phase, p: Path)
    requires IsObject(p) && !IsTemp(p) && (HasTemp(a) ==> IsTemp(a.tmp))
    ensures HasTemp(a) ==> a.tmp != p && a.tmp != MetaPath(p)
  {
    MetaPathFacts(p);
  }

  /** What a step of thread t, from phase a to phase b, may do to the files. */
  ghost predicate Confined(a: Phase, b: Phase, before: Files, after: Files) {
    forall x :: Touches(a, x) || Touches(b, x) || Agree(after, before, x)
  }

  lemma OthersProgress(env: Env, s: State, t: Thread, b: Phase, files: Files)
    requires LocksOk(env, s) && LegalThreads(s) && TempsDistinct(s) && ProgressOk(env, s)
    requires t in s.threads && Holding(s.threads[t]) && Holding(b) && b.op == s.threads[t].op
    requires Confined(s.threads[t], b, s.files, files)
    requires HasTemp(b) ==> IsTemp(b.tmp) && ((HasTemp(s.threads[t]) && b.tmp == s.threads[t].tmp) || b.tmp !in s.files)
    ensures forall u :: u in s.threads && u != t ==> Progress(env, files, u, s.threads[u])
  {
    forall u | u in s.threads && u != t ensures Progress(env, files, u, s.threads[u]) {
      var c := s.threads[u];
      assert Progress(env, s.files, u, c);
      if Holding(c) {
        assert Progress(env, s.files, t, s.threads[t]);
        TouchesDisjoint(s.threads[t], c);
        TouchesDisjoint(b, c);
        assert Touches(c, c.op.path) && Touches(c, MetaPath(c.op.path)) && (HasTemp(c) ==> Touches(c, c.tmp));
      }
    }
  }

  lemma FilesStayOk(s: State, q: Files, t: Thread, b: Phase, files: Files)
    requires FilesOk(s, q)
    requires t in s.threads && Confined(s.threads[t], b, s.files, files)
    requires forall x :: Touches(s.threads[t], x) && !Touches(b, x) ==> Agree(files, q, x)
    ensures FilesOk(s.(files := files, threads := s.threads[t := b]), q)
  {
    var s' := s.(files := files, threads := s.threads[t := b]);
    forall x ensures InFlight(s', x) || Agree(files, q, x) {
      if Touches(b, x) {
        assert s'.threads[t] == b;
      } else if Touches(s.threads[t], x) {
      } else if InFlight(s, x) {
        var u :| u in s.threads && Touches(s.threads[u], x);
        assert u in s'.threads && s'.threads[u] == s.threads[u];
      } else {
        assert Agree(s.files, q, x) && Agree(files, s.files, x);
      }
    }
  }

  /** A step of a thread that holds its lock throughout, described by what it may change. */
  lemma HoldingStepKeepsInv(env: Env, s: State, q: Files, t: Thread, b: Phase, files: Files)
    requires Inv(env, s, q)
    requires t in s.threads && Holding(s.threads[t]) && Holding(b) && b.op == s.threads[t].op
    requires Confined(s.threads[t], b, s.files, files)
    requires Progress(env, files, t, b)
    requires forall x :: Touches(s.threads[t], x) && !Touches(b, x) ==> Agree(files, q, x)
    requires HasTemp(b) ==> (HasTemp(s.threads[t]) && b.tmp == s.threads[t].tmp) || (b.tmp !in s.files && b.tmp !in q)
    ensures Inv(env, s.(files := files, threads := s.threads[t := b]), q)
  {
    OthersProgress(env, s, t, b, files);
    FilesStayOk(s, q, t, b, files);
    HoldingStepKeepsThreads(env, s, q, t, b, files);
  }

  lemma HoldingStepKeepsThreads(env: Env, s: State, q: Files, t: Thread, b: Phase, files: Files)
    requires LocksOk(env, s) && LegalThreads(s) && TempsDistinct(s) && ProgressOk(env, s) && LastWords(env, s, q)
    requires TempsAreNew(s, q)
    requires t in s.threads && Holding(s.threads[t]) && Holding(b) && b.op == s.threads[t].op
    requires HasTemp(b) ==> (HasTemp(s.threads[t]) && b.tmp == s.threads[t].tmp) || (b.tmp !in s.files && b.tmp !in q)
    ensures var s' := s.(files := files, threads := s.threads[t := b]);
      LocksOk(env, s') && LegalThreads(s') && TempsDistinct(s') && LastWords(env, s', q) && TempsAreNew(s', q)
  {
    HoldingStepKeepsTemps(env, s, t, b, files);
  }

  lemma HoldingStepKeepsTemps(env: Env, s: State, t: Thread, b: Phase, files: Files)
    requires TempsDistinct(s) && ProgressOk(env, s) && t in s.threads
    requires HasTemp(b) ==> (HasTemp(s.threads[t]) && b.tmp == s.threads[t].tmp) || b.tmp !in s.files
    ensures TempsDistinct(s.(files := files, threads := s.threads[t := b]))
  {
    forall u | u in s.threads && u != t && HasTemp(s.threads[u]) && HasTemp(b) ensures s.threads[u].tmp != b.tmp {
      assert Progress(env, s.files, u, s.threads[u]);
    }
  }

  lemma InvokeKeepsFilesOk(s: State, q: Files, t: Thread, op: Op)
    requires FilesOk(s, q) && PhaseOf(s, t).Idle?
    ensures FilesOk(s.(threads := s.threads[t := Waiting(op)]), q)
  {
    var s' := s.(threads := s.threads[t := Waiting(op)]);
    forall x ensures InFlight(s', x) || Agree(s.files, q, x) {
      if InFlight(s, x) {
        var u :| u in s.threads && Touches(s.threads[u], x);
        assert u in s'.threads && s'.threads[u] == s.threads[u];
      }
    }
  }

  lemma InvokeKeepsInv(env: Env, s: State, q: Files, t: Thread, op: Op)
    requires Inv(env, s, q) && PhaseOf(s, t).Idle? && LegalOp(op)
    ensures Inv(env, Step(env, s, Invoke(t, op)), q)
  {
    InvokeKeepsFilesOk(s, q, t, op);
  }

  /** Another operation of the sequential store leaves the last word on a different path alone. */
  lemma ApplyKeepsLastWord(env: Env, q: Files, op: Op, other: Op)
    requires LegalOp(op) && LegalOp(other) && op.path != other.path && LastWord(env, q, other)
    ensures LastWord(env, Apply(env, q, op), other)
  {
    FootprintsDisjoint(op.path, other.path);
  }

  lemma ApplyHasLastWord(env: Env, q: Files, op: Op)
    requires LegalOp(op)
    ensures LastWord(env, Apply(env, q, op), op)
    ensures forall x :: x == op.path || x == MetaPath(op.path) || Agree(Apply(env, q, op), q, x)
  {
    MetaPathFacts(op.path);
  }

  lemma AcquireKeepsFilesOk(s: State, q: Files, t: Thread, op: Op, s': State, q': Files)
    requires FilesOk(s, q) && t in s.threads && s.threads[t] == Waiting(op)
    requires s'.files == s.files && s'.threads == s.threads[t := Locked(op)]
    requires forall x :: x == op.path || x == MetaPath(op.path) || Agree(q', q, x)
    ensures FilesOk(s', q')
  {
    forall x ensures InFlight(s', x) || Agree(s'.files, q', x) {
      if x == op.path || x == MetaPath(op.path) {
        assert s'.threads[t] == Locked(op) && Touches(s'.threads[t], x);
      } else if InFlight(s, x) {
        var u :| u in s.threads && Touches(s.threads[u], x);
        assert u in s'.threads && s'.threads[u] == s.threads[u];
      } else {
        assert Agree(s.files, q, x) && Agree(q', q, x);
      }
    }
  }

  lemma AcquireKeepsThreads(env: Env, s: State, t: Thread)
    requires LocksOk(env, s) && LegalThreads(s) && TempsDistinct(s) && ProgressOk(env, s) && Enabled(env, s, Acquire(t))
    ensures var s' := Step(env, s, Acquire(t));
      LocksOk(env, s') && LegalThreads(s') && TempsDistinct(s') && ProgressOk(env, s')
  {
  }

  lemma AcquireKeepsLastWords(env: Env, s: State, q: Files, t: Thread)
    requires LocksOk(env, s) && LegalThreads(s) && LastWords(env, s, q) && Enabled(env, s, Acquire(t))
    ensures LastWords(env, Step(env, s, Acquire(t)), Apply(env, q, s.threads[t].op))
  {
    var op, s' := s.threads[t].op, Step(env, s, Acquire(t));
    ApplyHasLastWord(env, q, op);
    forall u | u in s'.threads && Holding(s'.threads[u]) ensures LastWord(env, Apply(env, q, op), s'.threads[u].op) {
      if u != t { ApplyKeepsLastWord(env, q, op, s.threads[u].op); }
    }
  }

  lemma AcquireKeepsTempsNew(env: Env, s: State, q: Files, t: Thread)
    requires TempsAreNew(s, q) && ProgressOk(env, s) && LegalThreads(s) && Enabled(env, s, Acquire(t))
    ensures TempsAreNew(Step(env, s, Acquire(t)), Apply(env, q, s.threads[t].op))
  {
    var op := s.threads[t].op;
    MetaPathFacts(op.path);
    forall u | u in s.threads && u != t && HasTemp(s.threads[u]) ensures s.threads[u].tmp !in Apply(env, q, op) {
      assert Progress(env, s.files, u, s.threads[u]);
    }
  }

  lemma AcquireKeepsInv(env: Env, s: State, q: Files, t: Thread)
    requires Inv(env, s, q) && Enabled(env, s, Acquire(t))
    ensures Inv(env, Step(env, s, Acquire(t)), Apply(env, q, s.threads[t].op))
  {
    var op := s.threads[t].op;
    var s', q' := Step(env, s, Acquire(t)), Apply(env, q, op);
    ApplyHasLastWord(env, q, op);
    AcquireKeepsFilesOk(s, q, t, op, s', q');
    AcquireKeepsThreads(env, s, t);
    AcquireKeepsLastWords(env, s, q, t);
    AcquireKeepsTempsNew(env, s, q, t);
  }

  lemma UnlockKeepsFilesOk(env: Env, s: State, q: Files, t: Thread)
    requires FilesOk(s, q) && ProgressOk(env, s) && LastWords(env, s, q) && Enabled(env, s, Unlock(t))
    ensures FilesOk(Step(env, s, Unlock(t)), q)
  {
    var ph, s' := s.threads[t], Step(env, s, Unlock(t));
    assert Progress(env, s.files, t, ph) && LastWord(env, q, ph.op);
    forall x ensures InFlight(s', x) || Agree(s'.files, q, x) {
      if !Touches(ph, x) && InFlight(s, x) {
        var u :| u in s.threads && Touches(s.threads[u], x);
        assert u in s'.threads && s'.threads[u] == s.threads[u];
      }
    }
  }

  lemma UnlockKeepsLocks(env: Env, s: State, t: Thread)
    requires LocksOk(env, s) && Enabled(env, s, Unlock(t))
    ensures LocksOk(env, Step(env, s, Unlock(t)))
  {
  }

  lemma UnlockKeepsThreads(env: Env, s: State, q: Files, t: Thread)
    requires LegalThreads(s) && TempsDistinct(s) && ProgressOk(env, s) && LastWords(env, s, q) && TempsAreNew(s, q)
    requires Enabled(env, s, Unlock(t))
    ensures var s' := Step(env, s, Unlock(t));
      LegalThreads(s') && TempsDistinct(s') && ProgressOk(env, s') && LastWords(env, s', q) && TempsAreNew(s', q)
  {
  }

  lemma UnlockKeepsInv(env: Env, s: State, q: Files, t: Thread)
    requires Inv(env, s, q) && Enabled(env, s, Unlock(t))
    ensures Inv(env, Step(env, s, Unlock(t)), q)
  {
    UnlockKeepsFilesOk(env, s, q, t);
    UnlockKeepsLocks(env, s, t);
    UnlockKeepsThreads(env, s, q, t);
  }

  /** A temp name that is free on disk is free in the sequential store: nobody else is using it. */
  lemma FreshTempIsNew(env: Env, s: State, q: Files, tmp: Path)
    requires ProgressOk(env, s) && LegalThreads(s) && FilesOk(s, q) && IsTemp(tmp) && tmp !in s.files
    ensures tmp !in q
  {
    if u :| u in s.threads && Touches(s.threads[u], tmp) {
      var ph := s.threads[u];
      assert Progress(env, s.files, u, ph);
      MetaPathFacts(ph.op.path);
      assert false;
    }
    assert !InFlight(s, tmp);
  }

  lemma CreateTempKeepsInv(env: Env, s: State, q: Files, t: Thread, tmp: Path)
    requires Inv(env, s, q) && Enabled(env, s, CreateTemp(t, tmp))
    ensures Inv(env, Step(env, s, CreateTemp(t, tmp)), q)
  {
    var op := s.threads[t].op;
    FreshTempIsNew(env, s, q, tmp);
    HoldingStepKeepsInv(env, s, q, t, Streaming(op, tmp, [], []), s.files[tmp := Partial(t)]);
  }

  lemma CopyProgress(env: Env, files: Files, t: Thread, ph: Phase, n: nat)
    requires ph.Streaming? && ph.op.Put? && |ph.written| + n <= |ph.op.body|
    requires Progress(env, files, t, ph)
    ensures Progress(env, files, t, Copied(ph, n))
  {
    var chunk := ph.op.body[|ph.written|..|ph.written| + n];
    assert ph.written + chunk == ph.op.body[..|ph.written| + n];
  }

  lemma CopyKeepsInv(env: Env, s: State, q: Files, t: Thread, n: nat)
    requires Inv(env, s, q) && Enabled(env, s, Copy(t, n))
    ensures Inv(env, Step(env, s, Copy(t, n)), q)
  {
    var ph := s.threads[t];
    CopyProgress(env, s.files, t, ph, n);
    HoldingStepKeepsInv(env, s, q, t, Copied(ph, n), s.files);
  }

  lemma CloseKeepsInv(env: Env, s: State, q: Files, t: Thread)
    requires Inv(env, s, q) && Enabled(env, s, Close(t))
    ensures Inv(env, Step(env, s, Close(t)), q)
  {
    var ph := s.threads[t];
    assert Progress(env, s.files, t, ph);
    HoldingStepKeepsInv(env, s, q, t, Closed(ph.op, ph.tmp, ph.hashed), s.files[ph.tmp := Data(ph.written)]);
  }

  lemma RenameKeepsInv(env: Env, s: State, q: Files, t: Thread)
    requires Inv(env, s, q) && Enabled(env, s, Rename(t))
    ensures Inv(env, Step(env, s, Rename(t)), q)
  {
    var ph := s.threads[t];
    assert Progress(env, s.files, t, ph) && LegalOp(ph.op);
    HoldingStepKeepsInv(env, s, q, t, Renamed(ph.op, ph.hashed), Without(s.files, ph.tmp)[ph.op.path := s.files[ph.tmp]]);
  }

  lemma WriteSidecarKeepsInv(env: Env, s: State, q: Files, t: Thread)
    requires Inv(env, s, q) && Enabled(env, s, WriteSidecar(t))
    ensures Inv(env, Step(env, s, WriteSidecar(t)), q)
  {
    var ph := s.threads[t];
    var meta := MetaPath(ph.op.path);
    assert Progress(env, s.files, t, ph);
    MetaPathFacts(ph.op.path);
    HoldingStepKeepsInv(env, s, q, t, Finished(ph.op, Some((env.etag(ph.hashed), |ph.hashed|))),
      s.files[meta := Sidecar(Stamp(env, ph.hashed, ph.op.meta))]);
  }

  lemma DeleteStepKeepsInv(env: Env, s: State, q: Files, a: Action)
    requires Inv(env, s, q) && Enabled(env, s, a) && (a.RemoveData? || a.RemoveSidecar?)
    ensures Inv(env, Step(env, s, a), q)
  {
    var ph := s.threads[a.t];
    var s' := Step(env, s, a);
    assert Progress(env, s.files, a.t, ph);
    MetaPathFacts(ph.op.path);
    HoldingStepKeepsInv(env, s, q, a.t, s'.threads[a.t], s'.files);
  }

  lemma StepKeepsInv(env: Env, init: Files, s: State, a: Action)
    requires Enabled(env, s, a) && (a.Invoke? ==> LegalOp(a.op))
    requires Inv(env, s, Sequential(env, init, s.log))
    ensures Inv(env, Step(env, s, a), Sequential(env, init, Step(env, s, a).log))
  {
    var q := Sequential(env, init, s.log);
    match a
    case Invoke(t, op) => InvokeKeepsInv(env, s, q, t, op);
    case Acquire(t) =>
      AcquireKeepsInv(env, s, q, t);
      var log := Step(env, s, a).log;
      assert log[..|log| - 1] == s.log;
    case CreateTemp(t, tmp) => CreateTempKeepsInv(env, s, q, t, tmp);
    case Copy(t, n) => CopyKeepsInv(env, s, q, t, n);
    case Close(t) => CloseKeepsInv(env, s, q, t);
    case Rename(t) => RenameKeepsInv(env, s, q, t);
    case WriteSidecar(t) => WriteSidecarKeepsInv(env, s, q, t);
    case RemoveData(t) => DeleteStepKeepsInv(env, s, q, a);
    case RemoveSidecar(t) => DeleteStepKeepsInv(env, s, q, a);
    case Unlock(t) => UnlockKeepsInv(env, s, q, t);
  }

  lemma {:induction false} RunKeepsInv(env: Env, init: Files, s: State, run: seq<Action>)
    requires Enableds(env, s, run) && LegalRun(run)
    requires Inv(env, s, Sequential(env, init, s.log))
    ensures Inv(env, Run(env, s, run), Sequential(env, init, Run(env, s, run).log))
    decreases |run|
  {
    if run != [] {
      assert run[0].Invoke? ==> LegalOp(run[0].op);
      StepKeepsInv(env, init, s, run[0]);
      assert LegalRun(run[1..]) by {
        forall i | 0 <= i < |run| - 1 && run[1..][i].Invoke? ensures LegalOp(run[1..][i].op) {
          assert run[1..][i] == run[i + 1];
        }
      }
      RunKeepsInv(env, init, Step(env, s, run[0]), run[1..]);
    }
  }

  /** The invariant holds in every state a run from `init` can reach. */
  lemma Reachable(env: Env, init: Files, run: seq<Action>)
    requires Enableds(env, Start(init), run) && LegalRun(run)
    ensures Inv(env, Run(env, Start(init), run), Sequential(env, init, Run(env, Start(init), run).log))
  {
    assert Inv(env, Start(init), init);
    RunKeepsInv(env, init, Start(init), run);
  }

  // ------------------------------------------------------------------
  // Main results.

  /**
   However the steps of any number of uploads and deletes interleave, a key whose stripe nobody
   holds has the data file and the sidecar that the operations give when run one at a time in
   the order in which they took their locks.
   */
  lemma InterleavingLooksSequential(env: Env, init: Files, run: seq<Action>, p: Path)
    requires Enableds(env, Start(init), run) && LegalRun(run)
    requires IsObject(p) && !IsTemp(p)
    requires env.stripe(p) !in Run(env, Start(init), run).held
    ensures var s := Run(env, Start(init), run); var q := Sequential(env, init, s.log);
      Agree(s.files, q, p) && Agree(s.files, q, MetaPath(p))
  {
    Reachable(env, init, run);
    var s := Run(env, Start(init), run);
    MetaPathFacts(p);
    forall t | t in s.threads && Holding(s.threads[t]) ensures !Touches(s.threads[t], p) && !Touches(s.threads[t], MetaPath(p)) {
      assert Progress(env, s.files, t, s.threads[t]);
      FootprintsDisjoint(p, s.threads[t].op.path);
    }
    assert !InFlight(s, p) && !InFlight(s, MetaPath(p));
  }

  /** Once no lock is held the whole tree is the sequential one: no operation leaves a temp file over, nothing else has moved. */
  lemma QuiescentIsSequential(env: Env, init: Files, run: seq<Action>)
    requires Enableds(env, Start(init), run) && LegalRun(run)
    requires Run(env, Start(init), run).held == map[]
    ensures Run(env, Start(init), run).files == Sequential(env, init, Run(env, Start(init), run).log)
  {
    Reachable(env, init, run);
    var s := Run(env, Start(init), run);
    var q := Sequential(env, init, s.log);
    forall x ensures Agree(s.files, q, x) {
      assert !InFlight(s, x);
    }
    assert s.files.Keys == q.Keys by {
      forall x ensures x in s.files <==> x in q { assert Agree(s.files, q, x); }
    }
    forall x | x in q ensures s.files[x] == q[x] { assert Agree(s.files, q, x); }
  }

  lemma {:induction false} SequentialKeepsPairs(env: Env, init: Files, log: seq<Op>, p: Path)
    requires LegalLog(log) && IsObject(p) && Paired(env, init, p)
    ensures Paired(env, Sequential(env, init, log), p)
  {
    if log != [] {
      var op := log[|log| - 1];
      SequentialKeepsPairs(env, init, log[..|log| - 1], p);
      MetaPathFacts(p);
      assert op in log;
      if op.path != p {
        FootprintsDisjoint(p, op.path);
      }
    }
  }

  /** The i-th operation of the log is the last one on p. */
  predicate LastOn(log: seq<Op>, i: nat, p: Path) {
    i < |log| && log[i].path == p && forall j :: i < j < |log| ==> log[j].path != p
  }

  /** What an operation leaves at its path. */
  ghost predicate Leaves(env: Env, files: Files, op: Op) {
    match op
    case Put(p, body, meta) =>
      p in files && files[p] == Data(body) &&
      MetaPath(p) in files && files[MetaPath(p)].Sidecar? && Carries(env, files[MetaPath(p)].meta, meta, body)
    case Delete(p) => p !in files && MetaPath(p) !in files
  }

  lemma {:induction false} SequentialLast(env: Env, init: Files, log: seq<Op>, i: nat, p: Path)
    requires LegalLog(log) && LastOn(log, i, p)
    ensures Leaves(env, Sequential(env, init, log), log[i])
  {
    var n := |log| - 1;
    assert log[i] in log && log[n] in log;
    if i == n {
      MetaPathFacts(p);
      if log[i].Put? { StampCarries(env, log[i].body, log[i].meta); }
    } else {
      SequentialLast(env, init, log[..n], i, p);
      ApplyElsewhere(env, Sequential(env, init, log[..n]), log[n], log[i]);
    }
  }

  lemma ApplyElsewhere(env: Env, files: Files, op: Op, left: Op)
    requires LegalOp(op) && LegalOp(left) && op.path != left.path && Leaves(env, files, left)
    ensures Leaves(env, Apply(env, files, op), left)
  {
    FootprintsDisjoint(op.path, left.path);
  }

  lemma {:induction false} SequentialUntouched(env: Env, init: Files, log: seq<Op>, p: Path)
    requires LegalLog(log) && IsObject(p) && forall op :: op in log ==> op.path != p
    ensures Agree(Sequential(env, init, log), init, p) && Agree(Sequential(env, init, log), init, MetaPath(p))
  {
    if log != [] {
      var n := |log| - 1;
      assert log[n] in log;
      SequentialUntouched(env, init, log[..n], p);
      FootprintsDisjoint(p, log[n].path);
    }
  }

  /** And a key no operation was about is as it was at the start. */
  lemma UntouchedIsUnchanged(env: Env, init: Files, run: seq<Action>, p: Path)
    requires Enableds(env, Start(init), run) && LegalRun(run) && IsObject(p) && !IsTemp(p)
    requires forall op :: op in Run(env, Start(init), run).log ==> op.path != p
    requires env.stripe(p) !in Run(env, Start(init), run).held
    ensures Agree(Run(env, Start(init), run).files, init, p) && Agree(Run(env, Start(init), run).files, init, MetaPath(p))
  {
    LogIsLegal(env, Start(init), run);
    SequentialUntouched(env, init, Run(env, Start(init), run).log, p);
    InterleavingLooksSequential(env, init, run, p);
  }

  predicate Invoked(run: seq<Action>, op: Op) {
    exists a :: a in run && a.Invoke? && a.op == op
  }

  /** What threads are doing and what is logged was asked for. */
  predicate OnlyInvoked(s: State, asked: seq<Action>) {
    (forall t :: t in s.threads && !s.threads[t].Idle? ==> Invoked(asked, s.threads[t].op)) &&
    forall op :: op in s.log ==> Invoked(asked, op)
  }

  lemma StepOnlyInvoked(env: Env, s: State, a: Action, asked: seq<Action>)
    requires Enabled(env, s, a) && OnlyInvoked(s, asked)
    ensures OnlyInvoked(Step(env, s, a), asked + [a])
  {
    var s' := Step(env, s, a);
    InvokedGrows(asked, a);
    if a.Invoke? {
      assert a in asked + [a];
    }
    forall t | t in s'.threads && !s'.threads[t].Idle? ensures Invoked(asked + [a], s'.threads[t].op) {
      if t != a.t { assert s'.threads[t] == s.threads[t]; }
    }
  }

  lemma InvokedGrows(asked: seq<Action>, a: Action)
    ensures forall op :: Invoked(asked, op) ==> Invoked(asked + [a], op)
  {
    assert forall x :: x in asked ==> x in asked + [a];
  }

  lemma {:induction false} RunOnlyInvoked(env: Env, s: State, run: seq<Action>, asked: seq<Action>)
    requires Enableds(env, s, run) && OnlyInvoked(s, asked)
    ensures OnlyInvoked(Run(env, s, run), asked + run)
    decreases |run|
  {
    if run == [] {
      assert asked + run == asked;
    } else {
      StepOnlyInvoked(env, s, run[0], asked);
      RunOnlyInvoked(env, Step(env, s, run[0]), run[1..], asked + [run[0]]);
      assert asked + [run[0]] + run[1..] == asked + run;
    }
  }

  /** Every logged operation was invoked, with that path, body and metadata. */
  lemma LoggedWasInvoked(env: Env, init: Files, run: seq<Action>, op: Op)
    requires Enableds(env, Start(init), run) && op in Run(env, Start(init), run).log
    ensures Invoked(run, op)
  {
    RunOnlyInvoked(env, Start(init), run, []);
    assert [] + run == run;
  }

  /**
   Over every run: when nobody holds the stripe of p, p has what the last operation on it left. After an upload that is its
   body, and a sidecar with its metadata and the three entries computed from the body; after a delete it is nothing.
   */
  lemma LastOperationIsStored(env: Env, init: Files, run: seq<Action>, i: nat, p: Path)
    requires Enableds(env, Start(init), run) && LegalRun(run)
    requires LastOn(Run(env, Start(init), run).log, i, p)
    requires env.stripe(p) !in Run(env, Start(init), run).held
    ensures Leaves(env, Run(env, Start(init), run).files, Run(env, Start(init), run).log[i])
  {
    var s := Run(env, Start(init), run);
    LogIsLegal(env, Start(init), run);
    assert s.log[i] in s.log;
    SequentialLast(env, init, s.log, i, p);
    InterleavingLooksSequential(env, init, run, p);
  }

  lemma {:induction false} LogIsLegal(env: Env, s: State, run: seq<Action>)
    requires Enableds(env, s, run) && LegalRun(run) && LegalThreads(s) && LegalLog(s.log)
    ensures LegalLog(Run(env, s, run).log)
    decreases |run|
  {
    if run != [] {
      assert run[0].Invoke? ==> LegalOp(run[0].op);
      assert LegalRun(run[1..]) by {
        assert forall i :: 0 <= i < |run| - 1 ==> run[1..][i] == run[i + 1];
      }
      LogIsLegal(env, Step(env, s, run[0]), run[1..]);
    }
  }

  /** No torn pair: whenever a key's stripe is free, its sidecar describes exactly the bytes beside it. */
  lemma NeverTorn(env: Env, init: Files, run: seq<Action>, p: Path)
    requires Enableds(env, Start(init), run) && LegalRun(run)
    requires IsObject(p) && !IsTemp(p) && Paired(env, init, p)
    requires env.stripe(p) !in Run(env, Start(init), run).held
    ensures Paired(env, Run(env, Start(init), run).files, p)
  {
    InterleavingLooksSequential(env, init, run, p);
    LogIsLegal(env, Start(init), run);
    SequentialKeepsPairs(env, init, Run(env, Start(init), run).log, p);
  }

  /** What an upload answers is about its own body, whatever else is running. */
  lemma ReplyDescribesBody(env: Env, init: Files, run: seq<Action>, t: Thread)
    requires Enableds(env, Start(init), run) && LegalRun(run)
    requires PhaseOf(Run(env, Start(init), run), t).Finished?
    ensures var ph := PhaseOf(Run(env, Start(init), run), t);
      ph.reply == (if ph.op.Put? then Some((env.etag(ph.op.body), |ph.op.body|)) else None)
  {
    Reachable(env, init, run);
    var s := Run(env, Start(init), run);
    assert Progress(env, s.files, t, s.threads[t]);
  }

  lemma StepLog(env: Env, s: State, a: Action, t: Thread)
    requires Enabled(env, s, a)
    ensures var s' := Step(env, s, a);
      s.log <= s'.log &&
      (Holding(PhaseOf(s', t)) ==>
        (Holding(PhaseOf(s, t)) && PhaseOf(s', t).op == PhaseOf(s, t).op) || s'.log == s.log + [PhaseOf(s', t).op])
  {
  }

  lemma {:induction false} LoggedWhileHeld(env: Env, s: State, run: seq<Action>, t: Thread, from: nat)
    requires Enableds(env, s, run) && from <= |s.log|
    requires Holding(PhaseOf(s, t)) ==> PhaseOf(s, t).op in s.log[from..]
    ensures s.log <= Run(env, s, run).log
    ensures Holding(PhaseOf(Run(env, s, run), t)) ==>
      PhaseOf(Run(env, s, run), t).op in Run(env, s, run).log[from..]
    decreases |run|
  {
    if run != [] {
      var s' := Step(env, s, run[0]);
      StepLog(env, s, run[0], t);
      assert forall x :: x in s.log[from..] ==> x in s'.log[from..] by {
        assert s.log[from..] <= s'.log[from..];
      }
      if Holding(PhaseOf(s', t)) && s'.log == s.log + [PhaseOf(s', t).op] {
        assert s'.log[from..][|s.log| - from] == PhaseOf(s', t).op;
      }
      LoggedWhileHeld(env, s', run[1..], t, from);
    }
  }

  /**
   The lock order respects real time: what is in the log stays where it is, and an operation that
   was not yet under its lock at some moment gets a place after everything logged by then.
   */
  lemma LogRespectsRealTime(env: Env, s: State, run: seq<Action>, t: Thread)
    requires Enableds(env, s, run) && !Holding(PhaseOf(s, t))
    ensures s.log <= Run(env, s, run).log
    ensures Holding(PhaseOf(Run(env, s, run), t)) ==>
      PhaseOf(Run(env, s, run), t).op in Run(env, s, run).log[|s.log|..]
  {
    LoggedWhileHeld(env, s, run, t, |s.log|);
  }

  // ------------------------------------------------------------------
  // The two operations as the handlers run them, between taking the lock and releasing it.

  class ObjectTree {
    var files: Files

    constructor (init: Files)
      ensures files == init
    {
      files := init;
    }

    /** Stream to a fresh temp file, hashing in the same pass, and rename it into place. */
    method StreamToObject(env: Env, tmp: Path, dst: Path, src: Str) returns (etag: Str, crc: Str, written: nat)
      requires tmp !in files && tmp != dst
      modifies this
      ensures files == old(files)[dst := Data(src)]
      ensures etag == env.etag(src) && crc == env.crc(src) && written == |src|
    {
      files := files[tmp := Data([])];
      var hashed: Str := [];
      written := 0;
      while written < |src|
        invariant written <= |src| && hashed == src[..written]
        invariant files == old(files)[tmp := Data(src[..written])]
      {
        var n :| 1 <= n <= |src| - written;
        var chunk := src[written..written + n];
        assert src[..written] + chunk == src[..written + n];
        files := files[tmp := Data(files[tmp].bytes + chunk)];
        hashed := hashed + chunk;
        written := written + n;
      }
      assert hashed == src;
      files := Without(files, tmp)[dst := files[tmp]];
      etag, crc := env.etag(hashed), env.crc(hashed);
    }

    method FinalizeObjectWrite(env: Env, tmp: Path, dst: Path, src: Str, meta: Meta) returns (etag: Str, written: nat)
      requires tmp !in files && tmp != dst
      modifies this
      ensures files == Apply(env, old(files), Put(dst, src, meta))
      ensures etag == env.etag(src) && written == |src|
      ensures dst in files && files[dst] == Data(src)
      ensures dst + ".meta" in files && files[dst + ".meta"].Sidecar? && Carries(env, files[dst + ".meta"].meta, meta, src)
      ensures forall x :: x != dst && x != dst + ".meta" ==> Agree(files, old(files), x)
    {
      StampCarries(env, src, meta);
      MetaPathFacts(dst);
      var crc;
      etag, crc, written := StreamToObject(env, tmp, dst, src);
      var m := meta;
      m := m["x-amz-checksum-crc32" := crc];
      m := m["ETag" := etag];
      m := m["Content-Length" := Decimal.Itoa(written)];
      files := files[MetaPath(dst) := Sidecar(m)];
    }

    method RemoveObject(env: Env, path: Path)
      modifies this
      ensures files == Apply(env, old(files), Delete(path))
      ensures path !in files && path + ".meta" !in files
      ensures forall x :: x != path && x != path + ".meta" ==> Agree(files, old(files), x)
    {
      files := Without(files, path);
      files := Without(files, MetaPath(path));
    }
  }
}
