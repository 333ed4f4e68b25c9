/**
 The staging directories on disk: one file per part under its zero-padded number,
 a manifest, and temp files on their way to being renamed.
 */
module MultipartStore {
  import opened Wrappers
  import opened GoStrings
  import opened Maps
  import opened Paths
  import opened MultipartSpec
  import Decimal
  import Names

  const MANIFEST: Str := "manifest.json"

  datatype File = Manifest(bucket: Str, key: Str, metadata: Meta) | Bytes(data: Str)

  type Dir = map<Str, File>

  predicate IsPartNumber(n: int) {
    MIN_PART <= n <= MAX_PART
  }

  function PartName(n: int): Str
    requires IsPartNumber(n)
  {
    Decimal.Pad5(n)
  }

  predicate IsPartName(name: Str) {
    exists n: int :: MIN_PART <= n <= MAX_PART && PartName(n) == name
  }

  predicate IsTempName(name: Str) {
    HasSuffix(name, ".tmp")
  }

  /** A staging directory: the manifest, part files, and possibly temp files left by a crash. */
  predicate DirOk(dir: Dir) {
    MANIFEST in dir && dir[MANIFEST].Manifest? &&
    forall name :: name in dir && name != MANIFEST && !IsTempName(name) ==> IsPartName(name) && dir[name].Bytes?
  }

  /** The part map a directory stands for. */
  function PartsOf(dir: Dir): map<int, Str>
    requires DirOk(dir)
  {
    map n | MIN_PART <= n <= MAX_PART && InDir(dir, n) :: (PartNameFacts(n); dir[PartName(n)].data)
  }

  predicate InDir(dir: Dir, n: int) {
    IsPartNumber(n) && PartName(n) in dir
  }

  function UploadOf(dir: Dir): Upload
    requires DirOk(dir)
  {
    Upload(dir[MANIFEST].bucket, dir[MANIFEST].key, dir[MANIFEST].metadata, PartsOf(dir))
  }

  // ------------------------------------------------------------------
  // File names.

  /** A part's name parses back to its number, and is neither the manifest's nor a temp file's. */
  lemma PartNameFacts(n: int)
    requires IsPartNumber(n)
    ensures Decimal.Atoi(PartName(n)) == Some(n)
    ensures PartName(n) != MANIFEST && !IsTempName(PartName(n)) && PartName(n) != ""
    ensures IsPartName(PartName(n))
  {
    Decimal.Pad5RoundTrip(n);
    var name := PartName(n);
    var tmp: Str := ".tmp";
    assert tmp[3] == 'p' && Decimal.IsDigit(name[4]) && name[1..][3] == name[4];
  }

  /** Directory order is part-number order. */
  lemma PartNameOrder(m: int, n: int)
    requires IsPartNumber(m) && IsPartNumber(n)
    ensures Less(PartName(m), PartName(n)) <==> m < n
    ensures PartName(m) == PartName(n) <==> m == n
  {
    Decimal.Pad5Order(m, n);
    PartNameFacts(m);
    PartNameFacts(n);
  }

  // ------------------------------------------------------------------
  // os.ReadDir: the names of a directory in lexical order.

  predicate Sorted(names: seq<Str>) {
    forall i, j :: 0 <= i < j < |names| ==> Less(names[i], names[j])
  }

  function InsertName(name: Str, names: seq<Str>): seq<Str> {
    if names == [] || Less(name, names[0]) then [name] + names else [names[0]] + InsertName(name, names[1..])
  }

  lemma {:induction false} InsertNameSorted(name: Str, names: seq<Str>)
    requires Sorted(names) && name !in names
    ensures Sorted(InsertName(name, names))
    ensures forall x :: x in InsertName(name, names) <==> x == name || x in names
  {
    if names == [] {
    } else if Less(name, names[0]) {
      forall j | 0 < j < |names| ensures Less(name, names[j]) {
        LessTransitive(name, names[0], names[j]);
      }
    } else {
      LessTotal(name, names[0]);
      assert names == [names[0]] + names[1..];
      InsertNameSorted(name, names[1..]);
      var tail := InsertName(name, names[1..]);
      forall j | 0 <= j < |tail| ensures Less(names[0], tail[j]) {
        assert tail[j] in tail;
        if tail[j] != name {
          var i :| 0 <= i < |names[1..]| && names[1..][i] == tail[j];
          assert names[i + 1] == tail[j];
        }
      }
    }
  }

  method ReadDir(dir: Dir) returns (names: seq<Str>)
    ensures Sorted(names) && forall x :: x in names <==> x in dir
  {
    names := [];
    var todo := dir.Keys;
    while todo != {}
      invariant todo <= dir.Keys && Sorted(names) && forall x :: x in names <==> x in dir && x !in todo
      decreases todo
    {
      var name :| name in todo;
      InsertNameSorted(name, names);
      names := InsertName(name, names);
      todo := todo - {name};
    }
  }

  // ------------------------------------------------------------------
  // listParts.

  /** The entry describes the bytes stored under its number. */
  predicate IsPartOf(env: Env, p: Part, stored: map<int, Str>) {
    p.number in stored && p == Part(p.number, PartETag(env, stored[p.number]), |stored[p.number]|)
  }

  predicate Mentions(parts: seq<Part>, n: int) {
    exists i :: 0 <= i < |parts| && parts[i].number == n
  }

  /** Exactly the uploaded parts, in ascending order, each with the ETag and size of its bytes. */
  ghost predicate IsPartList(env: Env, parts: seq<Part>, stored: map<int, Str>) {
    && Ascending(parts)
    && (forall i :: 0 <= i < |parts| ==> IsPartOf(env, parts[i], stored))
    && (forall n :: n in stored ==> Mentions(parts, n))
  }

  function InsertPart(p: Part, s: seq<Part>): seq<Part> {
    if s == [] || p.number < s[0].number then [p] + s else [s[0]] + InsertPart(p, s[1..])
  }

  /** sort.Slice by part number. */
  function SortParts(s: seq<Part>): seq<Part> {
    if s == [] then [] else InsertPart(s[0], SortParts(s[1..]))
  }

  /** Because of the zero padding the sort has nothing to do. */
  lemma {:induction false} SortOfAscending(s: seq<Part>)
    requires Ascending(s)
    ensures SortParts(s) == s
  {
    if s != [] {
      SortOfAscending(s[1..]);
      assert s == [s[0]] + s[1..];
    }
  }

  /** What the loop over directory entries has done after the names in `done`. */
  ghost predicate ListedSoFar(env: Env, parts: seq<Part>, dir: Dir, done: seq<Str>)
    requires DirOk(dir)
  {
    && Ascending(parts)
    && (forall k :: 0 <= k < |parts| ==> IsPartOf(env, parts[k], PartsOf(dir)) && PartName(parts[k].number) in done)
    && (forall n :: IsPartNumber(n) && PartName(n) in done ==> Mentions(parts, n))
  }

  lemma SkipEntry(env: Env, parts: seq<Part>, dir: Dir, done: seq<Str>, name: Str)
    requires DirOk(dir) && ListedSoFar(env, parts, dir, done) && (name == MANIFEST || IsTempName(name))
    ensures ListedSoFar(env, parts, dir, done + [name])
  {
    SkippedIsNoPart(name);
  }

  lemma MentionsMore(parts: seq<Part>, p: Part)
    ensures Mentions(parts + [p], p.number)
    ensures forall n :: Mentions(parts, n) ==> Mentions(parts + [p], n)
  {
    var more := parts + [p];
    assert more[|parts|] == p;
    forall n | Mentions(parts, n) ensures Mentions(more, n) {
      var k :| 0 <= k < |parts| && parts[k].number == n;
      assert more[k].number == n;
    }
  }

  lemma AddEntry(env: Env, parts: seq<Part>, dir: Dir, done: seq<Str>, n: int, p: Part)
    requires DirOk(dir) && ListedSoFar(env, parts, dir, done) && InDir(dir, n)
    requires p.number == n && IsPartOf(env, p, PartsOf(dir))
    requires forall x :: x in done ==> Less(x, PartName(n))
    ensures ListedSoFar(env, parts + [p], dir, done + [PartName(n)])
  {
    forall k | 0 <= k < |parts| ensures parts[k].number < n {
      PartNameOrder(parts[k].number, n);
    }
    MentionsMore(parts, p);
    forall q | IsPartNumber(q) && PartName(q) in done + [PartName(n)] ensures Mentions(parts + [p], q) {
      if PartName(q) !in done { PartNameOrder(q, n); }
    }
  }

  lemma NamesAPart(dir: Dir, name: Str)
    requires DirOk(dir) && name in dir && name != MANIFEST && !IsTempName(name)
    ensures Decimal.Atoi(name).Some?
    ensures var n := Decimal.Atoi(name).value; InDir(dir, n) && PartName(n) == name && dir[name].Bytes?
  {
    var m: int :| MIN_PART <= m <= MAX_PART && PartName(m) == name;
    PartNameFacts(m);
  }

  /** The entry for one part file. */
  lemma NextEntry(env: Env, parts: seq<Part>, dir: Dir, names: seq<Str>, i: nat, p: Part)
    requires DirOk(dir) && Sorted(names) && i < |names| && ListedSoFar(env, parts, dir, names[..i])
    requires InDir(dir, p.number) && PartName(p.number) == names[i] && IsPartOf(env, p, PartsOf(dir))
    ensures ListedSoFar(env, parts + [p], dir, names[..i + 1])
  {
    forall x | x in names[..i] ensures Less(x, names[i]) {
      var j :| 0 <= j < i && names[j] == x;
    }
    assert names[..i + 1] == names[..i] + [names[i]];
    AddEntry(env, parts, dir, names[..i], p.number, p);
  }

  method ListParts(env: Env, dir: Dir) returns (parts: seq<Part>)
    requires DirOk(dir)
    ensures IsPartList(env, parts, PartsOf(dir))
    ensures forall i :: 0 <= i < |parts| ==> parts[i].number in PartsOf(dir) && parts[i].size == |PartsOf(dir)[parts[i].number]|
  {
    var names := ReadDir(dir);
    parts := [];
    for i := 0 to |names|
      invariant ListedSoFar(env, parts, dir, names[..i])
    {
      var name := names[i];
      assert name in names;
      if name == MANIFEST || IsTempName(name) {
        SkipEntry(env, parts, dir, names[..i], name);
        assert names[..i + 1] == names[..i] + [name];
        continue;
      }
      NamesAPart(dir, name);
      var pn := Decimal.Atoi(name);
      if pn == None {
        continue;
      }
      var n := pn.value;
      var body := dir[PartName(n)].data;
      var p := Part(n, PartETag(env, body), |body|);
      NextEntry(env, parts, dir, names, i, p);
      parts := parts + [p];
    }
    assert names[..|names|] == names;
    SortOfAscending(parts);
    parts := SortParts(parts);
  }

  lemma SkippedIsNoPart(name: Str)
    requires name == MANIFEST || IsTempName(name)
    ensures forall n :: IsPartNumber(n) ==> PartName(n) != name
  {
    forall n | IsPartNumber(n) ensures PartName(n) != name {
      PartNameFacts(n);
    }
  }

  // ------------------------------------------------------------------
  // CompleteMultipartUpload.

  method IsAscending(expected: seq<Part>) returns (ok: bool)
    ensures ok == Ascending(expected)
  {
    var i := 1;
    while i < |expected|
      invariant forall j, k :: 0 <= j < k < i && k < |expected| ==> expected[j].number < expected[k].number
    {
      if expected[i].number <= expected[i - 1].number {
        return false;
      }
      i := i + 1;
    }
    return true;
  }

  /** Each number is above the one before it. */
  predicate StrictlyAscending(expected: seq<Part>) {
    forall i :: 1 <= i < |expected| ==> expected[i - 1].number < expected[i].number
  }

  lemma {:induction false} NeighboursAscend(expected: seq<Part>, i: nat, j: nat)
    requires StrictlyAscending(expected) && i < j < |expected|
    ensures expected[i].number < expected[j].number
  {
    assert expected[j - 1].number < expected[j].number;
    if i < j - 1 { NeighboursAscend(expected, i, j - 1); }
  }

  lemma NeighboursDecide(expected: seq<Part>)
    ensures Ascending(expected) <==> StrictlyAscending(expected)
  {
    if StrictlyAscending(expected) {
      forall i: nat, j: nat | i < j < |expected| ensures expected[i].number < expected[j].number {
        NeighboursAscend(expected, i, j);
      }
    }
  }

  /** The checks before anything is assembled: order, then every part against what is stored. */
  method Validate(env: Env, dir: Dir, expected: seq<Part>) returns (r: Result<(), Error>)
    requires DirOk(dir)
    ensures r == Verdict(env, PartsOf(dir), expected)
    ensures expected == [] ==> r == Err(InvalidPart)
    ensures expected != [] && !StrictlyAscending(expected) ==> r == Err(InvalidPartOrder)
    ensures expected != [] && StrictlyAscending(expected) ==>
      (r.Ok? <==> forall i :: 0 <= i < |expected| ==> Matches(env, PartsOf(dir), expected[i])) &&
      (r.Err? ==> r.error == InvalidPart)
  {
    NeighboursDecide(expected);
    if |expected| == 0 {
      return Err(InvalidPart);
    }
    var ordered := IsAscending(expected);
    if !ordered {
      return Err(InvalidPartOrder);
    }
    var stored := ListParts(env, dir);
    var byNum := ByNumber(env, stored, PartsOf(dir));
    var ok := AllMatch(env, byNum, expected, PartsOf(dir));
    return if ok then Ok(()) else Err(InvalidPart);
  }

  /** The lookup of each expected part among the stored ones. */
  method AllMatch(env: Env, byNum: map<int, Part>, expected: seq<Part>, ghost parts: map<int, Str>) returns (ok: bool)
    requires byNum.Keys == parts.Keys && forall n :: n in parts ==> byNum[n].etag == PartETag(env, parts[n])
    ensures ok == forall j :: 0 <= j < |expected| ==> Matches(env, parts, expected[j])
  {
    for i := 0 to |expected|
      invariant forall j :: 0 <= j < i ==> Matches(env, parts, expected[j])
    {
      var want := expected[i];
      MatchIs(env, parts, byNum, want);
      if want.number !in byNum {
        return false;
      }
      if NormalizeETag(byNum[want.number].etag) != NormalizeETag(want.etag) {
        return false;
      }
    }
    return true;
  }

  /** A part matches when it is stored and the ETag given is its ETag, or its MD5 in hexadecimal, up to quotes around it. */
  lemma MatchesMeans(env: Env, parts: map<int, Str>, want: Part)
    requires want.number in parts
    ensures IsQuoted(want.etag, Hex(env.md5(parts[want.number]))) || want.etag == Hex(env.md5(parts[want.number])) ==>
      Matches(env, parts, want)
    ensures Matches(env, parts, want) ==> NormalizeETag(want.etag) == Hex(env.md5(parts[want.number]))
  {
    var body := parts[want.number];
    var h := Hex(env.md5(body));
    HexHasNoQuotes(env.md5(body));
    NormalizeQuoted(PartETag(env, body), h);
    if want.etag == h { NormalizePlain(h); }
    if IsQuoted(want.etag, h) { NormalizeQuoted(want.etag, h); }
  }

  lemma NormalizePlain(h: Str)
    requires '"' !in h
    ensures NormalizeETag(h) == h
  {
    if h != [] { assert h[0] in h && h[|h| - 1] in h; }
  }

  lemma NormalizeQuoted(e: Str, h: Str)
    requires '"' !in h && IsQuoted(e, h)
    ensures NormalizeETag(e) == h
  {
    var tail := e[1..];
    assert tail[..|tail| - 1] == h;
    NormalizePlain(h);
    if h == [] { assert tail[1..] == []; }
    if h != [] { assert tail[0] == h[0] && h[0] in h; }
  }

  lemma MatchIs(env: Env, parts: map<int, Str>, byNum: map<int, Part>, want: Part)
    requires byNum.Keys == parts.Keys && forall n :: n in parts ==> byNum[n].etag == PartETag(env, parts[n])
    ensures Matches(env, parts, want) <==>
      want.number in byNum && NormalizeETag(byNum[want.number].etag) == NormalizeETag(want.etag)
  {
  }

  method ByNumber(env: Env, stored: seq<Part>, ghost parts: map<int, Str>) returns (byNum: map<int, Part>)
    requires IsPartList(env, stored, parts)
    ensures byNum.Keys == parts.Keys
    ensures forall n :: n in parts ==> byNum[n].etag == PartETag(env, parts[n])
  {
    byNum := map[];
    for i := 0 to |stored|
      invariant forall n :: n in byNum <==> Mentions(stored[..i], n)
      invariant forall n :: n in byNum ==> n in parts && byNum[n].etag == PartETag(env, parts[n])
    {
      assert IsPartOf(env, stored[i], parts);
      var p := stored[i];
      forall n ensures Mentions(stored[..i + 1], n) <==> Mentions(stored[..i], n) || n == p.number {
        MentionsStep(stored, i, n);
      }
      byNum := byNum[p.number := p];
    }
    assert stored[..|stored|] == stored;
    forall n ensures n in byNum <==> n in parts {
      if n in parts { assert Mentions(stored, n); }
    }
  }

  lemma MentionsStep(parts: seq<Part>, i: nat, n: int)
    requires i < |parts|
    ensures Mentions(parts[..i + 1], n) <==> Mentions(parts[..i], n) || n == parts[i].number
  {
    if Mentions(parts[..i], n) {
      var k :| 0 <= k < i && parts[..i][k].number == n;
      assert parts[..i + 1][k].number == n;
    }
    if n == parts[i].number {
      assert parts[..i + 1][i].number == n;
    }
    if Mentions(parts[..i + 1], n) {
      var k :| 0 <= k < i + 1 && parts[..i + 1][k].number == n;
      if k < i { assert parts[..i][k].number == n; }
    }
  }

  /** views[i] is the part map of the staging directory at the moment part i is opened: other requests may run in between. */
  predicate AllPresent(views: seq<map<int, Str>>, expected: seq<Part>)
    requires |views| == |expected|
  {
    forall i :: 0 <= i < |expected| ==> expected[i].number in views[i]
  }

  /** The bytes actually streamed. */
  function Streamed(views: seq<map<int, Str>>, expected: seq<Part>): seq<Str>
    requires |views| == |expected| && AllPresent(views, expected)
  {
    seq(|expected|, i requires 0 <= i < |expected| => views[i][expected[i].number])
  }

  lemma StreamedPrefix(views: seq<map<int, Str>>, expected: seq<Part>, i: nat)
    requires i < |views| == |expected| && AllPresent(views[..i], expected[..i]) && expected[i].number in views[i]
    ensures AllPresent(views[..i + 1], expected[..i + 1])
    ensures Streamed(views[..i + 1], expected[..i + 1]) == Streamed(views[..i], expected[..i]) + [views[i][expected[i].number]]
  {
    var v, e := views[..i + 1], expected[..i + 1];
    forall j | 0 <= j < i + 1 ensures e[j].number in v[j] {
      if j < i {
        assert e[j] == expected[..i][j] && v[j] == views[..i][j];
      }
    }
    forall j | 0 <= j < i ensures Streamed(v, e)[j] == Streamed(views[..i], expected[..i])[j] {
      assert e[j] == expected[..i][j] && v[j] == views[..i][j];
    }
  }

  /** The streaming loop: copies each part, hashing as it goes, and adds up digests and sizes. */
  method Assemble(env: Env, views: seq<map<int, Str>>, expected: seq<Part>) returns (r: Result<(Str, Str, nat), Error>)
    requires |views| == |expected|
    ensures r.Ok? <==> AllPresent(views, expected)
    ensures r.Ok? ==> var pieces := Streamed(views, expected);
      r.value == (Flatten(pieces), CompositeETag(env, pieces), |Flatten(pieces)|)
    ensures r.Err? ==> r.error == InvalidPart
  {
    var out: Str, composite: Str, total := [], [], 0;
    for i := 0 to |expected|
      invariant AllPresent(views[..i], expected[..i])
      invariant var pieces := Streamed(views[..i], expected[..i]);
        out == Flatten(pieces) && composite == Digests(env, pieces) && total == |Flatten(pieces)|
    {
      if expected[i].number !in views[i] {
        return Err(InvalidPart);
      }
      StreamedPrefix(views, expected, i);
      ghost var pieces := Streamed(views[..i + 1], expected[..i + 1]);
      var piece := views[i][expected[i].number];
      assert pieces[..|pieces| - 1] == Streamed(views[..i], expected[..i]);
      out := out + piece;
      composite := composite + env.md5(piece);
      total := total + |piece|;
    }
    assert views[..|expected|] == views && expected[..|expected|] == expected;
    return Ok((out, "\"" + Hex(env.md5(composite)) + "-" + Decimal.Itoa(|expected|) + "\"", total));
  }

  function CompleteSidecar(metadata: Meta, etag: Str, total: nat, count: nat): Meta {
    metadata["ETag" := etag]["Content-Length" := Decimal.Itoa(total)]["x-amz-multipart-parts" := Decimal.Itoa(count)]
  }

  /** The three entries a completion writes; every other entry is what the upload was created with. */
  ghost predicate CompletedSidecar(stored: Meta, given: Meta, etag: Str, total: nat, count: nat) {
    "ETag" in stored && stored["ETag"] == etag &&
    "Content-Length" in stored && stored["Content-Length"] == Decimal.Itoa(total) &&
    "x-amz-multipart-parts" in stored && stored["x-amz-multipart-parts"] == Decimal.Itoa(count) &&
    forall k :: k != "ETag" && k != "Content-Length" && k != "x-amz-multipart-parts" ==>
      (k in stored <==> k in given) && (k in stored ==> stored[k] == given[k])
  }

  lemma CompleteSidecarIs(given: Meta, etag: Str, total: nat, count: nat)
    ensures CompletedSidecar(CompleteSidecar(given, etag, total, count), given, etag, total, count)
  {
    var a: Str, b: Str, c: Str := "ETag", "Content-Length", "x-amz-multipart-parts";
    assert a[0] == 'E' && b[0] == 'C' && c[0] == 'x';
  }

  /** The bytes each expected part had when it was opened. */
  predicate OpenedAs(pieces: seq<Str>, views: seq<map<int, Str>>, expected: seq<Part>) {
    |pieces| == |expected| == |views| &&
    forall i :: 0 <= i < |expected| ==> expected[i].number in views[i] && pieces[i] == views[i][expected[i].number]
  }

  /** The object is the parts as opened, one behind the other; the ETag is theirs and the size is the object's. */
  ghost predicate Describes(data: Str, etag: Str, size: nat, env: Env, views: seq<map<int, Str>>, expected: seq<Part>) {
    exists pieces :: OpenedAs(pieces, views, expected) && IsConcatenation(data, pieces) && IsComposite(etag, env, pieces) &&
      size == |data|
  }

  lemma StreamedDescribes(env: Env, views: seq<map<int, Str>>, expected: seq<Part>)
    requires |views| == |expected| && AllPresent(views, expected)
    ensures var pieces := Streamed(views, expected);
      Describes(Flatten(pieces), CompositeETag(env, pieces), |Flatten(pieces)|, env, views, expected)
  {
    var pieces := Streamed(views, expected);
    var cuts := FlattenCuts(pieces);
    CompositeIs(env, pieces);
    assert OpenedAs(pieces, views, expected);
  }

  /** What completing answers: the errors in the order they are looked for, or the composite ETag and the size. */
  function Outcome(env: Env, s: Uploads, bucket: Str, key: Str, id: Str, expected: seq<Part>, views: seq<map<int, Str>>):
    Result<(Str, nat), Error>
    requires |views| == |expected|
  {
    if !Live(env, s, bucket, key, id) then Err(NoSuchUpload)
    else
      match Verdict(env, s[DirOf(env, bucket, id).value].parts, expected)
      case Err(e) => Err(e)
      case Ok(_) =>
        if SafeJoined(env.objectsRoot, [bucket, key]) == None then Err(PathEscape)
        else if !AllPresent(views, expected) then Err(InvalidPart)
        else Ok((CompositeETag(env, Streamed(views, expected)), |Flatten(Streamed(views, expected))|))
  }

  function PathOf(env: Env, bucket: Str, key: Str): Str {
    var path := SafeJoined(env.objectsRoot, [bucket, key]);
    if path.Some? then path.value else ""
  }

  /** Where a completion assembles the object. */
  function CompletionTemp(path: Str): Str {
    path + Names.COMPLETION_SUFFIX
  }

  /** The data files once an object has been renamed into place: the temp name is gone. */
  function Published(objects: map<Str, Str>, path: Str, data: Str): map<Str, Str> {
    Without(objects, CompletionTemp(path))[path := data]
  }

  lemma PublishedAfterTemp(objects: map<Str, Str>, path: Str, data: Str)
    ensures Published(objects[CompletionTemp(path) := data], path, data) == Published(objects, path, data)
  {
  }

  /**
   Every other object survives a completion if and only if none is stored under the key with ".mpu.tmp" appended, which is
   an acceptable key whenever the completed one is. A completion that fails while streaming changes nothing on the same
   condition.
   */
  lemma OthersSurviveIff(env: Env, bucket: Str, key: Str, objects: map<Str, Str>, data: Str)
    requires IsAbs(env.objectsRoot) && Names.ValidBucket(bucket) && Names.Accepted(key)
    ensures SafeJoined(env.objectsRoot, [bucket, key]).Some?
    ensures Names.Accepted(key + Names.COMPLETION_SUFFIX)
    ensures SafeJoined(env.objectsRoot, [bucket, key + Names.COMPLETION_SUFFIX]).Some?
    ensures var path, after := PathOf(env, bucket, key), Published(objects, PathOf(env, bucket, key), data);
      (forall p :: p in objects && p != path ==> p in after && after[p] == objects[p]) <==>
      PathOf(env, bucket, key + Names.COMPLETION_SUFFIX) !in objects
    ensures Without(objects, CompletionTemp(PathOf(env, bucket, key))) == objects <==>
      PathOf(env, bucket, key + Names.COMPLETION_SUFFIX) !in objects
  {
    Names.CompletionTempIsAKey(env.objectsRoot, bucket, key);
    TempGoes(objects, PathOf(env, bucket, key), data);
  }

  lemma TempGoes(objects: map<Str, Str>, path: Str, data: Str)
    ensures var after := Published(objects, path, data);
      (forall p :: p in objects && p != path ==> p in after && after[p] == objects[p]) <==> CompletionTemp(path) !in objects
    ensures Without(objects, CompletionTemp(path)) == objects <==> CompletionTemp(path) !in objects
  {
    var tmp := CompletionTemp(path);
    assert tmp != path && tmp !in Published(objects, path, data) && tmp !in Without(objects, tmp);
  }

  /** For one: an object stored as "x.mpu.tmp" does not survive completing an upload of "x" in its bucket. */
  lemma CompletingLosesAnObject(env: Env, bucket: Str, kept: Str, data: Str)
    requires IsAbs(env.objectsRoot) && Names.ValidBucket(bucket)
    ensures Names.Validated("x") == Some("x") && Names.Validated("x.mpu.tmp") == Some("x.mpu.tmp")
    ensures var objects := map[PathOf(env, bucket, "x.mpu.tmp") := kept];
      PathOf(env, bucket, "x.mpu.tmp") !in Published(objects, PathOf(env, bucket, "x"), data)
  {
    var x: Str, longer: Str := "x", "x.mpu.tmp";
    OneLetterIsValidated();
    assert x + Names.COMPLETION_SUFFIX == longer;
    Names.CompletionTempIsValidated(x);
    TempOfAccepted(env, bucket, x);
    TempIsGone(PathOf(env, bucket, x), kept, data);
  }

  lemma TempOfAccepted(env: Env, bucket: Str, key: Str)
    requires IsAbs(env.objectsRoot) && Names.ValidBucket(bucket) && Names.Validated(key) == Some(key)
    ensures PathOf(env, bucket, key + Names.COMPLETION_SUFFIX) == CompletionTemp(PathOf(env, bucket, key))
  {
    Names.ValidatedIsAccepted(key);
    Names.CompletionTempIsAKey(env.objectsRoot, bucket, key);
  }

  lemma TempIsGone(path: Str, kept: Str, data: Str)
    ensures CompletionTemp(path) !in Published(map[CompletionTemp(path) := kept], path, data)
  {
    assert CompletionTemp(path) != path;
  }

  lemma OneLetterIsValidated()
    ensures Names.Validated("x") == Some("x")
  {
    var x: Str := "x";
    assert Split(x, '/') == [x];
    assert Names.Accepted(x);
    assert Names.ValidUtf8(x);
    Names.ValidatedWhen(x, x);
  }

  lemma NewDirHoldsNoParts(bucket: Str, key: Str, metadata: Meta)
    ensures var dir := map[MANIFEST := Manifest(bucket, key, metadata)];
      DirOk(dir) && UploadOf(dir) == Upload(bucket, key, metadata, map[])
  {
    SkippedIsNoPart(MANIFEST);
    assert PartsOf(map[MANIFEST := Manifest(bucket, key, metadata)]) == map[];
  }

  /** writeManifest: to a temp name, then renamed. */
  method WriteManifest(dir: Dir, manifest: File) returns (written: Dir)
    requires MANIFEST + ".tmp" !in dir
    ensures written == dir[MANIFEST := manifest]
  {
    var tmp := MANIFEST + ".tmp";
    written := dir[tmp := manifest];
    written := Without(written, tmp);
    assert written == dir;
    written := written[MANIFEST := manifest];
  }

  /** Staging directories; the objects' data files by path; and their `.meta` sidecars, by the path of the object. */
  class Store {
    const env: Env
    var staging: map<Str, Dir>
    var objects: map<Str, Str>
    var sidecars: map<Str, Meta>

    ghost predicate Valid()
      reads this
    {
      forall d :: d in staging ==> DirOk(staging[d])
    }

    ghost function View(): Uploads
      reads this
      requires Valid()
    {
      map d | d in staging :: UploadOf(staging[d])
    }

    constructor (e: Env)
      ensures Valid() && View() == map[] && objects == map[] && sidecars == map[] && env == e
    {
      env, staging, objects, sidecars := e, map[], map[], map[];
    }

    /** openUpload: the staging directory of a live upload. */
    method Open(bucket: Str, key: Str, id: Str) returns (r: Result<Str, Error>)
      requires Valid()
      ensures r.Ok? <==> Live(env, View(), bucket, key, id)
      ensures r.Ok? ==> DirOf(env, bucket, id) == Some(r.value)
      ensures r.Err? ==> r.error == NoSuchUpload
      ensures r.Ok? <==>
        var d := SafeJoined(env.uploadsRoot, [bucket, id]);
        d.Some? && d.value in View() && View()[d.value].bucket == bucket && View()[d.value].key == key
    {
      var dir := SafeJoin(env.uploadsRoot, [bucket, id]);
      if dir == None || dir.value !in staging {
        return Err(NoSuchUpload);
      }
      var manifest := staging[dir.value][MANIFEST];
      if manifest.key != key || manifest.bucket != bucket {
        return Err(NoSuchUpload);
      }
      return Ok(dir.value);
    }

    /** Make the staging directory of a new upload. */
    method Place(d: Str, bucket: Str, key: Str, metadata: Meta)
      requires Valid()
      modifies this`staging
      ensures Valid() && View() == old(View())[d := Upload(bucket, key, metadata, map[])]
    {
      var created := WriteManifest(map[], Manifest(bucket, key, metadata));
      NewDirHoldsNoParts(bucket, key, metadata);
      assert created == map[MANIFEST := Manifest(bucket, key, metadata)];
      staging := staging[d := created];
      assert View() == old(View())[d := Upload(bucket, key, metadata, map[])];
    }

    method CreateUpload(bucket: Str, key: Str, metadata: Meta, id: Str) returns (r: Result<Str, Error>)
      requires Valid() && Legal(env, View(), Create(bucket, key, metadata, id))
      modifies this`staging
      ensures Valid() && View() == Apply(env, old(View()), Create(bucket, key, metadata, id))
      ensures r == if bucket == "" || key == "" then Err(NamesRequired)
                   else if DirOf(env, bucket, id) == None then Err(PathEscape) else Ok(id)
      ensures r.Ok? ==> SafeJoined(env.uploadsRoot, [bucket, id]).Some?
      ensures r.Ok? ==>
        View() == old(View())[SafeJoined(env.uploadsRoot, [bucket, id]).value := Upload(bucket, key, metadata, map[])]
      ensures r.Err? ==> View() == old(View())
    {
      if bucket == "" || key == "" {
        return Err(NamesRequired);
      }
      var dir := SafeJoin(env.uploadsRoot, [bucket, id]);
      if dir == None {
        return Err(PathEscape);
      }
      Place(dir.value, bucket, key, metadata);
      return Ok(id);
    }

    method UploadPart(bucket: Str, key: Str, id: Str, n: int, body: Str) returns (r: Result<Part, Error>)
      requires Valid()
      modifies this`staging
      ensures Valid() && View() == Apply(env, old(View()), Put(bucket, key, id, n, body))
      ensures r == if n < MIN_PART || n > MAX_PART then Err(InvalidPartRange)
                   else if !Live(env, old(View()), bucket, key, id) then Err(NoSuchUpload)
                   else Ok(Part(n, PartETag(env, body), |body|))
      ensures r.Err? ==> View() == old(View())
      ensures r.Ok? ==> 1 <= n <= 10000 && SafeJoined(env.uploadsRoot, [bucket, id]).Some?
      ensures r.Ok? ==>
        var d := SafeJoined(env.uploadsRoot, [bucket, id]).value;
        d in old(View()) && View() == old(View())[d := old(View())[d].(parts := old(View())[d].parts[n := body])]
      ensures r.Ok? ==> r.value.number == n && r.value.size == |body| && exists h :: IsHexOf(h, env.md5(body)) && IsQuoted(r.value.etag, h)
    {
      if n < MIN_PART || n > MAX_PART {
        return Err(InvalidPartRange);
      }
      var found := Open(bucket, key, id);
      if found.Err? {
        return Err(found.error);
      }
      Rename(found.value, n, body);
      var h := PartETagIs(env, body);
      return Ok(Part(n, PartETag(env, body), |body|));
    }

    /** Stream to the part's temp file and rename it into place. */
    method Rename(d: Str, n: int, body: Str)
      requires Valid() && d in staging && IsPartNumber(n)
      modifies this`staging
      ensures Valid() && View() == old(View())[d := old(View())[d].(parts := old(View())[d].parts[n := body])]
    {
      var before := staging[d];
      var dst := PartName(n);
      var tmp := dst + ".tmp";
      var dir := before[tmp := Bytes(body)];
      dir := Without(dir, tmp)[dst := Bytes(body)];
      RenameStoresPart(before, n, body);
      staging := staging[d := dir];
      assert View() == old(View())[d := UploadOf(dir)];
    }

    /** Assemble the object in the temp file beside it; a part that is gone fails the completion and removes that file. */
    method Stream(path: Str, views: seq<map<int, Str>>, expected: seq<Part>) returns (r: Result<(Str, Str, nat), Error>)
      requires |views| == |expected|
      modifies this`objects
      ensures r.Ok? <==> AllPresent(views, expected)
      ensures r.Ok? ==> var pieces := Streamed(views, expected);
        r.value == (Flatten(pieces), CompositeETag(env, pieces), |Flatten(pieces)|)
      ensures r.Ok? ==> Describes(r.value.0, r.value.1, r.value.2, env, views, expected)
      ensures r.Err? ==> r.error == InvalidPart && objects == Without(old(objects), CompletionTemp(path))
      ensures r.Ok? ==> objects == old(objects)[CompletionTemp(path) := r.value.0]
    {
      var tmp := CompletionTemp(path);
      objects := objects[tmp := ""];
      r := Assemble(env, views, expected);
      if r.Err? {
        objects := Without(objects, tmp);
      } else {
        objects := objects[tmp := r.value.0];
        StreamedDescribes(env, views, expected);
      }
    }

    /** Rename into place and write the sidecar. */
    method Publish(path: Str, metadata: Meta, etag: Str, total: nat, count: nat)
      requires CompletionTemp(path) in objects
      modifies this`objects, this`sidecars
      ensures objects == Published(old(objects), path, old(objects)[CompletionTemp(path)])
      ensures sidecars == old(sidecars)[path := CompleteSidecar(metadata, etag, total, count)]
      ensures path in sidecars && CompletedSidecar(sidecars[path], metadata, etag, total, count)
    {
      CompleteSidecarIs(metadata, etag, total, count);
      var tmp := CompletionTemp(path);
      objects := Without(objects, tmp)[path := objects[tmp]];
      var sidecar := metadata;
      sidecar := sidecar["ETag" := etag];
      sidecar := sidecar["Content-Length" := Decimal.Itoa(total)];
      sidecar := sidecar["x-amz-multipart-parts" := Decimal.Itoa(count)];
      sidecars := sidecars[path := sidecar];
    }

    /** os.RemoveAll on a staging directory. */
    method Drop(d: Str)
      requires Valid()
      modifies this`staging
      ensures Valid() && View() == Without(old(View()), d)
    {
      staging := Without(staging, d);
      assert View() == Without(old(View()), d);
    }

    /** Everything that is looked at before the first byte is written. */
    method Check(bucket: Str, key: Str, id: Str, expected: seq<Part>) returns (r: Result<(Str, Str), Error>)
      requires Valid()
      ensures r.Ok? <==> Succeeds(env, View(), Complete(bucket, key, id, expected))
      ensures r.Ok? ==> DirOf(env, bucket, id) == Some(r.value.0) && SafeJoined(env.objectsRoot, [bucket, key]) == Some(r.value.1)
      ensures r.Err? ==>
        forall views: seq<map<int, Str>> | |views| == |expected| ::
          Outcome(env, View(), bucket, key, id, expected, views) == Err(r.error)
    {
      var found := Open(bucket, key, id);
      if found.Err? {
        return Err(found.error);
      }
      var verdict := Validate(env, staging[found.value], expected);
      if verdict.Err? {
        return Err(verdict.error);
      }
      var path := SafeJoin(env.objectsRoot, [bucket, key]);
      if path == None {
        return Err(PathEscape);
      }
      return Ok((found.value, path.value));
    }

    /** What follows once the checks have passed. */
    method Finish(d: Str, path: Str, expected: seq<Part>, views: seq<map<int, Str>>) returns (r: Result<(Str, nat), Error>)
      requires Valid() && d in staging && |views| == |expected|
      modifies this
      ensures Valid() && (r.Ok? <==> AllPresent(views, expected))
      ensures r.Err? ==> r.error == InvalidPart && View() == old(View()) && sidecars == old(sidecars)
      ensures r.Err? ==> objects == Without(old(objects), CompletionTemp(path))
      ensures r.Ok? ==> View() == Without(old(View()), d)
      ensures r.Ok? ==>
        var pieces := Streamed(views, expected);
        r.value == (CompositeETag(env, pieces), |Flatten(pieces)|) &&
        objects == Published(old(objects), path, Flatten(pieces)) &&
        sidecars == old(sidecars)[path :=
          CompleteSidecar(old(View())[d].metadata, r.value.0, |Flatten(pieces)|, |expected|)]
      ensures r.Ok? ==>
        path in objects && Describes(objects[path], r.value.0, r.value.1, env, views, expected) && path in sidecars &&
        CompletedSidecar(sidecars[path], old(View())[d].metadata, r.value.0, |objects[path]|, |expected|)
    {
      var metadata := staging[d][MANIFEST].metadata;
      var assembled := Stream(path, views, expected);
      if assembled.Err? {
        return Err(assembled.error);
      }
      var (data, etag, total) := assembled.value;
      PublishedAfterTemp(old(objects), path, data);
      Publish(path, metadata, etag, total, |expected|);
      Drop(d);
      return Ok((etag, total));
    }

    /**
     Completes an upload. Whatever other requests do to the staging directory while the parts are streamed, the
     ETag and the size describe exactly the bytes that end up in the object. The bytes go through a temp file beside the
     object, so once the checks have passed whatever lay at that path is gone, whether streaming succeeds or not.
     */
    method CompleteUpload(bucket: Str, key: Str, id: Str, expected: seq<Part>, views: seq<map<int, Str>>)
      returns (r: Result<(Str, nat), Error>)
      requires Valid() && |views| == |expected|
      modifies this
      ensures Valid() && r == Outcome(env, old(View()), bucket, key, id, expected, views)
      ensures r.Err? ==> View() == old(View()) && sidecars == old(sidecars)
      ensures !Succeeds(env, old(View()), Complete(bucket, key, id, expected)) ==> r.Err? && objects == old(objects)
      ensures Succeeds(env, old(View()), Complete(bucket, key, id, expected)) && r.Err? ==>
        objects == Without(old(objects), CompletionTemp(PathOf(env, bucket, key)))
      ensures r.Ok? ==> View() == Without(old(View()), DirOf(env, bucket, id).value)
      ensures r.Ok? ==> SafeJoined(env.objectsRoot, [bucket, key]).Some? && SafeJoined(env.uploadsRoot, [bucket, id]).Some?
      ensures r.Ok? ==>
        var path, d := SafeJoined(env.objectsRoot, [bucket, key]).value, SafeJoined(env.uploadsRoot, [bucket, id]).value;
        path in objects && Describes(objects[path], r.value.0, r.value.1, env, views, expected) &&
        d in old(View()) && path in sidecars &&
        CompletedSidecar(sidecars[path], old(View())[d].metadata, r.value.0, |objects[path]|, |expected|)
      ensures r.Ok? ==>
        var data, path := Flatten(Streamed(views, expected)), PathOf(env, bucket, key);
        objects == Published(old(objects), path, data) &&
        sidecars == old(sidecars)[path :=
          CompleteSidecar(old(View())[DirOf(env, bucket, id).value].metadata, r.value.0, |data|, |expected|)]
    {
      var checked := Check(bucket, key, id, expected);
      if checked.Err? {
        return Err(checked.error);
      }
      var (d, path) := checked.value;
      r := Finish(d, path, expected, views);
    }

    method AbortUpload(bucket: Str, key: Str, id: Str) returns (r: Result<(), Error>)
      requires Valid()
      modifies this`staging
      ensures Valid() && View() == Apply(env, old(View()), Abort(bucket, key, id))
      ensures r == if Live(env, old(View()), bucket, key, id) then Ok(()) else Err(NoSuchUpload)
      ensures r.Err? ==> View() == old(View())
      ensures r.Ok? ==> SafeJoined(env.uploadsRoot, [bucket, id]).Some?
      ensures r.Ok? ==>
        var d := SafeJoined(env.uploadsRoot, [bucket, id]).value;
        d in old(View()) && d !in View() && forall x :: x != d ==>
          (x in View() <==> x in old(View())) && (x in View() ==> View()[x] == old(View())[x])
    {
      var found := Open(bucket, key, id);
      if found.Err? {
        return Err(found.error);
      }
      Drop(found.value);
      return Ok(());
    }
  }

  /** The temp name a part is streamed to is neither a part's nor the manifest's. */
  lemma TempNameFacts(n: int)
    requires IsPartNumber(n)
    ensures var tmp := PartName(n) + ".tmp";
      IsTempName(tmp) && tmp != MANIFEST && forall q :: IsPartNumber(q) ==> PartName(q) != tmp
  {
    var tmp := PartName(n) + ".tmp";
    SuffixOfConcat(PartName(n), ".tmp");
    SkippedIsNoPart(tmp);
    var m: Str := MANIFEST;
    assert !IsTempName(m) by { assert m[|m| - 1] == 'n'; }
  }

  function Renamed(before: Dir, n: int, body: Str): Dir
    requires IsPartNumber(n)
  {
    var dst := PartName(n);
    var tmp := dst + ".tmp";
    Without(before[tmp := Bytes(body)], tmp)[dst := Bytes(body)]
  }

  lemma RenamedKeepsOk(before: Dir, n: int, body: Str)
    requires DirOk(before) && IsPartNumber(n)
    ensures DirOk(Renamed(before, n, body)) && Renamed(before, n, body)[MANIFEST] == before[MANIFEST]
    ensures forall q :: InDir(Renamed(before, n, body), q) <==> InDir(before, q) || q == n
    ensures forall q :: InDir(before, q) && q != n ==>
      PartName(q) in Renamed(before, n, body) && Renamed(before, n, body)[PartName(q)] == before[PartName(q)]
  {
    PartNameFacts(n);
    TempNameFacts(n);
    forall q | IsPartNumber(q) ensures PartName(q) == PartName(n) <==> q == n {
      PartNameOrder(q, n);
    }
  }

  lemma RenameStoresPart(before: Dir, n: int, body: Str)
    requires DirOk(before) && IsPartNumber(n)
    ensures var dir := Without(before[PartName(n) + ".tmp" := Bytes(body)], PartName(n) + ".tmp")[PartName(n) := Bytes(body)];
      DirOk(dir) && PartsOf(dir) == PartsOf(before)[n := body] && dir[MANIFEST] == before[MANIFEST]
  {
    var dir := Renamed(before, n, body);
    RenamedKeepsOk(before, n, body);
    assert PartsOf(dir).Keys == PartsOf(before)[n := body].Keys;
  }

  /** When nothing disturbs the staging directory, what is streamed is the last body uploaded under each number. */
  lemma QuietCompletion(env: Env, es: seq<Event>, d: Str, expected: seq<Part>, views: seq<map<int, Str>>)
    requires d in Run(env, es) && |views| == |expected|
    requires Verdict(env, Run(env, es)[d].parts, expected).Ok?
    requires forall i :: 0 <= i < |views| ==> views[i] == Run(env, es)[d].parts
    ensures AllPresent(views, expected)
    ensures forall i :: 0 <= i < |expected| ==> LastWrite(env, es, d, expected[i].number) == Some(Streamed(views, expected)[i])
  {
    forall i | 0 <= i < |expected| ensures expected[i].number in views[i] {
      assert Matches(env, Run(env, es)[d].parts, expected[i]);
    }
    forall i | 0 <= i < |expected|
      ensures LastWrite(env, es, d, expected[i].number) == Some(Streamed(views, expected)[i])
    {
      LastWriteWins(env, es, d, expected[i].number);
    }
  }
}
