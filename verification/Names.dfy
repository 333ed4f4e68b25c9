/**
 Which object keys and bucket names are accepted, and what that buys: object data,
 sidecars and bucket configuration never meet on disk.
 */
module Names {
  import opened Wrappers
  import opened GoStrings
  import opened Paths

  // ------------------------------------------------------------------
  // Validation.

  /** utf8.ValidString. */
  predicate ValidUtf8(s: Str)
    decreases |s|
  {
    s == [] ||
    var n := EncodedLength(s[0] as int);
    1 <= n <= |s| && (n > 1 ==> SecondByteOk(s[0] as int, s[1] as int)) && (n > 2 ==> Continuation(s[2] as int)) &&
    (n > 3 ==> Continuation(s[3] as int)) && ValidUtf8(s[n..])
  }

  /** The length of an encoding by its first byte; 0 for a byte that starts none. */
  function EncodedLength(b: int): (n: nat) {
    if 0 <= b < 0x80 then 1
    else if 0xC2 <= b <= 0xDF then 2
    else if 0xE0 <= b <= 0xEF then 3
    else if 0xF0 <= b <= 0xF4 then 4
    else 0
  }

  predicate Continuation(b: int) {
    0x80 <= b <= 0xBF
  }

  /** Overlong forms, surrogates and code points past U+10FFFF are excluded by the second byte. */
  predicate SecondByteOk(first: int, b: int) {
    (if first == 0xE0 then 0xA0 else if first == 0xF0 then 0x90 else 0x80) <= b <=
    (if first == 0xED then 0x9F else if first == 0xF4 then 0x8F else 0xBF)
  }

  predicate HasControl(s: Str) {
    exists i :: 0 <= i < |s| && (s[i] as int < 0x20 || s[i] as int == 0x7F)
  }

  predicate SegmentIsSafe(seg: Str) {
    seg != "" && seg != "." && seg != ".." && seg != ".acl.json" && seg != ".cors.json" &&
    !HasSuffix(seg, ".meta") && !HasSuffix(seg, ".tags.json")
  }

  /** ValidateObjectKey: the key without its leading slash, or None for ErrInvalidObjectKey. */
  method ValidateObjectKey(key: Str) returns (r: Option<Str>)
    ensures r == Validated(key)
  {
    if key == "" {
      return None;
    }
    var clear := NoControl(key);
    if !clear {
      return None;
    }
    if !ValidUtf8(key) {
      return None;
    }
    var clean := TrimPrefix(key, "/");
    if clean == "" {
      return None;
    }
    var safe := AllSafe(Split(clean, '/'));
    return if safe then Some(clean) else None;
  }

  method NoControl(key: Str) returns (clear: bool)
    ensures clear == !HasControl(key)
  {
    for i := 0 to |key|
      invariant forall j :: 0 <= j < i ==> !(key[j] as int < 0x20 || key[j] as int == 0x7F)
    {
      if key[i] as int < 0x20 || key[i] as int == 0x7F {
        return false;
      }
    }
    return true;
  }

  method AllSafe(segs: seq<Str>) returns (safe: bool)
    ensures safe == forall i :: 0 <= i < |segs| ==> SegmentIsSafe(segs[i])
  {
    for i := 0 to |segs|
      invariant forall j :: 0 <= j < i ==> SegmentIsSafe(segs[j])
    {
      if !SegmentIsSafe(segs[i]) {
        return false;
      }
    }
    return true;
  }

  function Validated(key: Str): Option<Str> {
    var clean := TrimPrefix(key, "/");
    if key == "" || HasControl(key) || !ValidUtf8(key) || clean == "" ||
       (exists i :: 0 <= i < |Split(clean, '/')| && !SegmentIsSafe(Split(clean, '/')[i]))
    then None else Some(clean)
  }

  /** A key in the form the handlers go on with. */
  predicate Accepted(key: Str) {
    key != "" && forall seg :: seg in Split(key, '/') ==> SegmentIsSafe(seg)
  }

  predicate LowerAlnum(c: Byte) {
    'a' <= c <= 'z' || '0' <= c <= '9'
  }

  /** ValidateBucketName: labels of lower-case letters and digits, joined by single hyphens, at most 63 bytes. */
  predicate ValidBucket(name: Str) {
    1 <= |name| <= 63 && forall part :: part in Split(name, '-') ==> part != "" && forall c :: c in part ==> LowerAlnum(c)
  }

  /** isSidecar, on the last segment of a path. */
  predicate IsSidecar(name: Str) {
    HasSuffix(name, ".meta") || HasSuffix(name, ".tags.json") || name == ".cors.json" || name == ".acl.json"
  }

  // ------------------------------------------------------------------

  lemma ValidatedIsAccepted(key: Str)
    requires Validated(key).Some?
    ensures Accepted(Validated(key).value)
    ensures key == Validated(key).value || key == "/" + Validated(key).value
  {
    var clean := TrimPrefix(key, "/");
    forall seg | seg in Split(clean, '/') ensures SegmentIsSafe(seg) {
      var i :| 0 <= i < |Split(clean, '/')| && Split(clean, '/')[i] == seg;
    }
  }

  /**
   What validation accepts, spelled out: a key that is not empty, has no control byte, is UTF-8, and, once one leading slash
   is off, is made of segments none of which is empty, a dot or a climb, a bucket's configuration file or a sidecar's name.
   */
  lemma ValidatedMeans(key: Str)
    ensures Validated(key).Some? <==>
      key != "" && (forall i :: 0 <= i < |key| ==> 0x20 <= key[i] as int && key[i] as int != 0x7F) && ValidUtf8(key) &&
      key != "/" && AllAllowed(Split(WithoutSlash(key), '/'))
    ensures Validated(key).Some? ==> Validated(key).value == WithoutSlash(key)
  {
    if key != "" {
      var clean := WithoutSlash(key);
      TrimIs(key);
      SegmentsMean(Split(clean, '/'));
    }
  }

  function WithoutSlash(key: Str): Str {
    if key != "" && key[0] == '/' then key[1..] else key
  }

  predicate AllAllowed(segs: seq<Str>) {
    forall seg :: seg in segs ==>
      seg !in {"", ".", "..", ".acl.json", ".cors.json"} && !HasSuffix(seg, ".meta") && !HasSuffix(seg, ".tags.json")
  }

  lemma TrimIs(key: Str)
    ensures TrimPrefix(key, "/") == WithoutSlash(key)
  {
    var slash: Str := "/";
    assert key != "" ==> (HasPrefix(key, slash) <==> key[0] == '/');
  }

  lemma SegmentsMean(segs: seq<Str>)
    ensures (exists i :: 0 <= i < |segs| && !SegmentIsSafe(segs[i])) <==> !AllAllowed(segs)
  {
    if i :| 0 <= i < |segs| && !SegmentIsSafe(segs[i]) {
      assert segs[i] in segs;
    }
  }

  /** Of names that are a segment at all, the listing hides exactly those validation rejects. */
  lemma SidecarIsUnsafe(seg: Str)
    requires seg != "" && seg != "." && seg != ".."
    ensures IsSidecar(seg) <==> !SegmentIsSafe(seg)
    ensures IsSidecar(seg) <==> seg in {".acl.json", ".cors.json"} || HasSuffix(seg, ".meta") || HasSuffix(seg, ".tags.json")
  {
  }

  // ------------------------------------------------------------------
  // Bucket names.

  predicate LabelByte(c: Byte) {
    'a' <= c <= 'z' || '0' <= c <= '9'
  }

  /** Lower-case letters, digits and hyphens, no hyphen at the end, no two together. */
  predicate LabelsFollow(s: Str) {
    (forall i :: 0 <= i < |s| ==> LabelByte(s[i]) || s[i] == '-') &&
    (s != "" ==> s[|s| - 1] != '-') &&
    forall i :: 0 < i < |s| ==> !HyphensAt(s, i)
  }

  predicate HyphensAt(s: Str, i: nat)
    requires 0 < i < |s|
  {
    s[i - 1] == '-' && s[i] == '-'
  }

  predicate IsLabel(part: Str) {
    part != "" && forall c :: c in part ==> LowerAlnum(c)
  }

  /** The first label may still be empty, as when more of it stands in front. */
  predicate PartsFollow(parts: seq<Str>)
    requires parts != []
  {
    (forall c :: c in parts[0] ==> LowerAlnum(c)) && forall i :: 1 <= i < |parts| ==> IsLabel(parts[i])
  }

  lemma {:induction false} PartsAreLabels(s: Str)
    ensures PartsFollow(Split(s, '-')) <==> LabelsFollow(s)
    ensures Split(s, '-')[0] == "" <==> s == "" || s[0] == '-'
  {
    if s != "" {
      var rest := s[1..];
      PartsAreLabels(rest);
      if s[0] == '-' {
        HyphenFirst(s, rest);
      } else {
        ByteFirst(s, rest);
      }
    }
  }

  lemma HyphenFirst(s: Str, rest: Str)
    requires s != "" && s[0] == '-' && rest == s[1..]
    requires PartsFollow(Split(rest, '-')) <==> LabelsFollow(rest)
    requires Split(rest, '-')[0] == "" <==> rest == "" || rest[0] == '-'
    ensures PartsFollow(Split(s, '-')) <==> LabelsFollow(s)
    ensures Split(s, '-')[0] == ""
  {
    var parts, more := Split(s, '-'), Split(rest, '-');
    assert parts == [[]] + more && parts[0] == [] && parts[1..] == more;
    assert PartsFollow(parts) <==> PartsFollow(more) && more[0] != "" by {
      assert forall i :: 1 <= i < |parts| ==> parts[i] == more[i - 1];
      assert forall i :: 0 <= i < |more| ==> more[i] == parts[i + 1];
    }
    LabelsCons(s, rest);
  }

  lemma ByteFirst(s: Str, rest: Str)
    requires s != "" && s[0] != '-' && rest == s[1..]
    requires PartsFollow(Split(rest, '-')) <==> LabelsFollow(rest)
    ensures PartsFollow(Split(s, '-')) <==> LabelsFollow(s)
    ensures Split(s, '-')[0] != ""
  {
    var parts, more := Split(s, '-'), Split(rest, '-');
    assert parts == [[s[0]] + more[0]] + more[1..] && |parts| == |more|;
    assert forall i :: 1 <= i < |parts| ==> parts[i] == more[i];
    assert forall c :: c in parts[0] <==> c == s[0] || c in more[0];
    assert PartsFollow(parts) <==> LowerAlnum(s[0]) && PartsFollow(more) by {
      assert s[0] in parts[0];
    }
    LabelsCons(s, rest);
  }

  lemma LabelsCons(s: Str, rest: Str)
    requires s != "" && rest == s[1..]
    ensures LabelsFollow(s) <==>
      LabelsFollow(rest) && (LabelByte(s[0]) || s[0] == '-') && (s[0] == '-' ==> rest != "" && rest[0] != '-')
  {
    assert forall i :: 0 <= i < |rest| ==> rest[i] == s[i + 1];
    if LabelsFollow(s) {
      forall i: nat | 0 < i < |rest| ensures !HyphensAt(rest, i) {
        assert !HyphensAt(s, i + 1);
      }
      assert rest != "" ==> !HyphensAt(s, 1);
    }
    if LabelsFollow(rest) && (s[0] == '-' ==> rest != "" && rest[0] != '-') {
      forall i: nat | 0 < i < |s| ensures !HyphensAt(s, i) {
        assert i > 1 ==> !HyphensAt(rest, i - 1);
      }
    }
  }

  /** A bucket name: 1 to 63 bytes, lower-case letters, digits and single hyphens, none at either end. */
  lemma BucketNameIs(name: Str)
    ensures ValidBucket(name) <==> 1 <= |name| <= 63 && name[0] != '-' && LabelsFollow(name)
  {
    var parts := Split(name, '-');
    PartsAreLabels(name);
    assert (forall part :: part in parts ==> IsLabel(part)) <==> PartsFollow(parts) && parts[0] != "" by {
      assert forall i :: 0 <= i < |parts| ==> parts[i] in parts;
    }
    assert ValidBucket(name) <==> 1 <= |name| <= 63 && forall part :: part in parts ==> IsLabel(part);
  }

  // ------------------------------------------------------------------
  // UTF-8.

  /** A code point that is not a surrogate. */
  predicate IsScalar(cp: int) {
    0 <= cp <= 0x10FFFF && !(0xD800 <= cp <= 0xDFFF)
  }

  /** The shortest encoding, and the only one. */
  function Utf8(cp: int): Str
    requires IsScalar(cp)
  {
    if cp < 0x80 then [cp as char]
    else if cp < 0x800 then [(0xC0 + cp / 64) as char, (0x80 + cp % 64) as char]
    else if cp < 0x10000 then [(0xE0 + cp / 4096) as char, (0x80 + cp / 64 % 64) as char, (0x80 + cp % 64) as char]
    else [(0xF0 + cp / 262144) as char, (0x80 + cp / 4096 % 64) as char, (0x80 + cp / 64 % 64) as char, (0x80 + cp % 64) as char]
  }

  function Utf8All(cps: seq<int>): Str
    requires forall i :: 0 <= i < |cps| ==> IsScalar(cps[i])
  {
    if cps == [] then [] else Utf8(cps[0]) + Utf8All(cps[1..])
  }

  /** The first n bytes are one well-formed character. */
  predicate StartsWell(s: Str, n: nat) {
    s != [] && n == EncodedLength(s[0] as int) && 1 <= n <= |s| && (n > 1 ==> SecondByteOk(s[0] as int, s[1] as int)) &&
    (n > 2 ==> Continuation(s[2] as int)) && (n > 3 ==> Continuation(s[3] as int))
  }

  lemma EncodingStartsWell(cp: int)
    requires IsScalar(cp)
    ensures StartsWell(Utf8(cp), |Utf8(cp)|)
  {
    if cp >= 0x800 { assert cp / 4096 == cp / 64 / 64; }
    if cp >= 0x10000 { assert cp / 262144 == cp / 4096 / 64; }
  }

  lemma TwoBytesDecode(a: int, b: int) returns (cp: int)
    requires 0xC2 <= a <= 0xDF && 0x80 <= b <= 0xBF
    ensures IsScalar(cp) && Utf8(cp) == [a as char, b as char]
  {
    cp := (a - 0xC0) * 64 + (b - 0x80);
    assert cp / 64 == a - 0xC0 && cp % 64 == b - 0x80;
  }

  lemma ThreeBytesDecode(a: int, b: int, c: int) returns (cp: int)
    requires 0xE0 <= a <= 0xEF && SecondByteOk(a, b) && 0x80 <= c <= 0xBF
    ensures IsScalar(cp) && Utf8(cp) == [a as char, b as char, c as char]
  {
    cp := (a - 0xE0) * 4096 + (b - 0x80) * 64 + (c - 0x80);
    assert cp / 64 == (a - 0xE0) * 64 + (b - 0x80) && cp % 64 == c - 0x80;
    assert cp / 64 % 64 == b - 0x80 && cp / 4096 == a - 0xE0;
  }

  lemma FourBytesDecode(a: int, b: int, c: int, d: int) returns (cp: int)
    requires 0xF0 <= a <= 0xF4 && SecondByteOk(a, b) && 0x80 <= c <= 0xBF && 0x80 <= d <= 0xBF
    ensures IsScalar(cp) && Utf8(cp) == [a as char, b as char, c as char, d as char]
  {
    cp := (a - 0xF0) * 262144 + (b - 0x80) * 4096 + (c - 0x80) * 64 + (d - 0x80);
    assert cp / 64 == (a - 0xF0) * 4096 + (b - 0x80) * 64 + (c - 0x80) && cp % 64 == d - 0x80;
    assert cp / 4096 == (a - 0xF0) * 64 + (b - 0x80) && cp / 64 % 64 == c - 0x80;
    assert cp / 262144 == a - 0xF0 && cp / 4096 % 64 == b - 0x80;
  }

  lemma WellStartedDecodes(s: Str, n: nat) returns (cp: int)
    requires StartsWell(s, n)
    ensures IsScalar(cp) && Utf8(cp) == s[..n]
  {
    var a := s[0] as int;
    if n == 1 {
      cp := a;
      assert s[..1] == [s[0]];
    } else if n == 2 {
      cp := TwoBytesDecode(a, s[1] as int);
      assert s[..2] == [s[0], s[1]];
    } else if n == 3 {
      cp := ThreeBytesDecode(a, s[1] as int, s[2] as int);
      assert s[..3] == [s[0], s[1], s[2]];
    } else {
      cp := FourBytesDecode(a, s[1] as int, s[2] as int, s[3] as int);
      assert s[..4] == [s[0], s[1], s[2], s[3]];
    }
  }

  lemma {:induction false} EncodingsAreValid(cps: seq<int>)
    requires forall i :: 0 <= i < |cps| ==> IsScalar(cps[i])
    ensures ValidUtf8(Utf8All(cps))
  {
    if cps != [] {
      var first, rest := Utf8(cps[0]), Utf8All(cps[1..]);
      EncodingsAreValid(cps[1..]);
      EncodingStartsWell(cps[0]);
      assert (first + rest)[|first|..] == rest;
    }
  }

  lemma EncodeCons(cp: int, rest: seq<int>)
    requires IsScalar(cp) && forall i :: 0 <= i < |rest| ==> IsScalar(rest[i])
    ensures forall i :: 0 <= i < |[cp] + rest| ==> IsScalar(([cp] + rest)[i])
    ensures Utf8All([cp] + rest) == Utf8(cp) + Utf8All(rest)
  {
    assert ([cp] + rest)[1..] == rest;
  }

  lemma ValidStartsWell(s: Str) returns (n: nat)
    requires ValidUtf8(s) && s != []
    ensures StartsWell(s, n) && ValidUtf8(s[n..])
  {
    n := EncodedLength(s[0] as int);
  }

  lemma GluesBack(s: Str, n: nat, head: Str, tail: Str)
    requires n <= |s| && head == s[..n] && tail == s[n..]
    ensures head + tail == s
  {
  }

  lemma {:induction false} ValidIsEncoding(s: Str) returns (cps: seq<int>)
    requires ValidUtf8(s)
    ensures forall i :: 0 <= i < |cps| ==> IsScalar(cps[i])
    ensures Utf8All(cps) == s
    decreases |s|
  {
    if s == [] {
      cps := [];
    } else {
      var n := ValidStartsWell(s);
      var cp := WellStartedDecodes(s, n);
      var rest := ValidIsEncoding(s[n..]);
      cps := [cp] + rest;
      EncodeCons(cp, rest);
      GluesBack(s, n, Utf8(cp), Utf8All(rest));
    }
  }

  ghost predicate IsEncoded(s: Str) {
    exists cps: seq<int> :: (forall i :: 0 <= i < |cps| ==> IsScalar(cps[i])) && Utf8All(cps) == s
  }

  /** Valid means: the encoding of some scalar values. No overlong form, surrogate, stray or missing byte is. */
  lemma ValidUtf8Means(s: Str)
    ensures ValidUtf8(s) <==> IsEncoded(s)
  {
    if ValidUtf8(s) {
      var cps := ValidIsEncoding(s);
    }
    if IsEncoded(s) {
      var cps: seq<int> :| (forall i :: 0 <= i < |cps| ==> IsScalar(cps[i])) && Utf8All(cps) == s;
      EncodingsAreValid(cps);
    }
  }

  // ------------------------------------------------------------------

  /** An accepted key is already clean, with or without its leading slash, and its segments are real. */
  lemma AcceptedIsClean(key: Str)
    requires Accepted(key)
    ensures Clean(key) == key && Clean("/" + key) == "/" + key
    ensures Parse(key) == Path(false, Split(key, '/')) && AllReal(Split(key, '/'))
  {
    var segs := Split(key, '/');
    SplitHead(key);
    assert !IsAbs(key) by { assert segs[0] in segs; }
    forall x | x in segs ensures Real(x) { }
    FoldKeeps([], false, 0, segs) by {
      forall i | 0 <= i < |segs| ensures Real(segs[i]) { assert segs[i] in segs; }
    }
    FoldKeeps([], true, 0, segs);
    assert [] + segs == segs;
    ParseRooted(key);
  }

  lemma BucketIsOneSegment(name: Str)
    requires ValidBucket(name)
    ensures Split(name, '/') == [name] && Parse(name) == Path(false, [name]) && Real(name)
  {
    var labels := Split(name, '-');
    JoinedBytes(labels, '-');
    assert forall c :: c in name ==> LowerAlnum(c) || c == '-';
    SplitUnique([name], '/');
    assert name[0] in name;
    assert name != "." && name != ".." && !IsAbs(name);
    assert Fold([], false, [name]) == [name];
  }

  lemma {:induction false} JoinedBytes(parts: seq<Str>, sep: Byte)
    requires forall p :: p in parts ==> forall c :: c in p ==> LowerAlnum(c)
    ensures forall c :: c in Join(parts, sep) ==> LowerAlnum(c) || c == sep
  {
    if |parts| > 1 {
      assert parts[0] in parts && forall p :: p in parts[1..] ==> p in parts;
      JoinedBytes(parts[1..], sep);
    } else if |parts| == 1 {
      assert parts[0] in parts;
    }
  }

  // ------------------------------------------------------------------
  // On disk.

  /** The segments under the objects root of an object file, or of its sidecar with the given suffix. */
  function Location(bucket: Str, key: Str, suffix: Str): seq<Str> {
    Located(bucket, Split(key, '/'), suffix)
  }

  function Located(bucket: Str, segs: seq<Str>, suffix: Str): seq<Str>
    requires segs != []
  {
    [bucket] + segs[..|segs| - 1] + [segs[|segs| - 1] + suffix]
  }

  lemma JoinTwoNames(root: Str, a: Str, b: Str)
    requires IsAbs(root) && StaysInside(Parse(a)) && StaysInside(Parse(b))
    ensures SafeJoined(root, [a, b]) == Some(Render(Path(true, Parse(root).segs + (Parse(a).segs + Parse(b).segs))))
  {
    SafeJoinExtends(root, [a, b]);
    assert [a, b][1..] == [b] && [b][1..] == [];
    assert Parse(b).segs + [] == Parse(b).segs;
    assert AllSegs([b]) == Parse(b).segs;
    assert AllSegs([a, b]) == Parse(a).segs + Parse(b).segs;
    assert forall n :: n in [a, b] ==> n == a || n == b;
    var p := SafeJoined(root, [a, b]).value;
    assert p == Clean(p) == Render(Parse(p));
  }

  lemma ObjectPathIs(root: Str, bucket: Str, key: Str)
    requires ValidBucket(bucket) && Accepted(key) && IsAbs(root)
    ensures SafeJoined(root, [bucket, key]) == Some(Render(Path(true, Parse(root).segs + ([bucket] + Split(key, '/')))))
  {
    AcceptedIsClean(key);
    BucketIsOneSegment(bucket);
    JoinTwoNames(root, bucket, key);
  }

  lemma LocationIsReal(bucket: Str, key: Str, suffix: Str)
    requires ValidBucket(bucket) && Accepted(key)
    requires suffix == "" || suffix == ".meta" || suffix == ".tags.json"
    ensures AllReal(Location(bucket, key, suffix))
  {
    AcceptedIsClean(key);
    BucketIsOneSegment(bucket);
    LocatedIsReal(bucket, Split(key, '/'), suffix);
  }

  lemma RealWithSuffix(seg: Str, suffix: Str)
    requires Real(seg) && (suffix == "" || (|suffix| > 1 && '/' !in suffix))
    ensures Real(seg + suffix)
  {
    assert |seg + suffix| >= 1 && (suffix != "" ==> |seg + suffix| > 2);
    assert seg + "" == seg;
  }

  lemma LocatedIsReal(bucket: Str, segs: seq<Str>, suffix: Str)
    requires segs != [] && AllReal(segs) && Real(bucket)
    requires suffix == "" || (|suffix| > 1 && '/' !in suffix)
    ensures AllReal(Located(bucket, segs, suffix))
  {
    var last := segs[|segs| - 1];
    assert last in segs;
    RealWithSuffix(last, suffix);
    assert forall x :: x in segs[..|segs| - 1] ==> x in segs;
  }

  lemma LastSegmentGrows(front: seq<Str>, bucket: Str, key: Str, suffix: Str)
    ensures var here := front + ([bucket] + Split(key, '/'));
      here != [] && here[..|here| - 1] + [here[|here| - 1] + suffix] == front + Location(bucket, key, suffix)
  {
  }

  lemma RenderGrown(front: seq<Str>, bucket: Str, key: Str, suffix: Str)
    ensures Render(Path(true, front + ([bucket] + Split(key, '/')))) + suffix
      == Render(Path(true, front + Location(bucket, key, suffix)))
  {
    var here := front + ([bucket] + Split(key, '/'));
    LastSegmentGrows(front, bucket, key, suffix);
    RenderWithSuffix(here, front + Location(bucket, key, suffix), suffix);
  }

  /** An accepted key has a path on disk, and its sidecars' paths are that path with the suffix appended. */
  lemma SidecarPathIs(root: Str, bucket: Str, key: Str, suffix: Str)
    requires ValidBucket(bucket) && Accepted(key) && IsAbs(root)
    ensures SafeJoined(root, [bucket, key]).Some?
    ensures SafeJoined(root, [bucket, key]).value + suffix ==
      Render(Path(true, Parse(root).segs + Location(bucket, key, suffix)))
  {
    ObjectPathIs(root, bucket, key);
    RenderGrown(Parse(root).segs, bucket, key, suffix);
  }

  lemma RenderWithSuffix(segs: seq<Str>, grown: seq<Str>, suffix: Str)
    requires segs != [] && grown == segs[..|segs| - 1] + [segs[|segs| - 1] + suffix]
    ensures Render(Path(true, segs)) + suffix == Render(Path(true, grown))
  {
    JoinWithSuffix(segs, suffix);
    var slash: Str := "/";
    assert slash + Join(segs, '/') + suffix == slash + (Join(segs, '/') + suffix);
  }

  lemma {:induction false} JoinWithSuffix(segs: seq<Str>, suffix: Str)
    requires segs != []
    ensures Join(segs[..|segs| - 1] + [segs[|segs| - 1] + suffix], '/') == Join(segs, '/') + suffix
  {
    if |segs| == 1 {
      assert segs[..0] + [segs[0] + suffix] == [segs[0] + suffix];
    } else {
      var longer := segs[..|segs| - 1] + [segs[|segs| - 1] + suffix];
      JoinWithSuffix(segs[1..], suffix);
      assert longer[1..] == segs[1..][..|segs| - 2] + [segs[1..][|segs| - 2] + suffix];
    }
  }

  predicate IsSuffix(suffix: Str) {
    suffix == "" || suffix == ".meta" || suffix == ".tags.json"
  }

  /** The file holding an object's data (empty suffix) or one of its sidecars. */
  function OnDisk(root: Str, bucket: Str, key: Str, suffix: Str): Str
    requires SafeJoined(root, [bucket, key]).Some?
  {
    SafeJoined(root, [bucket, key]).value + suffix
  }

  lemma UnderRoot(root: Str, a: seq<Str>, b: seq<Str>)
    requires IsAbs(root) && AllReal(a) && AllReal(b)
    requires Render(Path(true, Parse(root).segs + a)) == Render(Path(true, Parse(root).segs + b))
    ensures a == b
  {
    RootedNormal(root, a);
    RootedNormal(root, b);
    var front := Parse(root).segs;
    RenderInjective(Path(true, front + a), Path(true, front + b));
    assert a == (front + a)[|front|..] && b == (front + b)[|front|..];
  }

  lemma RootedNormal(root: Str, a: seq<Str>)
    requires IsAbs(root) && AllReal(a)
    ensures Normal(Path(true, Parse(root).segs + a))
  {
    ParseNormal(root);
    var k :| NormalAt(Parse(root), k);
    var p := Path(true, Parse(root).segs + a);
    assert NormalAt(p, 0) by {
      forall i | 0 <= i < |p.segs| ensures Real(p.segs[i]) {
        if i >= |Parse(root).segs| { assert p.segs[i] in a; }
      }
    }
  }

  /** A safe segment plus a suffix determines both. */
  lemma SuffixesDiffer(x: Str, y: Str, sx: Str, sy: Str)
    requires SegmentIsSafe(x) && SegmentIsSafe(y) && IsSuffix(sx) && IsSuffix(sy) && x + sx == y + sy
    ensures x == y && sx == sy
  {
    SuffixOfConcat(x, sx);
    SuffixOfConcat(y, sy);
    assert x + "" == x && y + "" == y;
    var s := x + sx;
    assert sx == ".meta" ==> s[|s| - 1] == 'a';
    assert sy == ".meta" ==> s[|s| - 1] == 'a';
    assert sx == ".tags.json" ==> s[|s| - 1] == 'n';
    assert sy == ".tags.json" ==> s[|s| - 1] == 'n';
    assert sx == sy;
    assert x == s[..|s| - |sx|] && y == s[..|s| - |sy|];
  }

  lemma LocationInjective(b1: Str, k1: Str, s1: Str, b2: Str, k2: Str, s2: Str)
    requires Accepted(k1) && Accepted(k2) && IsSuffix(s1) && IsSuffix(s2)
    requires Location(b1, k1, s1) == Location(b2, k2, s2)
    ensures b1 == b2 && k1 == k2 && s1 == s2
  {
    var x, y := Split(k1, '/'), Split(k2, '/');
    LocatedInjective(b1, x, s1, b2, y, s2);
    assert Join(x, '/') == k1 && Join(y, '/') == k2;
  }

  lemma LocatedInjective(b1: Str, x: seq<Str>, s1: Str, b2: Str, y: seq<Str>, s2: Str)
    requires x != [] && y != [] && (forall seg :: seg in x + y ==> SegmentIsSafe(seg)) && IsSuffix(s1) && IsSuffix(s2)
    requires Located(b1, x, s1) == Located(b2, y, s2)
    ensures b1 == b2 && x == y && s1 == s2
  {
    var l, m := Located(b1, x, s1), Located(b2, y, s2);
    var n := |x| - 1;
    assert |l| == |x| + 1 && |m| == |y| + 1;
    assert l[0] == b1 && m[0] == b2;
    assert l[1..n + 1] == x[..n] && m[1..n + 1] == y[..n];
    assert l[n + 1] == x[n] + s1 && m[n + 1] == y[n] + s2;
    assert x[n] in x + y && y[n] in x + y;
    SuffixesDiffer(x[n], y[n], s1, s2);
    assert x == x[..n] + [x[n]] && y == y[..n] + [y[n]];
  }

  /** Data files, metadata sidecars and tag sidecars of accepted keys: two of them share a path only if they are the same one. */
  lemma PathsNeverCoincide(root: Str, b1: Str, k1: Str, s1: Str, b2: Str, k2: Str, s2: Str)
    requires IsAbs(root) && ValidBucket(b1) && ValidBucket(b2) && Accepted(k1) && Accepted(k2) && IsSuffix(s1) && IsSuffix(s2)
    ensures SafeJoined(root, [b1, k1]).Some? && SafeJoined(root, [b2, k2]).Some?
    ensures OnDisk(root, b1, k1, s1) == OnDisk(root, b2, k2, s2) <==> b1 == b2 && k1 == k2 && s1 == s2
  {
    SidecarPathIs(root, b1, k1, s1);
    SidecarPathIs(root, b2, k2, s2);
    LocationIsReal(b1, k1, s1);
    LocationIsReal(b2, k2, s2);
    if OnDisk(root, b1, k1, s1) == OnDisk(root, b2, k2, s2) {
      UnderRoot(root, Location(b1, k1, s1), Location(b2, k2, s2));
      LocationInjective(b1, k1, s1, b2, k2, s2);
    }
  }

  lemma SplitRendered(segs: seq<Str>)
    requires segs != [] && AllReal(segs)
    ensures Split(Render(Path(true, segs)), '/') == [""] + segs
  {
    SplitUnique(segs, '/');
    SplitConcat("", Join(segs, '/'));
    assert "" + "/" + Join(segs, '/') == Render(Path(true, segs));
    assert Split("", '/') == [""];
  }

  lemma PrefixAfterHead(head: Str, a: seq<Str>, b: seq<Str>, rest: seq<Str>)
    requires [head] + a == [head] + b + rest && rest != []
    ensures |b| < |a| && b == a[..|b|]
  {
    assert ([head] + a)[1..] == a;
    assert ([head] + b + rest)[1..] == b + rest;
  }

  /** A path below another has the other's segments in front of its own. */
  lemma BelowMeansLonger(a: seq<Str>, b: seq<Str>)
    requires a != [] && b != [] && AllReal(a) && AllReal(b)
    requires HasPrefix(Render(Path(true, a)), Render(Path(true, b)) + "/")
    ensures |b| < |a| && b == a[..|b|]
  {
    var s, t := Render(Path(true, a)), Render(Path(true, b));
    var rest := s[|t| + 1..];
    assert t + "/" + rest == s;
    SplitConcat(t, rest);
    SplitRendered(a);
    SplitRendered(b);
    PrefixAfterHead("", a, b, Split(rest, '/'));
  }

  /** A sidecar's path is never a directory on the way to another object's file or sidecar. */
  lemma NoFileBelowASidecar(root: Str, b1: Str, k1: Str, s1: Str, b2: Str, k2: Str, s2: Str)
    requires IsAbs(root) && ValidBucket(b1) && ValidBucket(b2) && Accepted(k1) && Accepted(k2)
    requires IsSuffix(s1) && IsSuffix(s2) && s2 != ""
    ensures SafeJoined(root, [b1, k1]).Some? && SafeJoined(root, [b2, k2]).Some?
    ensures !HasPrefix(OnDisk(root, b1, k1, s1), OnDisk(root, b2, k2, s2) + "/")
  {
    SidecarPathIs(root, b1, k1, s1);
    SidecarPathIs(root, b2, k2, s2);
    LocationIsReal(b1, k1, s1);
    LocationIsReal(b2, k2, s2);
    var front := Parse(root).segs;
    var l1, l2 := Location(b1, k1, s1), Location(b2, k2, s2);
    RealUnderRoot(root, l1);
    RealUnderRoot(root, l2);
    SidecarSegmentIsNoAncestor(front, b1, k1, s1, b2, k2, s2);
    if HasPrefix(OnDisk(root, b1, k1, s1), OnDisk(root, b2, k2, s2) + "/") {
      BelowMeansLonger(front + l1, front + l2);
    }
  }

  lemma RealUnderRoot(root: Str, a: seq<Str>)
    requires IsAbs(root) && AllReal(a)
    ensures AllReal(Parse(root).segs + a)
  {
    ParseNormal(root);
    var k :| NormalAt(Parse(root), k);
    forall x | x in Parse(root).segs ensures Real(x) {
      var i :| 0 <= i < |Parse(root).segs| && Parse(root).segs[i] == x;
    }
  }

  lemma SidecarSegmentIsNoAncestor(front: seq<Str>, b1: Str, k1: Str, s1: Str, b2: Str, k2: Str, s2: Str)
    requires Accepted(k1) && IsSuffix(s2) && s2 != ""
    ensures var a, b := front + Location(b1, k1, s1), front + Location(b2, k2, s2); |b| < |a| ==> b != a[..|b|]
  {
    var a, b := front + Location(b1, k1, s1), front + Location(b2, k2, s2);
    var x, y := Split(k1, '/'), Split(k2, '/');
    var i := |y|;
    if |b| < |a| {
      assert b[|front| + i] == y[|y| - 1] + s2;
      assert a[|front| + i] == x[i - 1];
      assert x[i - 1] in x;
      SuffixOfConcat(y[|y| - 1], s2);
      assert a[..|b|][|front| + i] != b[|front| + i];
    }
  }

  lemma LocationIsNotConfig(bucket: Str, key: Str, suffix: Str, other: Str, config: Str)
    requires Accepted(key) && IsSuffix(suffix) && (config == ".acl.json" || config == ".cors.json")
    ensures Location(bucket, key, suffix) != [other, config]
  {
    var segs := Split(key, '/');
    var last := segs[|segs| - 1];
    assert last in segs && Location(bucket, key, suffix)[|segs|] == last + suffix;
    SuffixOfConcat(last, suffix);
    assert last + "" == last;
    assert config[|config| - 1] == 'n' && config[|config| - 7] != 'g';
    var meta: Str, tags: Str := ".meta", ".tags.json";
    assert meta[4] == 'a' && tags[3] == 'g' && |tags| == 10;
    assert !HasSuffix(config, meta) && !HasSuffix(config, tags);
  }

  /** No object or sidecar sits where a bucket keeps its access or sharing rules. */
  lemma BucketConfigIsApart(root: Str, bucket: Str, key: Str, suffix: Str, other: Str, config: Str)
    requires IsAbs(root) && ValidBucket(bucket) && ValidBucket(other) && Accepted(key) && IsSuffix(suffix)
    requires config == ".acl.json" || config == ".cors.json"
    ensures SafeJoined(root, [bucket, key]).Some? && SafeJoined(root, [other, config]).Some?
    ensures OnDisk(root, bucket, key, suffix) != SafeJoined(root, [other, config]).value
  {
    SidecarPathIs(root, bucket, key, suffix);
    LocationIsReal(bucket, key, suffix);
    ConfigPathIs(root, other, config);
    LocationIsNotConfig(bucket, key, suffix, other, config);
    if OnDisk(root, bucket, key, suffix) == SafeJoined(root, [other, config]).value {
      UnderRoot(root, Location(bucket, key, suffix), [other, config]);
    }
  }

  lemma ConfigPathIs(root: Str, bucket: Str, config: Str)
    requires IsAbs(root) && ValidBucket(bucket) && (config == ".acl.json" || config == ".cors.json")
    ensures SafeJoined(root, [bucket, config]) == Some(Render(Path(true, Parse(root).segs + [bucket, config])))
    ensures AllReal([bucket, config])
  {
    BucketIsOneSegment(bucket);
    SplitUnique([config], '/');
    assert Real(config) && !IsAbs(config) by { assert config[0] == '.' && |config| > 2; }
    assert Fold([], false, [config]) == [config];
    assert Parse(config) == Path(false, [config]);
    JoinTwoNames(root, bucket, config);
    assert [bucket] + [config] == [bucket, config];
  }

  /** The listing's filter never hides an accepted key, and hides every sidecar of one. */
  lemma ListingHidesExactlySidecars(key: Str, suffix: Str)
    requires Accepted(key) && IsSuffix(suffix)
    ensures var segs := Split(key, '/'); IsSidecar(segs[|segs| - 1] + suffix) <==> suffix != ""
  {
    var segs := Split(key, '/');
    var last := segs[|segs| - 1];
    assert last in segs;
    assert last + "" == last;
    SuffixOfConcat(last, suffix);
  }

  /** A text ends in ".meta" only if what follows its last slash does. */
  lemma SlashBarsSuffix(s: Str, last: Str)
    requires |last| < |s| && s[|s| - |last|..] == last && s[|s| - |last| - 1] == '/'
    ensures HasSuffix(s, ".meta") ==> HasSuffix(last, ".meta")
  {
    var meta: Str := ".meta";
    if HasSuffix(s, meta) {
      assert forall i :: 0 <= i < 5 ==> s[|s| - 5 + i] == meta[i];
      assert |last| >= 5;
      SuffixesNest(s, last, meta);
    }
  }

  /** An accepted key's data file never looks like a metadata sidecar: the commit protocol's condition on paths. */
  lemma DataPathIsNoSidecar(root: Str, bucket: Str, key: Str)
    requires IsAbs(root) && ValidBucket(bucket) && Accepted(key)
    ensures SafeJoined(root, [bucket, key]).Some?
    ensures !HasSuffix(SafeJoined(root, [bucket, key]).value, ".meta")
  {
    ObjectPathIs(root, bucket, key);
    LastSegmentIsSafe(key);
    NoMetaBelow(Parse(root).segs, [bucket], Split(key, '/'));
  }

  lemma LastSegmentIsSafe(key: Str)
    requires Accepted(key)
    ensures var segs := Split(key, '/'); '/' !in segs[|segs| - 1] && !HasSuffix(segs[|segs| - 1], ".meta")
  {
    var segs := Split(key, '/');
    assert segs[|segs| - 1] in segs;
  }

  lemma NoMetaBelow(front: seq<Str>, middle: seq<Str>, segs: seq<Str>)
    requires middle != [] && segs != [] && '/' !in segs[|segs| - 1] && !HasSuffix(segs[|segs| - 1], ".meta")
    ensures !HasSuffix(Render(Path(true, front + (middle + segs))), ".meta")
  {
    var here := front + (middle + segs);
    assert here[|here| - 1] == segs[|segs| - 1];
    LastDecidesMeta(here);
  }

  lemma LastDecidesMeta(segs: seq<Str>)
    requires |segs| >= 2 && '/' !in segs[|segs| - 1] && !HasSuffix(segs[|segs| - 1], ".meta")
    ensures !HasSuffix(Render(Path(true, segs)), ".meta")
  {
    var front, last := Join(segs[..|segs| - 1], '/'), segs[|segs| - 1];
    var slash: Str := "/";
    JoinLast(segs);
    var path := Render(Path(true, segs));
    assert path == slash + (front + slash + last);
    assert path[|path| - |last|..] == last && path[|path| - |last| - 1] == '/';
    SlashBarsSuffix(path, last);
  }

  // ------------------------------------------------------------------
  // The temp file of a multipart completion.

  const COMPLETION_SUFFIX: Str := ".mpu.tmp"

  lemma {:induction false} SplitGrown(key: Str, suffix: Str)
    requires '/' !in suffix
    ensures var segs := Split(key, '/'); Split(key + suffix, '/') == segs[..|segs| - 1] + [segs[|segs| - 1] + suffix]
  {
    var segs := Split(key, '/');
    var grown := segs[..|segs| - 1] + [segs[|segs| - 1] + suffix];
    JoinWithSuffix(segs, suffix);
    assert segs[|segs| - 1] in segs;
    assert forall p :: p in segs[..|segs| - 1] ==> p in segs;
    SplitUnique(grown, '/');
  }

  lemma SafeWithCompletionSuffix(seg: Str)
    requires SegmentIsSafe(seg)
    ensures SegmentIsSafe(seg + COMPLETION_SUFFIX)
  {
    var s := seg + COMPLETION_SUFFIX;
    var meta: Str, tags: Str := ".meta", ".tags.json";
    assert |s| > 8 && s[|s| - 1] == 'p';
    assert meta[|meta| - 1] == 'a' && tags[|tags| - 1] == 'n';
  }

  lemma AcceptedGrows(key: Str)
    requires Accepted(key)
    ensures Accepted(key + COMPLETION_SUFFIX)
  {
    var segs := Split(key, '/');
    assert segs[|segs| - 1] in segs;
    SplitGrown(key, COMPLETION_SUFFIX);
    SafeWithCompletionSuffix(segs[|segs| - 1]);
    assert forall seg :: seg in segs[..|segs| - 1] ==> seg in segs;
  }

  /** The temp file beside an object is where another acceptable key's object lives. */
  lemma CompletionTempIsAKey(root: Str, bucket: Str, key: Str)
    requires ValidBucket(bucket) && Accepted(key) && IsAbs(root)
    ensures Accepted(key + COMPLETION_SUFFIX)
    ensures SafeJoined(root, [bucket, key]).Some?
    ensures SafeJoined(root, [bucket, key + COMPLETION_SUFFIX]) == Some(SafeJoined(root, [bucket, key]).value + COMPLETION_SUFFIX)
  {
    var segs := Split(key, '/');
    var front, last := segs[..|segs| - 1], segs[|segs| - 1] + COMPLETION_SUFFIX;
    AcceptedGrows(key);
    SplitGrown(key, COMPLETION_SUFFIX);
    SidecarPathIs(root, bucket, key, COMPLETION_SUFFIX);
    ObjectPathIs(root, bucket, key + COMPLETION_SUFFIX);
    assert [bucket] + front + [last] == [bucket] + (front + [last]);
  }

  lemma {:induction false} Utf8Concat(s: Str, t: Str)
    requires ValidUtf8(s) && ValidUtf8(t)
    ensures ValidUtf8(s + t)
    decreases |s|
  {
    if s == [] {
      assert s + t == t;
    } else {
      var n := EncodedLength(s[0] as int);
      Utf8Concat(s[n..], t);
      assert (s + t)[n..] == s[n..] + t;
    }
  }

  lemma {:induction false} AsciiIsUtf8(s: Str)
    requires forall i :: 0 <= i < |s| ==> s[i] as int < 0x80
    ensures ValidUtf8(s)
  {
    if s != [] {
      AsciiIsUtf8(s[1..]);
    }
  }

  lemma ValidatedWhen(key: Str, clean: Str)
    requires key != "" && !HasControl(key) && ValidUtf8(key) && clean == TrimPrefix(key, "/") && Accepted(clean)
    ensures Validated(key) == Some(clean)
  {
    assert forall i :: 0 <= i < |Split(clean, '/')| ==> Split(clean, '/')[i] in Split(clean, '/');
  }

  lemma NoControlInConcat(s: Str, t: Str)
    requires !HasControl(s) && !HasControl(t)
    ensures !HasControl(s + t)
  {
    var r := s + t;
    assert forall i :: 0 <= i < |r| ==> r[i] == if i < |s| then s[i] else t[i - |s|];
  }

  lemma TrimOfConcat(s: Str, t: Str)
    requires s != ""
    ensures TrimPrefix(s + t, "/") == TrimPrefix(s, "/") + t
  {
    var r, slash: Str := s + t, "/";
    assert r[0] == s[0] && r[1..] == s[1..] + t;
    assert HasPrefix(s, slash) <==> s[0] == '/';
    assert HasPrefix(r, slash) <==> r[0] == '/';
  }

  /** Validation lets a client store an object there: whatever key it accepts, it accepts with that suffix. */
  lemma CompletionTempIsValidated(key: Str)
    requires Validated(key).Some?
    ensures Validated(key + COMPLETION_SUFFIX) == Some(Validated(key).value + COMPLETION_SUFFIX)
  {
    ValidatedIsAccepted(key);
    AcceptedGrows(Validated(key).value);
    AsciiIsUtf8(COMPLETION_SUFFIX);
    Utf8Concat(key, COMPLETION_SUFFIX);
    NoControlInConcat(key, COMPLETION_SUFFIX);
    TrimOfConcat(key, COMPLETION_SUFFIX);
    ValidatedWhen(key + COMPLETION_SUFFIX, Validated(key).value + COMPLETION_SUFFIX);
  }
}
