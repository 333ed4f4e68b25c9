/**
 Multipart uploads as S3 clients see them: live uploads, each with the last body
 written under every part number, and what completing one must give.
 */
module MultipartSpec {
  import opened Wrappers
  import opened GoStrings
  import opened Maps
  import opened Paths
  import Decimal

  const MIN_PART := 1
  const MAX_PART := 10000

  type Meta = map<Str, Str>

  /** Where uploads are staged, and MD5, about which nothing is assumed. */
  datatype Env = Env(uploadsRoot: Str, objectsRoot: Str, md5: Str -> Str)

  datatype Error = NoSuchUpload | InvalidPart | InvalidPartOrder | InvalidPartRange | PathEscape | NamesRequired

  datatype Upload = Upload(bucket: Str, key: Str, metadata: Meta, parts: map<int, Str>)

  /** A part as listed or as a client expects it. */
  datatype Part = Part(number: int, etag: Str, size: nat)

  type Uploads = map<Str, Upload>

  // ------------------------------------------------------------------
  // ETags.

  function HexDigit(d: nat): Byte
    requires d < 16
  {
    if d < 10 then (d + '0' as int) as char else (d - 10 + 'a' as int) as char
  }

  function Hex(s: Str): Str {
    if s == [] then [] else [HexDigit(s[0] as int / 16), HexDigit(s[0] as int % 16)] + Hex(s[1..])
  }

  function PartETag(env: Env, body: Str): Str {
    "\"" + Hex(env.md5(body)) + "\""
  }

  /** strings.Trim(s, "\""). */
  function NormalizeETag(s: Str): Str {
    if s != [] && s[0] == '"' then NormalizeETag(s[1..])
    else if s != [] && s[|s| - 1] == '"' then NormalizeETag(s[..|s| - 1])
    else s
  }

  function Flatten(pieces: seq<Str>): Str {
    if pieces == [] then [] else Flatten(pieces[..|pieces| - 1]) + pieces[|pieces| - 1]
  }

  function Digests(env: Env, pieces: seq<Str>): Str {
    if pieces == [] then [] else Digests(env, pieces[..|pieces| - 1]) + env.md5(pieces[|pieces| - 1])
  }

  /** hex(md5(the parts' raw digests)) and the number of parts: not the MD5 of the object. */
  function CompositeETag(env: Env, pieces: seq<Str>): Str {
    "\"" + Hex(env.md5(Digests(env, pieces))) + "-" + Decimal.Itoa(|pieces|) + "\""
  }

  // ------------------------------------------------------------------
  // Operations.

  function DirOf(env: Env, bucket: Str, id: Str): Option<Str> {
    SafeJoined(env.uploadsRoot, [bucket, id])
  }

  /** The upload exists and belongs to this bucket and key. */
  predicate Live(env: Env, s: Uploads, bucket: Str, key: Str, id: Str) {
    var d := DirOf(env, bucket, id);
    d.Some? && d.value in s && s[d.value].bucket == bucket && s[d.value].key == key
  }

  predicate Ascending(expected: seq<Part>) {
    forall i, j :: 0 <= i < j < |expected| ==> expected[i].number < expected[j].number
  }

  predicate Matches(env: Env, parts: map<int, Str>, want: Part) {
    want.number in parts && NormalizeETag(PartETag(env, parts[want.number])) == NormalizeETag(want.etag)
  }

  /** Whether the client's part list is one the upload can be completed with. */
  function Verdict(env: Env, parts: map<int, Str>, expected: seq<Part>): Result<(), Error> {
    if expected == [] then Err(InvalidPart)
    else if !Ascending(expected) then Err(InvalidPartOrder)
    else if exists i :: 0 <= i < |expected| && !Matches(env, parts, expected[i]) then Err(InvalidPart)
    else Ok(())
  }

  datatype Event =
    | Create(bucket: Str, key: Str, metadata: Meta, id: Str)
    | Put(bucket: Str, key: Str, id: Str, number: int, body: Str)
    | Complete(bucket: Str, key: Str, id: Str, expected: seq<Part>)
    | Abort(bucket: Str, key: Str, id: Str)

  /** Upload ids are fresh random UUIDs. */
  predicate Legal(env: Env, s: Uploads, e: Event) {
    e.Create? && DirOf(env, e.bucket, e.id).Some? ==> DirOf(env, e.bucket, e.id).value !in s
  }

  predicate Succeeds(env: Env, s: Uploads, e: Event) {
    match e
    case Create(bucket, key, _, id) => bucket != "" && key != "" && DirOf(env, bucket, id).Some?
    case Put(bucket, key, id, n, _) => MIN_PART <= n <= MAX_PART && Live(env, s, bucket, key, id)
    case Complete(bucket, key, id, expected) =>
      Live(env, s, bucket, key, id) && Verdict(env, s[DirOf(env, bucket, id).value].parts, expected).Ok? &&
      SafeJoined(env.objectsRoot, [bucket, key]).Some?
    case Abort(bucket, key, id) => Live(env, s, bucket, key, id)
  }

  function Apply(env: Env, s: Uploads, e: Event): Uploads {
    if !Succeeds(env, s, e) then s
    else
      var d := DirOf(env, e.bucket, e.id).value;
      match e
      case Create(bucket, key, metadata, _) => s[d := Upload(bucket, key, metadata, map[])]
      case Put(_, _, _, n, body) => s[d := s[d].(parts := s[d].parts[n := body])]
      case Complete(_, _, _, _) => Without(s, d)
      case Abort(_, _, _) => Without(s, d)
  }

  function Run(env: Env, es: seq<Event>): Uploads {
    if es == [] then map[] else Apply(env, Run(env, es[..|es| - 1]), es[|es| - 1])
  }

  /** The event, as the last of the run, took effect on the upload staged at d. */
  predicate Hits(env: Env, es: seq<Event>, d: Str)
    requires es != []
  {
    var e := es[|es| - 1];
    Succeeds(env, Run(env, es[..|es| - 1]), e) && DirOf(env, e.bucket, e.id) == Some(d)
  }

  /** The body most recently uploaded as part n to the upload now staged at d. */
  function LastWrite(env: Env, es: seq<Event>, d: Str, n: int): Option<Str> {
    if es == [] then None
    else
      var e := es[|es| - 1];
      if Hits(env, es, d) && e.Put? && e.number == n then Some(e.body)
      else if Hits(env, es, d) && e.Create? then None
      else LastWrite(env, es[..|es| - 1], d, n)
  }

  /** Over every run, a live upload holds, under each part number, exactly the last body uploaded there. */
  lemma {:induction false} LastWriteWins(env: Env, es: seq<Event>, d: Str, n: int)
    requires d in Run(env, es)
    ensures n in Run(env, es)[d].parts <==> LastWrite(env, es, d, n).Some?
    ensures n in Run(env, es)[d].parts ==> LastWrite(env, es, d, n) == Some(Run(env, es)[d].parts[n])
    ensures n in Run(env, es)[d].parts ==> MIN_PART <= n <= MAX_PART
  {
    if es != [] {
      var before := Run(env, es[..|es| - 1]);
      if d in before {
        LastWriteWins(env, es[..|es| - 1], d, n);
      } else {
        assert es[|es| - 1].Create? && Hits(env, es, d);
      }
    }
  }

  /**
   Completing after any run succeeds exactly when the upload is live for that bucket and key and the list is
   non-empty, strictly ascending and matches the ETag of each part's last upload (and the key has a path).
   */
  lemma CompleteSucceedsExactly(env: Env, es: seq<Event>, bucket: Str, key: Str, id: Str, expected: seq<Part>)
    requires SafeJoined(env.objectsRoot, [bucket, key]).Some?
    ensures Succeeds(env, Run(env, es), Complete(bucket, key, id, expected)) <==>
      Live(env, Run(env, es), bucket, key, id) && expected != [] && Ascending(expected) &&
      forall i :: 0 <= i < |expected| ==>
        var last := LastWrite(env, es, DirOf(env, bucket, id).value, expected[i].number);
        last.Some? && NormalizeETag(PartETag(env, last.value)) == NormalizeETag(expected[i].etag)
  {
    var s := Run(env, es);
    if Live(env, s, bucket, key, id) {
      var d := DirOf(env, bucket, id).value;
      forall i | 0 <= i < |expected|
        ensures var last := LastWrite(env, es, d, expected[i].number);
          Matches(env, s[d].parts, expected[i]) <==>
          last.Some? && NormalizeETag(PartETag(env, last.value)) == NormalizeETag(expected[i].etag)
      {
        LastWriteWins(env, es, d, expected[i].number);
      }
    }
  }

  /** A client that echoes the ETag it was given, with or without the quotes, always matches. */
  lemma EchoedETagMatches(env: Env, parts: map<int, Str>, n: int, size: nat)
    requires n in parts
    ensures Matches(env, parts, Part(n, PartETag(env, parts[n]), size))
    ensures Matches(env, parts, Part(n, Hex(env.md5(parts[n])), size))
  {
    var h := Hex(env.md5(parts[n]));
    HexHasNoQuotes(env.md5(parts[n]));
    var q := PartETag(env, parts[n]);
    assert q[1..] == h + "\"";
    if h == [] {
      assert q[1..][1..] == [];
    } else {
      assert h[0] in h && h[|h| - 1] in h;
      assert q[1..][..|h|] == h;
    }
  }

  lemma {:induction false} HexHasNoQuotes(s: Str)
    ensures '"' !in Hex(s)
  {
    if s != [] {
      HexHasNoQuotes(s[1..]);
    }
  }

  // ------------------------------------------------------------------
  // ETags, in their own terms.

  predicate IsHexDigit(c: Byte, v: int) {
    ('0' <= c <= '9' && v == c as int - '0' as int) || ('a' <= c <= 'f' && v == c as int - 'a' as int + 10)
  }

  /** The byte is written as its two hexadecimal digits, high one first, in lower case. */
  predicate IsHexPair(hi: Byte, lo: Byte, b: Byte) {
    exists x, y :: 0 <= x < 16 && 0 <= y < 16 && IsHexDigit(hi, x) && IsHexDigit(lo, y) && x * 16 + y == b as int
  }

  predicate IsHexOf(h: Str, bytes: Str) {
    |h| == 2 * |bytes| && forall i :: 0 <= i < |bytes| ==> IsHexPair(h[2 * i], h[2 * i + 1], bytes[i])
  }

  lemma PairIsHex(b: Byte)
    ensures IsHexPair(HexDigit(b as int / 16), HexDigit(b as int % 16), b)
  {
    var x, y := b as int / 16, b as int % 16;
    assert IsHexDigit(HexDigit(x), x) && IsHexDigit(HexDigit(y), y) && x * 16 + y == b as int;
  }

  lemma {:induction false} HexIs(s: Str)
    ensures IsHexOf(Hex(s), s)
  {
    if s != [] {
      var pair, rest := [HexDigit(s[0] as int / 16), HexDigit(s[0] as int % 16)], Hex(s[1..]);
      HexIs(s[1..]);
      PairIsHex(s[0]);
      assert Hex(s) == pair + rest;
      forall i | 0 <= i < |s| ensures IsHexPair(Hex(s)[2 * i], Hex(s)[2 * i + 1], s[i]) {
        if i > 0 {
          assert Hex(s)[2 * i] == rest[2 * (i - 1)] && Hex(s)[2 * i + 1] == rest[2 * (i - 1) + 1];
          assert s[1..][i - 1] == s[i];
        }
      }
    }
  }

  /** A quoted text. */
  predicate IsQuoted(e: Str, inner: Str) {
    |e| == |inner| + 2 && e[0] == '"' && e[|e| - 1] == '"' && e[1..|e| - 1] == inner
  }

  /** A part's ETag is the quoted hexadecimal MD5 of its body. */
  lemma PartETagIs(env: Env, body: Str) returns (h: Str)
    ensures IsHexOf(h, env.md5(body)) && IsQuoted(PartETag(env, body), h)
  {
    h := Hex(env.md5(body));
    HexIs(env.md5(body));
  }

  predicate AllQuotes(s: Str) {
    forall i :: 0 <= i < |s| ==> s[i] == '"'
  }

  /** Normalizing removes quotes at both ends, all of them, and nothing else. */
  lemma {:induction false} NormalizeIs(s: Str) returns (i: nat, j: nat)
    ensures i <= j <= |s| && NormalizeETag(s) == s[i..j] && AllQuotes(s[..i]) && AllQuotes(s[j..])
    ensures i < j ==> s[i] != '"' && s[j - 1] != '"'
    decreases |s|
  {
    if s != [] && s[0] == '"' {
      var a, b := NormalizeIs(s[1..]);
      i, j := a + 1, b + 1;
      assert s[1..][a..b] == s[i..j] && s[1..][b..] == s[j..];
      assert s[..i] == [s[0]] + s[1..][..a];
    } else if s != [] && s[|s| - 1] == '"' {
      var front := s[..|s| - 1];
      i, j := NormalizeIs(front);
      assert front[i..j] == s[i..j] && front[..i] == s[..i];
      assert s[j..] == front[j..] + [s[|s| - 1]];
    } else {
      i, j := 0, |s|;
      assert s[0..|s|] == s;
    }
  }

  /** Where each piece lies in the whole: one behind the other, nothing between, before or after them. */
  predicate CutsOf(cuts: seq<nat>, whole: Str, pieces: seq<Str>) {
    |cuts| == |pieces| + 1 && cuts[0] == 0 && cuts[|pieces|] == |whole| &&
    forall i :: 0 <= i < |pieces| ==> LiesAt(pieces[i], whole, cuts, i)
  }

  predicate LiesAt(piece: Str, whole: Str, cuts: seq<nat>, i: nat) {
    i + 1 < |cuts| && cuts[i] + |piece| == cuts[i + 1] && cuts[i + 1] <= |whole| && whole[cuts[i]..cuts[i + 1]] == piece
  }

  ghost predicate IsConcatenation(whole: Str, pieces: seq<Str>) {
    exists cuts :: CutsOf(cuts, whole, pieces)
  }

  lemma {:induction false} FlattenCuts(pieces: seq<Str>) returns (cuts: seq<nat>)
    ensures CutsOf(cuts, Flatten(pieces), pieces)
  {
    if pieces == [] {
      cuts := [0];
    } else {
      var n := |pieces| - 1;
      var front, whole := Flatten(pieces[..n]), Flatten(pieces);
      var before := FlattenCuts(pieces[..n]);
      cuts := before + [|whole|];
      assert whole == front + pieces[n];
      forall i: nat | i < n ensures LiesAt(pieces[i], whole, cuts, i) {
        assert LiesAt(pieces[..n][i], front, before, i);
        StillLies(pieces[i], front, pieces[n], before, |whole|, i);
      }
      assert LiesAt(pieces[n], whole, cuts, n);
    }
  }

  lemma StillLies(piece: Str, front: Str, more: Str, cuts: seq<nat>, end: nat, i: nat)
    requires LiesAt(piece, front, cuts, i)
    ensures LiesAt(piece, front + more, cuts + [end], i)
  {
    assert (front + more)[cuts[i]..cuts[i + 1]] == front[cuts[i]..cuts[i + 1]];
  }

  function PartDigests(env: Env, pieces: seq<Str>): seq<Str> {
    seq(|pieces|, i requires 0 <= i < |pieces| => env.md5(pieces[i]))
  }

  lemma {:induction false} DigestsAreFlat(env: Env, pieces: seq<Str>)
    ensures Digests(env, pieces) == Flatten(PartDigests(env, pieces))
  {
    if pieces != [] {
      var n := |pieces| - 1;
      DigestsAreFlat(env, pieces[..n]);
      var all := PartDigests(env, pieces);
      assert all[..n] == PartDigests(env, pieces[..n]) && all[n] == env.md5(pieces[n]);
    }
  }

  /** The quoted hexadecimal MD5 of the parts' digests put one behind the other, a dash, and how many there are. */
  ghost predicate IsComposite(etag: Str, env: Env, pieces: seq<Str>) {
    exists digests: Str, h: Str :: IsConcatenation(digests, PartDigests(env, pieces)) && IsHexOf(h, env.md5(digests)) &&
      IsQuoted(etag, h + ['-'] + Decimal.Itoa(|pieces|))
  }

  lemma CompositeIs(env: Env, pieces: seq<Str>)
    ensures IsComposite(CompositeETag(env, pieces), env, pieces)
  {
    var digests := Digests(env, pieces);
    var h := Hex(env.md5(digests));
    DigestsAreFlat(env, pieces);
    var cuts := FlattenCuts(PartDigests(env, pieces));
    HexIs(env.md5(digests));
    var inner := h + ['-'] + Decimal.Itoa(|pieces|);
    assert CompositeETag(env, pieces) == "\"" + inner + "\"";
    assert IsQuoted(CompositeETag(env, pieces), inner);
  }

  // ------------------------------------------------------------------
  // What an upload keeps of its creation.

  /** The creation of the upload now staged at d. */
  function CreationOf(env: Env, es: seq<Event>, d: Str): Option<Event> {
    if es == [] then None
    else
      var e := es[|es| - 1];
      if Hits(env, es, d) && e.Create? then Some(e) else CreationOf(env, es[..|es| - 1], d)
  }

  /** Over every run a live upload has the bucket, the key and the metadata it was created with. */
  lemma {:induction false} UploadIsAsCreated(env: Env, es: seq<Event>, d: Str)
    requires d in Run(env, es)
    ensures CreationOf(env, es, d).Some? && CreationOf(env, es, d).value.Create?
    ensures var e, u := CreationOf(env, es, d).value, Run(env, es)[d];
      u.bucket == e.bucket && u.key == e.key && u.metadata == e.metadata && DirOf(env, e.bucket, e.id) == Some(d)
  {
    if es != [] && !(Hits(env, es, d) && es[|es| - 1].Create?) {
      var front := es[..|es| - 1];
      assert d in Run(env, front);
      UploadIsAsCreated(env, front, d);
    }
  }
}
