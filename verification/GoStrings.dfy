/**
 Go strings are byte strings, and Go compares them byte by byte. A `Str` is a
 sequence of bytes, each written as the character with that code, so that the
 source's literals can be written as they stand.
 */
module GoStrings {
  import opened Wrappers

  type Byte = c: char | c as int < 256
  type Str = seq<Byte>

  /** Go's `a < b` on strings. */
  predicate Less(a: Str, b: Str) {
    if b == [] then false
    else if a == [] then true
    else if a[0] != b[0] then a[0] < b[0]
    else Less(a[1..], b[1..])
  }

  predicate LessEq(a: Str, b: Str) {
    a == b || Less(a, b)
  }

  predicate HasPrefix(s: Str, prefix: Str) {
    prefix <= s
  }

  predicate HasSuffix(s: Str, suffix: Str) {
    |suffix| <= |s| && s[|s| - |suffix|..] == suffix
  }

  function TrimPrefix(s: Str, prefix: Str): Str {
    if HasPrefix(s, prefix) then s[|prefix|..] else s
  }

  /** strings.Index: the first offset at which `sep` occurs in `s`. */
  function Index(s: Str, sep: Str): (r: Option<nat>)
    ensures r.Some? ==> r.value + |sep| <= |s| && s[r.value..r.value + |sep|] == sep
    ensures r.Some? ==> forall j :: 0 <= j < r.value ==> !HasPrefix(s[j..], sep)
    ensures r.None? ==> forall j :: 0 <= j <= |s| ==> !HasPrefix(s[j..], sep)
  {
    IndexFrom(s, sep, 0)
  }

  function IndexFrom(s: Str, sep: Str, from: nat): (r: Option<nat>)
    requires from <= |s|
    ensures r.Some? ==> from <= r.value && r.value + |sep| <= |s| && s[r.value..r.value + |sep|] == sep
    ensures r.Some? ==> forall j :: from <= j < r.value ==> !HasPrefix(s[j..], sep)
    ensures r.None? ==> forall j :: from <= j <= |s| ==> !HasPrefix(s[j..], sep)
    decreases |s| - from
  {
    if HasPrefix(s[from..], sep) then
      assert s[from..][..|sep|] == s[from..from + |sep|];
      Some(from)
    else if from == |s| then None
    else IndexFrom(s, sep, from + 1)
  }

  /** strings.Split on a single byte: never empty, and one segment longer than the number of separators. */
  function Split(s: Str, sep: Byte): (parts: seq<Str>)
    ensures |parts| >= 1
    ensures forall p :: p in parts ==> sep !in p
    ensures Join(parts, sep) == s
  {
    if s == [] then [[]]
    else
      var rest := Split(s[1..], sep);
      if s[0] == sep then
        [[]] + rest
      else
        assert ([[s[0]] + rest[0]] + rest[1..])[1..] == rest[1..];
        [[s[0]] + rest[0]] + rest[1..]
  }

  /** strings.Join with a single byte. */
  function Join(parts: seq<Str>, sep: Byte): Str {
    if parts == [] then []
    else if |parts| == 1 then parts[0]
    else parts[0] + [sep] + Join(parts[1..], sep)
  }

  lemma {:induction false} SplitUnique(parts: seq<Str>, sep: Byte)
    requires |parts| >= 1
    requires forall p :: p in parts ==> sep !in p
    ensures Split(Join(parts, sep), sep) == parts
    decreases |parts|, if parts == [] then 0 else |parts[0]|
  {
    if |parts| == 1 && parts[0] == [] {
    } else if parts[0] == [] {
      var rest := parts[1..];
      SplitUnique(rest, sep);
      SplitAfterSeparator(Join(rest, sep), sep);
      assert Join(parts, sep) == [sep] + Join(rest, sep);
      assert parts == [[]] + rest;
    } else {
      var c, first, rest := parts[0][0], parts[0][1..], parts[1..];
      var shorter := [first] + rest;
      assert parts[0] == [c] + first && c in parts[0];
      assert parts == [[c] + first] + rest;
      forall p | p in shorter ensures sep !in p {
        if p == first { assert forall x :: x in first ==> x in parts[0]; } else { assert p in rest; }
      }
      SplitUnique(shorter, sep);
      JoinOneMore(c, first, rest, sep);
      SplitAfterByte(c, Join(shorter, sep), sep);
    }
  }

  lemma SplitAfterSeparator(s: Str, sep: Byte)
    ensures Split([sep] + s, sep) == [[]] + Split(s, sep)
  {
    assert ([sep] + s)[1..] == s;
  }

  lemma SplitAfterByte(c: Byte, s: Str, sep: Byte)
    requires c != sep
    ensures var rest := Split(s, sep); Split([c] + s, sep) == [[c] + rest[0]] + rest[1..]
  {
    assert ([c] + s)[1..] == s;
  }

  lemma JoinOneMore(c: Byte, first: Str, rest: seq<Str>, sep: Byte)
    ensures Join([[c] + first] + rest, sep) == [c] + Join([first] + rest, sep)
  {
    var longer, shorter := [[c] + first] + rest, [first] + rest;
    assert longer[1..] == rest && shorter[1..] == rest;
    if rest != [] {
      assert ([c] + first) + [sep] + Join(rest, sep) == [c] + (first + [sep] + Join(rest, sep));
    }
  }

  // ------------------------------------------------------------------
  // Less is a strict total order.

  lemma LessIrreflexive(a: Str)
    ensures !Less(a, a)
  {
  }

  lemma LessTotal(a: Str, b: Str)
    ensures Less(a, b) || a == b || Less(b, a)
  {
  }

  lemma LessTransitive(a: Str, b: Str, c: Str)
    requires Less(a, b) && Less(b, c)
    ensures Less(a, c)
  {
  }

  lemma LessAsymmetric(a: Str, b: Str)
    requires Less(a, b)
    ensures !Less(b, a)
  {
  }

  /** A common prefix does not change the comparison. */
  lemma {:induction false} LessSamePrefix(p: Str, a: Str, b: Str)
    ensures Less(p + a, p + b) == Less(a, b)
  {
    if p == [] {
      assert p + a == a && p + b == b;
    } else {
      LessSamePrefix(p[1..], a, b);
      assert (p + a)[1..] == p[1..] + a && (p + b)[1..] == p[1..] + b;
    }
  }

  /** Once two strings of one length differ, what follows does not matter. */
  lemma {:induction false} LessExtend(a: Str, b: Str, x: Str, y: Str)
    requires |a| == |b| && a != b
    ensures Less(a + x, b + y) == Less(a, b)
  {
    if a[0] == b[0] {
      assert a == [a[0]] + a[1..] && b == [b[0]] + b[1..];
      LessExtend(a[1..], b[1..], x, y);
      assert (a + x)[1..] == a[1..] + x && (b + y)[1..] == b[1..] + y;
    }
  }

  /** Suffixes of the same string are comparable, so two known suffixes must nest. */
  lemma SuffixesNest(s: Str, long: Str, short: Str)
    requires HasSuffix(s, long) && HasSuffix(s, short) && |short| <= |long|
    ensures HasSuffix(long, short)
  {
    assert long[|long| - |short|..] == s[|s| - |short|..];
  }

  lemma SuffixOfConcat(a: Str, suffix: Str)
    ensures HasSuffix(a + suffix, suffix)
  {
  }
}
