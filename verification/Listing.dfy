/**
 ListObjects: prefix filter, delimiter rollup into common prefixes, one sorted
 stream of both, a cursor, truncation, and the paging protocols built on it.
 */
module Listing {
  import opened Wrappers
  import opened GoStrings
  import Base64
  import Decimal
  import Names

  const LIST_MAX_KEYS := 1000

  /** A file the walk met: its key and what the listing reports about it. */
  datatype Entry = Entry(key: Str, size: nat, modified: int)

  datatype Item = Object(entry: Entry) | CommonPrefix(prefix: Str)

  function Key(it: Item): Str {
    match it
    case Object(e) => e.key
    case CommonPrefix(p) => p
  }

  datatype Page = Page(items: seq<Item>, truncated: bool, lastKey: Str)

  // ------------------------------------------------------------------
  // What a listing is.

  /** The last segment of a key: the name of its file. */
  function FileName(key: Str): Str {
    var segs := Split(key, '/');
    segs[|segs| - 1]
  }

  /** Where a key's first delimiter after the prefix ends, if it has one. */
  function RollUp(key: Str, prefix: Str, delimiter: Str): Option<Str>
    requires HasPrefix(key, prefix)
  {
    if delimiter == "" then None
    else
      var rest := key[|prefix|..];
      match Index(rest, delimiter)
      case None => None
      case Some(i) => Some(prefix + rest[..i + |delimiter|])
  }

  /** The item that stands for an entry in the listing, if any. */
  function ItemFor(e: Entry, prefix: Str, delimiter: Str): Option<Item> {
    if Names.IsSidecar(FileName(e.key)) || !HasPrefix(e.key, prefix) then None
    else
      match RollUp(e.key, prefix, delimiter)
      case Some(cp) => Some(CommonPrefix(cp))
      case None => Some(Object(e))
  }

  predicate Increasing(items: seq<Item>) {
    forall i, j :: 0 <= i < j < |items| ==> Less(Key(items[i]), Key(items[j]))
  }

  predicate StandsForSome(it: Item, walk: seq<Entry>, prefix: Str, delimiter: Str) {
    exists i :: 0 <= i < |walk| && ItemFor(walk[i], prefix, delimiter) == Some(it)
  }

  /** The one-shot listing: strictly increasing, and exactly the items that stand for some file. */
  ghost predicate IsListing(items: seq<Item>, walk: seq<Entry>, prefix: Str, delimiter: Str) {
    && Increasing(items)
    && (forall it :: it in items ==> StandsForSome(it, walk, prefix, delimiter))
    && (forall i :: 0 <= i < |walk| && ItemFor(walk[i], prefix, delimiter).Some? ==>
          ItemFor(walk[i], prefix, delimiter).value in items)
  }

  /** A directory walk meets each file once, and no file has an empty relative path. */
  predicate IsWalk(walk: seq<Entry>) {
    (forall i :: 0 <= i < |walk| ==> walk[i].key != "") &&
    (forall i, j :: 0 <= i < j < |walk| ==> walk[i].key != walk[j].key)
  }

  // ------------------------------------------------------------------
  // One request.

  function After(items: seq<Item>, cursor: Str): seq<Item> {
    if items == [] || !LessEq(Key(items[0]), cursor) then items else After(items[1..], cursor)
  }

  /** The page a request gets: what lies after the cursor, cut at maxKeys. */
  function PageOf(full: seq<Item>, maxKeys: nat, startAfter: Str): Page
    requires maxKeys >= 1
  {
    var rest := if startAfter == "" then full else After(full, startAfter);
    if |rest| > maxKeys then Page(rest[..maxKeys], true, Key(rest[maxKeys - 1])) else Page(rest, false, "")
  }

  /** parseMaxKeys: always in 1..1000, falling back to 1000. */
  function ParseMaxKeys(raw: Str): (n: nat)
    ensures 1 <= n <= 1000
    ensures n < 1000 ==> Decimal.Atoi(raw) == Some(n)
    ensures forall k :: 1 <= k <= 1000 && Decimal.Atoi(raw) == Some(k) ==> n == k
  {
    if raw == "" then LIST_MAX_KEYS
    else
      match Decimal.Atoi(raw)
      case None => LIST_MAX_KEYS
      case Some(n) => if n <= 0 || n > LIST_MAX_KEYS then LIST_MAX_KEYS else n
  }

  function EncodeContinuation(key: Str): Str {
    Base64.Encode(key)
  }

  function DecodeContinuation(token: Str): Str {
    if token == "" then ""
    else
      match Base64.Decode(token)
      case None => ""
      case Some(b) => b
  }

  datatype Request = Request(v2: bool, contToken: Str, startAfter: Str, marker: Str, maxKeys: Str)

  /** Which cursor a request names. */
  function StartAfter(q: Request): Str {
    if q.contToken != "" then DecodeContinuation(q.contToken)
    else if q.v2 then q.startAfter
    else q.marker
  }

  // sort.Slice on the items' keys, as an insertion sort; distinct keys make the outcome unique.

  function Insert(it: Item, s: seq<Item>): seq<Item> {
    if s == [] || Less(Key(it), Key(s[0])) then [it] + s else [s[0]] + Insert(it, s[1..])
  }

  function Sort(s: seq<Item>): seq<Item> {
    if s == [] then [] else Insert(s[0], Sort(s[1..]))
  }

  lemma {:induction false} InsertMembers(it: Item, s: seq<Item>)
    ensures forall x :: x in Insert(it, s) <==> x == it || x in s
  {
    if s != [] && !Less(Key(it), Key(s[0])) {
      InsertMembers(it, s[1..]);
      assert s == [s[0]] + s[1..];
    }
  }

  lemma {:induction false} SortMembers(s: seq<Item>)
    ensures forall x :: x in Sort(s) <==> x in s
  {
    if s != [] {
      SortMembers(s[1..]);
      InsertMembers(s[0], Sort(s[1..]));
      assert s == [s[0]] + s[1..];
    }
  }

  lemma {:induction false} InsertIncreasing(it: Item, s: seq<Item>)
    requires Increasing(s) && forall x :: x in s ==> Key(x) != Key(it)
    ensures Increasing(Insert(it, s))
  {
    if s == [] {
    } else if Less(Key(it), Key(s[0])) {
      forall j | 0 < j < |s| ensures Less(Key(it), Key(s[j])) {
        LessTransitive(Key(it), Key(s[0]), Key(s[j]));
      }
    } else {
      LessTotal(Key(it), Key(s[0]));
      assert s[0] in s;
      forall x | x in s[1..] ensures Less(Key(s[0]), Key(x)) && x in s {
        var i :| 0 <= i < |s[1..]| && s[1..][i] == x;
        assert s[i + 1] == x;
      }
      InsertIncreasing(it, s[1..]);
      InsertMembers(it, s[1..]);
      var tail := Insert(it, s[1..]);
      forall j | 0 <= j < |tail| ensures Less(Key(s[0]), Key(tail[j])) {
        assert tail[j] in tail;
      }
    }
  }

  predicate DistinctKeys(s: seq<Item>) {
    forall i, j :: 0 <= i < j < |s| ==> Key(s[i]) != Key(s[j])
  }

  lemma {:induction false} SortIncreasing(s: seq<Item>)
    requires DistinctKeys(s)
    ensures Increasing(Sort(s))
  {
    if s != [] {
      SortIncreasing(s[1..]);
      SortMembers(s[1..]);
      forall x | x in Sort(s[1..]) ensures Key(x) != Key(s[0]) {
        var i :| 0 <= i < |s[1..]| && s[1..][i] == x;
        assert s[i + 1] == x;
      }
      InsertIncreasing(s[0], Sort(s[1..]));
    }
  }

  // ------------------------------------------------------------------
  // Rollup.

  /** A key that is not rolled up never equals a common prefix. */
  lemma ObjectIsNoPrefix(e: Entry, f: Entry, prefix: Str, delimiter: Str)
    requires ItemFor(e, prefix, delimiter) == Some(Object(e))
    requires ItemFor(f, prefix, delimiter).Some? && ItemFor(f, prefix, delimiter).value.CommonPrefix?
    ensures e.key != ItemFor(f, prefix, delimiter).value.prefix
  {
    var cp := ItemFor(f, prefix, delimiter).value.prefix;
    var rest := f.key[|prefix|..];
    var i := Index(rest, delimiter).value;
    if e.key == cp {
      var mine := e.key[|prefix|..];
      assert mine == rest[..i + |delimiter|];
      assert HasPrefix(mine[i..], delimiter) by {
        assert mine[i..] == rest[i..i + |delimiter|];
      }
    }
  }

  /** The listing of a walk is unique. */
  lemma ListingUnique(a: seq<Item>, b: seq<Item>, walk: seq<Entry>, prefix: Str, delimiter: Str)
    requires IsListing(a, walk, prefix, delimiter) && IsListing(b, walk, prefix, delimiter)
    ensures a == b
  {
    forall it ensures it in a <==> it in b {
      if it in a {
        var i :| 0 <= i < |walk| && ItemFor(walk[i], prefix, delimiter) == Some(it);
      }
      if it in b {
        var i :| 0 <= i < |walk| && ItemFor(walk[i], prefix, delimiter) == Some(it);
      }
    }
    IncreasingUnique(a, b);
  }

  lemma {:induction false} IncreasingUnique(a: seq<Item>, b: seq<Item>)
    requires Increasing(a) && Increasing(b) && forall it :: it in a <==> it in b
    ensures a == b
  {
    assert b != [] ==> b[0] in b;
    if a != [] {
      assert a[0] in b;
      assert b != [] && b[0] in a;
      var i :| 0 <= i < |b| && b[i] == a[0];
      var j :| 0 <= j < |a| && a[j] == b[0];
      if i > 0 && j > 0 {
        LessAsymmetric(Key(a[0]), Key(b[0]));
      }
      assert a[0] == b[0];
      forall it ensures it in a[1..] <==> it in b[1..] {
        TailMembers(a, it);
        TailMembers(b, it);
      }
      IncreasingUnique(a[1..], b[1..]);
      assert a == [a[0]] + a[1..] && b == [b[0]] + b[1..];
    }
  }

  lemma TailMembers(s: seq<Item>, it: Item)
    requires Increasing(s) && s != []
    ensures it in s[1..] <==> it in s && it != s[0]
  {
    if it in s[1..] {
      var i :| 0 <= i < |s[1..]| && s[1..][i] == it;
      assert s[i + 1] == it;
      LessIrreflexive(Key(s[0]));
    }
  }

  /** An item represents a key: it is the key's object, or the common prefix of the key's first delimiter. */
  predicate Represents(it: Item, key: Str, prefix: Str, delimiter: Str) {
    match it
    case Object(e) => e.key == key
    case CommonPrefix(cp) => HasPrefix(key, prefix) && RollUp(key, prefix, delimiter) == Some(cp)
  }

  /** items[n] represents the key, and no other item does. */
  predicate OnlyRepresentative(items: seq<Item>, n: nat, key: Str, prefix: Str, delimiter: Str) {
    n < |items| && Represents(items[n], key, prefix, delimiter) &&
    forall m :: 0 <= m < |items| && m != n ==> !Represents(items[m], key, prefix, delimiter)
  }

  lemma ItemSource(items: seq<Item>, walk: seq<Entry>, prefix: Str, delimiter: Str, it: Item) returns (i: nat)
    requires IsListing(items, walk, prefix, delimiter) && it in items
    ensures i < |walk| && ItemFor(walk[i], prefix, delimiter) == Some(it)
  {
    assert StandsForSome(it, walk, prefix, delimiter);
    i :| 0 <= i < |walk| && ItemFor(walk[i], prefix, delimiter) == Some(it);
  }

  lemma RepresentativeIsItem(items: seq<Item>, walk: seq<Entry>, prefix: Str, delimiter: Str, i: nat, it: Item)
    requires IsWalk(walk) && IsListing(items, walk, prefix, delimiter) && i < |walk|
    requires ItemFor(walk[i], prefix, delimiter).Some?
    requires it in items && Represents(it, walk[i].key, prefix, delimiter)
    ensures ItemFor(walk[i], prefix, delimiter) == Some(it)
  {
    var j := ItemSource(items, walk, prefix, delimiter, it);
    if it.Object? {
      assert i == j;
    }
  }

  /**
   Rollup partitions the keys: in the listing of a walk every visible key with the prefix is represented by
   exactly one item, as itself or by the common prefix that ends at its first delimiter.
   */
  lemma EachKeyRepresentedOnce(items: seq<Item>, walk: seq<Entry>, prefix: Str, delimiter: Str, e: Entry)
    requires IsWalk(walk) && IsListing(items, walk, prefix, delimiter)
    requires e in walk && HasPrefix(e.key, prefix) && !Names.IsSidecar(FileName(e.key))
    ensures exists n: nat :: OnlyRepresentative(items, n, e.key, prefix, delimiter)
  {
    var i :| 0 <= i < |walk| && walk[i] == e;
    var it := ItemFor(e, prefix, delimiter).value;
    var n :| 0 <= n < |items| && items[n] == it;
    forall m | 0 <= m < |items| && m != n ensures !Represents(items[m], e.key, prefix, delimiter) {
      if Represents(items[m], e.key, prefix, delimiter) {
        RepresentativeIsItem(items, walk, prefix, delimiter, i, items[m]);
        LessIrreflexive(Key(it));
      }
    }
    assert OnlyRepresentative(items, n, e.key, prefix, delimiter);
  }

  /** The prefix, something without a delimiter, then the delimiter. */
  predicate IsRollUpOf(cp: Str, prefix: Str, delimiter: Str) {
    delimiter != "" && HasPrefix(cp, prefix) && HasSuffix(cp[|prefix|..], delimiter) &&
    Index(cp[|prefix|..], delimiter) == Some(|cp| - |prefix| - |delimiter|)
  }

  /** Cut right after its first delimiter, a text still has its first delimiter there. */
  lemma FirstDelimiterStays(rest: Str, delimiter: Str, i: nat)
    requires delimiter != "" && Index(rest, delimiter) == Some(i)
    ensures i + |delimiter| <= |rest| && HasSuffix(rest[..i + |delimiter|], delimiter)
    ensures Index(rest[..i + |delimiter|], delimiter) == Some(i)
  {
    var tail := rest[..i + |delimiter|];
    assert tail[i..] == rest[i..][..|delimiter|];
    assert HasPrefix(tail[i..], delimiter);
    var j := Index(tail, delimiter).value;
    assert tail[j..][..|delimiter|] == rest[j..][..|delimiter|];
    assert HasPrefix(rest[j..], delimiter);
  }

  lemma CommonPrefixShape(key: Str, prefix: Str, delimiter: Str)
    requires HasPrefix(key, prefix) && RollUp(key, prefix, delimiter).Some?
    ensures IsRollUpOf(RollUp(key, prefix, delimiter).value, prefix, delimiter)
  {
    var cp := RollUp(key, prefix, delimiter).value;
    var rest := key[|prefix|..];
    var i := Index(rest, delimiter).value;
    FirstDelimiterStays(rest, delimiter, i);
    assert cp[|prefix|..] == rest[..i + |delimiter|];
  }

  /** The walk met a file the listing may show: it has the prefix and is no sidecar. */
  predicate Shown(e: Entry, walk: seq<Entry>, prefix: Str) {
    e in walk && prefix <= e.key && !Names.IsSidecar(FileName(e.key))
  }

  /** Every object in a listing is a file that may be shown and whose key has no delimiter after the prefix. */
  lemma ObjectsAreReal(items: seq<Item>, walk: seq<Entry>, prefix: Str, delimiter: Str, it: Item)
    requires IsListing(items, walk, prefix, delimiter) && it in items && it.Object?
    ensures Shown(it.entry, walk, prefix)
    ensures delimiter != "" ==> forall j :: |prefix| <= j <= |it.entry.key| ==> !(delimiter <= it.entry.key[j..])
  {
    var i := ItemSource(items, walk, prefix, delimiter, it);
    var rest := it.entry.key[|prefix|..];
    if delimiter != "" {
      assert Index(rest, delimiter) == None;
      forall j | |prefix| <= j <= |it.entry.key| ensures !(delimiter <= it.entry.key[j..]) {
        assert it.entry.key[j..] == rest[j - |prefix|..];
        assert !HasPrefix(rest[j - |prefix|..], delimiter);
      }
    }
  }

  /** A file name is what follows a key's last slash. */
  lemma FileNameIs(key: Str)
    ensures '/' !in FileName(key)
    ensures FileName(key) == key || HasSuffix(key, ['/'] + FileName(key))
  {
    var segs := Split(key, '/');
    var front, last := segs[..|segs| - 1], segs[|segs| - 1];
    assert last in segs && segs == front + [last];
    LastSegmentOf(front, last, key);
  }

  lemma LastSegmentOf(front: seq<Str>, last: Str, key: Str)
    requires key == Join(front + [last], '/')
    ensures last == key || HasSuffix(key, ['/'] + last)
  {
    if front == [] {
      assert front + [last] == [last];
    } else {
      LastOfJoin(front, last);
    }
  }

  lemma {:induction false} LastOfJoin(front: seq<Str>, last: Str)
    requires front != []
    ensures HasSuffix(Join(front + [last], '/'), ['/'] + last)
  {
    var all, tail := front + [last], ['/'] + last;
    assert all[1..] == front[1..] + [last];
    if |front| == 1 {
      assert all[1..] == [last];
      assert Join(all, '/') == front[0] + tail;
    } else {
      LastOfJoin(front[1..], last);
      var rest := Join(all[1..], '/');
      assert Join(all, '/') == front[0] + ['/'] + rest;
    }
  }

  /** Every common prefix in a listing stands for some key, and no object's key equals a common prefix. */
  lemma CommonPrefixesAreReal(items: seq<Item>, walk: seq<Entry>, prefix: Str, delimiter: Str, it: Item)
    requires IsWalk(walk) && IsListing(items, walk, prefix, delimiter) && it in items && it.CommonPrefix?
    ensures IsRollUpOf(it.prefix, prefix, delimiter)
    ensures exists e :: Shown(e, walk, prefix) && Represents(it, e.key, prefix, delimiter)
    ensures forall x :: x in items && x.Object? ==> x.entry.key != it.prefix
  {
    var i := ItemSource(items, walk, prefix, delimiter, it);
    assert Shown(walk[i], walk, prefix) && Represents(it, walk[i].key, prefix, delimiter);
    CommonPrefixShape(walk[i].key, prefix, delimiter);
    forall x | x in items && x.Object? ensures x.entry.key != it.prefix {
      var j := ItemSource(items, walk, prefix, delimiter, x);
      ObjectIsNoPrefix(walk[j], walk[i], prefix, delimiter);
    }
  }

  // ------------------------------------------------------------------
  // The handler.

  /** The objects arm and the common-prefix arm, as the filter loop builds them. */
  function Objects(walk: seq<Entry>, prefix: Str, delimiter: Str): seq<Item> {
    if walk == [] then []
    else
      var n := |walk| - 1;
      var it := ItemFor(walk[n], prefix, delimiter);
      Objects(walk[..n], prefix, delimiter) + if it.Some? && it.value.Object? then [it.value] else []
  }

  function Prefixes(walk: seq<Entry>, prefix: Str, delimiter: Str): set<Str> {
    if walk == [] then {}
    else
      var n := |walk| - 1;
      var it := ItemFor(walk[n], prefix, delimiter);
      Prefixes(walk[..n], prefix, delimiter) + if it.Some? && it.value.CommonPrefix? then {it.value.prefix} else {}
  }

  lemma LastOrEarlier(walk: seq<Entry>, p: Entry -> bool)
    requires walk != []
    ensures var n := |walk| - 1;
      (exists e :: e in walk && p(e)) <==> (exists e :: e in walk[..n] && p(e)) || p(walk[n])
  {
    assert walk == walk[..|walk| - 1] + [walk[|walk| - 1]];
  }

  lemma SourceInFront(walk: seq<Entry>, prefix: Str, delimiter: Str, it: Item)
    requires walk != []
    ensures var n := |walk| - 1;
      StandsForSome(it, walk, prefix, delimiter) <==>
        StandsForSome(it, walk[..n], prefix, delimiter) || ItemFor(walk[n], prefix, delimiter) == Some(it)
  {
    var p := e => ItemFor(e, prefix, delimiter) == Some(it);
    LastOrEarlier(walk, p);
    StandsForMeans(walk, prefix, delimiter, it, p);
    StandsForMeans(walk[..|walk| - 1], prefix, delimiter, it, p);
  }

  lemma StandsForMeans(walk: seq<Entry>, prefix: Str, delimiter: Str, it: Item, p: Entry -> bool)
    requires forall e :: p(e) <==> ItemFor(e, prefix, delimiter) == Some(it)
    ensures StandsForSome(it, walk, prefix, delimiter) <==> exists e :: e in walk && p(e)
  {
    if exists e :: e in walk && p(e) {
      var e :| e in walk && p(e);
      var i :| 0 <= i < |walk| && walk[i] == e;
    }
    if StandsForSome(it, walk, prefix, delimiter) {
      var i :| 0 <= i < |walk| && ItemFor(walk[i], prefix, delimiter) == Some(it);
      assert walk[i] in walk && p(walk[i]);
    }
  }

  lemma {:induction false} ObjectsMember(walk: seq<Entry>, prefix: Str, delimiter: Str, it: Item)
    ensures it in Objects(walk, prefix, delimiter) <==> it.Object? && StandsForSome(it, walk, prefix, delimiter)
  {
    if walk != [] {
      ObjectsMember(walk[..|walk| - 1], prefix, delimiter, it);
      SourceInFront(walk, prefix, delimiter, it);
    }
  }

  lemma {:induction false} PrefixesMember(walk: seq<Entry>, prefix: Str, delimiter: Str, p: Str)
    ensures p in Prefixes(walk, prefix, delimiter) <==> StandsForSome(CommonPrefix(p), walk, prefix, delimiter)
  {
    if walk != [] {
      PrefixesMember(walk[..|walk| - 1], prefix, delimiter, p);
      SourceInFront(walk, prefix, delimiter, CommonPrefix(p));
    }
  }

  lemma ArmsMembers(walk: seq<Entry>, prefix: Str, delimiter: Str)
    ensures forall it :: it in Objects(walk, prefix, delimiter) <==>
      it.Object? && StandsForSome(it, walk, prefix, delimiter)
    ensures forall p :: p in Prefixes(walk, prefix, delimiter) <==>
      StandsForSome(CommonPrefix(p), walk, prefix, delimiter)
  {
    forall it ensures it in Objects(walk, prefix, delimiter) <==>
      it.Object? && StandsForSome(it, walk, prefix, delimiter) {
      ObjectsMember(walk, prefix, delimiter, it);
    }
    forall p ensures p in Prefixes(walk, prefix, delimiter) <==>
      StandsForSome(CommonPrefix(p), walk, prefix, delimiter) {
      PrefixesMember(walk, prefix, delimiter, p);
    }
  }

  lemma {:induction false} ObjectsDistinct(walk: seq<Entry>, prefix: Str, delimiter: Str)
    requires IsWalk(walk)
    ensures DistinctKeys(Objects(walk, prefix, delimiter))
  {
    if walk != [] {
      var n := |walk| - 1;
      var front := walk[..n];
      ObjectsDistinct(front, prefix, delimiter);
      var objects := Objects(front, prefix, delimiter);
      forall k | 0 <= k < |objects| ensures Key(objects[k]) != walk[n].key {
        ObjectHasEarlierKey(walk, prefix, delimiter, objects[k]);
      }
    }
  }

  lemma ObjectHasEarlierKey(walk: seq<Entry>, prefix: Str, delimiter: Str, it: Item)
    requires IsWalk(walk) && walk != [] && it in Objects(walk[..|walk| - 1], prefix, delimiter)
    ensures Key(it) != walk[|walk| - 1].key
  {
    var front := walk[..|walk| - 1];
    ObjectsMember(front, prefix, delimiter, it);
    var i :| 0 <= i < |front| && ItemFor(front[i], prefix, delimiter) == Some(it);
    assert walk[i] == front[i];
  }

  /** Sorting the two arms together gives the listing. */
  lemma MergedIsListing(objects: seq<Item>, prefixes: seq<Item>, walk: seq<Entry>, prefix: Str, delimiter: Str)
    requires IsWalk(walk) && DistinctKeys(objects) && DistinctKeys(prefixes)
    requires forall it :: it in objects <==> it.Object? && StandsForSome(it, walk, prefix, delimiter)
    requires forall it :: it in prefixes <==> it.CommonPrefix? && StandsForSome(it, walk, prefix, delimiter)
    ensures IsListing(Sort(objects + prefixes), walk, prefix, delimiter)
  {
    var all := objects + prefixes;
    assert DistinctKeys(all) by {
      forall i, j | 0 <= i < j < |all| ensures Key(all[i]) != Key(all[j]) {
        if i < |objects| <= j {
          assert all[i] in objects && all[j] in prefixes;
          var a :| 0 <= a < |walk| && ItemFor(walk[a], prefix, delimiter) == Some(all[i]);
          var b :| 0 <= b < |walk| && ItemFor(walk[b], prefix, delimiter) == Some(all[j]);
          ObjectIsNoPrefix(walk[a], walk[b], prefix, delimiter);
        }
      }
    }
    SortIncreasing(all);
    SortMembers(all);
    forall i | 0 <= i < |walk| && ItemFor(walk[i], prefix, delimiter).Some?
      ensures ItemFor(walk[i], prefix, delimiter).value in Sort(all)
    {
      var it := ItemFor(walk[i], prefix, delimiter).value;
      assert StandsForSome(it, walk, prefix, delimiter);
      assert it in all;
    }
  }

  /** Ranging over the set of common prefixes, in whatever order. */
  method PrefixItems(prefixSet: set<Str>) returns (items: seq<Item>)
    ensures DistinctKeys(items)
    ensures forall it :: it in items <==> it.CommonPrefix? && it.prefix in prefixSet
  {
    items := [];
    var todo := prefixSet;
    while todo != {}
      invariant todo <= prefixSet && DistinctKeys(items)
      invariant forall it :: it in items <==> it.CommonPrefix? && it.prefix in prefixSet && it.prefix !in todo
      decreases todo
    {
      var p :| p in todo;
      forall i | 0 <= i < |items| ensures Key(items[i]) != p { assert items[i] in items; }
      items := items + [CommonPrefix(p)];
      todo := todo - {p};
    }
  }

  method CutAfter(merged: seq<Item>, startAfter: Str) returns (rest: seq<Item>)
    ensures rest == After(merged, startAfter)
  {
    var cut := 0;
    while cut < |merged| && LessEq(Key(merged[cut]), startAfter)
      invariant cut <= |merged| && After(merged, startAfter) == After(merged[cut..], startAfter)
    {
      assert merged[cut..][1..] == merged[cut + 1..];
      cut := cut + 1;
    }
    rest := merged[cut..];
  }

  lemma ArmsStep(walk: seq<Entry>, i: nat, prefix: Str, delimiter: Str)
    requires i < |walk|
    ensures var it := ItemFor(walk[i], prefix, delimiter);
      Objects(walk[..i + 1], prefix, delimiter) ==
        Objects(walk[..i], prefix, delimiter) + (if it.Some? && it.value.Object? then [it.value] else []) &&
      Prefixes(walk[..i + 1], prefix, delimiter) ==
        Prefixes(walk[..i], prefix, delimiter) + (if it.Some? && it.value.CommonPrefix? then {it.value.prefix} else {})
  {
    assert walk[..i + 1][..i] == walk[..i];
  }

  /** The filter loop: one arm of objects, one set of common prefixes. */
  method FilterAndRollUp(walk: seq<Entry>, prefix: Str, delimiter: Str) returns (objects: seq<Item>, prefixSet: set<Str>)
    ensures objects == Objects(walk, prefix, delimiter) && prefixSet == Prefixes(walk, prefix, delimiter)
  {
    objects, prefixSet := [], {};
    for i := 0 to |walk|
      invariant objects == Objects(walk[..i], prefix, delimiter)
      invariant prefixSet == Prefixes(walk[..i], prefix, delimiter)
    {
      var e := walk[i];
      ArmsStep(walk, i, prefix, delimiter);
      ghost var it := ItemFor(e, prefix, delimiter);
      if Names.IsSidecar(FileName(e.key)) || (prefix != "" && !HasPrefix(e.key, prefix)) {
        continue;
      }
      if delimiter != "" {
        var rest := e.key[|prefix|..];
        var idx := Index(rest, delimiter);
        if idx.Some? {
          prefixSet := prefixSet + {prefix + rest[..idx.value + |delimiter|]};
          assert it == Some(CommonPrefix(prefix + rest[..idx.value + |delimiter|]));
          continue;
        }
      }
      assert it == Some(Object(e));
      objects := objects + [Object(e)];
    }
    assert walk[..|walk|] == walk;
  }

  /** Both arms, merged and sorted. */
  method Merge(walk: seq<Entry>, prefix: Str, delimiter: Str) returns (merged: seq<Item>)
    requires IsWalk(walk)
    ensures IsListing(merged, walk, prefix, delimiter)
  {
    var objects, prefixSet := FilterAndRollUp(walk, prefix, delimiter);
    var prefixes := PrefixItems(prefixSet);
    merged := Sort(objects + prefixes);
    ArmsMembers(walk, prefix, delimiter);
    ObjectsDistinct(walk, prefix, delimiter);
    MergedIsListing(objects, prefixes, walk, prefix, delimiter);
  }

  predicate Above(it: Item, cursor: Str) {
    cursor == "" || Less(cursor, Key(it))
  }

  /**
   The page holds, in order, items of the listing above the cursor: all of them, or, when it is truncated, the first size
   of them, naming the last of those.
   */
  ghost predicate Selects(page: Page, full: seq<Item>, cursor: Str, size: nat) {
    && Increasing(page.items) && |page.items| <= size
    && (forall it :: it in page.items ==> it in full && Above(it, cursor))
    && (!page.truncated ==> page.lastKey == "" && forall it :: it in full && Above(it, cursor) ==> it in page.items)
    && (page.truncated ==>
          |page.items| == size && size > 0 && page.lastKey == Key(page.items[size - 1]) &&
          (forall it :: it in full && Above(it, cursor) && it !in page.items ==> Less(page.lastKey, Key(it))) &&
          exists it :: it in full && Above(it, cursor) && it !in page.items)
  }

  lemma {:induction false} AfterIsAbove(full: seq<Item>, cursor: Str)
    requires Increasing(full)
    ensures Increasing(After(full, cursor))
    ensures forall it :: it in After(full, cursor) <==> it in full && Less(cursor, Key(it))
  {
    if full != [] {
      var first, rest := full[0], full[1..];
      assert full == [first] + rest;
      LessTotal(Key(first), cursor);
      if LessEq(Key(first), cursor) {
        AfterIsAbove(rest, cursor);
        if Less(cursor, Key(first)) { LessAsymmetric(cursor, Key(first)); }
        LessIrreflexive(cursor);
      } else {
        forall it | it in rest ensures Less(cursor, Key(it)) {
          var i :| 0 <= i < |rest| && rest[i] == it;
          assert it == full[i + 1];
          LessTransitive(cursor, Key(first), Key(it));
        }
      }
    }
  }

  /** What is kept of what is left, on plain sequences. */
  lemma FrontOf(rest: seq<Item>, n: nat)
    requires Increasing(rest) && 1 <= n < |rest|
    ensures Increasing(rest[..n]) && (forall it :: it in rest[..n] ==> it in rest)
    ensures forall it :: it in rest && it !in rest[..n] ==> Less(Key(rest[n - 1]), Key(it))
    ensures rest[n] in rest && rest[n] !in rest[..n]
  {
    forall i | 0 <= i < n ensures rest[i] in rest[..n] {
      assert rest[..n][i] == rest[i];
    }
    forall it | it in rest && it !in rest[..n] ensures Less(Key(rest[n - 1]), Key(it)) {
      var i :| 0 <= i < |rest| && rest[i] == it;
    }
    forall i | 0 <= i < n ensures rest[i] != rest[n] {
      LessIrreflexive(Key(rest[i]));
    }
  }

  lemma PageSelects(full: seq<Item>, size: nat, cursor: Str)
    requires Increasing(full) && size >= 1
    ensures Selects(PageOf(full, size, cursor), full, cursor, size)
  {
    var rest := Rest(full, cursor);
    if cursor != "" { AfterIsAbove(full, cursor); }
    assert Increasing(rest) && forall it :: it in rest <==> it in full && Above(it, cursor);
    if |rest| > size { FrontOf(rest, size); }
  }

  /** The page is the one the request's cursor and size select from the listing of the walk. */
  ghost predicate Answers(page: Page, walk: seq<Entry>, prefix: Str, delimiter: Str, q: Request) {
    exists full :: IsListing(full, walk, prefix, delimiter) && page == PageOf(full, ParseMaxKeys(q.maxKeys), StartAfter(q))
  }

  /** There is exactly one such page. */
  lemma OneAnswer(a: Page, b: Page, walk: seq<Entry>, prefix: Str, delimiter: Str, q: Request)
    requires Answers(a, walk, prefix, delimiter, q) && Answers(b, walk, prefix, delimiter, q)
    ensures a == b
  {
    var size, cursor := ParseMaxKeys(q.maxKeys), StartAfter(q);
    var x :| IsListing(x, walk, prefix, delimiter) && a == PageOf(x, size, cursor);
    var y :| IsListing(y, walk, prefix, delimiter) && b == PageOf(y, size, cursor);
    ListingUnique(x, y, walk, prefix, delimiter);
  }

  /** One listing request against the files the walk met. */
  method ListObjects(walk: seq<Entry>, prefix: Str, delimiter: Str, q: Request) returns (page: Page)
    requires IsWalk(walk)
    ensures Answers(page, walk, prefix, delimiter, q)
    ensures forall full | IsListing(full, walk, prefix, delimiter) ::
      Selects(page, full,
        if q.contToken != "" then (match Base64.Decode(q.contToken) case Some(key) => key case None => "")
        else if q.v2 then q.startAfter else q.marker,
        ParseMaxKeys(q.maxKeys))
  {
    var maxKeys := ParseMaxKeys(q.maxKeys);
    var startAfter := StartAfter(q);
    var merged := Merge(walk, prefix, delimiter);
    ghost var full := merged;
    if startAfter != "" {
      merged := CutAfter(merged, startAfter);
    }
    var truncated := false;
    var lastKey := "";
    if |merged| > maxKeys {
      truncated, lastKey, merged := true, Key(merged[maxKeys - 1]), merged[..maxKeys];
    }
    page := Page(merged, truncated, lastKey);
    assert page == PageOf(full, maxKeys, startAfter);
    PageSelects(full, maxKeys, startAfter);
    forall other | IsListing(other, walk, prefix, delimiter) ensures other == full {
      ListingUnique(other, full, walk, prefix, delimiter);
    }
  }

  // ------------------------------------------------------------------
  // Paging.

  lemma {:induction false} AfterIsDrop(full: seq<Item>, k: nat, cursor: Str)
    requires Increasing(full) && k < |full| && cursor == Key(full[k])
    ensures After(full, cursor) == full[k + 1..]
  {
    if k == 0 {
      if |full| > 1 {
        LessAsymmetric(Key(full[0]), Key(full[1]));
        LessIrreflexive(Key(full[0]));
      }
      assert After(full, cursor) == After(full[1..], cursor);
    } else {
      assert Less(Key(full[0]), Key(full[k]));
      assert full[1..][k - 1] == full[k];
      AfterIsDrop(full[1..], k - 1, cursor);
      assert full[1..][k..] == full[k + 1..];
    }
  }

  lemma {:induction false} AfterIsSuffix(full: seq<Item>, cursor: Str)
    ensures |After(full, cursor)| <= |full| && After(full, cursor) == full[|full| - |After(full, cursor)|..]
  {
    if full != [] && LessEq(Key(full[0]), cursor) {
      AfterIsSuffix(full[1..], cursor);
    }
  }

  /** What a cursor leaves to list. */
  function Rest(full: seq<Item>, startAfter: Str): seq<Item> {
    if startAfter == "" then full else After(full, startAfter)
  }

  predicate KeysNonEmpty(items: seq<Item>) {
    forall it :: it in items ==> Key(it) != ""
  }

  lemma ListingKeysNonEmpty(items: seq<Item>, walk: seq<Entry>, prefix: Str, delimiter: Str)
    requires IsWalk(walk) && IsListing(items, walk, prefix, delimiter)
    ensures KeysNonEmpty(items)
  {
    forall it | it in items ensures Key(it) != "" {
      var i := ItemSource(items, walk, prefix, delimiter, it);
    }
  }

  /** What follows the n-th item of a suffix. */
  lemma RestIsDrop(full: seq<Item>, rest: seq<Item>, n: nat) returns (tail: seq<Item>)
    requires Increasing(full) && KeysNonEmpty(full) && 1 <= n <= |rest| <= |full| && rest == full[|full| - |rest|..]
    ensures Key(rest[n - 1]) != "" && tail == Rest(full, Key(rest[n - 1])) && tail == rest[n..]
  {
    var k := |full| - |rest| + n - 1;
    var last := full[k];
    assert rest[n - 1] == last && last in full;
    AfterIsDrop(full, k, Key(last));
    tail := full[k + 1..];
    assert tail == rest[n..];
  }

  lemma RestIsSuffix(full: seq<Item>, startAfter: Str)
    ensures var rest := Rest(full, startAfter); |rest| <= |full| && rest == full[|full| - |rest|..]
  {
    AfterIsSuffix(full, startAfter);
  }

  lemma TruncatedPage(full: seq<Item>, maxKeys: nat, startAfter: Str) returns (rest: seq<Item>)
    requires maxKeys >= 1 && PageOf(full, maxKeys, startAfter).truncated
    ensures rest == Rest(full, startAfter) && |rest| > maxKeys
    ensures PageOf(full, maxKeys, startAfter) == Page(rest[..maxKeys], true, Key(rest[maxKeys - 1]))
  {
    rest := Rest(full, startAfter);
  }

  /** The sequence facts alone. */
  lemma PageSplits(items: seq<Item>, rest: seq<Item>, tail: seq<Item>, n: nat)
    requires 1 <= n <= |rest| && items == rest[..n] && tail == rest[n..]
    ensures |items| == n && items[n - 1] == rest[n - 1] && items + tail == rest
  {
  }

  /** A truncated page moves the cursor: what follows its last key is what it left over. */
  lemma PageProgress(full: seq<Item>, maxKeys: nat, startAfter: Str)
    requires Increasing(full) && KeysNonEmpty(full) && maxKeys >= 1
    requires PageOf(full, maxKeys, startAfter).truncated
    ensures var page := PageOf(full, maxKeys, startAfter);
      page.lastKey != "" && |page.items| == maxKeys && page.lastKey == Key(page.items[maxKeys - 1]) &&
      page.items + Rest(full, page.lastKey) == Rest(full, startAfter)
  {
    var page := PageOf(full, maxKeys, startAfter);
    var rest := TruncatedPage(full, maxKeys, startAfter);
    RestIsSuffix(full, startAfter);
    var tail := RestIsDrop(full, rest, maxKeys);
    PageSplits(page.items, rest, tail, maxKeys);
  }

  /** The token a page hands out names that page's last key when it comes back. */
  lemma TokenNamesLastKey(key: Str, q: Request)
    requires key != "" && q.contToken == EncodeContinuation(key)
    ensures StartAfter(q) == key
  {
    Base64.RoundTrip(key);
    Base64.EncodeEmpty(key);
  }

  /** How a client asks for the next page. */
  datatype Client = TokenClient(v2: bool) | MarkerClient(delimiter: Str)

  function FirstRequest(c: Client, maxKeys: Str): Request {
    Request(c.TokenClient? && c.v2, "", "", "", maxKeys)
  }

  /** The key of the last object on a page, where a client without a NextMarker goes on from. */
  function LastObjectKey(items: seq<Item>): Str {
    if items == [] then "" else if items[|items| - 1].Object? then Key(items[|items| - 1])
    else LastObjectKey(items[..|items| - 1])
  }

  function NextRequest(c: Client, page: Page, maxKeys: Str): Request {
    match c
    case TokenClient(v2) => Request(v2, EncodeContinuation(page.lastKey), "", "", maxKeys)
    case MarkerClient(delimiter) =>
      var nextMarker := if page.truncated && delimiter != "" then page.lastKey else "";
      Request(false, "", "", if nextMarker != "" then nextMarker else LastObjectKey(page.items), maxKeys)
  }

  /** A marker client that gave no delimiter has been listing objects only. */
  predicate Suits(c: Client, full: seq<Item>) {
    c.MarkerClient? && c.delimiter == "" ==> forall it :: it in full ==> it.Object?
  }

  lemma NextRequestNamesLastKey(c: Client, full: seq<Item>, size: nat, startAfter: Str, maxKeys: Str)
    requires Increasing(full) && KeysNonEmpty(full) && size >= 1 && Suits(c, full)
    requires PageOf(full, size, startAfter).truncated
    ensures var page := PageOf(full, size, startAfter); StartAfter(NextRequest(c, page, maxKeys)) == page.lastKey
  {
    var page := PageOf(full, size, startAfter);
    PageProgress(full, size, startAfter);
    match c
    case TokenClient(v2) => TokenNamesLastKey(page.lastKey, NextRequest(c, page, maxKeys));
    case MarkerClient(delimiter) =>
      AfterIsSuffix(full, startAfter);
      var rest := Rest(full, startAfter);
      assert page.items[size - 1] == full[|full| - |rest| + size - 1];
      assert page.items[size - 1] in full;
  }

  /** The pages a client gets by asking on until a page is not truncated, with any max-keys text on each request. */
  function Conversation(full: seq<Item>, c: Client, maxKeys: nat -> Str, n: nat, q: Request): seq<Page>
    requires Increasing(full) && KeysNonEmpty(full) && Suits(c, full)
    decreases |Rest(full, StartAfter(q))|
  {
    var size := ParseMaxKeys(q.maxKeys);
    var page := PageOf(full, size, StartAfter(q));
    if !page.truncated then [page]
    else
      PageProgress(full, size, StartAfter(q));
      NextRequestNamesLastKey(c, full, size, StartAfter(q), maxKeys(n + 1));
      [page] + Conversation(full, c, maxKeys, n + 1, NextRequest(c, page, maxKeys(n + 1)))
  }

  function Concat(pages: seq<Page>): seq<Item> {
    if pages == [] then [] else pages[0].items + Concat(pages[1..])
  }

  lemma {:induction false} ConversationCoversRest(full: seq<Item>, c: Client, maxKeys: nat -> Str, n: nat, q: Request)
    requires Increasing(full) && KeysNonEmpty(full) && Suits(c, full)
    ensures var pages := Conversation(full, c, maxKeys, n, q); var rest := Rest(full, StartAfter(q));
      Concat(pages) == rest && 1 <= |pages| <= Max(1, |rest|)
    decreases |Rest(full, StartAfter(q))|
  {
    var size := ParseMaxKeys(q.maxKeys);
    var page := PageOf(full, size, StartAfter(q));
    var pages := Conversation(full, c, maxKeys, n, q);
    if page.truncated {
      PageProgress(full, size, StartAfter(q));
      NextRequestNamesLastKey(c, full, size, StartAfter(q), maxKeys(n + 1));
      var next := NextRequest(c, page, maxKeys(n + 1));
      ConversationCoversRest(full, c, maxKeys, n + 1, next);
      assert pages[1..] == Conversation(full, c, maxKeys, n + 1, next);
    } else {
      assert pages[1..] == [];
      assert page.items + [] == page.items;
    }
  }

  /**
   Paging is complete: on a bucket that does not change, a client that starts with no cursor and follows each
   issued token (or marker), with any max-keys on each request, gets pages that concatenate to exactly the
   one-shot listing, which is strictly increasing, so nothing is lost and nothing comes twice.
   */
  lemma PagingIsComplete(walk: seq<Entry>, prefix: Str, delimiter: Str, full: seq<Item>, c: Client, maxKeys: nat -> Str)
    requires IsWalk(walk) && IsListing(full, walk, prefix, delimiter)
    requires c.MarkerClient? ==> c.delimiter == delimiter
    ensures Increasing(full) && KeysNonEmpty(full) && Suits(c, full)
    ensures var pages := Conversation(full, c, maxKeys, 0, FirstRequest(c, maxKeys(0)));
      Concat(pages) == full && 1 <= |pages| <= Max(1, |full|)
  {
    ListingKeysNonEmpty(full, walk, prefix, delimiter);
    if c.MarkerClient? && delimiter == "" {
      forall it | it in full ensures it.Object? {
        var i := ItemSource(full, walk, prefix, delimiter, it);
      }
    }
    ConversationCoversRest(full, c, maxKeys, 0, FirstRequest(c, maxKeys(0)));
  }
}
