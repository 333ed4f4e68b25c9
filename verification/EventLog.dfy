/**
 The event log: one bolt bucket per category, keyed by timestamp and sequence
 number, pruned by age and by count at every write, and paged newest-first.
 */
module EventLog {
  import opened Wrappers
  import opened GoStrings
  import opened Maps
  import BigEndian

  datatype Event = Event(time: int, payload: Str)

  datatype Record = Record(key: Str, event: Event)

  /** encodeEventKey. */
  function EventKey(nano: int, sequence: nat): (k: Str)
    ensures |k| == 16
  {
    BigEndian.Encode(BigEndian.ToUint64(nano), 8) + BigEndian.Encode(sequence, 8)
  }

  /** The timestamp the code reads back out of a key. */
  function KeyTime(key: Str): int
    requires |key| == 16
  {
    BigEndian.ToInt64(BigEndian.Decode(key[..8]))
  }

  lemma KeyTimeRoundTrip(nano: int, sequence: nat)
    requires BigEndian.IsInt64(nano)
    ensures KeyTime(EventKey(nano, sequence)) == nano
  {
    BigEndian.Width8();
    BigEndian.RoundTrip(BigEndian.ToUint64(nano), 8);
    BigEndian.Int64RoundTrip(nano);
    assert EventKey(nano, sequence)[..8] == BigEndian.Encode(BigEndian.ToUint64(nano), 8);
  }

  /** Key order is the order of the unsigned timestamp, then of the sequence number; two keys are equal only if both agree. */
  lemma KeyOrder(a: int, s: nat, b: int, t: nat)
    requires BigEndian.IsInt64(a) && BigEndian.IsInt64(b) && s < BigEndian.TWO_TO_64 && t < BigEndian.TWO_TO_64
    ensures var x, y := BigEndian.ToUint64(a), BigEndian.ToUint64(b);
      (Less(EventKey(a, s), EventKey(b, t)) <==> x < y || (x == y && s < t)) &&
      (EventKey(a, s) == EventKey(b, t) <==> a == b && s == t)
  {
    BigEndian.Width8();
    var x, y := BigEndian.ToUint64(a), BigEndian.ToUint64(b);
    var kx, ky := BigEndian.Encode(x, 8), BigEndian.Encode(y, 8);
    var ks, kt := BigEndian.Encode(s, 8), BigEndian.Encode(t, 8);
    BigEndian.Order(x, y, 8);
    BigEndian.Order(s, t, 8);
    BigEndian.Int64RoundTrip(a);
    BigEndian.Int64RoundTrip(b);
    assert (kx + ks)[..8] == kx && (ky + kt)[..8] == ky && (kx + ks)[8..] == ks && (ky + kt)[8..] == kt;
    if kx == ky {
      LessSamePrefix(kx, ks, kt);
    } else {
      LessExtend(kx, ky, ks, kt);
    }
  }

  /** Keys sort chronologically exactly for two timestamps of the same sign: a negative one sorts after every positive one. */
  lemma KeysChronologicalIffSameSign(a: int, s: nat, b: int, t: nat)
    requires BigEndian.IsInt64(a) && BigEndian.IsInt64(b) && s < BigEndian.TWO_TO_64 && t < BigEndian.TWO_TO_64 && a != b
    ensures (Less(EventKey(a, s), EventKey(b, t)) <==> a < b) <==> ((a < 0) <==> (b < 0))
  {
    KeyOrder(a, s, b, t);
    BigEndian.Int64RoundTrip(a);
    BigEndian.Int64RoundTrip(b);
  }

  // ------------------------------------------------------------------
  // The bucket.

  /** The record putEvent wrote for the s-th event ever put in the bucket. */
  predicate IsNth(r: Record, log: seq<Event>, s: nat) {
    1 <= s <= |log| && r == Record(EventKey(log[s - 1].time, s), log[s - 1])
  }

  ghost predicate RecordOk(r: Record, log: seq<Event>) {
    exists s: nat :: IsNth(r, log, s)
  }

  predicate LogOk(log: seq<Event>) {
    |log| < BigEndian.TWO_TO_64 && forall e :: e in log ==> BigEndian.IsInt64(e.time)
  }

  predicate NonNegative(log: seq<Event>) {
    forall e :: e in log ==> 0 <= e.time
  }

  predicate Sorted(rs: seq<Record>) {
    forall i, j :: 0 <= i < j < |rs| ==> Less(rs[i].key, rs[j].key)
  }

  /** Records in key order, each one written for an event of the log. */
  ghost predicate BucketOk(rs: seq<Record>, log: seq<Event>) {
    LogOk(log) && Sorted(rs) && forall r :: r in rs ==> RecordOk(r, log)
  }

  /** bucket.Put under a key that is not in use. */
  function Insert(r: Record, rs: seq<Record>): seq<Record> {
    if rs == [] || Less(r.key, rs[0].key) then [r] + rs else [rs[0]] + Insert(r, rs[1..])
  }

  lemma {:induction false} InsertSorted(r: Record, rs: seq<Record>)
    requires Sorted(rs) && forall x :: x in rs ==> x.key != r.key
    ensures Sorted(Insert(r, rs))
    ensures forall x :: x in Insert(r, rs) <==> x == r || x in rs
    ensures |Insert(r, rs)| == |rs| + 1
  {
    if rs == [] {
    } else if Less(r.key, rs[0].key) {
      forall j | 0 < j < |rs| ensures Less(r.key, rs[j].key) {
        LessTransitive(r.key, rs[0].key, rs[j].key);
      }
    } else {
      assert rs[0] in rs;
      LessTotal(r.key, rs[0].key);
      assert rs == [rs[0]] + rs[1..];
      InsertSorted(r, rs[1..]);
      var tail := Insert(r, rs[1..]);
      forall j | 0 <= j < |tail| ensures Less(rs[0].key, tail[j].key) {
        assert tail[j] in tail;
        if tail[j] != r {
          var i :| 0 <= i < |rs[1..]| && rs[1..][i] == tail[j];
          assert rs[i + 1] == tail[j];
        }
      }
    }
  }

  /** Two records of the log: key order refines time order when no time is negative, and a key names one record. */
  lemma NthInOrder(x: Record, s: nat, y: Record, t: nat, log: seq<Event>)
    requires LogOk(log) && IsNth(x, log, s) && IsNth(y, log, t)
    ensures x.key == y.key ==> x == y
    ensures NonNegative(log) && Less(x.key, y.key) ==> x.event.time <= y.event.time
    ensures NonNegative(log) && x.event.time < y.event.time ==> Less(x.key, y.key)
  {
    assert x.event in log && y.event in log;
    KeyOrder(x.event.time, s, y.event.time, t);
    BigEndian.Int64RoundTrip(x.event.time);
    BigEndian.Int64RoundTrip(y.event.time);
  }

  lemma LogOrder(x: Record, y: Record, log: seq<Event>)
    requires LogOk(log) && RecordOk(x, log) && RecordOk(y, log)
    ensures x.key == y.key ==> x == y
    ensures NonNegative(log) && Less(x.key, y.key) ==> x.event.time <= y.event.time
    ensures NonNegative(log) && x.event.time < y.event.time ==> Less(x.key, y.key)
  {
    var s: nat :| IsNth(x, log, s);
    var t: nat :| IsNth(y, log, t);
    NthInOrder(x, s, y, t, log);
  }

  lemma RecordTime(r: Record, log: seq<Event>)
    requires LogOk(log) && RecordOk(r, log)
    ensures |r.key| == 16 && KeyTime(r.key) == r.event.time && r.event in log
  {
    var s: nat :| IsNth(r, log, s);
    assert r.event in log;
    KeyTimeRoundTrip(r.event.time, s);
  }

  // ------------------------------------------------------------------
  // What pruning keeps.

  /** The newer records of a set, in key order. */
  function Newer(all: set<Record>, r: Record): set<Record> {
    set x | x in all && Less(r.key, x.key)
  }

  /** Both prunes: not older than the cutoff (if there is an age cap), and fewer than max newer (if there is a count cap). */
  datatype Caps = Caps(age: Option<int>, max: int)

  predicate Survives(all: set<Record>, caps: Caps, r: Record) {
    r in all && (caps.age.Some? ==> r.event.time >= caps.age.value) && (caps.max > 0 ==> |Newer(all, r)| < caps.max)
  }

  function Kept(all: set<Record>, caps: Caps): set<Record> {
    set r | r in all && Survives(all, caps, r)
  }

  function Elements(rs: seq<Record>): set<Record> {
    set r | r in rs
  }

  lemma {:induction false} SortedSize(rs: seq<Record>)
    requires Sorted(rs)
    ensures |Elements(rs)| == |rs|
  {
    if rs != [] {
      var first, rest := rs[0], rs[1..];
      SortedSize(rest);
      assert rs == [first] + rest;
      LessIrreflexive(first.key);
      forall i | 0 <= i < |rest| ensures rest[i] != first {
        assert Less(first.key, rs[i + 1].key);
      }
      assert Elements(rs) == {first} + Elements(rest);
    }
  }

  lemma NewerThanNth(rs: seq<Record>, i: nat, j: nat)
    requires Sorted(rs) && i < |rs| && j < |rs|
    ensures Less(rs[i].key, rs[j].key) <==> i < j
  {
    LessIrreflexive(rs[i].key);
    if j < i { LessAsymmetric(rs[j].key, rs[i].key); }
  }

  lemma NewerInSorted(rs: seq<Record>, i: nat)
    requires Sorted(rs) && i < |rs|
    ensures Newer(Elements(rs), rs[i]) == Elements(rs[i + 1..])
    ensures |Elements(rs[i + 1..])| == |rs| - i - 1
  {
    var above := rs[i + 1..];
    SortedSize(above);
    forall x | x in Newer(Elements(rs), rs[i]) ensures x in above {
      var j :| 0 <= j < |rs| && rs[j] == x;
      NewerThanNth(rs, i, j);
      assert above[j - i - 1] == x;
    }
    forall x | x in above ensures x in Newer(Elements(rs), rs[i]) {
      var j :| 0 <= j < |above| && above[j] == x;
      assert rs[i + 1 + j] == x;
    }
  }

  /** The first record a prune leaves in place. */
  predicate CutAt(rs: seq<Record>, caps: Caps, n: nat) {
    n <= |rs| &&
    (forall i :: 0 <= i < n ==>
      (caps.age.Some? && rs[i].event.time < caps.age.value) || (caps.max > 0 && |rs| - i > caps.max)) &&
    (forall i :: n <= i < |rs| ==>
      (caps.age.Some? ==> rs[i].event.time >= caps.age.value) && (caps.max > 0 ==> |rs| - i <= caps.max))
  }

  lemma CutIsKept(rs: seq<Record>, caps: Caps, n: nat)
    requires Sorted(rs) && CutAt(rs, caps, n)
    ensures Elements(rs[n..]) == Kept(Elements(rs), caps)
  {
    forall i: nat | i < |rs| ensures Survives(Elements(rs), caps, rs[i]) <==> n <= i {
      NewerInSorted(rs, i);
    }
    forall r | r in rs[n..] ensures r in Kept(Elements(rs), caps) {
      var j :| 0 <= j < |rs[n..]| && rs[n..][j] == r;
      assert rs[n + j] == r;
    }
    forall r | r in Kept(Elements(rs), caps) ensures r in rs[n..] {
      var i :| 0 <= i < |rs| && rs[i] == r;
      assert rs[n..][i - n] == r;
    }
  }

  // ------------------------------------------------------------------
  // Pruning at every write is the same as keeping everything and pruning once.

  /** Key order refines time order, and a key names one record. */
  predicate WellKeyed(u: set<Record>) {
    forall x, y :: x in u && y in u ==>
      (Less(x.key, y.key) ==> x.event.time <= y.event.time) && (x.key == y.key ==> x == y)
  }

  predicate Tighter(c1: Caps, c2: Caps) {
    (c1.age.Some? ==> c2.age.Some? && c2.age.value >= c1.age.value) &&
    (c1.max > 0 ==> 0 < c2.max <= c1.max)
  }

  /** Whatever an earlier prune dropped, a later and tighter one would drop too. */
  lemma DroppedStaysDropped(s: set<Record>, b: set<Record>, c1: Caps, c2: Caps, r: Record)
    requires WellKeyed(s + b) && Tighter(c1, c2) && r in s && !Survives(s, c1, r)
    ensures !Survives(s + b, c2, r)
  {
    SubsetSize(Newer(s, r), Newer(s + b, r));
  }

  /** A record the earlier prune dropped by count is outnumbered by records it kept. */
  lemma {:induction false} CrowdIsKept(s: set<Record>, c: Caps, x: Record, d: Record)
    requires WellKeyed(s) && d in s && !Survives(s, c, d) && Less(x.key, d.key)
    requires c.age.Some? ==> d.event.time >= c.age.value
    ensures c.max > 0 && |Newer(Kept(s, c), x)| >= c.max
    decreases |Newer(s, d)|
  {
    var above := Newer(s, d);
    if exists e :: e in above && !Survives(s, c, e) {
      var e :| e in above && !Survives(s, c, e);
      LessTransitive(x.key, d.key, e.key);
      assert Newer(s, e) <= above by {
        forall y | y in Newer(s, e) ensures y in above { LessTransitive(d.key, e.key, y.key); }
      }
      LessIrreflexive(e.key);
      assert e !in Newer(s, e);
      SubsetSize(Newer(s, e), above - {e});
      CrowdIsKept(s, c, x, e);
    } else {
      forall y | y in above ensures y in Newer(Kept(s, c), x) { LessTransitive(x.key, d.key, y.key); }
      SubsetSize(above, Newer(Kept(s, c), x));
    }
  }

  lemma SurvivesInUnion(s: set<Record>, b: set<Record>, c1: Caps, c2: Caps, x: Record)
    requires WellKeyed(s + b) && Tighter(c1, c2) && Survives(Kept(s, c1) + b, c2, x)
    ensures Survives(s + b, c2, x)
  {
    var t, u := Kept(s, c1) + b, s + b;
    if c2.max > 0 {
      if exists d :: d in Newer(u, x) && d !in t {
        var d :| d in Newer(u, x) && d !in t;
        assert WellKeyed(s);
        CrowdIsKept(s, c1, x, d);
        SubsetSize(Newer(Kept(s, c1), x), Newer(t, x));
      } else {
        assert Newer(u, x) <= Newer(t, x);
        SubsetSize(Newer(u, x), Newer(t, x));
      }
    }
  }

  /** One round: prune, write, prune again is write, prune. */
  lemma PruneOnceIsEnough(s: set<Record>, b: set<Record>, c1: Caps, c2: Caps)
    requires WellKeyed(s + b) && Tighter(c1, c2)
    ensures Kept(Kept(s, c1) + b, c2) == Kept(s + b, c2)
  {
    var t, u := Kept(s, c1) + b, s + b;
    forall x ensures x in Kept(t, c2) <==> x in Kept(u, c2) {
      if x in Kept(t, c2) {
        SurvivesInUnion(s, b, c1, c2, x);
      }
      if x in Kept(u, c2) {
        if x !in t { DroppedStaysDropped(s, b, c1, c2, x); }
        SubsetSize(Newer(t, x), Newer(u, x));
      }
    }
  }

  /** The control log: one count cap for ever, so after every append it is the newest max events of all. */
  lemma ControlLogIsNewestOfAll(ws: seq<Write>, max: int)
    requires ws != [] && WellKeyed(AllWritten(ws)) && forall w :: w in ws ==> w.caps == Caps(None, max)
    ensures Bucket(ws) == Kept(AllWritten(ws), Caps(None, max))
  {
    assert forall i :: 0 <= i < |ws| ==> ws[i] in ws;
    BucketIsNewestOfAll(ws);
  }

  lemma FlushKeepsNewest(s: set<Record>, added: set<Record>, caps: Caps)
    requires WellKeyed(s + added)
    ensures forall was | Tighter(was, caps) :: Kept(Kept(s, was) + added, caps) == Kept(s + added, caps)
  {
    forall was | Tighter(was, caps) ensures Kept(Kept(s, was) + added, caps) == Kept(s + added, caps) {
      PruneOnceIsEnough(s, added, was, caps);
    }
  }

  datatype Write = Write(added: set<Record>, caps: Caps)

  function AllWritten(ws: seq<Write>): set<Record> {
    if ws == [] then {} else AllWritten(ws[..|ws| - 1]) + ws[|ws| - 1].added
  }

  /** The bucket after a series of writes, each followed by its prune. */
  function Bucket(ws: seq<Write>): set<Record> {
    if ws == [] then {}
    else Kept(Bucket(ws[..|ws| - 1]) + ws[|ws| - 1].added, ws[|ws| - 1].caps)
  }

  predicate Tightening(ws: seq<Write>) {
    forall i :: 0 < i < |ws| ==> Tighter(ws[i - 1].caps, ws[i].caps)
  }

  /**
   With caps that never loosen (a fixed count and a cutoff that follows the clock), the bucket always holds exactly
   the newest records, at most max of them, among all ever written at or after the cutoff.
   */
  lemma {:induction false} BucketIsNewestOfAll(ws: seq<Write>)
    requires ws != [] && WellKeyed(AllWritten(ws)) && Tightening(ws)
    ensures Bucket(ws) == Kept(AllWritten(ws), ws[|ws| - 1].caps)
  {
    var n := |ws| - 1;
    var front, last := ws[..n], ws[n];
    if n > 0 {
      BucketIsNewestOfAll(front);
      assert Tighter(ws[n - 1].caps, ws[n].caps);
      PruneOnceIsEnough(AllWritten(front), last.added, front[n - 1].caps, last.caps);
    } else {
      assert {} + last.added == last.added;
    }
  }

  /** All records ever written. */
  function Logged(log: seq<Event>): set<Record> {
    if log == [] then {}
    else
      var n := |log|;
      Logged(log[..n - 1]) + {Record(EventKey(log[n - 1].time, n), log[n - 1])}
  }

  lemma {:induction false} LoggedIsOk(log: seq<Event>)
    ensures forall r :: r in Logged(log) ==> RecordOk(r, log)
  {
    if log != [] {
      var front, n := log[..|log| - 1], |log|;
      LoggedIsOk(front);
      forall r | r in Logged(log) ensures RecordOk(r, log) {
        if r in Logged(front) {
          var s: nat :| IsNth(r, front, s);
          assert IsNth(r, log, s);
        } else {
          assert IsNth(r, log, n);
        }
      }
    }
  }

  lemma LoggedIsWellKeyed(log: seq<Event>)
    requires LogOk(log) && NonNegative(log)
    ensures WellKeyed(Logged(log))
  {
    LoggedIsOk(log);
    forall x, y | x in Logged(log) && y in Logged(log)
      ensures (Less(x.key, y.key) ==> x.event.time <= y.event.time) && (x.key == y.key ==> x == y)
    {
      LogOrder(x, y, log);
    }
  }

  lemma LoggedGrows(log: seq<Event>, e: Event)
    ensures Logged(log + [e]) == Logged(log) + {Record(EventKey(e.time, |log| + 1), e)}
    ensures forall r :: RecordOk(r, log) ==> RecordOk(r, log + [e])
  {
    assert (log + [e])[..|log|] == log;
    forall r | RecordOk(r, log) ensures RecordOk(r, log + [e]) {
      var s: nat :| IsNth(r, log, s);
      assert IsNth(r, log + [e], s);
    }
  }

  lemma NthKeyIsNotNext(r: Record, s: nat, log: seq<Event>, e: Event)
    requires LogOk(log) && IsNth(r, log, s) && BigEndian.IsInt64(e.time) && |log| + 1 < BigEndian.TWO_TO_64
    ensures r.key != EventKey(e.time, |log| + 1)
  {
    assert r.event in log;
    KeyOrder(r.event.time, s, e.time, |log| + 1);
  }

  /** A new key is not in use. */
  lemma NextKeyIsNew(rs: seq<Record>, log: seq<Event>, e: Event)
    requires BucketOk(rs, log) && BigEndian.IsInt64(e.time) && |log| + 1 < BigEndian.TWO_TO_64
    ensures forall r :: r in rs ==> r.key != EventKey(e.time, |log| + 1)
  {
    forall r | r in rs ensures r.key != EventKey(e.time, |log| + 1) {
      var s: nat :| IsNth(r, log, s);
      NthKeyIsNotNext(r, s, log, e);
    }
  }

  lemma LogOkPrefix(start: seq<Event>, batch: seq<Event>, i: nat)
    requires LogOk(start + batch) && i < |batch|
    ensures start + batch[..i] + [batch[i]] == start + batch[..i + 1]
    ensures LogOk(start + batch[..i] + [batch[i]])
  {
    var done := start + batch[..i] + [batch[i]];
    assert forall x :: x in done ==> x in start + batch;
  }

  lemma PutKeepsBucket(rs: seq<Record>, log: seq<Event>, e: Event)
    requires BucketOk(rs, log) && LogOk(log + [e])
    ensures var r := Record(EventKey(e.time, |log| + 1), e);
      BucketOk(Insert(r, rs), log + [e]) &&
      Elements(Insert(r, rs)) == Elements(rs) + {r} && |Insert(r, rs)| == |rs| + 1
  {
    var r := Record(EventKey(e.time, |log| + 1), e);
    assert e in log + [e];
    NextKeyIsNew(rs, log, e);
    InsertSorted(r, rs);
    LoggedGrows(log, e);
    assert IsNth(r, log + [e], |log| + 1);
  }

  // ------------------------------------------------------------------
  // The operations.

  /** How many records the age prune deletes: those before the first one in the window. */
  function Stale(rs: seq<Record>, cutoff: int): (n: nat)
    ensures n <= |rs|
    ensures forall i :: 0 <= i < n ==> rs[i].event.time < cutoff
    ensures n < |rs| ==> rs[n].event.time >= cutoff
  {
    StaleFrom(rs, 0, cutoff)
  }

  function StaleFrom(rs: seq<Record>, i: nat, cutoff: int): (n: nat)
    requires i <= |rs|
    ensures i <= n <= |rs|
    ensures forall j :: i <= j < n ==> rs[j].event.time < cutoff
    ensures n < |rs| ==> rs[n].event.time >= cutoff
    decreases |rs| - i
  {
    if i == |rs| || rs[i].event.time >= cutoff then i else StaleFrom(rs, i + 1, cutoff)
  }

  function Over(count: nat, max: int): nat {
    if max > 0 && count > max then count - max else 0
  }

  function AfterAge(rs: seq<Record>, caps: Caps): seq<Record> {
    if caps.age.Some? then rs[Stale(rs, caps.age.value)..] else rs
  }

  function AfterPrune(rs: seq<Record>, caps: Caps): seq<Record> {
    var young := AfterAge(rs, caps);
    young[Over(|young|, caps.max)..]
  }

  lemma SuffixIsOk(rs: seq<Record>, log: seq<Event>, n: nat)
    requires BucketOk(rs, log) && n <= |rs|
    ensures BucketOk(rs[n..], log)
  {
    forall r | r in rs[n..] ensures r in rs {
      var j :| 0 <= j < |rs[n..]| && rs[n..][j] == r;
      assert rs[n + j] == r;
    }
  }

  lemma AfterPruneIs(rs: seq<Record>, caps: Caps) returns (a: nat, n: nat)
    ensures a == (if caps.age.Some? then Stale(rs, caps.age.value) else 0) && n == a + Over(|rs| - a, caps.max)
    ensures n <= |rs| && AfterPrune(rs, caps) == rs[n..]
  {
    a := if caps.age.Some? then Stale(rs, caps.age.value) else 0;
    n := a + Over(|rs| - a, caps.max);
  }

  /** The two prunes together keep exactly the surviving records of any bucket whose key order refines time order. */
  lemma PruneIsKept(rs: seq<Record>, caps: Caps)
    requires Sorted(rs) && WellKeyed(Elements(rs))
    ensures Elements(AfterPrune(rs, caps)) == Kept(Elements(rs), caps)
  {
    var a, n := AfterPruneIs(rs, caps);
    forall i: nat | n <= i < |rs| ensures caps.age.Some? ==> rs[i].event.time >= caps.age.value {
      assert rs[a] in Elements(rs) && rs[i] in Elements(rs);
      assert a < i ==> Less(rs[a].key, rs[i].key);
    }
    CutIsKept(rs, caps, n);
  }

  lemma BucketIsWellKeyed(rs: seq<Record>, log: seq<Event>)
    requires BucketOk(rs, log) && NonNegative(log)
    ensures WellKeyed(Elements(rs))
  {
    forall x, y | x in Elements(rs) && y in Elements(rs)
      ensures (Less(x.key, y.key) ==> x.event.time <= y.event.time) && (x.key == y.key ==> x == y)
    {
      LogOrder(x, y, log);
    }
  }

  /** pruneBucket: exactly the surviving records stay when no event has a negative time. */
  lemma PruneKeeps(rs: seq<Record>, log: seq<Event>, caps: Caps)
    requires BucketOk(rs, log)
    ensures BucketOk(AfterPrune(rs, caps), log)
    ensures NonNegative(log) ==> Elements(AfterPrune(rs, caps)) == Kept(Elements(rs), caps)
  {
    var a, n := AfterPruneIs(rs, caps);
    SuffixIsOk(rs, log, n);
    if NonNegative(log) {
      BucketIsWellKeyed(rs, log);
      PruneIsKept(rs, caps);
    }
  }

  lemma TimesAscend(rs: seq<Record>, log: seq<Event>, i: nat, j: nat)
    requires BucketOk(rs, log) && NonNegative(log) && i <= j < |rs|
    ensures rs[i].event.time <= rs[j].event.time
  {
    assert rs[i] in rs && rs[j] in rs;
    if i < j { LogOrder(rs[i], rs[j], log); }
  }

  /** The records of a set in key order. */
  lemma {:induction false} InKeyOrder(all: set<Record>) returns (rs: seq<Record>)
    requires WellKeyed(all)
    ensures Sorted(rs) && Elements(rs) == all
    decreases |all|
  {
    if all == {} {
      rs := [];
    } else {
      var r :| r in all;
      var rest := InKeyOrder(all - {r});
      assert forall x :: x in rest ==> x in Elements(rest);
      InsertSorted(r, rest);
      rs := Insert(r, rest);
      forall x ensures x in rs <==> x in all {
        assert x in rest <==> x in Elements(rest);
      }
    }
  }

  lemma AfterPruneSize(rs: seq<Record>, caps: Caps)
    ensures caps.max > 0 ==> |AfterPrune(rs, caps)| == Min(caps.max, |AfterPrune(rs, caps.(max := 0))|)
  {
  }

  /**
   What survives is the newest of the records in the age window, as many as the count cap allows: its size is the smaller
   of the cap and the window's size, and each record of the window that goes is older than each that stays.
   */
  lemma KeptIsNewestOfWindow(all: set<Record>, caps: Caps)
    requires WellKeyed(all) && caps.max > 0
    ensures var window, kept := Kept(all, caps.(max := 0)), Kept(all, caps);
      kept <= window && |kept| == Min(caps.max, |window|) &&
      forall x, y :: x in window && x !in kept && y in kept ==> Less(x.key, y.key)
  {
    var rs := InKeyOrder(all);
    var free := caps.(max := 0);
    PruneIsKept(rs, caps);
    PruneIsKept(rs, free);
    AfterPruneSize(rs, caps);
    PruneIsSorted(rs, caps);
    PruneIsSorted(rs, free);
    SortedSize(AfterPrune(rs, caps));
    SortedSize(AfterPrune(rs, free));
    forall x, y | x in Kept(all, free) && x !in Kept(all, caps) && y in Kept(all, caps) ensures Less(x.key, y.key) {
      NotNewerIsLess(all, x, y, caps.max);
    }
  }

  lemma PruneIsSorted(rs: seq<Record>, caps: Caps)
    requires Sorted(rs)
    ensures Sorted(AfterPrune(rs, caps))
  {
    var _, n := AfterPruneIs(rs, caps);
  }

  lemma NotNewerIsLess(all: set<Record>, x: Record, y: Record, max: int)
    requires |Newer(all, x)| >= max > |Newer(all, y)|
    ensures Less(x.key, y.key) || x.key == y.key
  {
    if !Less(x.key, y.key) && x.key != y.key {
      LessTotal(x.key, y.key);
      forall z | z in Newer(all, x) ensures z in Newer(all, y) {
        LessTransitive(y.key, x.key, z.key);
      }
      SubsetSize(Newer(all, x), Newer(all, y));
    }
  }

  /** Category settings: control events have only a fixed count cap, data events a count cap and an age cap, each off at zero. */
  datatype Settings = ControlLog(maxControl: int) | DataLog(maxCount: int, maxAge: int)

  function CapsAt(settings: Settings, now: int): Caps {
    match settings
    case ControlLog(max) => Caps(None, max)
    case DataLog(max, age) => Caps(if age > 0 then Some(now - age) else None, max)
  }

  /** A cutoff that follows a clock which does not go back never loosens. */
  lemma ClockTightens(settings: Settings, now: int, later: int)
    requires now <= later
    ensures Tighter(CapsAt(settings, now), CapsAt(settings, later))
  {
  }

  /**
   What a prune promises about the records before and after it: nothing older than the age cap allows is left, at most
   max are left, and a record goes only for its age or because max newer ones were there. A cap that is not positive is off.
   */
  ghost predicate PrunedTo(before: set<Record>, after: set<Record>, maxAge: int, maxCount: int, now: int) {
    after <= before &&
    (maxAge > 0 ==> forall r :: r in after ==> r.event.time >= now - maxAge) &&
    (maxCount > 0 ==> |after| <= maxCount) &&
    forall r :: r in before && r !in after ==>
      (maxAge > 0 && r.event.time < now - maxAge) || (maxCount > 0 && Crowded(before, r, maxCount))
  }

  /** At least n records with larger keys. */
  ghost predicate Crowded(all: set<Record>, r: Record, n: int) {
    exists crowd: set<Record> :: crowd <= all && |crowd| >= n && forall x :: x in crowd ==> Less(r.key, x.key)
  }

  lemma KeptMeans(all: set<Record>, caps: Caps)
    requires WellKeyed(all)
    ensures caps.max > 0 ==> |Kept(all, caps)| <= caps.max
    ensures forall r :: r in all && r !in Kept(all, caps) ==>
      (caps.age.Some? && r.event.time < caps.age.value) || (caps.max > 0 && Crowded(all, r, caps.max))
  {
    if caps.max > 0 { KeptIsNewestOfWindow(all, caps); }
    forall r | r in all && r !in Kept(all, caps)
      ensures (caps.age.Some? && r.event.time < caps.age.value) || (caps.max > 0 && Crowded(all, r, caps.max))
    {
      var crowd := Newer(all, r);
      assert crowd <= all;
    }
  }

  lemma KeptIsPruned(all: set<Record>, settings: Settings, now: int)
    requires WellKeyed(all)
    ensures var after := Kept(all, CapsAt(settings, now));
      if settings.ControlLog? then PrunedTo(all, after, 0, settings.maxControl, now)
      else PrunedTo(all, after, settings.maxAge, settings.maxCount, now)
  {
    KeptMeans(all, CapsAt(settings, now));
  }

  /** The record the i-th event of a batch becomes, numbered on from what was written before. */
  function NthOf(written: nat, batch: seq<Event>, i: nat): Record
    requires i < |batch|
  {
    Record(EventKey(batch[i].time, written + i + 1), batch[i])
  }

  function RecordsOf(written: nat, batch: seq<Event>, n: nat): set<Record>
    requires n <= |batch|
  {
    if n == 0 then {} else RecordsOf(written, batch, n - 1) + {NthOf(written, batch, n - 1)}
  }

  lemma UnionStep(a: set<Record>, b: set<Record>, r: Record)
    ensures (a + b) + {r} == a + (b + {r})
  {
  }

  function Delete(rs: seq<Record>, key: Str): seq<Record> {
    if rs == [] then [] else if rs[0].key == key then rs[1..] else [rs[0]] + Delete(rs[1..], key)
  }

  class EventBucket {
    var sequence: nat
    var records: seq<Record>
    ghost var log: seq<Event>

    ghost predicate Valid() reads this {
      sequence == |log| && BucketOk(records, log)
    }

    constructor ()
      ensures Valid() && records == [] && log == []
    {
      sequence, records, log := 0, [], [];
    }

    method PutEvent(e: Event)
      requires Valid() && LogOk(log + [e])
      modifies this
      ensures Valid() && log == old(log) + [e] && |records| == |old(records)| + 1
      ensures Elements(records) == Elements(old(records)) + {Record(EventKey(e.time, |log|), e)}
      ensures Logged(log) == Logged(old(log)) + {Record(EventKey(e.time, |log|), e)}
    {
      PutKeepsBucket(records, log, e);
      LoggedGrows(log, e);
      var next := sequence + 1;
      sequence, records, log := next, Insert(Record(EventKey(e.time, next), e), records), log + [e];
    }

    method PruneByAge(cutoff: int)
      requires Valid()
      modifies this`records
      ensures records == old(records)[Stale(old(records), cutoff)..]
    {
      var stale: seq<Str> := [];
      var i := 0;
      ghost var was := records;
      KeysReadable(records, log);
      while i < |records|
        invariant 0 <= i <= |records| == |was| && records == was
        invariant |stale| == i && forall j :: 0 <= j < i ==> stale[j] == was[j].key
        invariant Stale(was, cutoff) == StaleFrom(was, i, cutoff)
      {
        var nano := KeyTime(records[i].key);
        if nano >= cutoff { break; }
        stale := stale + [records[i].key];
        i := i + 1;
      }
      var k := 0;
      while k < |stale|
        invariant 0 <= k <= |stale| <= |was| && records == was[k..]
      {
        records := Delete(records, stale[k]);
        k := k + 1;
      }
    }

    method PruneByCount(max: int)
      modifies this`records
      ensures records == old(records)[Over(|old(records)|, max)..]
    {
      if max <= 0 { return; }
      var count := 0;
      while count < |records|
        invariant count <= |records|
      {
        count := count + 1;
      }
      var over := count - max;
      if over <= 0 { return; }
      ghost var was := records;
      while records != [] && over > 0
        invariant 0 <= over <= |was| - max && records == was[|was| - max - over..]
        decreases over
      {
        records := records[1..];
        over := over - 1;
      }
    }

    method PruneBucket(caps: Caps)
      requires Valid()
      modifies this`records
      ensures Valid() && records == AfterPrune(old(records), caps)
      ensures NonNegative(log) ==> Elements(records) == Kept(Elements(old(records)), caps)
    {
      PruneKeeps(records, log, caps);
      ghost var was := records;
      if caps.age.Some? {
        PruneByAge(caps.age.value);
      }
      PruneByCount(caps.max);
    }

    /**
     AppendEvent: the bucket's age cutoff counts from the event's own time. As for a flush, a bucket that held the newest of
     everything ever written still does, under caps no looser than before; the control log's caps never change, so there
     that is an invariant.
     */
    method AppendEvent(e: Event, settings: Settings)
      requires Valid() && LogOk(log + [e])
      modifies this
      ensures Valid() && log == old(log) + [e]
      ensures NonNegative(log) ==>
        Elements(records) == Kept(Elements(old(records)) + {Record(EventKey(e.time, |log|), e)}, CapsAt(settings, e.time))
      ensures NonNegative(log) ==>
        forall was | Tighter(was, CapsAt(settings, e.time)) && Elements(old(records)) == Kept(Logged(old(log)), was) ::
          Elements(records) == Kept(Logged(log), CapsAt(settings, e.time))
      ensures NonNegative(log) ==>
        var before := Elements(old(records)) + {Record(EventKey(e.time, |log|), e)};
        if settings.ControlLog? then PrunedTo(before, Elements(records), 0, settings.maxControl, e.time)
        else PrunedTo(before, Elements(records), settings.maxAge, settings.maxCount, e.time)
      ensures NonNegative(log) && settings.ControlLog? && Elements(old(records)) == Kept(Logged(old(log)), CapsAt(settings, 0)) ==>
        Elements(records) == Kept(Logged(log), CapsAt(settings, 0))
    {
      var caps := CapsAt(settings, e.time);
      PutEvent(e);
      if NonNegative(log) {
        BucketIsWellKeyed(records, log);
        KeptIsPruned(Elements(records), settings, e.time);
      }
      PruneBucket(caps);
      if NonNegative(log) {
        LoggedIsWellKeyed(log);
        FlushKeepsNewest(Logged(old(log)), {Record(EventKey(e.time, |log|), e)}, caps);
      }
    }

    method PutAll(batch: seq<Event>)
      requires Valid() && LogOk(log + batch)
      modifies this
      ensures Valid() && log == old(log) + batch
      ensures Elements(records) == Elements(old(records)) + RecordsOf(|old(log)|, batch, |batch|)
      ensures Logged(log) == Logged(old(log)) + RecordsOf(|old(log)|, batch, |batch|)
    {
      ghost var start, had := log, Elements(records);
      var i := 0;
      while i < |batch|
        invariant 0 <= i <= |batch| && Valid() && log == start + batch[..i]
        invariant Elements(records) == had + RecordsOf(|start|, batch, i)
        invariant Logged(log) == Logged(start) + RecordsOf(|start|, batch, i)
      {
        ghost var r, put := NthOf(|start|, batch, i), RecordsOf(|start|, batch, i);
        PutNext(batch, start, i);
        UnionStep(had, put, r);
        UnionStep(Logged(start), put, r);
        i := i + 1;
      }
      assert batch[..i] == batch;
    }

    method PutNext(batch: seq<Event>, ghost start: seq<Event>, i: nat)
      requires Valid() && LogOk(start + batch) && i < |batch| && log == start + batch[..i]
      modifies this
      ensures Valid() && log == start + batch[..i + 1]
      ensures Elements(records) == Elements(old(records)) + {NthOf(|start|, batch, i)}
      ensures Logged(log) == Logged(old(log)) + {NthOf(|start|, batch, i)}
    {
      LogOkPrefix(start, batch, i);
      PutEvent(batch[i]);
    }

    /**
     flushEvents. An empty batch touches nothing, not even to prune. Otherwise, if the bucket held the newest records of
     everything ever written, under caps no tighter than the present ones, it holds the newest of everything written now.
     */
    method FlushEvents(batch: seq<Event>, settings: Settings, now: int)
      requires Valid() && LogOk(log + batch)
      modifies this
      ensures Valid() && log == old(log) + batch
      ensures batch == [] ==> records == old(records)
      ensures batch != [] && NonNegative(log) ==>
        var before := Elements(old(records)) + RecordsOf(|old(log)|, batch, |batch|);
        if settings.ControlLog? then PrunedTo(before, Elements(records), 0, settings.maxControl, now)
        else PrunedTo(before, Elements(records), settings.maxAge, settings.maxCount, now)
      ensures batch != [] && NonNegative(log) ==>
        forall was | Tighter(was, CapsAt(settings, now)) && Elements(old(records)) == Kept(Logged(old(log)), was) ::
          Elements(records) == Kept(Logged(log), CapsAt(settings, now))
    {
      if batch == [] {
        assert log + batch == log;
        return;
      }
      PutAll(batch);
      var caps := CapsAt(settings, now);
      if NonNegative(log) {
        BucketIsWellKeyed(records, log);
        KeptIsPruned(Elements(records), settings, now);
      }
      PruneBucket(caps);
      if NonNegative(log) {
        LoggedIsWellKeyed(log);
        FlushKeepsNewest(Logged(old(log)), RecordsOf(|old(log)|, batch, |batch|), caps);
      }
    }

    /**
     QueryEvents: from the newest record back, skipping those not older than the cursor. What it needs of the bucket is
     only that keys carry times, which KeysReadable derives from Valid().
     */
    method QueryEvents(limit: int, before: int) returns (out: seq<Event>)
      requires KeysCarryTimes(records)
      ensures AreEvents(out, Query(records, limit, before))
    {
      out := [];
      if limit <= 0 { return; }
      var rs := records;
      var i := |rs|;
      ghost var taken: seq<Record> := [];
      while i > 0 && |out| < limit
        invariant 0 <= i <= |rs| && |out| <= limit && AreEvents(out, taken)
        invariant Older(rs, before) == taken + OlderTo(rs, i, before)
      {
        i := i - 1;
        var r := rs[i];
        OlderStep(rs, i, before, taken);
        var nano := KeyTime(r.key);
        if before > 0 && nano >= before { continue; }
        out := out + [r.event];
        taken := taken + [r];
      }
      ScanIsQuery(rs, limit, before, taken, i);
    }
  }

  // ------------------------------------------------------------------
  // Paging.

  /** The records a cursor lets through, newest first; a cursor that is not positive lets all of them through. */
  function Older(rs: seq<Record>, before: int): seq<Record> {
    OlderTo(rs, |rs|, before)
  }

  function OlderTo(rs: seq<Record>, n: nat, before: int): seq<Record>
    requires n <= |rs|
  {
    if n == 0 then []
    else (if Passes(rs[n - 1], before) then [rs[n - 1]] else []) + OlderTo(rs, n - 1, before)
  }

  lemma OlderStep(rs: seq<Record>, i: nat, before: int, taken: seq<Record>)
    requires i < |rs|
    ensures taken + OlderTo(rs, i + 1, before) ==
      (if Passes(rs[i], before) then taken + [rs[i]] else taken) + OlderTo(rs, i, before)
  {
  }

  lemma ScanIsQuery(rs: seq<Record>, limit: int, before: int, taken: seq<Record>, i: nat)
    requires i <= |rs| && 0 < limit && |taken| <= limit && (i == 0 || |taken| == limit)
    requires Older(rs, before) == taken + OlderTo(rs, i, before)
    ensures Query(rs, limit, before) == taken
  {
  }

  predicate KeysCarryTimes(rs: seq<Record>) {
    forall i :: 0 <= i < |rs| ==> |rs[i].key| == 16 && KeyTime(rs[i].key) == rs[i].event.time
  }

  lemma KeysReadable(rs: seq<Record>, log: seq<Event>)
    requires BucketOk(rs, log)
    ensures KeysCarryTimes(rs)
  {
    forall i | 0 <= i < |rs| ensures |rs[i].key| == 16 && KeyTime(rs[i].key) == rs[i].event.time {
      assert rs[i] in rs;
      RecordTime(rs[i], log);
    }
  }

  function Query(rs: seq<Record>, limit: int, before: int): seq<Record> {
    var all := Older(rs, before);
    if limit <= 0 then [] else all[..Min(limit, |all|)]
  }

  /**
   What a query gives: newest first, records strictly older than a positive cursor, at most limit of them, and none of those
   left out is newer than one given, nor is any left out while there is room.
   */
  predicate Selects(rs: seq<Record>, taken: seq<Record>, limit: int, before: int) {
    Descending(taken) && |taken| <= Max(limit, 0) &&
    (forall r :: r in taken ==> r in rs && (before > 0 ==> r.event.time < before)) &&
    forall r :: r in rs && (before > 0 ==> r.event.time < before) && r !in taken ==>
      |taken| == Max(limit, 0) && forall x :: x in taken ==> Less(r.key, x.key)
  }

  lemma QuerySelects(rs: seq<Record>, limit: int, before: int)
    requires Sorted(rs)
    ensures Selects(rs, Query(rs, limit, before), limit, before)
  {
    var all, page := Older(rs, before), Query(rs, limit, before);
    OlderMembers(rs, before);
    OlderDescends(rs, before);
    assert limit > 0 ==> page == all[..|page|];
    FrontSelects(all, page);
  }

  lemma FrontSelects(all: seq<Record>, page: seq<Record>)
    requires Descending(all) && |page| <= |all| && page == all[..|page|]
    ensures Descending(page) && forall r :: r in page ==> r in all
    ensures forall r, x :: r in all && r !in page && x in page ==> Less(r.key, x.key)
  {
    forall i | 0 <= i < |page| ensures all[i] in page {
      assert page[i] == all[i];
    }
    forall r, x | r in all && r !in page && x in page ensures Less(r.key, x.key) {
      var i :| 0 <= i < |all| && all[i] == r;
      var j :| 0 <= j < |page| && page[j] == x;
      assert all[j] == x;
    }
  }

  predicate AreEvents(out: seq<Event>, rs: seq<Record>) {
    |out| == |rs| && forall i :: 0 <= i < |rs| ==> out[i] == rs[i].event
  }

  /** A client that passes the timestamp of the oldest event it has seen; it stops at an empty page. */
  function Visit(rs: seq<Record>, limits: seq<int>, before: int): seq<Record> {
    if limits == [] then []
    else
      var page := Query(rs, limits[0], before);
      if page == [] then [] else page + Visit(rs, limits[1..], page[|page| - 1].event.time)
  }

  predicate Ended(rs: seq<Record>, limits: seq<int>, before: int) {
    limits != [] &&
    var page := Query(rs, limits[0], before);
    page == [] || Ended(rs, limits[1..], page[|page| - 1].event.time)
  }

  predicate AllPositive(limits: seq<int>) {
    forall i :: 0 <= i < |limits| ==> limits[i] > 0
  }

  predicate Passes(r: Record, before: int) {
    before > 0 ==> r.event.time < before
  }

  predicate Descending(rs: seq<Record>) {
    forall i, j :: 0 <= i < j < |rs| ==> Less(rs[j].key, rs[i].key)
  }

  predicate DistinctTimes(rs: seq<Record>) {
    forall i, j :: 0 <= i < j < |rs| ==> rs[i].event.time != rs[j].event.time
  }

  predicate Rising(rs: seq<Record>) {
    forall i, j :: 0 <= i < j < |rs| ==> rs[i].event.time < rs[j].event.time
  }

  lemma DistinctIsRising(rs: seq<Record>, log: seq<Event>)
    requires BucketOk(rs, log) && NonNegative(log)
    ensures DistinctTimes(rs) <==> Rising(rs)
  {
    forall i, j | 0 <= i < j < |rs| ensures rs[i].event.time <= rs[j].event.time {
      TimesAscend(rs, log, i, j);
    }
  }

  lemma {:induction false} OlderToMembers(rs: seq<Record>, n: nat, before: int)
    requires n <= |rs|
    ensures forall r :: r in OlderTo(rs, n, before) <==> r in rs[..n] && Passes(r, before)
  {
    if n > 0 {
      OlderToMembers(rs, n - 1, before);
      assert rs[..n] == rs[..n - 1] + [rs[n - 1]];
    }
  }

  lemma OlderMembers(rs: seq<Record>, before: int)
    ensures forall r :: r in Older(rs, before) <==> r in rs && Passes(r, before)
  {
    OlderToMembers(rs, |rs|, before);
    assert rs[..|rs|] == rs;
  }

  lemma OlderToMember(rs: seq<Record>, n: nat, before: int, k: nat)
    requires n <= |rs| && k < |OlderTo(rs, n, before)|
    ensures exists i :: 0 <= i < n && rs[i] == OlderTo(rs, n, before)[k] && Passes(rs[i], before)
  {
    var r := OlderTo(rs, n, before)[k];
    OlderToMembers(rs, n, before);
    assert r in OlderTo(rs, n, before);
    var i :| 0 <= i < n && rs[..n][i] == r;
    assert rs[i] == r;
  }

  lemma {:induction false} OlderToDescends(rs: seq<Record>, n: nat, before: int)
    requires Sorted(rs) && n <= |rs|
    ensures Descending(OlderTo(rs, n, before))
  {
    if n > 0 {
      OlderToDescends(rs, n - 1, before);
      var tail := OlderTo(rs, n - 1, before);
      forall j: nat | j < |tail| ensures Less(tail[j].key, rs[n - 1].key) {
        OlderToMember(rs, n - 1, before, j);
      }
    }
  }

  lemma OlderDescends(rs: seq<Record>, before: int)
    requires Sorted(rs)
    ensures Descending(Older(rs, before))
  {
    OlderToDescends(rs, |rs|, before);
  }

  /** Two cursors that let every record through agree. */
  lemma {:induction false} OlderAgree(rs: seq<Record>, n: nat, b1: int, b2: int)
    requires n <= |rs| && forall i :: 0 <= i < n ==> Passes(rs[i], b1) && Passes(rs[i], b2)
    ensures OlderTo(rs, n, b1) == OlderTo(rs, n, b2)
  {
    if n > 0 {
      OlderAgree(rs, n - 1, b1, b2);
    }
  }

  /** A cursor at a seen record continues right behind it when no other record shares its time. */
  lemma {:induction false} CursorContinues(rs: seq<Record>, n: nat, before: int, all: seq<Record>, k: nat, t: int)
    requires Rising(rs) && n <= |rs| && all == OlderTo(rs, n, before) && k < |all| && t == all[k].event.time > 0
    ensures OlderTo(rs, n, t) == all[k + 1..]
    decreases n
  {
    var last, tail := rs[n - 1], OlderTo(rs, n - 1, before);
    if !Passes(last, before) {
      SeenIsOlder(rs, n, before, k);
      CursorContinues(rs, n - 1, before, tail, k, t);
    } else if k == 0 {
      assert all[1..] == tail;
      OlderAgree(rs, n - 1, before, t);
    } else {
      BehindFirst(last, tail, all, k);
      SeenIsOlder(rs, n, before, k - 1);
      CursorContinues(rs, n - 1, before, tail, k - 1, t);
    }
  }

  lemma BehindFirst(first: Record, tail: seq<Record>, all: seq<Record>, k: nat)
    requires all == [first] + tail && 0 < k < |all|
    ensures all[k] == tail[k - 1] && all[k + 1..] == tail[k..]
  {
  }

  lemma SeenIsOlder(rs: seq<Record>, n: nat, before: int, k: nat)
    requires Rising(rs) && 0 < n <= |rs| && k < |OlderTo(rs, n - 1, before)|
    ensures OlderTo(rs, n - 1, before)[k].event.time < rs[n - 1].event.time
  {
    OlderToMember(rs, n - 1, before, k);
  }

  lemma {:induction false} DescendingSize(rs: seq<Record>)
    requires Descending(rs)
    ensures |Elements(rs)| == |rs|
  {
    if rs != [] {
      var n := |rs| - 1;
      DescendingSize(rs[..n]);
      assert rs == rs[..n] + [rs[n]];
      LessIrreflexive(rs[n].key);
      forall i | 0 <= i < n ensures rs[i] != rs[n] {
        assert Less(rs[n].key, rs[i].key);
      }
      assert Elements(rs) == Elements(rs[..n]) + {rs[n]};
    }
  }

  lemma OlderShrinks(rs: seq<Record>, before: int, last: Record)
    requires Sorted(rs) && last in Older(rs, before) && last.event.time > 0
    ensures |Older(rs, last.event.time)| < |Older(rs, before)|
  {
    var a, b := Older(rs, last.event.time), Older(rs, before);
    OlderMembers(rs, before);
    OlderMembers(rs, last.event.time);
    OlderDescends(rs, before);
    OlderDescends(rs, last.event.time);
    DescendingSize(a);
    DescendingSize(b);
    SubsetSize(Elements(a), Elements(b) - {last});
  }

  predicate PositiveTimes(rs: seq<Record>) {
    forall r :: r in rs ==> r.event.time > 0
  }

  lemma DescendingAppend(page: seq<Record>, rest: seq<Record>)
    requires page != [] && Descending(page) && Descending(rest)
    requires forall r :: r in rest ==> Less(r.key, page[|page| - 1].key)
    ensures Descending(page + rest)
  {
    forall i, j | 0 <= i < |page| && 0 <= j < |rest| ensures Less(rest[j].key, page[i].key) {
      assert rest[j] in rest;
      if i < |page| - 1 { LessTransitive(rest[j].key, page[|page| - 1].key, page[i].key); }
    }
  }

  predicate KeysFollowTimes(rs: seq<Record>) {
    forall x, y :: x in rs && y in rs && x.event.time < y.event.time ==> Less(x.key, y.key)
  }

  lemma PageMembers(rs: seq<Record>, limit: int, before: int, r: Record)
    requires r in Query(rs, limit, before)
    ensures r in rs && Passes(r, before)
  {
    OlderMembers(rs, before);
    assert r in Older(rs, before);
  }

  lemma VisitSplits(rs: seq<Record>, limits: seq<int>, before: int, r: Record) returns (last: Record)
    requires r in Visit(rs, limits, before)
    ensures limits != [] && last in Query(rs, limits[0], before)
    ensures r in Query(rs, limits[0], before) || r in Visit(rs, limits[1..], last.event.time)
  {
    var page := Query(rs, limits[0], before);
    last := page[|page| - 1];
  }

  lemma {:induction false} VisitMembers(rs: seq<Record>, limits: seq<int>, before: int, r: Record)
    requires PositiveTimes(rs) && r in Visit(rs, limits, before)
    ensures r in rs && Passes(r, before)
  {
    var last := VisitSplits(rs, limits, before, r);
    PageMembers(rs, limits[0], before, last);
    if r in Query(rs, limits[0], before) {
      PageMembers(rs, limits[0], before, r);
    } else {
      VisitMembers(rs, limits[1..], last.event.time, r);
    }
  }

  lemma RestIsBelow(rs: seq<Record>, limits: seq<int>, last: Record)
    requires KeysFollowTimes(rs) && PositiveTimes(rs) && last in rs
    ensures forall r :: r in Visit(rs, limits, last.event.time) ==> Less(r.key, last.key)
  {
    forall r | r in Visit(rs, limits, last.event.time) ensures Less(r.key, last.key) {
      VisitMembers(rs, limits, last.event.time, r);
    }
  }

  lemma PageDescends(rs: seq<Record>, limit: int, before: int)
    requires Sorted(rs)
    ensures Descending(Query(rs, limit, before))
  {
    OlderDescends(rs, before);
  }

  lemma {:induction false} PagesDescend(rs: seq<Record>, limits: seq<int>, before: int)
    requires Sorted(rs) && KeysFollowTimes(rs) && PositiveTimes(rs)
    ensures Descending(Visit(rs, limits, before))
  {
    if limits != [] && Query(rs, limits[0], before) != [] {
      var page := Query(rs, limits[0], before);
      var last := page[|page| - 1];
      var rest := Visit(rs, limits[1..], last.event.time);
      assert Visit(rs, limits, before) == page + rest;
      PageDescends(rs, limits[0], before);
      PageMembers(rs, limits[0], before, last);
      PagesDescend(rs, limits[1..], last.event.time);
      RestIsBelow(rs, limits[1..], last);
      DescendingAppend(page, rest);
    }
  }

  /** Pages descend without repeating a record, whatever the limits. */
  lemma PagingDescends(rs: seq<Record>, log: seq<Event>, limits: seq<int>)
    requires BucketOk(rs, log) && NonNegative(log) && PositiveTimes(rs)
    ensures Descending(Visit(rs, limits, 0))
    ensures forall r :: r in Visit(rs, limits, 0) ==> r in rs
  {
    BucketFollowsTimes(rs, log);
    PagesDescend(rs, limits, 0);
    forall r | r in Visit(rs, limits, 0) ensures r in rs {
      VisitMembers(rs, limits, 0, r);
    }
  }

  lemma BucketFollowsTimes(rs: seq<Record>, log: seq<Event>)
    requires BucketOk(rs, log) && NonNegative(log)
    ensures KeysFollowTimes(rs)
  {
    forall x, y | x in rs && y in rs && x.event.time < y.event.time ensures Less(x.key, y.key) {
      LogOrder(x, y, log);
    }
  }

  /** Paging ends after at most one page per record and an empty one. */
  lemma {:induction false} PagingEnds(rs: seq<Record>, limits: seq<int>, before: int)
    requires Sorted(rs) && AllPositive(limits) && |limits| > |Older(rs, before)| && PositiveTimes(rs)
    ensures Ended(rs, limits, before)
    decreases |limits|
  {
    var all, page := Older(rs, before), Query(rs, limits[0], before);
    if page != [] {
      var last := page[|page| - 1];
      assert last in all;
      OlderMembers(rs, before);
      OlderShrinks(rs, before, last);
      PagingEnds(rs, limits[1..], last.event.time);
    }
  }

  /** An oldest event at time zero makes paging go round for ever: its cursor is read as "from the newest". */
  lemma {:induction false} ZeroTimeNeverEnds(rs: seq<Record>, limits: seq<int>, before: int)
    requires rs != [] && rs[0].event.time == 0 && AllPositive(limits)
    ensures !Ended(rs, limits, before)
  {
    if limits != [] {
      var page := Query(rs, limits[0], before);
      OlderMembers(rs, before);
      assert rs[0] in Older(rs, before);
      ZeroTimeNeverEnds(rs, limits[1..], page[|page| - 1].event.time);
    }
  }

  /** With distinct positive times a client that pages to the end has seen every record, newest first, whatever its limits. */
  lemma {:induction false} PagingIsComplete(rs: seq<Record>, limits: seq<int>, before: int)
    requires Rising(rs) && AllPositive(limits) && PositiveTimes(rs) && Ended(rs, limits, before)
    ensures Visit(rs, limits, before) == Older(rs, before)
  {
    var all, page := Older(rs, before), Query(rs, limits[0], before);
    if page != [] {
      OlderMembers(rs, before);
      var k := |page| - 1;
      var last := all[k];
      assert last in all;
      CursorContinues(rs, |rs|, before, all, k, last.event.time);
      PagingIsComplete(rs, limits[1..], last.event.time);
      assert Older(rs, last.event.time) == all[k + 1..];
    }
  }

  /** Reading one event a page visits every event if and only if no two share a timestamp. */
  lemma OneAtATimeIsCompleteIffDistinct(rs: seq<Record>, log: seq<Event>, limits: seq<int>)
    requires BucketOk(rs, log) && NonNegative(log) && PositiveTimes(rs)
    requires |limits| > |rs| && forall i :: 0 <= i < |limits| ==> limits[i] == 1
    ensures (forall r :: r in rs ==> r in Visit(rs, limits, 0)) <==> DistinctTimes(rs)
  {
    DistinctIsRising(rs, log);
    OlderMembers(rs, 0);
    if DistinctTimes(rs) {
      OlderSize(rs, |rs|, 0);
      PagingEnds(rs, limits, 0);
      PagingIsComplete(rs, limits, 0);
    }
    if forall r :: r in rs ==> r in Visit(rs, limits, 0) {
      BucketFollowsTimes(rs, log);
      SinglesHaveDistinctTimes(rs, limits, 0);
      SortedIsInjective(rs);
      var v := Visit(rs, limits, 0);
      forall i, j | 0 <= i < j < |rs| ensures rs[i].event.time != rs[j].event.time {
        assert rs[i] in rs && rs[j] in rs;
        var a :| 0 <= a < |v| && v[a] == rs[i];
        var b :| 0 <= b < |v| && v[b] == rs[j];
        assert rs[i] != rs[j];
        assert a < b || b < a;
      }
    }
  }

  lemma SortedIsInjective(rs: seq<Record>)
    requires Sorted(rs)
    ensures forall i, j :: 0 <= i < j < |rs| ==> rs[i] != rs[j]
  {
    forall i, j | 0 <= i < j < |rs| ensures rs[i] != rs[j] {
      LessIrreflexive(rs[i].key);
    }
  }

  lemma {:induction false} OlderSize(rs: seq<Record>, n: nat, before: int)
    requires n <= |rs|
    ensures |OlderTo(rs, n, before)| <= n
  {
    if n > 0 {
      OlderSize(rs, n - 1, before);
    }
  }

  lemma {:induction false} SinglesHaveDistinctTimes(rs: seq<Record>, limits: seq<int>, before: int)
    requires Sorted(rs) && KeysFollowTimes(rs) && PositiveTimes(rs)
    requires forall i :: 0 <= i < |limits| ==> limits[i] == 1
    ensures DistinctTimes(Visit(rs, limits, before))
  {
    if limits != [] {
      var all, page := Older(rs, before), Query(rs, limits[0], before);
      OlderMembers(rs, before);
      if page != [] {
        var last := page[|page| - 1];
        assert page == [last] && last in all;
        var rest := Visit(rs, limits[1..], last.event.time);
        SinglesHaveDistinctTimes(rs, limits[1..], last.event.time);
        forall j | 0 <= j < |rest| ensures rest[j].event.time != last.event.time {
          VisitMembers(rs, limits[1..], last.event.time, rest[j]);
        }
      }
    }
  }
}
