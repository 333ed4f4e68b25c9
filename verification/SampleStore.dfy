/** Per-minute request counts in one bolt bucket, keyed by the minute in eight big-endian bytes. */
module SampleStore {
  import opened GoStrings
  import BigEndian

  datatype Counts = Counts(c2xx: nat, c4xx: nat, c5xx: nat)

  datatype Sample = Sample(minute: int, counts: Counts)

  datatype Record = Record(key: Str, value: Str)

  function SampleKey(minute: int): (k: Str)
    ensures |k| == 8
  {
    BigEndian.Encode(BigEndian.ToUint64(minute), 8)
  }

  function SampleValue(c: Counts): (v: Str)
    ensures |v| == 12
  {
    BigEndian.Encode(c.c2xx, 4) + BigEndian.Encode(c.c4xx, 4) + BigEndian.Encode(c.c5xx, 4)
  }

  function RecordOf(s: Sample): Record {
    Record(SampleKey(s.minute), SampleValue(s.counts))
  }

  /** How the query reads a record of the right length. */
  function DecodeRecord(r: Record): Sample
    requires |r.value| == 12
  {
    Sample(BigEndian.ToInt64(BigEndian.Decode(r.key)),
           Counts(BigEndian.Decode(r.value[..4]), BigEndian.Decode(r.value[4..8]), BigEndian.Decode(r.value[8..12])))
  }

  /** An int64 minute and three uint32 counts. */
  predicate IsSample(s: Sample) {
    BigEndian.IsInt64(s.minute) && s.counts.c2xx < BigEndian.TWO_TO_32 && s.counts.c4xx < BigEndian.TWO_TO_32 &&
    s.counts.c5xx < BigEndian.TWO_TO_32
  }

  function Unsigned(minute: int): nat {
    BigEndian.ToUint64(minute)
  }

  lemma ValueRoundTrip(c: Counts)
    requires c.c2xx < BigEndian.TWO_TO_32 && c.c4xx < BigEndian.TWO_TO_32 && c.c5xx < BigEndian.TWO_TO_32
    ensures var v := SampleValue(c);
      Counts(BigEndian.Decode(v[..4]), BigEndian.Decode(v[4..8]), BigEndian.Decode(v[8..12])) == c
  {
    assert BigEndian.Pow256(4) == BigEndian.TWO_TO_32;
    BigEndian.RoundTrip(c.c2xx, 4);
    BigEndian.RoundTrip(c.c4xx, 4);
    BigEndian.RoundTrip(c.c5xx, 4);
    var v := SampleValue(c);
    assert v[..4] == BigEndian.Encode(c.c2xx, 4);
    assert v[4..8] == BigEndian.Encode(c.c4xx, 4);
    assert v[8..12] == BigEndian.Encode(c.c5xx, 4);
  }

  lemma RecordRoundTrip(s: Sample)
    requires IsSample(s)
    ensures DecodeRecord(RecordOf(s)) == s
  {
    ValueRoundTrip(s.counts);
    BigEndian.Width8();
    BigEndian.RoundTrip(Unsigned(s.minute), 8);
    BigEndian.Int64RoundTrip(s.minute);
  }

  /** Keys sort by the unsigned minute, and a key belongs to one minute. */
  lemma KeyOrder(a: int, b: int)
    requires BigEndian.IsInt64(a) && BigEndian.IsInt64(b)
    ensures Less(SampleKey(a), SampleKey(b)) <==> Unsigned(a) < Unsigned(b)
    ensures SampleKey(a) == SampleKey(b) <==> a == b
  {
    BigEndian.Width8();
    BigEndian.Order(Unsigned(a), Unsigned(b), 8);
    BigEndian.Int64RoundTrip(a);
    BigEndian.Int64RoundTrip(b);
  }

  predicate Sorted(samples: seq<Sample>) {
    forall i, j :: 0 <= i < j < |samples| ==> Unsigned(samples[i].minute) < Unsigned(samples[j].minute)
  }

  predicate AllSamples(samples: seq<Sample>) {
    forall i :: 0 <= i < |samples| ==> IsSample(samples[i])
  }

  predicate Stores(records: seq<Record>, samples: seq<Sample>) {
    |records| == |samples| && forall i :: 0 <= i < |records| ==> records[i] == RecordOf(samples[i])
  }

  predicate InRange(s: Sample, from: int, to: int) {
    Unsigned(from) <= Unsigned(s.minute) < Unsigned(to)
  }

  /** out is the stretch of samples whose keys are in the range. */
  predicate IsStretch(out: seq<Sample>, samples: seq<Sample>, a: nat, b: nat, from: int, to: int) {
    a <= b <= |samples| && out == samples[a..b] &&
    forall i :: 0 <= i < |samples| ==> (InRange(samples[i], from, to) <==> a <= i < b)
  }

  /** Where a key goes: before the first record whose key is not smaller. */
  ghost predicate IsSlot(samples: seq<Sample>, minute: int, at: nat) {
    at <= |samples| &&
    (forall i :: 0 <= i < at ==> Unsigned(samples[i].minute) < Unsigned(minute)) &&
    (forall i :: at <= i < |samples| ==> Unsigned(minute) <= Unsigned(samples[i].minute))
  }

  class Store {
    var records: seq<Record>
    ghost var samples: seq<Sample>

    ghost predicate Valid() reads this {
      Stores(records, samples) && AllSamples(samples) && Sorted(samples)
    }

    constructor ()
      ensures Valid() && samples == []
    {
      records, samples := [], [];
    }

    /** The cursor's Seek. */
    method Seek(minute: int) returns (at: nat)
      requires Valid() && BigEndian.IsInt64(minute)
      ensures IsSlot(samples, minute, at)
    {
      at := Scan(records, 0, SampleKey(minute));
      StopIsSlot(records, samples, minute, at);
    }

    /** PutRequestSample: a minute has one record, the last one put. */
    method Put(s: Sample)
      requires Valid() && IsSample(s)
      modifies this
      ensures Valid()
      ensures forall x :: x in samples <==> x == s || (x in old(samples) && x.minute != s.minute)
    {
      var at := Seek(s.minute);
      if at < |records| { KeyOrder(samples[at].minute, s.minute); }
      if at < |records| && records[at].key == SampleKey(s.minute) {
        ReplaceAt(samples, s, at);
        records, samples := records[at := RecordOf(s)], samples[at := s];
      } else {
        InsertAt(samples, s, at);
        InsertKeepsStores(records, samples, s, at);
        records, samples := records[..at] + [RecordOf(s)] + records[at..], samples[..at] + [s] + samples[at..];
      }
    }

    /** QueryRequestSamples: from the first key not below the start until a key that is not below the end. */
    method Query(from: int, to: int) returns (out: seq<Sample>)
      requires Valid() && BigEndian.IsInt64(from) && BigEndian.IsInt64(to)
      ensures exists a, b :: IsStretch(out, samples, a, b, from, to)
    {
      var a := Seek(from);
      AllReadable(records, samples);
      ghost var b: nat;
      out, b := Read(records, a, SampleKey(to));
      ReadIsStretch(records, samples, out, from, to, a, b);
    }

    /** PruneRequestSamples: collect the keys below the cutoff, then delete them. */
    method Prune(before: int)
      requires Valid() && BigEndian.IsInt64(before)
      modifies this
      ensures Valid()
      ensures forall x :: x in samples <==> x in old(samples) && Unsigned(before) <= Unsigned(x.minute)
    {
      var stale := Stale(before);
      SuffixMembers(samples, before, |stale|);
      DeleteAll(stale);
    }

    method Stale(before: int) returns (stale: seq<Str>)
      requires Valid() && BigEndian.IsInt64(before)
      ensures IsSlot(samples, before, |stale|)
      ensures forall i :: 0 <= i < |stale| ==> stale[i] == records[i].key
    {
      stale := KeysBelow(records, SampleKey(before));
      StopIsSlot(records, samples, before, |stale|);
    }

    method DeleteAll(stale: seq<Str>)
      requires Valid() && |stale| <= |records| && forall i :: 0 <= i < |stale| ==> stale[i] == records[i].key
      modifies this
      ensures Valid() && samples == old(samples)[|stale|..]
    {
      var k := 0;
      while k < |stale|
        invariant 0 <= k <= |stale| && samples == old(samples)[k..] && records == old(records)[k..]
      {
        records, samples := Delete(records, stale[k]), samples[1..];
        k := k + 1;
      }
    }
  }

  // ------------------------------------------------------------------
  // The cursor loops, on the records alone.

  /** n is where a cursor that started at `from` stops: the first key from there on that is not below `key`. */
  predicate StopsAt(records: seq<Record>, from: nat, key: Str, n: nat) {
    from <= n <= |records| && (forall i :: from <= i < n ==> Less(records[i].key, key)) &&
    (n < |records| ==> !Less(records[n].key, key))
  }

  method Scan(records: seq<Record>, from: nat, key: Str) returns (n: nat)
    requires from <= |records|
    ensures StopsAt(records, from, key, n)
  {
    n := from;
    while n < |records| && Less(records[n].key, key)
      invariant from <= n <= |records| && forall i :: from <= i < n ==> Less(records[i].key, key)
    {
      n := n + 1;
    }
  }

  method KeysBelow(records: seq<Record>, key: Str) returns (keys: seq<Str>)
    ensures StopsAt(records, 0, key, |keys|)
    ensures forall i :: 0 <= i < |keys| ==> keys[i] == records[i].key
  {
    keys := [];
    while |keys| < |records| && Less(records[|keys|].key, key)
      invariant |keys| <= |records| && forall i :: 0 <= i < |keys| ==> Less(records[i].key, key)
      invariant forall i :: 0 <= i < |keys| ==> keys[i] == records[i].key
    {
      keys := keys + [records[|keys|].key];
    }
  }

  predicate Readable(records: seq<Record>) {
    forall i :: 0 <= i < |records| ==> |records[i].value| == 12
  }

  /** Records of another length would be skipped; Put writes none. */
  method Read(records: seq<Record>, from: nat, key: Str) returns (out: seq<Sample>, ghost n: nat)
    requires from <= |records| && Readable(records)
    ensures StopsAt(records, from, key, n) && |out| == n - from
    ensures forall i :: from <= i < n ==> out[i - from] == DecodeRecord(records[i])
  {
    out := [];
    var i := from;
    while i < |records| && Less(records[i].key, key)
      invariant from <= i <= |records| && |out| == i - from
      invariant forall k :: from <= k < i ==> Less(records[k].key, key)
      invariant forall k :: from <= k < i ==> out[k - from] == DecodeRecord(records[k])
    {
      if |records[i].value| == 12 {
        out := out + [DecodeRecord(records[i])];
      }
      i := i + 1;
    }
    n := i;
  }

  lemma KeyAt(records: seq<Record>, samples: seq<Sample>, i: nat, minute: int)
    requires Stores(records, samples) && AllSamples(samples) && i < |records| && BigEndian.IsInt64(minute)
    ensures Less(records[i].key, SampleKey(minute)) <==> Unsigned(samples[i].minute) < Unsigned(minute)
  {
    KeyOrder(samples[i].minute, minute);
  }

  lemma AllReadable(records: seq<Record>, samples: seq<Sample>)
    requires Stores(records, samples)
    ensures Readable(records)
  {
  }

  /** Because the samples are sorted, a scan finds the slot of its key. */
  lemma StopIsSlot(records: seq<Record>, samples: seq<Sample>, minute: int, n: nat)
    requires Stores(records, samples) && AllSamples(samples) && Sorted(samples) && BigEndian.IsInt64(minute)
    requires StopsAt(records, 0, SampleKey(minute), n)
    ensures IsSlot(samples, minute, n)
  {
    forall i: nat | i < n ensures Unsigned(samples[i].minute) < Unsigned(minute) {
      KeyAt(records, samples, i, minute);
    }
    if n < |records| { KeyAt(records, samples, n, minute); }
  }

  lemma ReadIsStretch(records: seq<Record>, samples: seq<Sample>, out: seq<Sample>, from: int, to: int, a: nat, b: nat)
    requires Stores(records, samples) && AllSamples(samples) && Sorted(samples) && BigEndian.IsInt64(to)
    requires IsSlot(samples, from, a) && Readable(records)
    requires StopsAt(records, a, SampleKey(to), b) && |out| == b - a
    requires forall i :: a <= i < b ==> out[i - a] == DecodeRecord(records[i])
    ensures IsStretch(out, samples, a, b, from, to)
  {
    forall i: nat | a <= i < b ensures Unsigned(samples[i].minute) < Unsigned(to) && out[i - a] == samples[i] {
      KeyAt(records, samples, i, to);
      RecordRoundTrip(samples[i]);
    }
    if b < |records| { KeyAt(records, samples, b, to); }
    assert out == samples[a..b];
  }

  function Delete(records: seq<Record>, key: Str): seq<Record> {
    if records == [] then []
    else if records[0].key == key then records[1..]
    else [records[0]] + Delete(records[1..], key)
  }

  lemma SuffixMembers(was: seq<Sample>, before: int, n: nat)
    requires IsSlot(was, before, n)
    ensures forall x :: x in was[n..] <==> x in was && Unsigned(before) <= Unsigned(x.minute)
  {
    forall x | x in was && Unsigned(before) <= Unsigned(x.minute) ensures x in was[n..] {
      var i :| 0 <= i < |was| && was[i] == x;
      assert was[n..][i - n] == x;
    }
  }

  lemma MinutesDiffer(was: seq<Sample>)
    requires Sorted(was)
    ensures forall i, j :: 0 <= i < j < |was| ==> was[i].minute != was[j].minute
  {
    forall i, j | 0 <= i < j < |was| ensures was[i].minute != was[j].minute {
      assert Unsigned(was[i].minute) < Unsigned(was[j].minute);
    }
  }

  lemma ReplaceAt(was: seq<Sample>, s: Sample, at: nat)
    requires Sorted(was) && at < |was| && was[at].minute == s.minute
    ensures Sorted(was[at := s])
    ensures forall x :: x in was[at := s] <==> x == s || (x in was && x.minute != s.minute)
  {
    var now := was[at := s];
    MinutesDiffer(was);
    forall x | x in was && x.minute != s.minute ensures x in now {
      var i :| 0 <= i < |was| && was[i] == x;
      assert now[i] == x;
    }
    assert now[at] == s;
  }

  lemma InsertAt(was: seq<Sample>, s: Sample, at: nat)
    requires Sorted(was) && IsSlot(was, s.minute, at) && (at < |was| ==> Unsigned(was[at].minute) != Unsigned(s.minute))
    ensures var now := was[..at] + [s] + was[at..];
      Sorted(now) && forall x :: x in now <==> x == s || (x in was && x.minute != s.minute)
  {
    var now := was[..at] + [s] + was[at..];
    forall i | 0 <= i < |was| ensures was[i].minute != s.minute {
    }
    forall i, j | 0 <= i < j < |now| ensures Unsigned(now[i].minute) < Unsigned(now[j].minute) {
      assert now[i] == (if i < at then was[i] else if i == at then s else was[i - 1]);
      assert now[j] == (if j < at then was[j] else if j == at then s else was[j - 1]);
    }
    forall x | x in was ensures x in now {
      var i :| 0 <= i < |was| && was[i] == x;
      assert now[if i < at then i else i + 1] == x;
    }
    assert now[at] == s;
  }

  lemma InsertKeepsStores(records: seq<Record>, samples: seq<Sample>, s: Sample, at: nat)
    requires Stores(records, samples) && at <= |samples|
    ensures Stores(records[..at] + [RecordOf(s)] + records[at..], samples[..at] + [s] + samples[at..])
  {
  }

  // ------------------------------------------------------------------
  // What a range of keys means.

  predicate Nonnegative(samples: seq<Sample>) {
    forall i :: 0 <= i < |samples| ==> 0 <= samples[i].minute
  }

  /**
   The query returns exactly the samples of [from, to) if and only if the start is not negative or nothing is stored
   before the end: a negative start is a key above every real minute.
   */
  lemma QueryIsExactIff(samples: seq<Sample>, out: seq<Sample>, a: nat, b: nat, from: int, to: int)
    requires AllSamples(samples) && Sorted(samples) && Nonnegative(samples)
    requires BigEndian.IsInt64(from) && BigEndian.IsInt64(to) && from <= to
    requires IsStretch(out, samples, a, b, from, to)
    ensures (forall i :: 0 <= i < |samples| ==> (a <= i < b <==> from <= samples[i].minute < to)) <==>
      (from >= 0 || forall i :: 0 <= i < |samples| ==> samples[i].minute >= to)
  {
    BigEndian.Int64RoundTrip(from);
    BigEndian.Int64RoundTrip(to);
    forall i | 0 <= i < |samples| ensures Unsigned(samples[i].minute) == samples[i].minute {
      BigEndian.Int64RoundTrip(samples[i].minute);
    }
  }

  /** Likewise a prune keeps exactly the minutes from the cutoff on, unless the cutoff is negative: then it keeps none. */
  lemma PruneIsExactIff(s: Sample, before: int)
    requires IsSample(s) && s.minute >= 0 && BigEndian.IsInt64(before)
    ensures (Unsigned(before) <= Unsigned(s.minute) <==> before <= s.minute) <==> before >= 0
  {
    BigEndian.Int64RoundTrip(before);
    BigEndian.Int64RoundTrip(s.minute);
  }
}
