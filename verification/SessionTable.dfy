/**
 Admin browser sessions: a capped table with an idle and an absolute timeout,
 lazy expiry, a sweep when full and least-recently-used eviction. Specification
 on values and properties of whole runs; the mutable store is in module SessionStore.
 */
module SessionTable {
  import opened Wrappers
  import opened GoStrings
  import opened Maps

  type Digest = Str
  type Time = int

  datatype Session = Session(accessKey: Str, created: Time, lastSeen: Time)

  datatype State = State(byDigest: map<Digest, Session>, capacity: nat, idle: int, absolute: int)

  /** Tokens are 256 random bits: the digest of a new one is not among those in the store. */
  datatype Event =
    | Create(digest: Digest, accessKey: Str, now: Time, victim: Digest)
    | Lookup(digest: Digest, now: Time)
    | Revoke(digest: Digest, now: Time)

  datatype Answer = Created | Found(accessKey: Str) | NotFound | Done

  predicate Expired(s: State, x: Session, now: Time) {
    now - x.lastSeen >= s.idle || now - x.created >= s.absolute
  }

  function Pruned(s: State, now: Time): map<Digest, Session> {
    map k | k in s.byDigest && !Expired(s, s.byDigest[k], now) :: s.byDigest[k]
  }

  /** The table after the sweep that a full table gets. */
  function Swept(s: State, now: Time): map<Digest, Session> {
    if |s.byDigest| >= s.capacity then Pruned(s, now) else s.byDigest
  }

  predicate Evicts(s: State, now: Time) {
    |Swept(s, now)| >= s.capacity && Swept(s, now) != map[]
  }

  predicate LeastRecent(m: map<Digest, Session>, k: Digest) {
    k in m && forall x :: x in m ==> m[k].lastSeen <= m[x].lastSeen
  }

  /** The table with room for one more. */
  function Room(s: State, now: Time, victim: Digest): map<Digest, Session> {
    if Evicts(s, now) then Without(Swept(s, now), victim) else Swept(s, now)
  }

  predicate Legal(s: State, e: Event) {
    e.Create? ==> e.digest !in s.byDigest && (Evicts(s, e.now) ==> LeastRecent(Swept(s, e.now), e.victim))
  }

  function Apply(s: State, e: Event): (State, Answer) {
    match e
    case Create(d, ak, now, victim) =>
      (s.(byDigest := Room(s, now, victim)[d := Session(ak, now, now)]), Created)
    case Lookup(d, now) =>
      if d !in s.byDigest then (s, NotFound)
      else if Expired(s, s.byDigest[d], now) then (s.(byDigest := Without(s.byDigest, d)), NotFound)
      else (s.(byDigest := s.byDigest[d := s.byDigest[d].(lastSeen := now)]), Found(s.byDigest[d].accessKey))
    case Revoke(d, now) => (s.(byDigest := Without(s.byDigest, d)), Done)
  }

  // ------------------------------------------------------------------
  // The ledger: every session ever created, as an unbounded store would remember it.

  datatype Record = Record(session: Session, revoked: bool)

  type Ledger = map<Digest, Record>

  function Note(ledger: Ledger, s: State, e: Event): Ledger {
    match e
    case Create(d, ak, now, _) => ledger[d := Record(Session(ak, now, now), false)]
    case Lookup(d, now) =>
      if Apply(s, e).1.Found? && d in ledger
      then ledger[d := ledger[d].(session := ledger[d].session.(lastSeen := now))] else ledger
    case Revoke(d, _) => if d in ledger then ledger[d := ledger[d].(revoked := true)] else ledger
  }

  predicate LegalRun(s: State, es: seq<Event>)
    decreases |es|
  {
    es == [] || (Legal(s, es[0]) && LegalRun(Apply(s, es[0]).0, es[1..]))
  }

  /** The clock starts at or after `since` and never goes back. */
  predicate Ordered(es: seq<Event>, since: Time)
    decreases |es|
  {
    es == [] || (since <= es[0].now && Ordered(es[1..], es[0].now))
  }

  function LastTime(es: seq<Event>, since: Time): Time {
    if es == [] then since else es[|es| - 1].now
  }

  function Run(s: State, ledger: Ledger, es: seq<Event>): (State, Ledger)
    decreases |es|
  {
    if es == [] then (s, ledger) else Run(Apply(s, es[0]).0, Note(ledger, s, es[0]), es[1..])
  }

  /** Neither revoked nor expired. */
  predicate Alive(s: State, ledger: Ledger, k: Digest, now: Time) {
    k in ledger && !ledger[k].revoked && !Expired(s, ledger[k].session, now)
  }

  /** The other sessions created or looked up no earlier than k's own last use. */
  function NoEarlier(ledger: Ledger, k: Digest): set<Digest>
    requires k in ledger
  {
    set d | d in ledger && d != k && ledger[d].session.lastSeen >= ledger[k].session.lastSeen
  }

  ghost predicate Inv(s: State, ledger: Ledger, now: Time) {
    && |s.byDigest| <= Max(s.capacity, 1)
    && (forall d :: d in s.byDigest ==> d in ledger && !ledger[d].revoked && ledger[d].session == s.byDigest[d])
    && (forall d :: d in ledger ==> ledger[d].session.lastSeen <= now)
    && (forall k :: k !in s.byDigest && Alive(s, ledger, k, now) ==> |NoEarlier(ledger, k)| >= s.capacity)
  }

  // ------------------------------------------------------------------

  lemma CreateKeepsBound(s: State, d: Digest, ak: Str, now: Time, victim: Digest)
    requires |s.byDigest| <= Max(s.capacity, 1) && Legal(s, Create(d, ak, now, victim))
    ensures |Apply(s, Create(d, ak, now, victim)).0.byDigest| <= Max(s.capacity, 1)
  {
    SubmapSize(Pruned(s, now), s.byDigest);
    WithoutSize(Swept(s, now), victim);
    assert Swept(s, now) == map[] ==> |Swept(s, now)| == 0;
    InsertSize(Room(s, now, victim), d, Session(ak, now, now));
  }

  /** When a victim goes, `capacity` others have been used no earlier. */
  lemma VictimIsCrowdedOut(s: State, ledger: Ledger, e: Event, now: Time)
    requires Inv(s, ledger, now) && e.Create? && Legal(s, e) && now <= e.now && Evicts(s, e.now)
    requires e.victim !in Apply(s, e).0.byDigest
    ensures e.victim in Note(ledger, s, e) && |NoEarlier(Note(ledger, s, e), e.victim)| >= s.capacity
  {
    var m := Swept(s, e.now);
    var others := m.Keys - {e.victim} + {e.digest};
    assert |m.Keys - {e.victim}| == |m| - 1;
    assert |others| == |m|;
    var l' := Note(ledger, s, e);
    assert others <= NoEarlier(l', e.victim) by {
      forall x | x in others ensures x in NoEarlier(l', e.victim) {
        assert ledger[e.victim].session == s.byDigest[e.victim];
        if x != e.digest { assert x in s.byDigest && ledger[x].session == s.byDigest[x]; }
      }
    }
    SubsetSize(others, NoEarlier(l', e.victim));
  }

  /** Later uses of other sessions never shrink the crowd. */
  lemma CrowdGrows(s: State, ledger: Ledger, e: Event, now: Time, k: Digest)
    requires forall d :: d in ledger ==> ledger[d].session.lastSeen <= now
    requires now <= e.now && k in ledger && Note(ledger, s, e)[k].session == ledger[k].session
    ensures |NoEarlier(ledger, k)| <= |NoEarlier(Note(ledger, s, e), k)|
  {
    SubsetSize(NoEarlier(ledger, k), NoEarlier(Note(ledger, s, e), k));
  }

  lemma CreateKeepsInv(s: State, ledger: Ledger, e: Event, now: Time)
    requires Inv(s, ledger, now) && Legal(s, e) && now <= e.now && e.Create?
    ensures Inv(Apply(s, e).0, Note(ledger, s, e), e.now)
  {
    var s', l' := Apply(s, e).0, Note(ledger, s, e);
    CreateKeepsBound(s, e.digest, e.accessKey, e.now, e.victim);
    forall k | k !in s'.byDigest && Alive(s', l', k, e.now) ensures |NoEarlier(l', k)| >= s.capacity {
      assert k != e.digest && l'[k] == ledger[k];
      if k in s.byDigest {
        assert k in Swept(s, e.now);
        VictimIsCrowdedOut(s, ledger, e, now);
      } else {
        assert Alive(s, ledger, k, now);
        CrowdGrows(s, ledger, e, now, k);
      }
    }
  }

  lemma LookupKeepsSize(s: State, d: Digest, now: Time)
    ensures |Apply(s, Lookup(d, now)).0.byDigest| <= |s.byDigest|
  {
    WithoutSize(s.byDigest, d);
    if d in s.byDigest {
      InsertSize(s.byDigest, d, s.byDigest[d].(lastSeen := now));
    }
  }

  lemma LookupKeepsInv(s: State, ledger: Ledger, e: Event, now: Time)
    requires Inv(s, ledger, now) && now <= e.now && e.Lookup?
    ensures Inv(Apply(s, e).0, Note(ledger, s, e), e.now)
  {
    var s', l' := Apply(s, e).0, Note(ledger, s, e);
    LookupKeepsSize(s, e.digest, e.now);
    forall k | k !in s'.byDigest && Alive(s', l', k, e.now) ensures |NoEarlier(l', k)| >= s.capacity {
      assert k in ledger && l'[k] == ledger[k] && k !in s.byDigest;
      assert Alive(s, ledger, k, now);
      CrowdGrows(s, ledger, e, now, k);
    }
  }

  lemma RevokeKeepsInv(s: State, ledger: Ledger, e: Event, now: Time)
    requires Inv(s, ledger, now) && now <= e.now && e.Revoke?
    ensures Inv(Apply(s, e).0, Note(ledger, s, e), e.now)
  {
    var s', l' := Apply(s, e).0, Note(ledger, s, e);
    WithoutSize(s.byDigest, e.digest);
    forall k | k !in s'.byDigest && Alive(s', l', k, e.now) ensures |NoEarlier(l', k)| >= s.capacity {
      assert k in ledger && l'[k] == ledger[k] && k !in s.byDigest;
      assert Alive(s, ledger, k, now);
      CrowdGrows(s, ledger, e, now, k);
    }
  }

  lemma {:induction false} RunKeepsInv(s: State, ledger: Ledger, es: seq<Event>, since: Time)
    requires Inv(s, ledger, since) && LegalRun(s, es) && Ordered(es, since)
    ensures var (s', l') := Run(s, ledger, es); Inv(s', l', LastTime(es, since))
    ensures var s' := Run(s, ledger, es).0; s' == s.(byDigest := s'.byDigest)
    decreases |es|
  {
    if es != [] {
      match es[0] {
      case Create(_, _, _, _) => CreateKeepsInv(s, ledger, es[0], since);
      case Lookup(_, _) => LookupKeepsInv(s, ledger, es[0], since);
      case Revoke(_, _) => RevokeKeepsInv(s, ledger, es[0], since);
      }
      RunKeepsInv(Apply(s, es[0]).0, Note(ledger, s, es[0]), es[1..], es[0].now);
    }
  }

  function Empty(capacity: nat, idle: int, absolute: int): State {
    State(map[], capacity, idle, absolute)
  }

  /**
   Over every run from an empty store: the store holds at most `capacity` sessions (or one, for capacity 0);
   what it holds is exactly what the unbounded ledger remembers, unrevoked; and a session that is neither
   revoked nor expired is still there unless at least `capacity` others were used no earlier than it was.
   */
  lemma LruSurvival(capacity: nat, idle: int, absolute: int, es: seq<Event>, since: Time, now: Time)
    requires LegalRun(Empty(capacity, idle, absolute), es) && Ordered(es, since) && LastTime(es, since) <= now
    ensures var (s, ledger) := Run(Empty(capacity, idle, absolute), map[], es);
      && |s.byDigest| <= Max(capacity, 1)
      && (forall d :: d in s.byDigest ==> d in ledger && !ledger[d].revoked && ledger[d].session == s.byDigest[d])
      && (forall k :: Alive(s, ledger, k, now) ==> k in s.byDigest || |NoEarlier(ledger, k)| >= capacity)
  {
    var s0 := Empty(capacity, idle, absolute);
    RunKeepsInv(s0, map[], es, since);
    var (s, ledger) := Run(s0, map[], es);
    forall k | Alive(s, ledger, k, now) ensures k in s.byDigest || |NoEarlier(ledger, k)| >= capacity {
      assert Alive(s, ledger, k, LastTime(es, since));
    }
  }

  /** The bound is max(capacity, 1), not capacity: with a capacity of zero one session is held all the same. */
  lemma ZeroCapacityHoldsOne(idle: int, absolute: int, d: Digest, accessKey: Str, now: Time)
    ensures var s, e := Empty(0, idle, absolute), Create(d, accessKey, now, d);
      Legal(s, e) && |Apply(s, e).0.byDigest| == 1
  {
    var s := Empty(0, idle, absolute);
    assert Swept(s, now) == map[];
    assert Apply(s, Create(d, accessKey, now, d)).0.byDigest == map[d := Session(accessKey, now, now)];
  }

  /**
   A lookup after any run finds a session only if it was created with that access key and is neither revoked
   nor expired; and finds every such session that fewer than `capacity` others have crowded.
   */
  lemma LookupIsRight(capacity: nat, idle: int, absolute: int, es: seq<Event>, since: Time, d: Digest, now: Time)
    requires LegalRun(Empty(capacity, idle, absolute), es) && Ordered(es, since) && LastTime(es, since) <= now
    ensures var (s, ledger) := Run(Empty(capacity, idle, absolute), map[], es);
      var answer := Apply(s, Lookup(d, now)).1;
      && (answer.Found? ==> Alive(s, ledger, d, now) && ledger[d].session.accessKey == answer.accessKey)
      && (Alive(s, ledger, d, now) && |NoEarlier(ledger, d)| < capacity ==> answer == Found(ledger[d].session.accessKey))
  {
    LruSurvival(capacity, idle, absolute, es, since, now);
  }

  /** A session that is still good is evicted only from a table full of sessions that are all still good. */
  lemma EvictsOnlyWhenFull(s: State, e: Event, k: Digest)
    requires e.Create? && Legal(s, e)
    requires k in s.byDigest && !Expired(s, s.byDigest[k], e.now) && k !in Apply(s, e).0.byDigest
    ensures |Pruned(s, e.now)| >= s.capacity && LeastRecent(Pruned(s, e.now), k)
  {
    assert k in Swept(s, e.now);
  }

  // ------------------------------------------------------------------
  // What the ledger records, and what a lookup answers, in times alone.

  predicate Unchanged(before: Ledger, after: Ledger, d: Digest) {
    (d in before <==> d in after) && (d in before ==> after[d] == before[d])
  }

  /**
   Each call changes the ledger's entry for its own session and no other: creating one starts both its times, a lookup that
   finds it moves its last use to now and nothing else, one that does not find it changes nothing, and revoking it leaves its
   times alone.
   */
  lemma LedgerIs(s: State, ledger: Ledger, e: Event)
    ensures var after := Note(ledger, s, e);
      (forall d :: d != e.digest ==> Unchanged(ledger, after, d)) &&
      match e {
        case Create(d, accessKey, now, _) => d in after && after[d] == Record(Session(accessKey, now, now), false)
        case Lookup(d, now) =>
          if Apply(s, e).1.Found? && d in ledger then
            d in after && after[d].session.lastSeen == now && after[d].session.created == ledger[d].session.created &&
            after[d].session.accessKey == ledger[d].session.accessKey && after[d].revoked == ledger[d].revoked
          else Unchanged(ledger, after, d)
        case Revoke(d, _) =>
          (d in after <==> d in ledger) && (d in ledger ==> after[d].revoked && after[d].session == ledger[d].session)
      }
  {
  }

  /** Not revoked, and younger than both timeouts allow. */
  predicate InTime(ledger: Ledger, d: Digest, idle: int, absolute: int, now: Time) {
    d in ledger && !ledger[d].revoked && now - ledger[d].session.created < absolute && now - ledger[d].session.lastSeen < idle
  }

  /**
   Over every run: a lookup finds a session only if it was not revoked, was created less than the absolute timeout ago and last
   used less than the idle timeout ago, and then answers its access key; and it finds every such session that fewer than
   capacity others were used no earlier than. However often it is used, it ends with the absolute timeout.
   */
  lemma LookupIsInTime(capacity: nat, idle: int, absolute: int, es: seq<Event>, since: Time, d: Digest, now: Time)
    requires LegalRun(Empty(capacity, idle, absolute), es) && Ordered(es, since) && LastTime(es, since) <= now
    ensures var (s, ledger) := Run(Empty(capacity, idle, absolute), map[], es);
      var answer := Apply(s, Lookup(d, now)).1;
      (answer.Found? || answer.NotFound?) &&
      (answer.Found? ==> InTime(ledger, d, idle, absolute, now) && answer.accessKey == ledger[d].session.accessKey) &&
      (InTime(ledger, d, idle, absolute, now) ==>
         answer.Found? || |set x | x in ledger && x != d && ledger[x].session.lastSeen >= ledger[d].session.lastSeen| >= capacity)
  {
    var s0 := Empty(capacity, idle, absolute);
    var (s, ledger) := Run(s0, map[], es);
    LookupIsRight(capacity, idle, absolute, es, since, d, now);
    TimeoutsStay(s0, map[], es);
    AliveIsInTime(s, ledger, d, now);
    if d in ledger {
      assert NoEarlier(ledger, d) == set x | x in ledger && x != d && ledger[x].session.lastSeen >= ledger[d].session.lastSeen;
    }
  }

  lemma AliveIsInTime(s: State, ledger: Ledger, d: Digest, now: Time)
    ensures Alive(s, ledger, d, now) <==> InTime(ledger, d, s.idle, s.absolute, now)
  {
  }

  lemma {:induction false} TimeoutsStay(s: State, ledger: Ledger, es: seq<Event>)
    ensures var t := Run(s, ledger, es).0; t.idle == s.idle && t.absolute == s.absolute && t.capacity == s.capacity
    decreases |es|
  {
    if es != [] {
      TimeoutsStay(Apply(s, es[0]).0, Note(ledger, s, es[0]), es[1..]);
    }
  }
}
