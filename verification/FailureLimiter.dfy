/**
 The admin credential lockout: failures per key in fixed windows, in a capped
 table that is swept when full and then gives up the window that started first.
 */
module FailureLimiter {
  import opened Wrappers
  import opened GoStrings
  import opened Maps

  type Time = int

  datatype Window = Window(count: int, start: Time)

  datatype State = State(byKey: map<Str, Window>, max: int, window: int, capacity: nat)

  datatype Event = Fail(key: Str, now: Time, victim: Str) | Reset(key: Str, now: Time)

  predicate Elapsed(s: State, w: Window, now: Time) {
    now - w.start >= s.window
  }

  predicate InWindow(s: State, key: Str, now: Time) {
    key in s.byKey && !Elapsed(s, s.byKey[key], now)
  }

  /** The table once the key's own elapsed window is gone and, if it is still full, every elapsed window. */
  function Swept(s: State, key: Str, now: Time): map<Str, Window> {
    var m := Without(s.byKey, key);
    if |m| >= s.capacity then map k | k in m && !Elapsed(s, m[k], now) :: m[k] else m
  }

  predicate Evicts(s: State, key: Str, now: Time) {
    |Swept(s, key, now)| >= s.capacity && Swept(s, key, now) != map[]
  }

  predicate Oldest(m: map<Str, Window>, k: Str) {
    k in m && forall x :: x in m ==> m[k].start <= m[x].start
  }

  predicate Legal(s: State, e: Event) {
    e.Fail? && !InWindow(s, e.key, e.now) && Evicts(s, e.key, e.now) ==> Oldest(Swept(s, e.key, e.now), e.victim)
  }

  function Room(s: State, key: Str, now: Time, victim: Str): map<Str, Window> {
    if Evicts(s, key, now) then Without(Swept(s, key, now), victim) else Swept(s, key, now)
  }

  function Apply(s: State, e: Event): State {
    match e
    case Reset(key, _) => s.(byKey := Without(s.byKey, key))
    case Fail(key, now, victim) =>
      if InWindow(s, key, now) then s.(byKey := s.byKey[key := Window(s.byKey[key].count + 1, s.byKey[key].start)])
      else s.(byKey := Room(s, key, now, victim)[key := Window(1, now)])
  }

  /** How long the key is still locked out, if it is. */
  function Blocked(s: State, key: Str, now: Time): Option<int> {
    if key !in s.byKey then None
    else
      var w := s.byKey[key];
      var left := s.window - (now - w.start);
      if left <= 0 || w.count < s.max then None else Some(left)
  }

  // ------------------------------------------------------------------

  predicate LegalRun(s: State, es: seq<Event>)
    decreases |es|
  {
    es == [] || (Legal(s, es[0]) && LegalRun(Apply(s, es[0]), es[1..]))
  }

  function Run(s: State, es: seq<Event>): State
    decreases |es|
  {
    if es == [] then s else Run(Apply(s, es[0]), es[1..])
  }

  lemma StepKeepsBound(s: State, e: Event)
    requires |s.byKey| <= Max(s.capacity, 1) && Legal(s, e)
    ensures |Apply(s, e).byKey| <= Max(s.capacity, 1)
  {
    WithoutSize(s.byKey, e.key);
    if e.Fail? {
      var m := Swept(s, e.key, e.now);
      SubmapSize(m, Without(s.byKey, e.key));
      WithoutSize(m, e.victim);
      assert m == map[] ==> |m| == 0;
      InsertSize(Room(s, e.key, e.now, e.victim), e.key, Window(1, e.now));
      if InWindow(s, e.key, e.now) {
        InsertSize(s.byKey, e.key, Window(s.byKey[e.key].count + 1, s.byKey[e.key].start));
      }
    }
  }

  /** The table never outgrows its cap. */
  lemma {:induction false} Bounded(s: State, es: seq<Event>)
    requires |s.byKey| <= Max(s.capacity, 1) && LegalRun(s, es)
    ensures |Run(s, es).byKey| <= Max(s.capacity, 1)
    decreases |es|
  {
    if es != [] {
      StepKeepsBound(s, es[0]);
      Bounded(Apply(s, es[0]), es[1..]);
    }
  }

  /** The bound is max(capacity, 1), not capacity: with a capacity of zero one window is held all the same. */
  lemma ZeroCapacityHoldsOne(max: int, window: int, key: Str, now: Time)
    ensures var s, e := State(map[], max, window, 0), Fail(key, now, key);
      Legal(s, e) && |Apply(s, e).byKey| == 1
  {
    var s := State(map[], max, window, 0);
    assert Swept(s, key, now) == map[];
    assert Apply(s, Fail(key, now, key)).byKey == map[key := Window(1, now)];
  }

  /** Another key's running window is thrown out only when `capacity` running windows are held, and then the oldest goes. */
  lemma EvictsOnlyWhenFull(s: State, e: Event, k: Str)
    requires e.Fail? && Legal(s, e) && k != e.key
    requires InWindow(s, k, e.now) && k !in Apply(s, e).byKey
    ensures var running := map x | x in s.byKey && x != e.key && InWindow(s, x, e.now) :: s.byKey[x];
      |running| >= s.capacity && Oldest(running, k)
  {
    var m := Swept(s, e.key, e.now);
    assert k in m;
    var running := map x | x in s.byKey && x != e.key && InWindow(s, x, e.now) :: s.byKey[x];
    assert m == running by {
      assert |Without(s.byKey, e.key)| >= s.capacity;
    }
  }

  function Failures(es: seq<Event>, key: Str): nat {
    if es == [] then 0 else (if es[0].Fail? && es[0].key == key then 1 else 0) + Failures(es[1..], key)
  }

  /** Nothing in the run resets the key or evicts it. */
  predicate Undisturbed(s: State, es: seq<Event>, key: Str)
    decreases |es|
  {
    es == [] ||
    (!(es[0].Reset? && es[0].key == key) &&
     !(es[0].Fail? && !InWindow(s, es[0].key, es[0].now) && Evicts(s, es[0].key, es[0].now) && es[0].victim == key) &&
     Undisturbed(Apply(s, es[0]), es[1..], key))
  }

  lemma {:induction false} WindowCounts(s: State, es: seq<Event>, key: Str, w: Window)
    requires key in s.byKey && s.byKey[key] == w && Undisturbed(s, es, key)
    requires forall e :: e in es ==> w.start <= e.now < w.start + s.window
    ensures key in Run(s, es).byKey && Run(s, es).byKey[key] == Window(w.count + Failures(es, key), w.start)
    ensures Run(s, es) == s.(byKey := Run(s, es).byKey)
    decreases |es|
  {
    if es != [] {
      assert es[0] in es;
      var s' := Apply(s, es[0]);
      assert key in s'.byKey;
      WindowCounts(s', es[1..], key, s'.byKey[key]);
    }
  }

  /**
   A window that opens at t counts every further failure of its key before t + window and locks the key out
   from the moment the count reaches the threshold until exactly t + window; no failure moves that end.
   */
  lemma LockoutIsExact(s: State, opening: Event, es: seq<Event>, now: Time)
    requires opening.Fail? && !InWindow(s, opening.key, opening.now) && s.window > 0
    requires Undisturbed(Apply(s, opening), es, opening.key)
    requires forall e :: e in es ==> opening.now <= e.now < opening.now + s.window
    requires opening.now <= now
    ensures Blocked(Run(Apply(s, opening), es), opening.key, now) ==
      if now < opening.now + s.window && 1 + Failures(es, opening.key) >= s.max
      then Some(opening.now + s.window - now) else None
  {
    WindowCounts(Apply(s, opening), es, opening.key, Window(1, opening.now));
  }

  /** After a reset the key is not locked out, and its next failure counts from one. */
  lemma ResetStartsAfresh(s: State, reset: Event, next: Event, now: Time)
    requires reset.Reset? && next.Fail? && next.key == reset.key
    ensures Blocked(Apply(s, reset), reset.key, now) == None
    ensures var t := Apply(Apply(s, reset), next); next.key in t.byKey && t.byKey[next.key] == Window(1, next.now)
    ensures forall k :: k != reset.key ==>
      (k in Apply(s, reset).byKey <==> k in s.byKey) && (k in s.byKey ==> Apply(s, reset).byKey[k] == s.byKey[k])
  {
  }

  // ------------------------------------------------------------------

  class Limiter {
    var byKey: map<Str, Window>
    const max: int
    const window: int
    const capacity: nat

    ghost function View(): State
      reads this
    {
      State(byKey, max, window, capacity)
    }

    constructor (threshold: int, length: int, cap: nat)
      ensures View() == State(map[], threshold, length, cap)
    {
      byKey, max, window, capacity := map[], threshold, length, cap;
    }

    method IsBlocked(key: Str, now: Time) returns (left: int, blocked: bool)
      ensures Blocked(View(), key, now) == if blocked then Some(left) else None
      ensures blocked <==> key in byKey && byKey[key].count >= max && now < byKey[key].start + window
      ensures blocked ==> left == byKey[key].start + window - now
    {
      if key !in byKey {
        return 0, false;
      }
      left := window - (now - byKey[key].start);
      if left <= 0 || byKey[key].count < max {
        return 0, false;
      }
      return left, true;
    }

    method Prune(now: Time)
      modifies this
      ensures byKey == map k | k in old(byKey) && !Elapsed(old(View()), old(byKey)[k], now) :: old(byKey)[k]
      ensures forall k :: k in byKey <==> k in old(byKey) && now - old(byKey)[k].start < window
      ensures forall k :: k in byKey ==> byKey[k] == old(byKey)[k]
    {
      var todo := byKey.Keys;
      while todo != {}
        invariant byKey == map k | k in old(byKey) && (k in todo || !Elapsed(old(View()), old(byKey)[k], now)) :: old(byKey)[k]
        decreases todo
      {
        var k :| k in todo;
        if k in byKey && now - byKey[k].start >= window {
          byKey := Without(byKey, k);
        }
        todo := todo - {k};
      }
    }

    method EvictOldest() returns (ghost victim: Str)
      modifies this
      ensures old(byKey) != map[] ==> Oldest(old(byKey), victim)
      ensures byKey == Without(old(byKey), victim)
      ensures old(byKey) != map[] ==> victim in old(byKey) && forall k :: k in old(byKey) ==> old(byKey)[victim].start <= old(byKey)[k].start
      ensures forall k :: k in byKey <==> k in old(byKey) && k != victim
    {
      var oldest: Str := "";
      var none := true;
      var todo := byKey.Keys;
      while todo != {}
        invariant todo <= byKey.Keys && (none ==> todo == byKey.Keys) && byKey == old(byKey)
        invariant !none ==> oldest in byKey
        invariant !none ==> forall x :: x in byKey && x !in todo ==> byKey[oldest].start <= byKey[x].start
        decreases todo
      {
        var k :| k in todo;
        if none || byKey[k].start < byKey[oldest].start {
          oldest, none := k, false;
        }
        todo := todo - {k};
      }
      victim := oldest;
      if none {
        assert byKey.Keys == {};
      } else {
        byKey := Without(byKey, oldest);
      }
    }

    method RecordFailure(key: Str, now: Time) returns (ghost e: Event)
      modifies this
      ensures e.Fail? && e.key == key && e.now == now && Legal(old(View()), e)
      ensures View() == Apply(old(View()), e)
      ensures key in byKey && byKey[key] ==
        if key in old(byKey) && now - old(byKey)[key].start < window
        then Window(old(byKey)[key].count + 1, old(byKey)[key].start) else Window(1, now)
      ensures forall k :: k in byKey && k != key ==> k in old(byKey) && byKey[k] == old(byKey)[k]
      ensures |old(byKey)| < capacity ==> forall k :: k in old(byKey) ==> k in byKey
    {
      e := Fail(key, now, "");
      if key in byKey && now - byKey[key].start < window {
        byKey := byKey[key := byKey[key].(count := byKey[key].count + 1)];
        return;
      }
      byKey := Without(byKey, key);
      WithoutSize(old(byKey), key);
      if |byKey| >= capacity {
        Prune(now);
      }
      ghost var swept := byKey;
      assert swept == Swept(old(View()), key, now);
      ghost var victim := "";
      if |byKey| >= capacity {
        victim := EvictOldest();
      }
      assert byKey == Room(old(View()), key, now, victim) by {
        if swept == map[] { assert byKey == map[]; }
      }
      byKey := byKey[key := Window(1, now)];
      e := Fail(key, now, victim);
    }

    method Forget(key: Str, ghost now: Time)
      modifies this
      ensures View() == Apply(old(View()), Reset(key, now))
      ensures key !in byKey && forall now :: Blocked(View(), key, now) == None
      ensures forall k :: k != key ==> (k in byKey <==> k in old(byKey)) && (k in byKey ==> byKey[k] == old(byKey)[k])
    {
      byKey := Without(byKey, key);
    }
  }
}
