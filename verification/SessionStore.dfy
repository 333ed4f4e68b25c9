/** The mutable session store, each method proved against the specification in module SessionTable. */
module SessionStore {
  import opened GoStrings
  import opened Maps
  import opened SessionTable

  /** The raw base64url length of 32 bytes: 256 bits, six to a character. */
  const TOKEN_LENGTH := 43

  class Store {
    var byDigest: map<Digest, Session>
    const capacity: nat
    const idle: int
    const absolute: int

    ghost function View(): State
      reads this
    {
      State(byDigest, capacity, idle, absolute)
    }

    constructor (cap: nat, idleTimeout: int, absoluteTTL: int)
      ensures View() == Empty(cap, idleTimeout, absoluteTTL)
    {
      byDigest, capacity, idle, absolute := map[], cap, idleTimeout, absoluteTTL;
    }

    method Prune(now: Time)
      modifies this
      ensures byDigest == Pruned(old(View()), now)
      ensures forall k :: k in byDigest <==>
        k in old(byDigest) && now - old(byDigest)[k].lastSeen < idle && now - old(byDigest)[k].created < absolute
      ensures forall k :: k in byDigest ==> byDigest[k] == old(byDigest)[k]
    {
      var todo := byDigest.Keys;
      while todo != {}
        invariant byDigest ==
          map k | k in old(byDigest) && (k in todo || !Expired(old(View()), old(byDigest)[k], now)) :: old(byDigest)[k]
        decreases todo
      {
        var k :| k in todo;
        if k in byDigest && (now - byDigest[k].lastSeen >= idle || now - byDigest[k].created >= absolute) {
          byDigest := Without(byDigest, k);
        }
        todo := todo - {k};
      }
    }

    /** Drop the least recently used session, if there is one. */
    method EvictLRU() returns (ghost victim: Digest)
      modifies this
      ensures old(byDigest) != map[] ==> LeastRecent(old(byDigest), victim)
      ensures byDigest == Without(old(byDigest), victim)
      ensures old(byDigest) != map[] ==> victim in old(byDigest) && |byDigest| == |old(byDigest)| - 1
      ensures old(byDigest) != map[] ==>
        forall k :: k in old(byDigest) ==> old(byDigest)[victim].lastSeen <= old(byDigest)[k].lastSeen
    {
      var oldest: Digest := "";
      var none := true;
      var todo := byDigest.Keys;
      while todo != {}
        invariant todo <= byDigest.Keys && (none ==> todo == byDigest.Keys) && byDigest == old(byDigest)
        invariant !none ==> oldest in byDigest
        invariant !none ==> forall x :: x in byDigest && x !in todo ==> byDigest[oldest].lastSeen <= byDigest[x].lastSeen
        decreases todo
      {
        var k :| k in todo;
        if none || byDigest[k].lastSeen < byDigest[oldest].lastSeen {
          oldest, none := k, false;
        }
        todo := todo - {k};
      }
      victim := oldest;
      WithoutSize(byDigest, oldest);
      if none {
        assert byDigest.Keys == {};
      }
      if !none {
        byDigest := Without(byDigest, oldest);
      }
    }

    /** `token` is the fresh random token; only its digest is kept. */
    method Create(token: Str, digest: Str -> Digest, accessKey: Str, now: Time) returns (ghost e: Event)
      requires digest(token) !in byDigest
      modifies this
      ensures e.Create? && e.digest == digest(token) && e.accessKey == accessKey && e.now == now
      ensures Legal(old(View()), e) && View() == Apply(old(View()), e).0
      ensures digest(token) in byDigest && byDigest[digest(token)] == Session(accessKey, now, now)
      ensures forall k :: k in byDigest && k != digest(token) ==> k in old(byDigest) && byDigest[k] == old(byDigest)[k]
      ensures |old(byDigest)| < capacity ==> forall k :: k in old(byDigest) ==> k in byDigest
    {
      ghost var victim: Digest := "";
      if |byDigest| >= capacity {
        Prune(now);
      }
      ghost var swept := byDigest;
      assert swept == Swept(old(View()), now);
      if |byDigest| >= capacity {
        victim := EvictLRU();
      }
      assert byDigest == Room(old(View()), now, victim) by {
        if swept == map[] { assert byDigest == map[]; }
      }
      byDigest := byDigest[digest(token) := Session(accessKey, now, now)];
      e := Event.Create(digest(token), accessKey, now, victim);
    }

    /** A token of the wrong length is not one of ours and is turned away before it is hashed. */
    method Lookup(token: Str, digest: Str -> Digest, now: Time) returns (accessKey: Str, ok: bool)
      modifies this
      ensures |token| != TOKEN_LENGTH ==> !ok && View() == old(View())
      ensures |token| == TOKEN_LENGTH ==>
        View() == Apply(old(View()), SessionTable.Lookup(digest(token), now)).0 &&
        Apply(old(View()), SessionTable.Lookup(digest(token), now)).1 == if ok then Found(accessKey) else NotFound
      ensures ok ==> |token| == 43 && digest(token) in old(byDigest)
      ensures |token| == 43 && digest(token) in old(byDigest) ==>
        var x := old(byDigest)[digest(token)];
        (ok <==> now - x.created < absolute && now - x.lastSeen < idle) &&
        (ok ==> accessKey == x.accessKey && byDigest == old(byDigest)[digest(token) := Session(accessKey, x.created, now)])
      ensures !ok && |token| == TOKEN_LENGTH ==> digest(token) !in byDigest
      ensures forall k :: k != digest(token) ==>
        (k in byDigest <==> k in old(byDigest)) && (k in byDigest ==> byDigest[k] == old(byDigest)[k])
    {
      if |token| != TOKEN_LENGTH {
        return "", false;
      }
      var key := digest(token);
      if key !in byDigest {
        return "", false;
      }
      var x := byDigest[key];
      if now - x.lastSeen >= idle || now - x.created >= absolute {
        byDigest := Without(byDigest, key);
        return "", false;
      }
      byDigest := byDigest[key := x.(lastSeen := now)];
      return x.accessKey, true;
    }

    method Revoke(token: Str, digest: Str -> Digest, ghost now: Time)
      modifies this
      ensures View() == Apply(old(View()), SessionTable.Revoke(digest(token), now)).0
      ensures digest(token) !in byDigest
      ensures forall k :: k != digest(token) ==>
        (k in byDigest <==> k in old(byDigest)) && (k in byDigest ==> byDigest[k] == old(byDigest)[k])
    {
      byDigest := Without(byDigest, digest(token));
    }
  }
}
