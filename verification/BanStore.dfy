/** The mutable ban store, each method proved against the specification in module BanTable. */
module BanStore {
  import opened GoStrings
  import opened Maps
  import opened BanTable

  /** oldestKey over the failure table: a scan that keeps the first minimum it meets, in an arbitrary order. */
  method OldestFailKey(m: map<IP, Entry>) returns (key: IP)
    ensures m != map[] ==> OldestFail(m, key)
  {
    key := "";
    var rest := m.Keys;
    var first := true;
    while rest != {}
      invariant rest <= m.Keys
      invariant first ==> rest == m.Keys
      invariant !first ==> key in m && forall x :: x in m && x !in rest ==> m[key].start <= m[x].start
      decreases rest
    {
      var k :| k in rest;
      if first || m[k].start < m[key].start {
        key, first := k, false;
      }
      rest := rest - {k};
    }
    if first {
      assert m.Keys == {};
    }
  }

  method OldestBanKey(m: map<IP, Time>) returns (key: IP)
    ensures m != map[] ==> OldestBan(m, key)
  {
    key := "";
    var rest := m.Keys;
    var first := true;
    while rest != {}
      invariant rest <= m.Keys
      invariant first ==> rest == m.Keys
      invariant !first ==> key in m && forall x :: x in m && x !in rest ==> m[key] <= m[x]
      decreases rest
    {
      var k :| k in rest;
      if first || m[k] < m[key] {
        key, first := k, false;
      }
      rest := rest - {k};
    }
    if first {
      assert m.Keys == {};
    }
  }

  class Store {
    var fails: map<IP, Entry>
    var bans: map<IP, Time>
    var limit: nat
    var max: int
    var window: int
    var ban: int

    ghost function View(): State
      reads this
    {
      State(fails, bans, limit, max, window, ban)
    }

    constructor (cfg: Config, cap: nat)
      requires cfg.InRange()
      ensures Inv(View())
      ensures View() == Empty(cfg, cap)
      ensures fails == map[] && bans == map[] && limit == cap && max == cfg.maxFailures
      ensures window == cfg.windowSeconds * 1_000_000_000 && ban == cfg.banSeconds * 1_000_000_000
    {
      limit := cap;
      max := cfg.maxFailures;
      window := cfg.windowSeconds * SECOND;
      ban := cfg.banSeconds * SECOND;
      fails := map[];
      bans := map[];
    }

    method SetConfig(cfg: Config, ghost now: Time)
      requires cfg.InRange()
      modifies this
      ensures Inv(View())
      ensures View() == Apply(old(View()), Reconfigure(cfg, now)).0
      ensures fails == map[] && bans == map[] && limit == old(limit) && max == cfg.maxFailures
      ensures window == cfg.windowSeconds * 1_000_000_000 && ban == cfg.banSeconds * 1_000_000_000
    {
      max := cfg.maxFailures;
      window := cfg.windowSeconds * SECOND;
      ban := cfg.banSeconds * SECOND;
      fails := map[];
      bans := map[];
    }

    /** IPBanController.Apply: whatever was saved, the store runs on values in range. */
    method ApplyConfig(cfg: Config, ghost now: Time) returns (n: Config)
      modifies this
      ensures n == cfg.Normalized() && Legal(old(View()), Reconfigure(n, now)) && Inv(View())
      ensures View() == Apply(old(View()), Reconfigure(n, now)).0
      ensures fails == map[] && bans == map[] && limit == old(limit)
      ensures max == if 1 <= cfg.maxFailures <= 10_000 then cfg.maxFailures else 20
      ensures window == (if 1 <= cfg.windowSeconds <= 3600 then cfg.windowSeconds else 60) * 1_000_000_000
      ensures ban == (if 1 <= cfg.banSeconds <= 604_800 then cfg.banSeconds else 900) * 1_000_000_000
    {
      n := cfg.Normalized();
      SetConfig(n, now);
    }

    method IsBanned(ip: IP, now: Time) returns (banned: bool)
      requires Inv(View())
      modifies this`bans
      ensures Inv(View())
      ensures (View(), BanTable.IsBanned(banned)) == Apply(old(View()), Banned(ip, now))
      ensures banned <==> ip in old(bans) && now < old(bans)[ip]
      ensures forall x :: x in bans <==> x in old(bans) && (x != ip || banned)
      ensures forall x :: x in bans ==> bans[x] == old(bans)[x]
    {
      StepKeepsInv(View(), Banned(ip, now));
      if ip !in bans {
        return false;
      }
      if now < bans[ip] {
        return true;
      }
      bans := Without(bans, ip);
      return false;
    }

    /** The counter to bump, with the table made ready to hold it. */
    method FailEntry(ip: IP, now: Time) returns (e: Entry, ghost victim: IP)
      modifies this`fails
      ensures EvictsFail(old(View()), ip) ==> OldestFail(old(fails), victim)
      ensures e == Counter(old(View()), ip, now)
      ensures fails == Admitted(old(View()), ip, victim)[ip := e]
    {
      victim := "";
      if ip in fails && now - fails[ip].start < window {
        return fails[ip], victim;
      }
      if ip !in fails && |fails| >= limit {
        var oldest := OldestFailKey(fails);
        victim := oldest;
        fails := Without(fails, oldest);
      }
      e := Entry(0, now);
      fails := fails[ip := e];
    }

    /** Enforce the cap of the ban table before a ban goes in. */
    method MakeBanRoom() returns (ghost victim: IP)
      modifies this`bans
      ensures EvictsBan(old(View())) ==> OldestBan(old(bans), victim)
      ensures bans == BanRoom(old(View()), victim)
    {
      victim := "";
      if |bans| >= limit {
        var oldest := OldestBanKey(bans);
        victim := oldest;
        bans := Without(bans, oldest);
      }
    }

    /** The failure of an IP that is not serving a ban. */
    method CountFailure(ip: IP, now: Time) returns (until: Time, n: int, imposed: bool, ghost fv: IP, ghost bv: IP)
      modifies this`fails, this`bans
      ensures EvictsFail(old(View()), ip) ==> OldestFail(old(fails), fv)
      ensures ImposesBan(old(View()), ip, now) && EvictsBan(old(View())) ==> OldestBan(old(bans), bv)
      ensures View() == Count(old(View()), ip, now, fv, bv).0
      ensures Count(old(View()), ip, now, fv, bv).1 == if imposed then Imposed(until, n) else Counted(n)
    {
      ghost var d := View();
      until, bv := 0, "";
      var entry;
      entry, fv := FailEntry(ip, now);
      n := entry.count + 1;
      imposed := n >= max;
      ghost var admitted := Admitted(d, ip, fv);
      if imposed {
        fails := Without(fails, ip);
        assert fails == Without(admitted, ip);
        bv := MakeBanRoom();
        assert bans == BanRoom(d, bv);
        until := now + ban;
        bans := bans[ip := until];
      } else {
        fails := fails[ip := Entry(n, entry.start)];
        assert fails == admitted[ip := Entry(n, entry.start)];
      }
    }

    method RecordFailure(ip: IP, now: Time) returns (until: Time, n: int, imposed: bool, ghost e: Event)
      requires Inv(View())
      modifies this
      ensures Inv(View())
      ensures e.Fail? && e.ip == ip && e.now == now && Legal(old(View()), e)
      ensures View() == Apply(old(View()), e).0
      ensures Apply(old(View()), e).1 == (if imposed then Imposed(until, n) else if n == 0 then Ignored else Counted(n))
    {
      ghost var before := View();
      e := Fail(ip, now, "", "");
      var banned := IsBanned(ip, now);
      if banned {
        return 0, 0, false, e;
      }
      ghost var fv, bv;
      until, n, imposed, fv, bv := CountFailure(ip, now);
      e := Fail(ip, now, fv, bv);
      StepKeepsInv(before, e);
    }

    method SweepFails(now: Time)
      modifies this`fails
      ensures fails == map x | x in old(fails) && now - old(fails)[x].start < window :: old(fails)[x]
    {
      var todo := fails.Keys;
      while todo != {}
        invariant fails == map x | x in old(fails) && (x in todo || now - old(fails)[x].start < window) :: old(fails)[x]
        decreases todo
      {
        var k :| k in todo;
        if k in fails && now - fails[k].start >= window {
          fails := Without(fails, k);
        }
        todo := todo - {k};
      }
    }

    method SweepBans(now: Time)
      modifies this`bans
      ensures bans == map x | x in old(bans) && now < old(bans)[x] :: old(bans)[x]
    {
      var todo := bans.Keys;
      while todo != {}
        invariant bans == map x | x in old(bans) && (x in todo || now < old(bans)[x]) :: old(bans)[x]
        decreases todo
      {
        var k :| k in todo;
        if k in bans && bans[k] <= now {
          bans := Without(bans, k);
        }
        todo := todo - {k};
      }
    }

    method Sweep(now: Time)
      requires Inv(View())
      modifies this
      ensures Inv(View())
      ensures View() == Apply(old(View()), Reap(now)).0
      ensures forall x :: x in fails <==> x in old(fails) && now - old(fails)[x].start < window
      ensures forall x :: x in fails ==> fails[x] == old(fails)[x]
      ensures forall x :: x in bans <==> x in old(bans) && now < old(bans)[x]
      ensures forall x :: x in bans ==> bans[x] == old(bans)[x]
    {
      StepKeepsInv(View(), Reap(now));
      SweepFails(now);
      SweepBans(now);
    }
  }
}
