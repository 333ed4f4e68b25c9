/**
 The failed-authentication ban: a table of failure counters in fixed windows and
 a table of bans, both bounded, driven by a clock that never goes back. This
 module is the specification on values; runs are in module BanRuns, the
 mutable store is in module BanStore.
 */
module BanTable {
  import opened Wrappers
  import opened GoStrings
  import opened Maps

  type IP = Str
  type Time = int

  const MAX_FAILURES := 10_000
  const MAX_WINDOW_SECONDS := 3600
  const MAX_BAN_SECONDS := 7 * 24 * 3600
  const SECOND := 1_000_000_000

  datatype Config = Config(maxFailures: int, windowSeconds: int, banSeconds: int) {
    predicate InRange() {
      1 <= maxFailures <= MAX_FAILURES && 1 <= windowSeconds <= MAX_WINDOW_SECONDS && 1 <= banSeconds <= MAX_BAN_SECONDS
    }

    /** Each out-of-range field falls back to its default, independently of the others. */
    function Normalized(): (c: Config)
      ensures c.InRange() && (InRange() ==> c == this)
    {
      Config(if 1 <= maxFailures <= MAX_FAILURES then maxFailures else 20,
             if 1 <= windowSeconds <= MAX_WINDOW_SECONDS then windowSeconds else 60,
             if 1 <= banSeconds <= MAX_BAN_SECONDS then banSeconds else 900)
    }
  }

  datatype Entry = Entry(count: int, start: Time)

  datatype State = State(fails: map<IP, Entry>, bans: map<IP, Time>, limit: nat, max: int, window: int, ban: int)

  /** Go map iteration is in no particular order, so which of several oldest entries is evicted is left open. */
  datatype Event =
    | Fail(ip: IP, now: Time, failVictim: IP, banVictim: IP)
    | Banned(ip: IP, now: Time)
    | Reap(now: Time)
    | Reconfigure(cfg: Config, now: Time)

  datatype Answer = IsBanned(banned: bool) | Ignored | Counted(n: int) | Imposed(until: Time, n: int) | Silent

  function Empty(cfg: Config, limit: nat): State {
    State(map[], map[], limit, cfg.maxFailures, cfg.windowSeconds * SECOND, cfg.banSeconds * SECOND)
  }

  /** k has the earliest start in the failure table. */
  predicate OldestFail(m: map<IP, Entry>, k: IP) {
    k in m && forall x :: x in m ==> m[k].start <= m[x].start
  }

  predicate OldestBan(m: map<IP, Time>, k: IP) {
    k in m && forall x :: x in m ==> m[k] <= m[x]
  }

  function DropExpired(s: State, ip: IP, now: Time): State {
    if ip in s.bans && s.bans[ip] <= now then s.(bans := Without(s.bans, ip)) else s
  }

  /** The IP's live counter, if any. */
  predicate HasLiveCounter(s: State, ip: IP, now: Time) {
    ip in s.fails && now - s.fails[ip].start < s.window
  }

  predicate EvictsFail(s: State, ip: IP) {
    ip !in s.fails && |s.fails| >= s.limit && s.fails != map[]
  }

  function Counter(s: State, ip: IP, now: Time): Entry {
    if HasLiveCounter(s, ip, now) then s.fails[ip] else Entry(0, now)
  }

  /** The failure table with the counter in it, before the count goes up. */
  function Admitted(s: State, ip: IP, victim: IP): map<IP, Entry> {
    if EvictsFail(s, ip) then Without(s.fails, victim) else s.fails
  }

  predicate ImposesBan(s: State, ip: IP, now: Time) {
    Counter(s, ip, now).count + 1 >= s.max
  }

  predicate EvictsBan(s: State) {
    |s.bans| >= s.limit && s.bans != map[]
  }

  predicate Serving(s: State, ip: IP, now: Time) {
    ip in s.bans && now < s.bans[ip]
  }

  predicate Legal(s: State, e: Event) {
    match e
    case Fail(ip, now, fv, bv) =>
      !Serving(s, ip, now) ==>
        var d := DropExpired(s, ip, now);
        (EvictsFail(d, ip) ==> OldestFail(d.fails, fv)) &&
        (ImposesBan(d, ip, now) && EvictsBan(d) ==> OldestBan(d.bans, bv))
    case Banned(_, _) => true
    case Reap(_) => true
    case Reconfigure(cfg, _) => cfg.InRange()
  }

  function Apply(s: State, e: Event): (State, Answer) {
    match e
    case Banned(ip, now) => (DropExpired(s, ip, now), IsBanned(Serving(s, ip, now)))
    case Reap(now) =>
      (s.(fails := map x | x in s.fails && now - s.fails[x].start < s.window :: s.fails[x],
          bans := map x | x in s.bans && now < s.bans[x] :: s.bans[x]), Silent)
    case Reconfigure(cfg, now) => (Empty(cfg, s.limit), Silent)
    case Fail(ip, now, fv, bv) =>
      if Serving(s, ip, now) then (s, Ignored) else Count(DropExpired(s, ip, now), ip, now, fv, bv)
  }

  /** One more failure of an IP that is not serving a ban. */
  function Count(d: State, ip: IP, now: Time, fv: IP, bv: IP): (State, Answer) {
    var c := Counter(d, ip, now);
    var n := c.count + 1;
    if n < d.max then (d.(fails := Admitted(d, ip, fv)[ip := Entry(n, c.start)]), Counted(n))
    else
      (d.(fails := Without(Admitted(d, ip, fv), ip), bans := BanRoom(d, bv)[ip := now + d.ban]), Imposed(now + d.ban, n))
  }

  function BanRoom(d: State, victim: IP): map<IP, Time> {
    if EvictsBan(d) then Without(d.bans, victim) else d.bans
  }

  /** The event throws out an entry of `victim` that it is not itself about. */
  predicate Evicts(s: State, e: Event, victim: IP) {
    e.Fail? && !Serving(s, e.ip, e.now) &&
    var d := DropExpired(s, e.ip, e.now);
    (EvictsFail(d, e.ip) && victim == e.failVictim) ||
    (ImposesBan(d, e.ip, e.now) && EvictsBan(d) && victim == e.banVictim)
  }

  // ------------------------------------------------------------------
  // Runs.

  predicate Ordered(es: seq<Event>) {
    forall i, j :: 0 <= i < j < |es| ==> es[i].now <= es[j].now
  }

  predicate LegalRun(s: State, es: seq<Event>)
    decreases |es|
  {
    es == [] || (Legal(s, es[0]) && LegalRun(Apply(s, es[0]).0, es[1..]))
  }

  function Run(s: State, es: seq<Event>): State
    decreases |es|
  {
    if es == [] then s else Run(Apply(s, es[0]).0, es[1..])
  }

  predicate About(e: Event, ip: IP) {
    (e.Fail? || e.Banned?) && e.ip == ip
  }

  /** What the calls about one IP answer over a run, with the times of the calls. */
  function Answers(s: State, es: seq<Event>, ip: IP): seq<(Time, Answer)>
    decreases |es|
  {
    if es == [] then []
    else
      var (s', a) := Apply(s, es[0]);
      (if About(es[0], ip) then [(es[0].now, a)] else []) + Answers(s', es[1..], ip)
  }

  predicate NeverEvicted(s: State, es: seq<Event>, ip: IP)
    decreases |es|
  {
    es == [] || (!Evicts(s, es[0], ip) && NeverEvicted(Apply(s, es[0]).0, es[1..], ip))
  }

  predicate NoReconfigure(es: seq<Event>) {
    forall e :: e in es ==> !e.Reconfigure?
  }

  // ------------------------------------------------------------------
  // What every reachable state satisfies.

  predicate Inv(s: State) {
    && |s.fails| <= Max(s.limit, 1) && |s.bans| <= Max(s.limit, 1)
    && s.fails.Keys !! s.bans.Keys
    && (forall ip :: ip in s.fails ==> 1 <= s.fails[ip].count < s.max)
  }

  lemma AdmitKeepsInv(d: State, ip: IP, victim: IP)
    requires Inv(d) && (EvictsFail(d, ip) ==> OldestFail(d.fails, victim))
    ensures Admitted(d, ip, victim).Keys <= d.fails.Keys
    ensures forall x :: x in Admitted(d, ip, victim) ==> Admitted(d, ip, victim)[x] == d.fails[x]
    ensures ip !in d.fails ==> |Admitted(d, ip, victim)| < Max(d.limit, 1)
    ensures |Admitted(d, ip, victim)| <= Max(d.limit, 1)
  {
    WithoutSize(d.fails, victim);
    assert d.fails == map[] ==> |d.fails| == 0;
  }

  lemma CountKeepsInv(d: State, ip: IP, now: Time, fv: IP, bv: IP)
    requires Inv(d) && ip !in d.bans && !ImposesBan(d, ip, now)
    requires EvictsFail(d, ip) ==> OldestFail(d.fails, fv)
    ensures Inv(Count(d, ip, now, fv, bv).0)
  {
    var c := Counter(d, ip, now);
    AdmitKeepsInv(d, ip, fv);
    InsertSize(Admitted(d, ip, fv), ip, Entry(c.count + 1, c.start));
  }

  lemma ImposeKeepsInv(d: State, ip: IP, now: Time, fv: IP, bv: IP)
    requires Inv(d) && ip !in d.bans && ImposesBan(d, ip, now)
    requires EvictsFail(d, ip) ==> OldestFail(d.fails, fv)
    requires EvictsBan(d) ==> OldestBan(d.bans, bv)
    ensures Inv(Count(d, ip, now, fv, bv).0)
  {
    AdmitKeepsInv(d, ip, fv);
    WithoutSize(Admitted(d, ip, fv), ip);
    WithoutSize(d.bans, bv);
    assert d.bans == map[] ==> |d.bans| == 0;
    InsertSize(BanRoom(d, bv), ip, now + d.ban);
  }

  lemma StepKeepsInv(s: State, e: Event)
    requires Inv(s) && Legal(s, e)
    ensures Inv(Apply(s, e).0)
  {
    match e
    case Banned(ip, now) => WithoutSize(s.bans, ip);
    case Reconfigure(cfg, now) =>
    case Reap(now) =>
      var s' := Apply(s, e).0;
      SubmapSize(s'.fails, s.fails);
      SubmapSize(s'.bans, s.bans);
    case Fail(ip, now, fv, bv) =>
      WithoutSize(s.bans, ip);
      var d := DropExpired(s, ip, now);
      if Serving(s, ip, now) {
      } else if ImposesBan(d, ip, now) {
        ImposeKeepsInv(d, ip, now, fv, bv);
      } else {
        CountKeepsInv(d, ip, now, fv, bv);
      }
  }

  /**
   Whatever the calls and however eviction ties fall: both tables stay within the cap, no IP is in
   both, and a stored count is at least 1 and below the threshold.
   */
  lemma {:induction false} RunKeepsInv(s: State, es: seq<Event>)
    requires Inv(s) && LegalRun(s, es)
    ensures Inv(Run(s, es))
    decreases |es|
  {
    if es != [] {
      StepKeepsInv(s, es[0]);
      RunKeepsInv(Apply(s, es[0]).0, es[1..]);
    }
  }

  /** The bound is max(limit, 1), not limit: with a limit of zero one counter, or one ban, is held all the same. */
  lemma ZeroLimitHoldsOne(cfg: Config, ip: IP, now: Time)
    requires cfg.InRange()
    ensures var s, e := Empty(cfg, 0), Fail(ip, now, ip, ip);
      Legal(s, e) && |Apply(s, e).0.fails| + |Apply(s, e).0.bans| == 1
  {
    var s' := Apply(Empty(cfg, 0), Fail(ip, now, ip, ip)).0;
    assert s'.fails == (if cfg.maxFailures == 1 then map[] else map[ip := Entry(1, now)]);
  }

  // ------------------------------------------------------------------
  // One failure, in terms of the tables alone.

  /** Nothing but the entries named has changed, and nothing is new. */
  predicate FailsKept(before: map<IP, Entry>, after: map<IP, Entry>, ip: IP, limit: nat) {
    (forall x :: x in after && x != ip ==> x in before && after[x] == before[x]) &&
    forall x :: x in before && x != ip && x !in after ==>
      ip !in before && |before| >= limit && forall y :: y in before ==> before[x].start <= before[y].start
  }

  predicate BansKept(before: map<IP, Time>, after: map<IP, Time>, ip: IP, limit: nat) {
    (forall x :: x in after && x != ip ==> x in before && after[x] == before[x]) &&
    forall x :: x in before && x != ip && x !in after ==>
      |before| >= limit && forall y :: y in before && y != ip ==> before[x] <= before[y]
  }

  /**
   A failure of an IP serving a ban changes nothing. Any other one counts: on from the IP's counter if that is younger than
   the window, from one otherwise. Below the threshold the count is stored; at it the counter goes and a ban of full length
   goes in. Entries of other IPs stay as they are, but for one with an earliest time, when its table is at the cap.
   */
  lemma FailureMeans(s: State, e: Event)
    requires e.Fail? && Legal(s, e) && s.fails.Keys !! s.bans.Keys
    ensures var (t, a) := Apply(s, e);
      if e.ip in s.bans && e.now < s.bans[e.ip] then t == s && a == Ignored else Counts(s, t, a, e.ip, e.now)
  {
    if !Serving(s, e.ip, e.now) {
      var d := DropExpired(s, e.ip, e.now);
      CountCounts(d, e.ip, e.now, e.failVictim, e.banVictim);
      var (t, a) := Apply(s, e);
      CountsFromBefore(s, t, a, e.ip, e.now);
    }
  }

  /** Dropping the IP's own expired ban first makes no difference. */
  lemma CountsFromBefore(s: State, t: State, a: Answer, ip: IP, now: Time)
    requires !Serving(s, ip, now) && Counts(DropExpired(s, ip, now), t, a, ip, now)
    ensures Counts(s, t, a, ip, now)
  {
    WithoutSize(s.bans, ip);
  }

  /** How a failure that counts changes the tables, and its answer. */
  predicate Counts(s: State, t: State, a: Answer, ip: IP, now: Time) {
    t.limit == s.limit && t.max == s.max && t.window == s.window && t.ban == s.ban &&
    FailsKept(s.fails, t.fails, ip, s.limit) && BansKept(s.bans, t.bans, ip, s.limit) &&
    var live := ip in s.fails && now - s.fails[ip].start < s.window;
    var n := if live then s.fails[ip].count + 1 else 1;
    if n < s.max then
      a == Counted(n) && ip in t.fails && t.fails[ip] == Entry(n, if live then s.fails[ip].start else now) &&
      ip !in t.bans && forall x :: x in s.bans && x != ip ==> x in t.bans
    else a == Imposed(now + s.ban, n) && ip !in t.fails && ip in t.bans && t.bans[ip] == now + s.ban
  }

  lemma CountCounts(d: State, ip: IP, now: Time, fv: IP, bv: IP)
    requires ip !in d.bans && (EvictsFail(d, ip) ==> OldestFail(d.fails, fv))
    requires ImposesBan(d, ip, now) && EvictsBan(d) ==> OldestBan(d.bans, bv)
    ensures var (t, a) := Count(d, ip, now, fv, bv); Counts(d, t, a, ip, now)
  {
    AdmittedKeeps(d, ip, fv);
    RoomKeeps(d, bv);
  }

  lemma AdmittedKeeps(d: State, ip: IP, victim: IP)
    requires EvictsFail(d, ip) ==> OldestFail(d.fails, victim)
    ensures FailsKept(d.fails, Admitted(d, ip, victim), ip, d.limit)
    ensures ip in d.fails ==> ip in Admitted(d, ip, victim)
  {
  }

  lemma RoomKeeps(d: State, victim: IP)
    ensures forall x :: x in BanRoom(d, victim) ==> x in d.bans && BanRoom(d, victim)[x] == d.bans[x]
    ensures forall x :: x in d.bans && x !in BanRoom(d, victim) ==> x == victim && |d.bans| >= d.limit
  {
  }
}
