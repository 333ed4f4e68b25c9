/**
 Properties of whole runs of the ban tables: they refine one small machine per IP, the janitor does not show, a ban lasts
 exactly as long as it says, and the fixed window lets at most 2 * max - 2 failures through in any span of its length.
 */
module BanRuns {
  import opened Wrappers
  import opened GoStrings
  import opened Maps
  import opened BanTable

  // ------------------------------------------------------------------
  // One IP on its own: a small machine with no tables, no cap and no janitor.

  datatype View = Clean | Counting(count: int, start: Time) | UnderBan(until: Time)

  datatype Machine = Machine(view: View, max: int, window: int, ban: int)

  datatype Call = FailCall(now: Time) | QueryCall(now: Time) | ResetCall(cfg: Config, now: Time)

  /** What is left of a view at time t. */
  function Tick(v: View, t: Time, window: int): View {
    match v
    case Clean => Clean
    case Counting(c, start) => if t - start < window then v else Clean
    case UnderBan(until) => if t < until then v else Clean
  }

  function MachineStep(m: Machine, c: Call): (Machine, Answer) {
    var v := Tick(m.view, c.now, m.window);
    match c
    case ResetCall(cfg, _) =>
      (Machine(Clean, cfg.maxFailures, cfg.windowSeconds * SECOND, cfg.banSeconds * SECOND), Silent)
    case QueryCall(_) => (m.(view := v), IsBanned(v.UnderBan?))
    case FailCall(now) =>
      if v.UnderBan? then (m.(view := v), Ignored)
      else
        var n := if v.Counting? then v.count + 1 else 1;
        var start := if v.Counting? then v.start else now;
        if n < m.max then (m.(view := Counting(n, start)), Counted(n))
        else (m.(view := UnderBan(now + m.ban)), Imposed(now + m.ban, n))
  }

  function MachineAnswers(m: Machine, cs: seq<Call>): seq<(Time, Answer)>
    decreases |cs|
  {
    if cs == [] then []
    else
      var (m', a) := MachineStep(m, cs[0]);
      (if cs[0].ResetCall? then [] else [(cs[0].now, a)]) + MachineAnswers(m', cs[1..])
  }

  /** The calls that concern one IP: its own, and every reconfiguration; never a reap. */
  function CallOf(e: Event, ip: IP): seq<Call> {
    match e
    case Fail(i, now, _, _) => if i == ip then [FailCall(now)] else []
    case Banned(i, now) => if i == ip then [QueryCall(now)] else []
    case Reap(_) => []
    case Reconfigure(cfg, now) => [ResetCall(cfg, now)]
  }

  function Calls(es: seq<Event>, ip: IP): seq<Call> {
    if es == [] then [] else CallOf(es[0], ip) + Calls(es[1..], ip)
  }

  /** What the tables say about an IP at time t. */
  function Live(s: State, ip: IP, t: Time): View {
    if Serving(s, ip, t) then UnderBan(s.bans[ip])
    else if HasLiveCounter(s, ip, t) then Counting(s.fails[ip].count, s.fails[ip].start)
    else Clean
  }

  /** From `since` on, the tables and the machine tell the same story about ip. */
  ghost predicate Tracks(s: State, ip: IP, m: Machine, since: Time) {
    && m.max == s.max && m.window == s.window && m.ban == s.ban
    && forall t :: t >= since ==> Live(s, ip, t) == Tick(m.view, t, m.window)
  }

  lemma OtherEventsTrack(s: State, e: Event, ip: IP, m: Machine, since: Time)
    requires Inv(s) && Legal(s, e) && !Evicts(s, e, ip) && since <= e.now
    requires CallOf(e, ip) == [] && Tracks(s, ip, m, since)
    ensures Tracks(Apply(s, e).0, ip, m, e.now)
  {
    var s' := Apply(s, e).0;
    forall t | t >= e.now ensures Live(s', ip, t) == Tick(m.view, t, m.window) {
      assert Live(s, ip, t) == Tick(m.view, t, m.window);
    }
  }

  lemma OwnCallTracks(s: State, e: Event, ip: IP, m: Machine, since: Time, c: Call)
    requires Inv(s) && Legal(s, e) && !Evicts(s, e, ip) && since <= e.now
    requires CallOf(e, ip) == [c] && Tracks(s, ip, m, since)
    ensures Tracks(Apply(s, e).0, ip, MachineStep(m, c).0, e.now)
    ensures Apply(s, e).1 == MachineStep(m, c).1
  {
    var s' := Apply(s, e).0;
    assert Live(s, ip, e.now) == Tick(m.view, e.now, m.window);
    if e.Fail? {
      var d := DropExpired(s, ip, e.now);
      assert Live(d, ip, e.now) == Live(s, ip, e.now);
    } else if e.Banned? {
      forall t | t >= e.now ensures Live(s', ip, t) == Tick(MachineStep(m, c).0.view, t, m.window) {
        assert Live(s, ip, t) == Tick(m.view, t, m.window);
      }
    }
  }

  function NextMachine(m: Machine, e: Event, ip: IP): Machine {
    if CallOf(e, ip) == [] then m else MachineStep(m, CallOf(e, ip)[0]).0
  }

  /** What one event contributes to the answers about ip, as the machine sees it. */
  function HeadAnswer(m: Machine, e: Event, ip: IP): seq<(Time, Answer)> {
    if CallOf(e, ip) == [] || e.Reconfigure? then [] else [(e.now, MachineStep(m, CallOf(e, ip)[0]).1)]
  }

  lemma EventTracks(s: State, e: Event, ip: IP, m: Machine, since: Time)
    requires Inv(s) && Legal(s, e) && !Evicts(s, e, ip) && since <= e.now && Tracks(s, ip, m, since)
    ensures Tracks(Apply(s, e).0, ip, NextMachine(m, e, ip), e.now)
    ensures HeadAnswer(m, e, ip) == if About(e, ip) then [(e.now, Apply(s, e).1)] else []
  {
    if CallOf(e, ip) == [] {
      OtherEventsTrack(s, e, ip, m, since);
    } else {
      OwnCallTracks(s, e, ip, m, since, CallOf(e, ip)[0]);
    }
  }

  lemma MachineAnswersHead(m: Machine, e: Event, ip: IP, cs: seq<Call>)
    ensures MachineAnswers(m, CallOf(e, ip) + cs) == HeadAnswer(m, e, ip) + MachineAnswers(NextMachine(m, e, ip), cs)
  {
    if CallOf(e, ip) == [] {
      assert CallOf(e, ip) + cs == cs;
    } else {
      assert (CallOf(e, ip) + cs)[1..] == cs;
    }
  }

  /**
   The lazily cleaned, bounded tables refine the machine: as long as no eviction hits the IP, every
   answer about it is the machine's answer, whatever happens to other IPs and however often the janitor runs.
   */
  lemma {:induction false} TablesRefineMachine(s: State, es: seq<Event>, ip: IP, m: Machine, since: Time)
    requires Inv(s) && LegalRun(s, es) && Ordered(es) && NeverEvicted(s, es, ip)
    requires es != [] ==> since <= es[0].now
    requires Tracks(s, ip, m, since)
    ensures Answers(s, es, ip) == MachineAnswers(m, Calls(es, ip))
    decreases |es|
  {
    if es != [] {
      StepKeepsInv(s, es[0]);
      EventTracks(s, es[0], ip, m, since);
      assert forall i :: 0 <= i < |es| - 1 ==> es[1..][i] == es[i + 1];
      TablesRefineMachine(Apply(s, es[0]).0, es[1..], ip, NextMachine(m, es[0], ip), es[0].now);
      MachineAnswersHead(m, es[0], ip, Calls(es[1..], ip));
    }
  }

  function MachineOf(s: State, ip: IP, t: Time): Machine {
    Machine(Live(s, ip, t), s.max, s.window, s.ban)
  }

  lemma MachineOfTracks(s: State, ip: IP, since: Time)
    requires Inv(s)
    ensures Tracks(s, ip, MachineOf(s, ip, since), since)
  {
  }

  // ------------------------------------------------------------------
  // The janitor is unobservable.

  lemma {:induction false} CallsConcat(a: seq<Event>, b: seq<Event>, ip: IP)
    ensures Calls(a + b, ip) == Calls(a, ip) + Calls(b, ip)
  {
    if a == [] {
      assert a + b == b;
    } else {
      assert (a + b)[1..] == a[1..] + b;
      CallsConcat(a[1..], b, ip);
    }
  }

  /** What callers see of an event: a sweep is nothing, and who was evicted does not show. */
  function Shown(e: Event): seq<Event> {
    match e
    case Reap(_) => []
    case Fail(ip, now, _, _) => [Fail(ip, now, "", "")]
    case Banned(_, _) => [e]
    case Reconfigure(_, _) => [e]
  }

  function Visible(es: seq<Event>): seq<Event> {
    if es == [] then [] else Shown(es[0]) + Visible(es[1..])
  }

  lemma {:induction false} CallsOfVisible(es: seq<Event>, ip: IP)
    ensures Calls(Visible(es), ip) == Calls(es, ip)
  {
    if es != [] {
      var head, rest := Shown(es[0]), Visible(es[1..]);
      CallsOfVisible(es[1..], ip);
      CallsConcat(head, rest, ip);
      if head != [] {
        assert head[1..] == [];
        assert Calls(head, ip) == CallOf(head[0], ip) + [];
      }
    }
  }

  /**
   Two runs that differ only in their sweeps, any number of them anywhere, give every caller the same answers about an
   IP that neither evicts.
   */
  lemma JanitorUnobservable(s: State, es: seq<Event>, fs: seq<Event>, ip: IP)
    requires Inv(s) && Visible(es) == Visible(fs)
    requires LegalRun(s, es) && Ordered(es) && NeverEvicted(s, es, ip)
    requires LegalRun(s, fs) && Ordered(fs) && NeverEvicted(s, fs, ip)
    ensures Answers(s, es, ip) == Answers(s, fs, ip)
  {
    var since := Min(if es == [] then 0 else es[0].now, if fs == [] then 0 else fs[0].now);
    var m := MachineOf(s, ip, since);
    MachineOfTracks(s, ip, since);
    TablesRefineMachine(s, es, ip, m, since);
    TablesRefineMachine(s, fs, ip, m, since);
    CallsOfVisible(es, ip);
    CallsOfVisible(fs, ip);
  }

  /** In particular one sweep inserted between any two calls. */
  lemma OneSweepUnobservable(s: State, a: seq<Event>, b: seq<Event>, sweep: Time, ip: IP)
    requires Inv(s) && LegalRun(s, a + b) && Ordered(a + b) && NeverEvicted(s, a + b, ip)
    requires LegalRun(s, a + [Reap(sweep)] + b) && Ordered(a + [Reap(sweep)] + b) && NeverEvicted(s, a + [Reap(sweep)] + b, ip)
    ensures Answers(s, a + [Reap(sweep)] + b, ip) == Answers(s, a + b, ip)
  {
    VisibleWithSweep(a, b, sweep);
    JanitorUnobservable(s, a + [Reap(sweep)] + b, a + b, ip);
  }

  lemma VisibleWithSweep(a: seq<Event>, b: seq<Event>, sweep: Time)
    ensures Visible(a + [Reap(sweep)] + b) == Visible(a + b)
  {
    var one := [Reap(sweep)];
    assert one[1..] == [];
    VisibleConcat(a, b);
    VisibleConcat(a, one);
    VisibleConcat(a + one, b);
  }

  lemma {:induction false} VisibleConcat(a: seq<Event>, b: seq<Event>)
    ensures Visible(a + b) == Visible(a) + Visible(b)
  {
    if a == [] {
      assert a + b == b;
    } else {
      assert (a + b)[1..] == a[1..] + b;
      VisibleConcat(a[1..], b);
    }
  }

  // ------------------------------------------------------------------
  // Below the cap nothing at all is asked of the run with sweeps.

  function WithoutSweeps(es: seq<Event>): seq<Event> {
    if es == [] then []
    else if es[0].Reap? then WithoutSweeps(es[1..])
    else [es[0]] + WithoutSweeps(es[1..])
  }

  /** The event inserts into a table that is at its cap. */
  predicate EvictsAny(s: State, e: Event) {
    e.Fail? && !Serving(s, e.ip, e.now) &&
    var d := DropExpired(s, e.ip, e.now);
    EvictsFail(d, e.ip) || (ImposesBan(d, e.ip, e.now) && EvictsBan(d))
  }

  predicate NeverEvicts(s: State, es: seq<Event>)
    decreases |es|
  {
    es == [] || (!EvictsAny(s, es[0]) && NeverEvicts(Apply(s, es[0]).0, es[1..]))
  }

  /** The first state lacks nothing of the second but what has expired by t. */
  predicate Thinner(a: State, b: State, t: Time) {
    && a.limit == b.limit && a.max == b.max && a.window == b.window && a.ban == b.ban
    && (forall x :: x in a.fails ==> x in b.fails && a.fails[x] == b.fails[x])
    && (forall x :: x in a.bans ==> x in b.bans && a.bans[x] == b.bans[x])
    && (forall x :: x in b.fails && x !in a.fails ==> t - b.fails[x].start >= b.window)
    && (forall x :: x in b.bans && x !in a.bans ==> b.bans[x] <= t)
  }

  lemma ThinnerAfterSweep(a: State, b: State, t: Time, now: Time)
    requires Thinner(a, b, t) && t <= now
    ensures Thinner(Apply(a, Reap(now)).0, b, now)
  {
  }

  lemma ThinnerDrops(a: State, b: State, t: Time, ip: IP, now: Time)
    requires Thinner(a, b, t) && t <= now && Inv(b) && !Serving(b, ip, now)
    ensures Thinner(DropExpired(a, ip, now), DropExpired(b, ip, now), now) && Inv(DropExpired(b, ip, now))
  {
    WithoutSize(b.bans, ip);
  }

  /** A table that lacks something of a table below the cap is below the cap. */
  lemma ThinnerHasRoom(a: State, b: State, t: Time, ip: IP)
    requires Thinner(a, b, t) && Inv(b)
    ensures EvictsFail(a, ip) ==> EvictsFail(b, ip)
    ensures EvictsBan(a) ==> EvictsBan(b)
  {
    SubmapSize(a.fails, b.fails);
    SubmapSize(a.bans, b.bans);
    if ip in b.fails && ip !in a.fails {
      WithoutSize(b.fails, ip);
      SubmapSize(a.fails, Without(b.fails, ip));
      assert |a.fails| == 0 ==> a.fails == map[];
    }
  }

  lemma ThinnerAfterCount(a: State, b: State, ip: IP, now: Time, fv: IP, bv: IP)
    requires Thinner(a, b, now) && Inv(b) && !EvictsFail(b, ip) && !(ImposesBan(b, ip, now) && EvictsBan(b))
    ensures !EvictsFail(a, ip) && !(ImposesBan(a, ip, now) && EvictsBan(a))
    ensures Count(a, ip, now, fv, bv).1 == Count(b, ip, now, fv, bv).1
    ensures Thinner(Count(a, ip, now, fv, bv).0, Count(b, ip, now, fv, bv).0, now)
  {
    ThinnerHasRoom(a, b, now, ip);
    assert Counter(a, ip, now) == Counter(b, ip, now);
  }

  lemma ThinnerAfterStep(a: State, b: State, e: Event, t: Time)
    requires Thinner(a, b, t) && t <= e.now && Inv(b) && Legal(b, e) && !e.Reap? && !EvictsAny(b, e)
    ensures Legal(a, e) && Apply(a, e).1 == Apply(b, e).1 && Thinner(Apply(a, e).0, Apply(b, e).0, e.now)
  {
    if e.Fail? && !Serving(b, e.ip, e.now) {
      ThinnerDrops(a, b, t, e.ip, e.now);
      ThinnerAfterCount(DropExpired(a, e.ip, e.now), DropExpired(b, e.ip, e.now), e.ip, e.now, e.failVictim, e.banVictim);
    }
  }

  lemma {:induction false} ThinnerRun(a: State, b: State, es: seq<Event>, t: Time, ip: IP)
    requires Thinner(a, b, t) && Inv(b) && Ordered(es) && (es != [] ==> t <= es[0].now)
    requires LegalRun(b, WithoutSweeps(es)) && NeverEvicts(b, WithoutSweeps(es))
    ensures LegalRun(a, es) && Answers(a, es, ip) == Answers(b, WithoutSweeps(es), ip)
    decreases |es|
  {
    if es != [] {
      var e, rest := es[0], es[1..];
      assert forall i :: 0 <= i < |rest| ==> rest[i] == es[i + 1];
      if e.Reap? {
        ThinnerAfterSweep(a, b, t, e.now);
        ThinnerRun(Apply(a, e).0, b, rest, e.now, ip);
      } else {
        var calls := WithoutSweeps(es);
        assert calls[0] == e && calls[1..] == WithoutSweeps(rest);
        ThinnerAfterStep(a, b, e, t);
        StepKeepsInv(b, e);
        ThinnerRun(Apply(a, e).0, Apply(b, e).0, rest, e.now, ip);
      }
    }
  }

  /**
   Sweeps inserted anywhere, any number of them, into a run that never inserts at the cap: the longer run is legal
   whatever it names as victims, and every IP gets the same answers.
   */
  lemma SweepsUnobservable(s: State, es: seq<Event>, ip: IP)
    requires Inv(s) && Ordered(es) && LegalRun(s, WithoutSweeps(es)) && NeverEvicts(s, WithoutSweeps(es))
    ensures LegalRun(s, es) && Answers(s, es, ip) == Answers(s, WithoutSweeps(es), ip)
  {
    ThinnerRun(s, s, es, if es == [] then 0 else es[0].now, ip);
  }

  // ------------------------------------------------------------------
  // A ban lasts exactly as long as it says.

  predicate OrderedCalls(cs: seq<Call>) {
    forall i, j :: 0 <= i < j < |cs| ==> cs[i].now <= cs[j].now
  }

  predicate NoReset(cs: seq<Call>) {
    forall c :: c in cs ==> !c.ResetCall?
  }

  predicate Refused(a: Answer) {
    a == IsBanned(true) || a == Ignored
  }

  /** A query says no, a failure is the first of a new window. */
  predicate Lifted(a: Answer) {
    a == IsBanned(false) || a == Counted(1) || (a.Imposed? && a.n == 1)
  }

  predicate AllBefore(log: seq<(Time, Answer)>, n: nat, until: Time)
    requires n <= |log|
  {
    forall j :: 0 <= j < n ==> log[j].0 < until
  }

  /** While the clock is before `until` everything is refused; the first call at or after it is not. */
  predicate ExactUntil(log: seq<(Time, Answer)>, until: Time) {
    && (forall i :: 0 <= i < |log| && log[i].0 < until ==> Refused(log[i].1))
    && (forall i :: 0 <= i < |log| && log[i].0 >= until && AllBefore(log, i, until) ==> Lifted(log[i].1))
  }

  lemma {:induction false} MachineAnswersShape(m: Machine, cs: seq<Call>)
    requires NoReset(cs)
    ensures |MachineAnswers(m, cs)| == |cs|
    ensures forall i :: 0 <= i < |cs| ==> MachineAnswers(m, cs)[i].0 == cs[i].now
    decreases |cs|
  {
    if cs != [] {
      assert cs[0] in cs;
      MachineAnswersShape(MachineStep(m, cs[0]).0, cs[1..]);
    }
  }

  lemma ExactUntilCons(first: (Time, Answer), rest: seq<(Time, Answer)>, until: Time)
    requires first.0 < until && Refused(first.1) && ExactUntil(rest, until)
    ensures ExactUntil([first] + rest, until)
  {
    var log := [first] + rest;
    forall i | 0 <= i < |log| && log[i].0 < until ensures Refused(log[i].1) {
      if i > 0 { assert log[i] == rest[i - 1]; }
    }
    forall i | 0 <= i < |log| && log[i].0 >= until && AllBefore(log, i, until) ensures Lifted(log[i].1) {
      assert log[i] == rest[i - 1];
      assert AllBefore(rest, i - 1, until) by {
        assert forall j :: 0 <= j < i - 1 ==> rest[j] == log[j + 1];
      }
    }
  }

  lemma {:induction false} MachineBanIsExact(m: Machine, cs: seq<Call>, until: Time)
    requires m.view == UnderBan(until) && NoReset(cs) && OrderedCalls(cs)
    ensures ExactUntil(MachineAnswers(m, cs), until)
    decreases |cs|
  {
    MachineAnswersShape(m, cs);
    if cs != [] {
      assert cs[0] in cs;
      var (m', a) := MachineStep(m, cs[0]);
      if cs[0].now < until {
        MachineBanIsExact(m', cs[1..], until);
        ExactUntilCons((cs[0].now, a), MachineAnswers(m', cs[1..]), until);
      }
    }
  }

  lemma {:induction false} CallsOrdered(es: seq<Event>, ip: IP)
    requires Ordered(es) && NoReconfigure(es)
    ensures OrderedCalls(Calls(es, ip)) && NoReset(Calls(es, ip))
    ensures forall c :: c in Calls(es, ip) ==> es != [] && es[0].now <= c.now
  {
    if es != [] {
      assert forall i :: 0 <= i < |es| - 1 ==> es[1..][i] == es[i + 1];
      assert es[0] in es;
      CallsOrdered(es[1..], ip);
      var head: seq<Call>, rest: seq<Call> := CallOf(es[0], ip), Calls(es[1..], ip);
      forall i, j | 0 <= i < j < |head + rest| ensures (head + rest)[i].now <= (head + rest)[j].now {
        assert (head + rest)[j] == rest[j - |head|] && rest[j - |head|] in rest;
        if i >= |head| { assert (head + rest)[i] == rest[i - |head|]; }
      }
    }
  }

  /**
   A ban imposed at time n is in force at every call in [n, n + ban) and gone at the first call at or
   after n + ban, whatever calls about any IP and whatever sweeps come in between.
   */
  lemma BanIsExact(s: State, imposing: Event, es: seq<Event>, ip: IP)
    requires Inv(s) && imposing.Fail? && imposing.ip == ip && Legal(s, imposing)
    requires Apply(s, imposing).1.Imposed?
    requires var s' := Apply(s, imposing).0; LegalRun(s', es) && NeverEvicted(s', es, ip)
    requires Ordered([imposing] + es) && NoReconfigure(es)
    ensures Apply(s, imposing).1.until == imposing.now + s.ban
    ensures ExactUntil(Answers(Apply(s, imposing).0, es, ip), imposing.now + s.ban)
  {
    var s' := Apply(s, imposing).0;
    var until := imposing.now + s.ban;
    StepKeepsInv(s, imposing);
    var m := Machine(UnderBan(until), s'.max, s'.window, s'.ban);
    assert Tracks(s', ip, m, imposing.now);
    TailIsOrdered(imposing, es);
    TablesRefineMachine(s', es, ip, m, imposing.now);
    CallsOrdered(es, ip);
    MachineBanIsExact(m, Calls(es, ip), until);
  }

  lemma TailIsOrdered(e: Event, es: seq<Event>)
    requires Ordered([e] + es)
    ensures Ordered(es) && (es != [] ==> e.now <= es[0].now)
  {
    var all := [e] + es;
    assert forall i :: 0 <= i < |es| ==> es[i] == all[i + 1];
    assert es != [] ==> all[0].now <= all[1].now;
  }

  // ------------------------------------------------------------------
  // The fixed window lets at most 2 * max - 2 failures through in any span of its length.

  /** The failures recorded (not ignored, not turned into a ban) between lo and hi, both included. */
  function Recorded(log: seq<(Time, Answer)>, lo: Time, hi: Time): nat {
    if log == [] then 0
    else (if lo <= log[0].0 <= hi && log[0].1.Counted? then 1 else 0) + Recorded(log[1..], lo, hi)
  }

  predicate NoBanIn(log: seq<(Time, Answer)>, lo: Time, hi: Time) {
    forall x :: x in log && lo <= x.0 <= hi ==> !x.1.Imposed?
  }

  /** How many more failures a span that began at `lo` can still take, seen from a time `now` inside it. */
  function Budget(m: Machine, now: Time, lo: Time): int {
    match Tick(m.view, now, m.window)
    case Counting(c, start) => if start <= lo then (m.max - 1 - c) + (m.max - 1) else m.max - 1 - c
    case Clean => if now > lo then m.max - 1 else 2 * (m.max - 1)
    case UnderBan(_) => m.max - 1
  }

  predicate MachineOk(m: Machine) {
    m.max >= 1 && m.window >= 1 && (m.view.Counting? ==> 1 <= m.view.count < m.max)
  }

  lemma BudgetSpent(m: Machine, c: Call, since: Time, lo: Time)
    requires MachineOk(m) && !c.ResetCall? && lo <= since <= c.now <= lo + m.window
    requires !MachineStep(m, c).1.Imposed?
    ensures MachineOk(MachineStep(m, c).0)
    ensures Budget(MachineStep(m, c).0, c.now, lo) + (if MachineStep(m, c).1.Counted? then 1 else 0) <= Budget(m, since, lo)
  {
  }

  lemma {:induction false} WithinBudget(m: Machine, cs: seq<Call>, since: Time, lo: Time)
    requires MachineOk(m) && NoReset(cs) && OrderedCalls(cs) && lo <= since
    requires cs != [] ==> since <= cs[0].now
    requires NoBanIn(MachineAnswers(m, cs), lo, lo + m.window)
    ensures cs != [] && cs[0].now <= lo + m.window ==>
      Recorded(MachineAnswers(m, cs), lo, lo + m.window) <= Budget(m, since, lo)
    ensures cs == [] || cs[0].now > lo + m.window ==> Recorded(MachineAnswers(m, cs), lo, lo + m.window) == 0
    decreases |cs|
  {
    if cs != [] {
      assert cs[0] in cs;
      var (m', a) := MachineStep(m, cs[0]);
      var log := MachineAnswers(m, cs);
      var rest := MachineAnswers(m', cs[1..]);
      assert log == [(cs[0].now, a)] + rest && log[1..] == rest;
      assert (cs[0].now, a) in log;
      if cs[0].now <= lo + m.window {
        BudgetSpent(m, cs[0], since, lo);
        WithinBudget(m', cs[1..], cs[0].now, lo);
        assert Budget(m', cs[0].now, lo) >= 0;
      } else {
        MachineAnswersShape(m, cs);
        NothingAfter(log, lo, lo + m.window);
      }
    }
  }

  lemma {:induction false} NothingAfter(log: seq<(Time, Answer)>, lo: Time, hi: Time)
    requires forall i :: 0 <= i < |log| ==> log[i].0 > hi
    ensures Recorded(log, lo, hi) == 0
  {
    if log != [] {
      NothingAfter(log[1..], lo, hi);
    }
  }

  /** An answer before the span neither counts nor is a ban in it. */
  lemma BeforeSpan(first: (Time, Answer), rest: seq<(Time, Answer)>, lo: Time, hi: Time)
    requires first.0 < lo && NoBanIn([first] + rest, lo, hi)
    ensures NoBanIn(rest, lo, hi) && Recorded([first] + rest, lo, hi) == Recorded(rest, lo, hi)
  {
    assert ([first] + rest)[1..] == rest;
  }

  lemma {:induction false} MachineWindowBound(m: Machine, cs: seq<Call>, lo: Time)
    requires MachineOk(m) && NoReset(cs) && OrderedCalls(cs)
    requires NoBanIn(MachineAnswers(m, cs), lo, lo + m.window)
    ensures Recorded(MachineAnswers(m, cs), lo, lo + m.window) <= 2 * m.max - 2
    decreases |cs|
  {
    if cs != [] {
      if cs[0].now >= lo {
        WithinBudget(m, cs, cs[0].now, lo);
      } else {
        assert cs[0] in cs;
        var (m', a) := MachineStep(m, cs[0]);
        assert m'.window == m.window && m'.max == m.max;
        BeforeSpan((cs[0].now, a), MachineAnswers(m', cs[1..]), lo, lo + m.window);
        MachineWindowBound(m', cs[1..], lo);
      }
    }
  }

  /**
   In any closed span as long as the window in which no ban is imposed on an IP, at most 2 * max - 2
   failures of it are recorded.
   */
  lemma WindowBound(s: State, es: seq<Event>, ip: IP, since: Time, lo: Time)
    requires Inv(s) && s.max >= 1 && s.window >= 1
    requires LegalRun(s, es) && Ordered(es) && NoReconfigure(es) && NeverEvicted(s, es, ip)
    requires es != [] ==> since <= es[0].now
    requires NoBanIn(Answers(s, es, ip), lo, lo + s.window)
    ensures Recorded(Answers(s, es, ip), lo, lo + s.window) <= 2 * s.max - 2
  {
    var m := MachineOf(s, ip, since);
    MachineOfTracks(s, ip, since);
    TablesRefineMachine(s, es, ip, m, since);
    CallsOrdered(es, ip);
    MachineWindowBound(m, Calls(es, ip), lo);
  }

  /** k failures of one IP at one moment. */
  function Burst(ip: IP, t: Time, k: nat): seq<Event> {
    if k == 0 then [] else [Fail(ip, t, ip, ip)] + Burst(ip, t, k - 1)
  }

  /** One of them, from a state that holds at most this IP's counter. */
  lemma FailureCounts(s: State, ip: IP, t: Time)
    requires s.fails.Keys <= {ip} && s.bans == map[] && Counter(s, ip, t).count + 1 < s.max && s.window >= 1
    ensures var e, c := Fail(ip, t, ip, ip), Counter(s, ip, t);
      Legal(s, e) && !Evicts(s, e, ip) && Apply(s, e) == (s.(fails := map[ip := Entry(c.count + 1, c.start)]), Counted(c.count + 1))
  {
    var c := Counter(s, ip, t);
    assert s.fails == map[] || s.fails == map[ip := s.fails[ip]];
    assert !EvictsFail(s, ip);
    assert s.fails[ip := Entry(c.count + 1, c.start)] == map[ip := Entry(c.count + 1, c.start)];
  }

  lemma BurstHead(ip: IP, t: Time, k: nat)
    requires k > 0
    ensures Burst(ip, t, k) != [] && Burst(ip, t, k)[0] == Fail(ip, t, ip, ip) && Burst(ip, t, k)[1..] == Burst(ip, t, k - 1)
  {
  }

  lemma {:induction false} BurstCounts(s: State, ip: IP, t: Time, k: nat)
    requires s.fails.Keys <= {ip} && s.bans == map[] && Counter(s, ip, t).count + k < s.max && s.window >= 1
    ensures LegalRun(s, Burst(ip, t, k)) && NeverEvicted(s, Burst(ip, t, k), ip)
    ensures Run(s, Burst(ip, t, k)) == s.(fails :=
      if k == 0 then s.fails else map[ip := Entry(Counter(s, ip, t).count + k, Counter(s, ip, t).start)])
    decreases k
  {
    if k > 0 {
      FailureCounts(s, ip, t);
      BurstHead(ip, t, k);
      BurstCounts(Apply(s, Fail(ip, t, ip, ip)).0, ip, t, k - 1);
    }
  }

  lemma {:induction false} BurstAnswers(s: State, ip: IP, t: Time, k: nat)
    requires s.fails.Keys <= {ip} && s.bans == map[] && Counter(s, ip, t).count + k < s.max && s.window >= 1
    ensures |Answers(s, Burst(ip, t, k), ip)| == k
    ensures forall x :: x in Answers(s, Burst(ip, t, k), ip) ==> x.0 == t && x.1.Counted?
    decreases k
  {
    if k > 0 {
      FailureCounts(s, ip, t);
      BurstHead(ip, t, k);
      BurstAnswers(Apply(s, Fail(ip, t, ip, ip)).0, ip, t, k - 1);
    }
  }

  lemma {:induction false} RunConcat(s: State, a: seq<Event>, b: seq<Event>, ip: IP)
    requires LegalRun(s, a) && LegalRun(Run(s, a), b)
    requires NeverEvicted(s, a, ip) && NeverEvicted(Run(s, a), b, ip)
    ensures LegalRun(s, a + b) && NeverEvicted(s, a + b, ip)
    decreases |a|
  {
    if a == [] {
      assert a + b == b;
    } else {
      var ab := a + b;
      assert ab[0] == a[0] && ab[1..] == a[1..] + b;
      RunConcat(Apply(s, a[0]).0, a[1..], b, ip);
    }
  }

  lemma {:induction false} AnswersConcat(s: State, a: seq<Event>, b: seq<Event>, ip: IP)
    requires LegalRun(s, a) && LegalRun(Run(s, a), b) && LegalRun(s, a + b)
    ensures Answers(s, a + b, ip) == Answers(s, a, ip) + Answers(Run(s, a), b, ip)
    decreases |a|
  {
    if a == [] {
      assert a + b == b;
    } else {
      var ab := a + b;
      assert ab[0] == a[0] && ab[1..] == a[1..] + b;
      AnswersConcat(Apply(s, a[0]).0, a[1..], b, ip);
    }
  }

  lemma {:induction false} AllRecorded(log: seq<(Time, Answer)>, lo: Time, hi: Time)
    requires forall x :: x in log ==> lo <= x.0 <= hi && x.1.Counted?
    ensures Recorded(log, lo, hi) == |log| && NoBanIn(log, lo, hi)
  {
    if log != [] {
      assert log[0] in log;
      AllRecorded(log[1..], lo, hi);
    }
  }

  lemma {:induction false} BurstTimes(ip: IP, t: Time, k: nat)
    ensures |Burst(ip, t, k)| == k && forall i :: 0 <= i < k ==> Burst(ip, t, k)[i] == Fail(ip, t, ip, ip)
  {
    if k > 0 {
      BurstTimes(ip, t, k - 1);
    }
  }

  lemma TwoBurstsOrdered(ip: IP, t: Time, u: Time, k: nat)
    requires t <= u
    ensures Ordered(Burst(ip, t, k) + Burst(ip, u, k)) && NoReconfigure(Burst(ip, t, k) + Burst(ip, u, k))
  {
    BurstTimes(ip, t, k);
    BurstTimes(ip, u, k);
  }

  /** A whole window after a burst that imposed no ban, the count starts afresh. */
  lemma AfterBurst(s: State, ip: IP, lo: Time) returns (s1: State)
    requires s.fails == map[] && s.bans == map[] && s.max >= 1 && s.window >= 1
    ensures LegalRun(s, Burst(ip, lo, s.max - 1)) && NeverEvicted(s, Burst(ip, lo, s.max - 1), ip)
    ensures s1 == Run(s, Burst(ip, lo, s.max - 1))
    ensures s1.fails.Keys <= {ip} && s1.bans == map[] && s1.max == s.max && s1.window == s.window
    ensures Counter(s1, ip, lo + s.window) == Entry(0, lo + s.window)
    ensures |Answers(s, Burst(ip, lo, s.max - 1), ip)| == s.max - 1
    ensures forall x :: x in Answers(s, Burst(ip, lo, s.max - 1), ip) ==> x.0 == lo && x.1.Counted?
  {
    BurstCounts(s, ip, lo, s.max - 1);
    BurstAnswers(s, ip, lo, s.max - 1);
    s1 := Run(s, Burst(ip, lo, s.max - 1));
  }

  lemma SpanRecorded(x: seq<(Time, Answer)>, y: seq<(Time, Answer)>, lo: Time, hi: Time)
    requires lo <= hi
    requires forall e :: e in x ==> e.0 == lo && e.1.Counted?
    requires forall e :: e in y ==> e.0 == hi && e.1.Counted?
    ensures Recorded(x + y, lo, hi) == |x| + |y| && NoBanIn(x + y, lo, hi)
  {
    AllRecorded(x + y, lo, hi);
  }

  lemma JoinBursts(s: State, s1: State, a: seq<Event>, b: seq<Event>, ip: IP, lo: Time, hi: Time, k: nat)
    requires lo <= hi && LegalRun(s, a) && NeverEvicted(s, a, ip) && s1 == Run(s, a)
    requires LegalRun(s1, b) && NeverEvicted(s1, b, ip)
    requires |Answers(s, a, ip)| == k && forall x :: x in Answers(s, a, ip) ==> x.0 == lo && x.1.Counted?
    requires |Answers(s1, b, ip)| == k && forall x :: x in Answers(s1, b, ip) ==> x.0 == hi && x.1.Counted?
    ensures LegalRun(s, a + b) && NeverEvicted(s, a + b, ip)
    ensures NoBanIn(Answers(s, a + b, ip), lo, hi) && Recorded(Answers(s, a + b, ip), lo, hi) == 2 * k
  {
    RunConcat(s, a, b, ip);
    AnswersConcat(s, a, b, ip);
    SpanRecorded(Answers(s, a, ip), Answers(s1, b, ip), lo, hi);
  }

  lemma TwoBurstsRecorded(s: State, ip: IP, lo: Time)
    requires s.fails == map[] && s.bans == map[] && s.max >= 1 && s.window >= 1
    ensures var es := Burst(ip, lo, s.max - 1) + Burst(ip, lo + s.window, s.max - 1);
      LegalRun(s, es) && NeverEvicted(s, es, ip) &&
      NoBanIn(Answers(s, es, ip), lo, lo + s.window) &&
      Recorded(Answers(s, es, ip), lo, lo + s.window) == 2 * s.max - 2
  {
    var hi, k := lo + s.window, s.max - 1;
    var s1 := AfterBurst(s, ip, lo);
    BurstCounts(s1, ip, hi, k);
    BurstAnswers(s1, ip, hi, k);
    JoinBursts(s, s1, Burst(ip, lo, k), Burst(ip, hi, k), ip, lo, hi, k);
  }

  lemma BoundIsReachedFrom(s: State, ip: IP, lo: Time)
    requires s.fails == map[] && s.bans == map[] && s.max >= 1 && s.window >= 1
    ensures var es := Burst(ip, lo, s.max - 1) + Burst(ip, lo + s.window, s.max - 1);
      LegalRun(s, es) && Ordered(es) && NoReconfigure(es) && NeverEvicted(s, es, ip) &&
      NoBanIn(Answers(s, es, ip), lo, lo + s.window) &&
      Recorded(Answers(s, es, ip), lo, lo + s.window) == 2 * s.max - 2
  {
    TwoBurstsRecorded(s, ip, lo);
    TwoBurstsOrdered(ip, lo, lo + s.window, s.max - 1);
  }

  /**
   The bound is reached, for every configuration and every IP: max - 1 failures at the start of the span
   and max - 1 more at its end, none of them imposing a ban.
   */
  lemma WindowBoundIsReached(cfg: Config, limit: nat, ip: IP, lo: Time)
    requires cfg.InRange()
    ensures var s := Empty(cfg, limit);
      var es := Burst(ip, lo, s.max - 1) + Burst(ip, lo + s.window, s.max - 1);
      LegalRun(s, es) && Ordered(es) && NoReconfigure(es) && NeverEvicted(s, es, ip) &&
      NoBanIn(Answers(s, es, ip), lo, lo + s.window) &&
      Recorded(Answers(s, es, ip), lo, lo + s.window) == 2 * s.max - 2
  {
    BoundIsReachedFrom(Empty(cfg, limit), ip, lo);
  }
}
