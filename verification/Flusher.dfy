/**
 Buffered data events: producers send into a bounded channel without blocking, one flusher receives, batches and writes.
 A flush transaction is taken to succeed.
 */
module Flusher {
  import opened Wrappers
  import EventLog

  type Event = EventLog.Event

  /** eventChanCap and the flusher's maxBatch. */
  datatype Limits = Limits(capacity: nat, maxBatch: int)

  /** Draining counts the rounds of the final drain; due is how many events had been accepted when it began. */
  datatype Phase = Running | Draining(round: nat, due: nat) | Done(due: nat)

  /** The first four fields are what the program holds; the rest records what happened. */
  datatype State = State(
    enabled: bool, queue: seq<Event>, batch: seq<Event>, dropped: nat,
    phase: Phase, transactions: seq<seq<Event>>, accepted: seq<Event>, attempts: nat, reported: nat)

  /** Enqueue and Toggle come from anywhere at any time; the others are the cases of the flusher's two selects. */
  datatype Action = Toggle(on: bool) | Enqueue(event: Event) | Receive | Tick | Cancel | DrainReceive | DrainDefault | DrainLimit

  const START := State(false, [], [], 0, Running, [], [], 0, 0)

  function Flatten(transactions: seq<seq<Event>>): seq<Event> {
    if transactions == [] then []
    else Flatten(transactions[..|transactions| - 1]) + transactions[|transactions| - 1]
  }

  function Written(s: State): seq<Event> {
    Flatten(s.transactions)
  }

  // ------------------------------------------------------------------
  // Steps.

  /** An empty batch opens no transaction; the drop counter is reported and reset either way. */
  function Flush(s: State): State {
    s.(transactions := if s.batch == [] then s.transactions else s.transactions + [s.batch],
       batch := [], reported := s.reported + s.dropped, dropped := 0)
  }

  function TakeOne(l: Limits, s: State): State
    requires s.queue != []
  {
    var t := s.(queue := s.queue[1..], batch := s.batch + [s.queue[0]]);
    if |t.batch| >= l.maxBatch then Flush(t) else t
  }

  /** A case that is not ready does not fire. */
  function Apply(l: Limits, s: State, a: Action): State {
    match a
    case Toggle(on) => s.(enabled := on)
    case Enqueue(e) =>
      if !s.enabled then s
      else if |s.queue| < l.capacity
      then s.(queue := s.queue + [e], accepted := s.accepted + [e], attempts := s.attempts + 1)
      else s.(dropped := s.dropped + 1, attempts := s.attempts + 1)
    case Receive => if s.phase.Running? && s.queue != [] then TakeOne(l, s) else s
    case Tick => if s.phase.Running? then Flush(s) else s
    case Cancel => if s.phase.Running? then s.(phase := Draining(0, |s.accepted|)) else s
    case DrainReceive =>
      if s.phase.Draining? && s.phase.round <= l.capacity && s.queue != []
      then TakeOne(l, s).(phase := Draining(s.phase.round + 1, s.phase.due))
      else s
    case DrainDefault =>
      if s.phase.Draining? && s.phase.round <= l.capacity && s.queue == [] then Flush(s).(phase := Done(s.phase.due)) else s
    case DrainLimit =>
      if s.phase.Draining? && s.phase.round == l.capacity + 1 then Flush(s).(phase := Done(s.phase.due)) else s
  }

  function Run(l: Limits, s: State, actions: seq<Action>): State {
    if actions == [] then s else Apply(l, Run(l, s, actions[..|actions| - 1]), actions[|actions| - 1])
  }

  // ------------------------------------------------------------------
  // What every step keeps.

  /** Accepted events are written, batched or queued, each once and in order; every attempt is accounted for. */
  predicate Conserved(s: State) {
    s.accepted == Written(s) + s.batch + s.queue &&
    s.attempts == |s.accepted| + s.dropped + s.reported
  }

  predicate Bounded(l: Limits, s: State) {
    |s.queue| <= l.capacity &&
    |s.batch| < Max(1, l.maxBatch) &&
    forall i :: 0 <= i < |s.transactions| ==> 1 <= |s.transactions[i]| <= Max(1, l.maxBatch)
  }

  /** What was accepted before the cancel is within reach of the rounds left. */
  predicate WithinReach(l: Limits, s: State) {
    match s.phase
    case Running => true
    case Draining(round, due) =>
      round <= l.capacity + 1 && due <= |s.accepted| && due + round <= |Written(s)| + |s.batch| + l.capacity
    case Done(due) => s.batch == [] && due <= |Written(s)|
  }

  predicate Inv(l: Limits, s: State) {
    Conserved(s) && Bounded(l, s) && WithinReach(l, s)
  }

  lemma FlushKeeps(l: Limits, s: State)
    requires Conserved(s) && |s.batch| <= Max(1, l.maxBatch)
    requires forall i :: 0 <= i < |s.transactions| ==> 1 <= |s.transactions[i]| <= Max(1, l.maxBatch)
    ensures var t := Flush(s);
      Conserved(t) && Written(t) == Written(s) + s.batch && |t.batch| == 0 &&
      forall i :: 0 <= i < |t.transactions| ==> 1 <= |t.transactions[i]| <= Max(1, l.maxBatch)
  {
    var t := Flush(s);
    if s.batch != [] {
      assert t.transactions[..|t.transactions| - 1] == s.transactions;
    }
  }

  lemma TakeOneKeeps(l: Limits, s: State)
    requires Conserved(s) && Bounded(l, s) && s.queue != []
    ensures var t := TakeOne(l, s);
      Conserved(t) && Bounded(l, t) && |Written(t)| + |t.batch| == |Written(s)| + |s.batch| + 1
  {
    var t := s.(queue := s.queue[1..], batch := s.batch + [s.queue[0]]);
    assert s.queue == [s.queue[0]] + t.queue;
    assert Written(t) + t.batch + t.queue == Written(s) + s.batch + s.queue;
    FlushKeeps(l, t);
  }

  lemma ProducerKeepsInv(l: Limits, s: State, a: Action)
    requires Inv(l, s) && (a.Toggle? || a.Enqueue? || a.Cancel?)
    ensures Inv(l, Apply(l, s, a))
  {
  }

  lemma StepKeepsInv(l: Limits, s: State, a: Action)
    requires Inv(l, s)
    ensures Inv(l, Apply(l, s, a))
  {
    if a.Toggle? || a.Enqueue? || a.Cancel? {
      ProducerKeepsInv(l, s, a);
    } else if a.Receive? || a.DrainReceive? {
      if s.queue != [] { TakeOneKeeps(l, s); }
    } else {
      FlushKeeps(l, s);
    }
  }

  lemma {:induction false} RunKeepsInv(l: Limits, s: State, actions: seq<Action>)
    requires Inv(l, s)
    ensures Inv(l, Run(l, s, actions))
  {
    if actions != [] {
      RunKeepsInv(l, s, actions[..|actions| - 1]);
      StepKeepsInv(l, Run(l, s, actions[..|actions| - 1]), actions[|actions| - 1]);
    }
  }

  // ------------------------------------------------------------------
  // Whole runs.

  /** What producers asked for while the log was enabled, and which of those found room. */
  function Offered(l: Limits, s: State, actions: seq<Action>): seq<(Event, bool)> {
    if actions == [] then []
    else
      var front, last := actions[..|actions| - 1], actions[|actions| - 1];
      Offered(l, s, front) + OfferOf(l, Run(l, s, front), last)
  }

  function OfferOf(l: Limits, s: State, a: Action): seq<(Event, bool)> {
    if a.Enqueue? && s.enabled then [(a.event, |s.queue| < l.capacity)] else []
  }

  function Taken(offers: seq<(Event, bool)>): seq<Event> {
    if offers == [] then []
    else
      var last := offers[|offers| - 1];
      Taken(offers[..|offers| - 1]) + (if last.1 then [last.0] else [])
  }

  /** The recorded history is what the run offered: nothing is accepted twice, invented or reordered. */
  lemma {:induction false} HistoryIsOffered(l: Limits, actions: seq<Action>)
    ensures Run(l, START, actions).accepted == Taken(Offered(l, START, actions))
    ensures Run(l, START, actions).attempts == |Offered(l, START, actions)|
  {
    if actions != [] {
      var front, last := actions[..|actions| - 1], actions[|actions| - 1];
      HistoryIsOffered(l, front);
      OfferIsRecorded(l, Run(l, START, front), last);
      TakenGrows(Offered(l, START, front), OfferOf(l, Run(l, START, front), last));
    }
  }

  lemma OfferIsRecorded(l: Limits, s: State, a: Action)
    ensures Apply(l, s, a).accepted == s.accepted + Taken(OfferOf(l, s, a))
    ensures Apply(l, s, a).attempts == s.attempts + |OfferOf(l, s, a)|
  {
  }

  /**
   Over any interleaving: the events that found room are those written, batched and queued, in that order; every attempt
   made while enabled was written, is batched or queued, or was dropped; no batch or transaction exceeds its bound.
   */
  lemma AcceptedExactlyOnce(l: Limits, actions: seq<Action>)
    ensures var s, offers := Run(l, START, actions), Offered(l, START, actions);
      Taken(offers) == Written(s) + s.batch + s.queue &&
      |offers| == |Written(s)| + |s.batch| + |s.queue| + s.dropped + s.reported &&
      Bounded(l, s)
  {
    RunKeepsInv(l, START, actions);
    HistoryIsOffered(l, actions);
  }

  /** A step that ran the body of the drain loop. */
  predicate IsRound(l: Limits, s: State, a: Action) {
    s.phase.Draining? && s.phase.round <= l.capacity &&
    ((a.DrainReceive? && s.queue != []) || (a.DrainDefault? && s.queue == []))
  }

  function Rounds(l: Limits, s: State, actions: seq<Action>): nat {
    if actions == [] then 0
    else
      var front, last := actions[..|actions| - 1], actions[|actions| - 1];
      Rounds(l, s, front) + (if IsRound(l, Run(l, s, front), last) then 1 else 0)
  }

  predicate RoundsMatch(l: Limits, s: State, rounds: nat) {
    rounds <= l.capacity + 1 &&
    match s.phase
    case Running => rounds == 0
    case Draining(round, _) => rounds == round
    case Done(_) => true
  }

  lemma RoundsStep(l: Limits, s: State, a: Action, rounds: nat)
    requires RoundsMatch(l, s, rounds)
    ensures RoundsMatch(l, Apply(l, s, a), if IsRound(l, s, a) then rounds + 1 else rounds)
  {
  }

  /** However producers interfere, the final drain takes at most capacity + 1 rounds. */
  lemma {:induction false} DrainIsBounded(l: Limits, actions: seq<Action>)
    ensures RoundsMatch(l, Run(l, START, actions), Rounds(l, START, actions))
  {
    if actions != [] {
      var front, last := actions[..|actions| - 1], actions[|actions| - 1];
      DrainIsBounded(l, front);
      RoundsStep(l, Run(l, START, front), last, Rounds(l, START, front));
    }
  }

  /** In a drain the flusher always has a case to take, so it ends: each such step uses up a round or finishes. */
  lemma DrainAlwaysMoves(l: Limits, s: State)
    requires Inv(l, s) && s.phase.Draining?
    ensures var a := if s.phase.round == l.capacity + 1 then DrainLimit else if s.queue == [] then DrainDefault else DrainReceive;
      var t := Apply(l, s, a);
      t.phase == (if a.DrainReceive? then Draining(s.phase.round + 1, s.phase.due) else Done(s.phase.due))
  {
  }

  /**
   A clean shutdown loses nothing accepted before the cancel, even while producers keep sending; and if nothing was
   accepted after it, the channel is empty and everything accepted is written.
   */
  lemma ShutdownLosesNothing(l: Limits, actions: seq<Action>)
    requires Run(l, START, actions).phase.Done?
    ensures var s := Run(l, START, actions);
      s.phase.due <= |Written(s)| <= |s.accepted| && Written(s) == s.accepted[..|Written(s)|] &&
      (|s.accepted| == s.phase.due ==> s.queue == [] && Written(s) == s.accepted)
  {
    RunKeepsInv(l, START, actions);
    DoneMeans(l, Run(l, START, actions));
  }

  lemma CancelSetsDue(l: Limits, s: State, a: Action)
    requires !Apply(l, s, a).phase.Running?
    ensures if s.phase.Running? then a == Cancel && Apply(l, s, a).phase.due == |s.accepted|
            else Apply(l, s, a).phase.due == s.phase.due
  {
  }

  /** due is what it claims to be: what had been accepted when the cancel was taken. */
  lemma {:induction false} DueIsAcceptedAtCancel(l: Limits, actions: seq<Action>) returns (n: nat)
    requires !Run(l, START, actions).phase.Running?
    ensures n < |actions| && Run(l, START, actions[..n]).phase.Running? && actions[n] == Cancel
    ensures Run(l, START, actions).phase.due == |Run(l, START, actions[..n]).accepted|
  {
    n := |actions| - 1;
    var front := actions[..n];
    CancelSetsDue(l, Run(l, START, front), actions[n]);
    if !Run(l, START, front).phase.Running? {
      n := DueIsAcceptedAtCancel(l, front);
      assert front[..n] == actions[..n];
    }
  }

  /** After the flusher is done nothing more is written: whatever producers still get into the channel stays there. */
  lemma {:induction false} LateEventsAreStranded(l: Limits, s: State, actions: seq<Action>)
    requires s.phase.Done?
    ensures var t := Run(l, s, actions);
      t.phase == s.phase && t.transactions == s.transactions && s.queue <= t.queue && t.batch == s.batch &&
      s.queue + Taken(Offered(l, s, actions)) == t.queue
  {
    if actions != [] {
      var front, last := actions[..|actions| - 1], actions[|actions| - 1];
      LateEventsAreStranded(l, s, front);
      DoneStep(l, Run(l, s, front), last);
      TakenGrows(Offered(l, s, front), OfferOf(l, Run(l, s, front), last));
    }
  }

  lemma DoneStep(l: Limits, s: State, a: Action)
    requires s.phase.Done?
    ensures var t := Apply(l, s, a);
      t.phase == s.phase && t.transactions == s.transactions && t.batch == s.batch &&
      t.queue == s.queue + Taken(OfferOf(l, s, a))
  {
  }

  lemma TakenGrows(offers: seq<(Event, bool)>, more: seq<(Event, bool)>)
    requires |more| <= 1
    ensures Taken(offers + more) == Taken(offers) + Taken(more)
  {
    if more == [] {
      assert offers + more == offers;
    } else {
      assert (offers + more)[..|offers|] == offers;
      assert more[..0] == [];
    }
  }

  // ------------------------------------------------------------------
  // The flusher itself.

  class Pipeline {
    const limits: Limits
    var enabled: bool
    var queue: seq<Event>
    var batch: seq<Event>
    var dropped: nat
    ghost var transactions: seq<seq<Event>>
    ghost var accepted: seq<Event>
    ghost var attempts: nat
    ghost var reported: nat
    ghost var phase: Phase

    ghost function View(): State reads this {
      State(enabled, queue, batch, dropped, phase, transactions, accepted, attempts, reported)
    }

    /** The state is where a run of the step system from a given start has come to. */
    ghost predicate At(start: State, run: seq<Action>) reads this {
      View() == Run(limits, start, run)
    }

    constructor (limits: Limits)
      ensures View() == START && this.limits == limits
    {
      this.limits := limits;
      enabled, queue, batch, dropped, phase := false, [], [], 0, Running;
      transactions, accepted, attempts, reported := [], [], 0, 0;
    }

    method SetEnabled(on: bool)
      modifies this`enabled
      ensures View() == Apply(limits, old(View()), Toggle(on))
      ensures enabled == on
    {
      enabled := on;
    }

    method EnqueueEvent(e: Event)
      modifies this`queue, this`accepted, this`attempts, this`dropped
      ensures View() == Apply(limits, old(View()), Enqueue(e))
      ensures old(enabled) && |old(queue)| < limits.capacity ==>
        queue == old(queue) + [e] && accepted == old(accepted) + [e] && dropped == old(dropped)
      ensures old(enabled) && |old(queue)| >= limits.capacity ==>
        queue == old(queue) && accepted == old(accepted) && dropped == old(dropped) + 1
      ensures !old(enabled) ==> queue == old(queue) && accepted == old(accepted) && dropped == old(dropped)
    {
      if !enabled { return; }
      attempts := attempts + 1;
      if |queue| < limits.capacity {
        queue, accepted := queue + [e], accepted + [e];
      } else {
        dropped := dropped + 1;
      }
    }

    method FlushBatch()
      modifies this`batch, this`transactions, this`reported, this`dropped
      ensures View() == Flush(old(View()))
      ensures batch == [] && dropped == 0
      ensures transactions == old(transactions) + (if old(batch) == [] then [] else [old(batch)])
    {
      if batch != [] {
        transactions := transactions + [batch];
      }
      batch := [];
      reported, dropped := reported + dropped, 0;
    }

    method Append()
      requires queue != []
      modifies this`queue, this`batch, this`transactions, this`reported, this`dropped
      ensures View() == TakeOne(limits, old(View()))
      ensures queue == old(queue)[1..]
      ensures |old(batch)| + 1 >= limits.maxBatch ==>
        batch == [] && transactions == old(transactions) + [old(batch) + [old(queue)[0]]]
      ensures |old(batch)| + 1 < limits.maxBatch ==>
        batch == old(batch) + [old(queue)[0]] && transactions == old(transactions) && dropped == old(dropped)
    {
      batch := batch + [queue[0]];
      queue := queue[1..];
      if |batch| >= limits.maxBatch {
        FlushBatch();
      }
    }

    /** One turn of the main select with a case that is ready: an event arrived, or the ticker fired. */
    method Turn(ticked: bool)
      requires phase.Running? && (ticked || queue != [])
      modifies this`queue, this`batch, this`transactions, this`reported, this`dropped
      ensures View() == Apply(limits, old(View()), if ticked then Tick else Receive)
      ensures ticked ==> batch == [] && queue == old(queue) && dropped == 0
      ensures ticked ==>
        transactions == old(transactions) + (if old(batch) == [] then [] else [old(batch)])
      ensures !ticked ==> queue == old(queue)[1..]
    {
      if ticked { FlushBatch(); } else { Append(); }
    }

    method DrainRound(ghost start: State, ghost before: seq<Action>) returns (finished: bool, ghost run: seq<Action>)
      requires At(start, before) && phase.Draining? && phase.round <= limits.capacity
      modifies this`queue, this`batch, this`transactions, this`reported, this`dropped, this`phase
      ensures At(start, run)
      ensures View() == Apply(limits, old(View()), if finished then DrainDefault else DrainReceive)
      ensures finished == (old(queue) == [])
      ensures phase == old(if finished then Done(phase.due) else Draining(phase.round + 1, phase.due))
    {
      finished := queue == [];
      ghost var a := if finished then DrainDefault else DrainReceive;
      NextStep(limits, start, before, a);
      run := before + [a];
      if finished {
        FlushBatch();
        phase := Done(phase.due);
      } else {
        Append();
        phase := Draining(phase.round + 1, phase.due);
      }
    }

    method DrainEnd(ghost start: State, ghost before: seq<Action>) returns (ghost run: seq<Action>)
      requires At(start, before) && phase.Draining? && phase.round == limits.capacity + 1
      modifies this`batch, this`transactions, this`reported, this`dropped, this`phase
      ensures At(start, run) && phase == Done(old(phase.due))
      ensures View() == Apply(limits, old(View()), DrainLimit)
    {
      NextStep(limits, start, before, DrainLimit);
      run := before + [DrainLimit];
      FlushBatch();
      phase := Done(phase.due);
    }

    method BeginDrain(ghost start: State) returns (ghost run: seq<Action>)
      requires phase.Running? && start == View()
      modifies this`phase
      ensures At(start, run) && phase == Draining(0, |accepted|)
    {
      assert [Cancel][..0] == [];
      assert Run(limits, start, []) == start;
      run := [Cancel];
      phase := Draining(0, |accepted|);
    }

    /**
     The final drain, with the events other goroutines send before each round. It ends, and it is a run of the step
     system, so everything proved about runs holds of it.
     */
    method Drain(arrivals: seq<seq<Event>>) returns (ghost run: seq<Action>)
      requires phase.Running?
      modifies this
      ensures At(old(View()), run) && phase == Done(|old(accepted)|)
      ensures (forall i :: 0 <= i < |arrivals| ==> arrivals[i] == []) ==> accepted == old(accepted)
    {
      ghost var start, due := View(), |accepted|;
      run := BeginDrain(start);
      var i := 0;
      while i <= limits.capacity
        invariant 0 <= i <= limits.capacity + 1 && phase == Draining(i, due) && At(start, run)
        invariant (forall k :: 0 <= k < |arrivals| ==> arrivals[k] == []) ==> accepted == old(accepted)
      {
        if i < |arrivals| {
          run := Arrive(arrivals[i], start, run);
        }
        var finished;
        finished, run := DrainRound(start, run);
        if finished { return; }
        i := i + 1;
      }
      run := DrainEnd(start, run);
    }

    /** Producers between two rounds. */
    method Arrive(events: seq<Event>, ghost start: State, ghost before: seq<Action>) returns (ghost run: seq<Action>)
      requires At(start, before)
      modifies this`queue, this`accepted, this`attempts, this`dropped
      ensures At(start, run)
      ensures events == [] ==> accepted == old(accepted)
    {
      run := before;
      var k := 0;
      while k < |events|
        invariant 0 <= k <= |events| && At(start, run)
        invariant events == [] ==> accepted == old(accepted)
      {
        NextStep(limits, start, run, Enqueue(events[k]));
        EnqueueEvent(events[k]);
        run := run + [Enqueue(events[k])];
        k := k + 1;
      }
    }
  }

  lemma NextStep(l: Limits, s: State, run: seq<Action>, a: Action)
    ensures Run(l, s, run + [a]) == Apply(l, Run(l, s, run), a)
  {
    assert (run + [a])[..|run|] == run;
  }

  /** What a finished drain means, from the invariant alone. */
  lemma DoneMeans(l: Limits, s: State)
    requires Inv(l, s) && s.phase.Done?
    ensures s.batch == [] && s.phase.due <= |Written(s)| && s.accepted == Written(s) + s.queue
    ensures |s.accepted| == s.phase.due ==> s.queue == [] && Written(s) == s.accepted
  {
  }

  // ------------------------------------------------------------------
  // Single steps, in terms of what is written.

  /** A tick while running leaves nothing batched: everything that was is written, behind what was, in one transaction. */
  lemma TickWritesBatch(l: Limits, s: State)
    requires s.phase.Running?
    ensures var t := Apply(l, s, Tick);
      t.batch == [] && Written(t) == Written(s) + s.batch && |t.transactions| <= |s.transactions| + 1 &&
      t.queue == s.queue && t.accepted == s.accepted && t.phase.Running?
  {
    if s.batch != [] {
      var all := s.transactions + [s.batch];
      assert all[..|all| - 1] == s.transactions;
    }
  }

  /** Once enabled, an event that finds room is accepted and queued last; once disabled, none is. */
  lemma ToggleDecides(l: Limits, s: State, on: bool, e: Event)
    ensures var t := Apply(l, Apply(l, s, Toggle(on)), Enqueue(e));
      if on && |s.queue| < l.capacity then t.queue == s.queue + [e] && t.accepted == s.accepted + [e]
      else t.queue == s.queue && t.accepted == s.accepted
  {
  }

  /** What is received is batched at once, and written once the batch is full, never before. */
  lemma ReceiveBatches(l: Limits, s: State)
    requires s.phase.Running? && s.queue != []
    ensures var t := Apply(l, s, Receive);
      t.queue == s.queue[1..] && Written(t) + t.batch == Written(s) + s.batch + [s.queue[0]] &&
      (t.transactions == s.transactions <==> |s.batch| + 1 < l.maxBatch)
  {
    var full := s.batch + [s.queue[0]];
    if |full| >= l.maxBatch {
      var all := s.transactions + [full];
      assert all[..|all| - 1] == s.transactions;
    }
  }
}
