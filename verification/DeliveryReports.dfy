/** DeliveryReportDispatcher: any number of librdkafka threads add reports, the event loop flushes
    them to JavaScript at most 100 at a time. An adder signals the loop only when its report is the
    first in the queue; a flush that leaves reports behind signals the loop itself. */
module DeliveryReports {
  import opened Lexical

  const MAX_FLUSH: nat := 100

  function BatchSize(queue: nat): nat {
    if queue < MAX_FLUSH then queue else MAX_FLUSH
  }

  /** The number of batches that n reports make. */
  function Batches(n: nat): nat {
    (n + MAX_FLUSH - 1) / MAX_FLUSH
  }

  // ---------------------------------------------------------------------------------------
  // The protocol, one lock section or one library call at a time

  /** A thread in dr_cb: outside, after Add returned a size, or about to call Execute. */
  datatype Adder = Resting | Added(size: nat) | Calling

  /** The event loop: asleep, in the callback before its lock section, or with a batch in flight. */
  datatype Flusher<R> = Waiting | Woken | Dispatching(rest: seq<R>, taken: nat, outstanding: nat)

  /** The queue, the coalescing flag of uv_async_send, the threads, and as history the reports
      handed to JavaScript and all reports added. */
  datatype State<R> = State(queue: seq<R>, pending: bool, adders: seq<Adder>, flusher: Flusher<R>,
                            dispatched: seq<R>, added: seq<R>)

  datatype Action<R> = Add(t: nat, report: R) | Check(t: nat) | Send(t: nat) | Wake | Take | Dispatch | Finish

  ghost predicate Enabled<R>(s: State<R>, a: Action<R>) {
    match a
    case Add(t, _) => t < |s.adders| && s.adders[t].Resting?
    case Check(t) => t < |s.adders| && s.adders[t].Added?
    case Send(t) => t < |s.adders| && s.adders[t].Calling?
    case Wake => s.pending && s.flusher.Waiting?
    case Take => s.flusher.Woken?
    case Dispatch => s.flusher.Dispatching? && s.flusher.rest != []
    case Finish => s.flusher.Dispatching? && s.flusher.rest == []
  }

  ghost function Apply<R>(s: State<R>, a: Action<R>): State<R>
    requires Enabled(s, a)
  {
    match a
    case Add(t, report) =>
      s.(queue := s.queue + [report], added := s.added + [report], adders := s.adders[t := Added(|s.queue| + 1)])
    case Check(t) => s.(adders := s.adders[t := if s.adders[t].size == 1 then Calling else Resting])
    case Send(t) => s.(adders := s.adders[t := Resting], pending := true)
    case Wake => s.(pending := false, flusher := Woken)
    case Take =>
      var k := BatchSize(|s.queue|);
      s.(flusher := Dispatching(s.queue[..k], k, |s.queue|), queue := s.queue[k..])
    case Dispatch =>
      var f := s.flusher;
      s.(dispatched := s.dispatched + [f.rest[0]], flusher := f.(rest := f.rest[1..]))
    case Finish => s.(flusher := Waiting, pending := s.pending || s.flusher.outstanding > s.flusher.taken)
  }

  ghost function Initial<R>(threads: nat): State<R> {
    State([], false, seq(threads, _ => Resting), Waiting, [], [])
  }

  /** The actions can be taken one after the other and lead from s to end. */
  ghost predicate Runs<R>(s: State<R>, actions: seq<Action<R>>, end: State<R>)
    decreases |actions|
  {
    if actions == [] then s == end
    else Enabled(s, actions[0]) && Runs(Apply(s, actions[0]), actions[1..], end)
  }

  ghost function InFlight<R>(s: State<R>): seq<R> {
    if s.flusher.Dispatching? then s.flusher.rest else []
  }

  /** The adder found its report first in the queue and has not yet signalled. */
  predicate Committed(a: Adder) {
    a == Calling || a == Added(1)
  }

  ghost predicate SomeCommitted(adders: seq<Adder>) {
    exists t :: 0 <= t < |adders| && Committed(adders[t])
  }

  /** Queued reports will be seen: a wakeup is pending or being served, or some thread is committed
      to calling Execute. */
  ghost predicate NoLostWakeup<R>(s: State<R>) {
    s.queue != [] ==>
      || s.pending
      || s.flusher.Woken?
      || (s.flusher.Dispatching? && s.flusher.outstanding > s.flusher.taken)
      || SomeCommitted(s.adders)
  }

  ghost predicate Invariant<R>(s: State<R>) {
    && NoLostWakeup(s)
    && s.dispatched + InFlight(s) + s.queue == s.added
    && (s.flusher.Dispatching? ==>
          && |s.flusher.rest| <= s.flusher.taken == BatchSize(s.flusher.outstanding))
  }

  lemma StepKeepsInvariant<R>(s: State<R>, a: Action<R>)
    requires Invariant(s) && Enabled(s, a)
    ensures Invariant(Apply(s, a))
  {
    StepKeepsOrder(s, a);
    StepKeepsWakeup(s, a);
  }

  lemma StepKeepsOrder<R>(s: State<R>, a: Action<R>)
    requires Invariant(s) && Enabled(s, a)
    ensures var n := Apply(s, a); n.dispatched + InFlight(n) + n.queue == n.added
  {
    match a
    case Add(_, report) => Associate(s.dispatched + InFlight(s), s.queue, [report]);
    case Take =>
      var k := BatchSize(|s.queue|);
      Associate(s.dispatched, s.queue[..k], s.queue[k..]);
      assert s.queue == s.queue[..k] + s.queue[k..] && s.dispatched + [] == s.dispatched;
    case Dispatch =>
      var rest := s.flusher.rest;
      Associate(s.dispatched, [rest[0]], rest[1..]);
      assert rest == [rest[0]] + rest[1..];
    case _ =>
  }

  lemma StepKeepsWakeup<R>(s: State<R>, a: Action<R>)
    requires NoLostWakeup(s) && Enabled(s, a)
    ensures NoLostWakeup(Apply(s, a))
  {
    var n := Apply(s, a);
    if n.queue != [] {
      match a
      case Add(t, _) =>
        if s.queue == [] {
          assert n.adders[t] == Added(1);
        } else if SomeCommitted(s.adders) {
          var u :| 0 <= u < |s.adders| && Committed(s.adders[u]);
          assert n.adders[u] == s.adders[u];
        }
      case Check(t) =>
        if SomeCommitted(s.adders) {
          var u :| 0 <= u < |s.adders| && Committed(s.adders[u]);
          assert n.adders[u] == if u == t then Calling else s.adders[u];
        }
      case _ =>
    }
  }

  /** In every interleaving no wakeup is lost, and the reports dispatched, in flight and queued are
      the reports added, in order. */
  lemma {:induction false} EveryRun<R>(s: State<R>, actions: seq<Action<R>>, end: State<R>)
    requires Invariant(s) && Runs(s, actions, end)
    ensures Invariant(end)
    decreases |actions|
  {
    if actions == [] {
    } else {
      StepKeepsInvariant(s, actions[0]);
      EveryRun(Apply(s, actions[0]), actions[1..], end);
    }
  }

  lemma EveryRunFromStart<R>(threads: nat, actions: seq<Action<R>>, s: State<R>)
    requires Runs(Initial(threads), actions, s)
    ensures NoLostWakeup(s)
    ensures s.dispatched + InFlight(s) + s.queue == s.added
    ensures |InFlight(s)| <= 100
  {
    EveryRun(Initial(threads), actions, s);
  }

  // ---------------------------------------------------------------------------------------
  // Every report is delivered

  /** Nothing but a new report can happen. */
  ghost predicate Quiet<R(!new)>(s: State<R>) {
    forall a | Enabled(s, a) :: a.Add?
  }

  lemma QuietMeansEmpty<R(!new)>(s: State<R>)
    requires NoLostWakeup(s) && Quiet(s)
    ensures s.queue == [] && s.flusher.Waiting?
  {
    assert !Enabled(s, Action<R>.Wake) && !Enabled(s, Action<R>.Take);
    assert !Enabled(s, Action<R>.Dispatch) && !Enabled(s, Action<R>.Finish);
    if SomeCommitted(s.adders) {
      CommittedIsNotQuiet(s);
    }
  }

  /** When nothing is left to do, everything added has been dispatched. */
  lemma QuietMeansDelivered<R(!new)>(threads: nat, actions: seq<Action<R>>, s: State<R>)
    requires Runs(Initial(threads), actions, s) && Quiet(s)
    ensures s.queue == [] && s.dispatched == s.added
  {
    EveryRun(Initial(threads), actions, s);
    QuietMeansEmpty(s);
    assert s.dispatched + [] + [] == s.dispatched;
  }

  lemma CommittedIsNotQuiet<R(!new)>(s: State<R>)
    requires SomeCommitted(s.adders)
    ensures !Quiet(s)
  {
    var t :| 0 <= t < |s.adders| && Committed(s.adders[t]);
    var a: Action<R> := if s.adders[t] == Calling then Send(t) else Check(t);
    assert Enabled(s, a) && !a.Add?;
  }

  function AdderWork(a: Adder): nat {
    match a
    case Resting => 0
    case Added(_) => 6
    case Calling => 5
  }

  function AddersWork(adders: seq<Adder>): nat {
    if adders == [] then 0 else AddersWork(Init(adders)) + AdderWork(Last(adders))
  }

  /** A bound on the actions that can follow without a new report. */
  ghost function Work<R>(s: State<R>): nat {
    10 * |s.queue|
    + AddersWork(s.adders)
    + (if s.pending then 4 else 0)
    + match s.flusher
      case Waiting => 0
      case Woken => 3
      case Dispatching(rest, taken, outstanding) => 2 + |rest| + if outstanding > taken then 5 else 0
  }

  lemma {:induction false} AddersWorkUpdate(adders: seq<Adder>, t: nat, a: Adder)
    requires t < |adders|
    ensures AddersWork(adders[t := a]) == AddersWork(adders) - AdderWork(adders[t]) + AdderWork(a)
    decreases |adders|
  {
    var next := adders[t := a];
    if t == |adders| - 1 {
      assert Init(next) == Init(adders);
    } else {
      assert Init(next) == Init(adders)[t := a];
      AddersWorkUpdate(Init(adders), t, a);
    }
  }

  lemma StepDoesWork<R>(s: State<R>, a: Action<R>)
    requires Invariant(s) && Enabled(s, a) && !a.Add?
    ensures Work(Apply(s, a)) < Work(s)
  {
    match a
    case Check(t) => AddersWorkUpdate(s.adders, t, Apply(s, a).adders[t]);
    case Send(t) => AddersWorkUpdate(s.adders, t, Resting);
    case _ =>
  }

  /** Without new reports the protocol stops, whatever the schedule. */
  lemma {:induction false} WithoutAddsItStops<R>(s: State<R>, actions: seq<Action<R>>, end: State<R>)
    requires Invariant(s) && Runs(s, actions, end) && forall a | a in actions :: !a.Add?
    ensures |actions| + Work(end) <= Work(s)
    decreases |actions|
  {
    if actions == [] {
    } else {
      assert !actions[0].Add?;
      StepDoesWork(s, actions[0]);
      StepKeepsInvariant(s, actions[0]);
      WithoutAddsItStops(Apply(s, actions[0]), actions[1..], end);
    }
  }

  // ---------------------------------------------------------------------------------------
  // How many flushes it takes

  function Takes<R>(actions: seq<Action<R>>): nat {
    if actions == [] then 0 else (if actions[0].Take? then 1 else 0) + Takes(actions[1..])
  }

  /** Every flush takes at most a batch: at least so many flushes stand between two states. */
  lemma {:induction false} FlushesAtLeast<R>(s: State<R>, actions: seq<Action<R>>, end: State<R>)
    requires Runs(s, actions, end) && forall a | a in actions :: !a.Add?
    ensures |s.queue| <= 100 * Takes(actions) + |end.queue|
    decreases |actions|
  {
    if actions == [] {
    } else {
      assert !actions[0].Add?;
      FlushesAtLeast(Apply(s, actions[0]), actions[1..], end);
    }
  }

  /** On every schedule, new reports included, so many flushes have let out at least a batch each of what
      was queued at the start. */
  lemma {:induction false} FlushesLetOut<R>(s: State<R>, actions: seq<Action<R>>, end: State<R>)
    requires Runs(s, actions, end)
    ensures var n := if |s.queue| < 100 * Takes(actions) then |s.queue| else 100 * Takes(actions);
            |end.dispatched| + |InFlight(end)| >= |s.dispatched| + |InFlight(s)| + n
    decreases |actions|
  {
    if actions == [] {
    } else {
      FlushesLetOut(Apply(s, actions[0]), actions[1..], end);
    }
  }

  lemma {:induction false} RunAddsOn<R>(s: State<R>, actions: seq<Action<R>>, end: State<R>)
    requires Runs(s, actions, end)
    ensures s.added <= end.added
    decreases |actions|
  {
    if actions == [] {
    } else {
      RunAddsOn(Apply(s, actions[0]), actions[1..], end);
    }
  }

  /** First in, first out, with no adder able to overtake: from any reachable state and on every schedule,
      after k flushes the first 100 k reports of the queue are out, in order, right after those that were
      out before. */
  lemma FirstInFirstOut<R>(s: State<R>, actions: seq<Action<R>>, end: State<R>)
    requires Invariant(s) && Runs(s, actions, end)
    ensures var n := if |s.queue| < 100 * Takes(actions) then |s.queue| else 100 * Takes(actions);
            s.dispatched + InFlight(s) + s.queue[..n] <= end.dispatched + InFlight(end)
  {
    hide Takes;
    FlushesLetOut(s, actions, end);
    RunAddsOn(s, actions, end);
    EveryRun(s, actions, end);
    var n := if |s.queue| < 100 * Takes(actions) then |s.queue| else 100 * Takes(actions);
    var before, after := s.dispatched + InFlight(s) + s.queue[..n], end.dispatched + InFlight(end);
    assert s.queue == s.queue[..n] + s.queue[n..];
    Associate(s.dispatched + InFlight(s), s.queue[..n], s.queue[n..]);
    assert before <= end.added;
    assert after <= end.added;
  }

  function CountCommitted(adders: seq<Adder>): nat {
    if adders == [] then 0 else CountCommitted(Init(adders)) + if Committed(Last(adders)) then 1 else 0
  }

  /** The wakeups pending, being served, or promised by the flusher or an adder. */
  ghost function Wakeups<R>(s: State<R>): nat {
    CountCommitted(s.adders)
    + (if s.pending then 1 else 0)
    + match s.flusher
      case Waiting => 0
      case Woken => 1
      case Dispatching(_, taken, outstanding) => if outstanding > taken then 1 else 0
  }

  /** The batches after the first one: the flusher signals itself once for each. */
  function FurtherBatches(n: nat): nat {
    if n == 0 then 0 else Batches(n) - 1
  }

  lemma {:induction false} CountCommittedUpdate(adders: seq<Adder>, t: nat, a: Adder)
    requires t < |adders|
    ensures CountCommitted(adders[t := a])
            == CountCommitted(adders) - (if Committed(adders[t]) then 1 else 0) + (if Committed(a) then 1 else 0)
    decreases |adders|
  {
    var next := adders[t := a];
    if t == |adders| - 1 {
      assert Init(next) == Init(adders);
    } else {
      assert Init(next) == Init(adders)[t := a];
      CountCommittedUpdate(Init(adders), t, a);
    }
  }

  /** A flush spends a wakeup, and gains one only with a further batch. */
  lemma StepSpendsWakeup<R>(s: State<R>, a: Action<R>)
    requires Enabled(s, a) && !a.Add?
    ensures var n := Apply(s, a);
            Wakeups(n) + FurtherBatches(|n.queue|) + (if a.Take? then 1 else 0)
            <= Wakeups(s) + FurtherBatches(|s.queue|)
  {
    match a
    case Check(t) => CountCommittedUpdate(s.adders, t, Apply(s, a).adders[t]);
    case Send(t) => CountCommittedUpdate(s.adders, t, Resting);
    case _ =>
  }

  lemma {:induction false} FlushesAtMost<R>(s: State<R>, actions: seq<Action<R>>, end: State<R>)
    requires Runs(s, actions, end) && forall a | a in actions :: !a.Add?
    ensures Takes(actions) <= Wakeups(s) + FurtherBatches(|s.queue|)
    decreases |actions|
  {
    if actions == [] {
    } else {
      assert !actions[0].Add?;
      StepSpendsWakeup(s, actions[0]);
      FlushesAtMost(Apply(s, actions[0]), actions[1..], end);
    }
  }

  lemma {:induction false} RunKeepsWakeup<R>(s: State<R>, actions: seq<Action<R>>, end: State<R>)
    requires NoLostWakeup(s) && Runs(s, actions, end)
    ensures NoLostWakeup(end)
    decreases |actions|
  {
    if actions == [] {
    } else {
      StepKeepsWakeup(s, actions[0]);
      RunKeepsWakeup(Apply(s, actions[0]), actions[1..], end);
    }
  }

  /** From any state without a lost wakeup, adders in mid-flight included, and on every schedule without
      new reports that ends with nothing left to do: all reports are flushed, in no fewer flushes than
      batches and no more than one for each wakeup and each further batch. */
  lemma DrainsWithin<R(!new)>(s: State<R>, actions: seq<Action<R>>, end: State<R>)
    requires NoLostWakeup(s) && Runs(s, actions, end) && (forall a | a in actions :: !a.Add?) && Quiet(end)
    ensures end.queue == []
    ensures (|s.queue| + 99) / 100 <= Takes(actions) <= Wakeups(s) + FurtherBatches(|s.queue|)
  {
    FlushesAtLeast(s, actions, end);
    FlushesAtMost(s, actions, end);
    RunKeepsWakeup(s, actions, end);
    QuietMeansEmpty(end);
  }

  lemma {:induction false} NoneCommitted(adders: seq<Adder>)
    requires forall t | 0 <= t < |adders| :: adders[t].Resting?
    ensures CountCommitted(adders) == 0
    decreases |adders|
  {
    if adders == [] {
    } else {
      NoneCommitted(Init(adders));
    }
  }

  /** With no adder active and one wakeup pending, n reports drain in exactly ceil(n / 100) flushes,
      on every schedule that ends with nothing left to do. */
  lemma DrainsInBatches<R(!new)>(s: State<R>, actions: seq<Action<R>>, end: State<R>)
    requires s.queue != [] && s.pending && s.flusher.Waiting?
    requires forall t | 0 <= t < |s.adders| :: s.adders[t].Resting?
    requires Runs(s, actions, end) && (forall a | a in actions :: !a.Add?) && Quiet(end)
    ensures Takes(actions) == (|s.queue| + 99) / 100 && end.queue == []
  {
    DrainsWithin(s, actions, end);
    NoneCommitted(s.adders);
  }

  // ---------------------------------------------------------------------------------------
  // A flush with no adder between its steps

  lemma {:induction false} FinishBatch<R>(s: State<R>) returns (actions: seq<Action<R>>, end: State<R>)
    requires s.flusher.Dispatching?
    ensures Runs(s, actions, end)
    ensures end == s.(flusher := Waiting, dispatched := s.dispatched + s.flusher.rest,
                      pending := s.pending || s.flusher.outstanding > s.flusher.taken)
    decreases |s.flusher.rest|
  {
    var rest := s.flusher.rest;
    if rest == [] {
      end := Apply(s, Finish);
      actions := [Finish];
      assert actions[1..] == [] && s.dispatched + [] == s.dispatched;
    } else {
      Associate(s.dispatched, [rest[0]], rest[1..]);
      assert rest == [rest[0]] + rest[1..];
      var tail;
      tail, end := FinishBatch(Apply(s, Dispatch));
      actions := [Dispatch] + tail;
      assert actions[1..] == tail;
    }
  }

  /** What Flush below does at once, the protocol does in steps. */
  lemma FlushAlone<R>(s: State<R>) returns (actions: seq<Action<R>>, end: State<R>)
    requires s.flusher.Woken?
    ensures Runs(s, actions, end)
    ensures var k := BatchSize(|s.queue|);
            end == s.(flusher := Waiting, dispatched := s.dispatched + s.queue[..k], queue := s.queue[k..],
                      pending := s.pending || s.queue[k..] != [])
  {
    var tail;
    tail, end := FinishBatch(Apply(s, Take));
    actions := [Take] + tail;
    assert actions[1..] == tail;
  }

  /** What DrCb below does at once, an adder does in steps. */
  lemma AddAlone<R>(s: State<R>, t: nat, report: R) returns (actions: seq<Action<R>>, end: State<R>)
    requires t < |s.adders| && s.adders[t].Resting?
    ensures Runs(s, actions, end)
    ensures end == s.(queue := s.queue + [report], added := s.added + [report], pending := s.pending || s.queue == [])
  {
    var s1 := Apply(s, Add(t, report));
    var s2 := Apply(s1, Check(t));
    actions, end := [], s2;
    if s.queue == [] {
      actions, end := [Send(t)], Apply(s2, Send(t));
      assert actions[1..] == [];
    }
    assert Runs(s2, actions, end) && end.adders == s.adders;
    actions := [Check(t)] + actions;
    assert Runs(s1, actions, end) by { assert actions[1..] == if s.queue == [] then [Action<R>.Send(t)] else []; }
    ghost var rest := actions;
    actions := [Add(t, report)] + actions;
    assert actions[1..] == rest;
  }

  // ---------------------------------------------------------------------------------------
  // The class

  class DeliveryReportDispatcher<R> {
    var events: seq<R>        // the deque
    var callbacks: nat        // how many JavaScript callbacks are registered
    var active: bool          // async is not null
    var pending: bool         // the flag set by uv_async_send
    var dispatched: seq<R>    // the reports given to Dispatch
    ghost var added: seq<R>

    /** The state of the protocol while no thread is at work. */
    ghost function Abstract(threads: nat): State<R>
      reads this
    {
      State(events, pending, seq(threads, _ => Resting), Waiting, dispatched, added)
    }

    constructor ()
      ensures callbacks == 0 && !active && forall threads :: Abstract(threads) == Initial(threads)
    {
      events, callbacks, active, pending, dispatched, added := [], 0, false, false, [], [];
    }

    method Activate()
      modifies this`active, this`pending
      ensures active && pending == (old(active) && old(pending))
    {
      if !active {
        active, pending := true, false;
      }
    }

    method Execute()
      modifies this`pending
      ensures pending == (old(pending) || active)
    {
      if active {
        pending := true;
      }
    }

    method Push(e: R) returns (size: nat)
      modifies this`events, this`added
      ensures events == old(events) + [e] && size == |events| && added == old(added) + [e]
    {
      events, added := events + [e], added + [e];
      return |events|;
    }

    /** dr_cb when no other thread comes between: a run of the protocol, with Add, Check and Send. */
    method DrCb(report: R, ghost threads: nat, ghost t: nat)
      requires t < threads
      modifies this`events, this`pending, this`added
      ensures callbacks == 0 ==> events == old(events) && pending == old(pending)
      ensures callbacks > 0 ==> events == old(events) + [report]
                                && pending == (old(pending) || (active && old(events) == []))
      ensures callbacks > 0 && active ==>
                exists actions :: Runs(old(Abstract(threads)), actions, Abstract(threads))
    {
      if callbacks == 0 {
        return;
      }
      ghost var actions, end := AddAlone(Abstract(threads), t, report);
      var size := Push(report);
      if size == 1 {
        Execute();
      }
      assert active ==> end == Abstract(threads);
    }

    /** The lock section of Flush. */
    method TakeBatch() returns (batch: seq<R>, outstanding: nat)
      modifies this`events
      ensures outstanding == |old(events)|
      ensures var k := if |old(events)| < 100 then |old(events)| else 100;
              batch == old(events)[..k] && events == old(events)[k..]
    {
      outstanding := |events|;
      var count := if outstanding < MAX_FLUSH then outstanding else MAX_FLUSH;
      batch := [];
      for i := 0 to count
        invariant batch == old(events)[..i] && events == old(events)[i..]
      {
        batch := batch + [events[0]];
        events := events[1..];
      }
    }

    /** A whole flush when no adder comes between: a run of the protocol from the moment the loop woke,
        with Take, every Dispatch, and Finish. */
    method Flush(ghost threads: nat)
      modifies this`events, this`dispatched, this`pending
      ensures var k := if |old(events)| < 100 then |old(events)| else 100;
              && dispatched == old(dispatched) + old(events)[..k]
              && events == old(events)[k..]
      ensures pending == (old(pending) || (active && events != []))
      ensures active ==>
                exists actions :: Runs(old(Abstract(threads)).(flusher := Woken), actions, Abstract(threads))
    {
      ghost var actions, end := FlushAlone(Abstract(threads).(flusher := Woken));
      var batch, outstanding := TakeBatch();
      for i := 0 to |batch|
        invariant dispatched == old(dispatched) + batch[..i]
        invariant events == old(events)[|batch|..] && pending == old(pending)
      {
        dispatched := dispatched + [batch[i]];
      }
      if outstanding > |batch| {
        Execute();
      }
      assert active ==> end == Abstract(threads);
    }
  }
}
