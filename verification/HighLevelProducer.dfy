/** HighLevelProducer: every produce call serializes its value and key, now or later, produces once
    both are there, and answers the user's callback from the delivery report with its message id. */
module HighLevel {
  import opened Lexical
  import R = RefCounting

  /** What a serializer returns: a value, or something that settles in a later turn. */
  datatype Serialized<V> = Now(value: V) | Later

  datatype Settled<V> = Resolved(value: V) | Rejected(error: int)

  datatype Report = Report(err: Option<int>, offset: int)

  /** The arguments of a user callback; None is null. */
  datatype Answer = Answer(err: Option<int>, offset: Option<int>)

  function AnswerTo(r: Report): Answer {
    Answer(r.err, if r.offset >= 0 then Some(r.offset) else None)
  }

  function Failure(error: int): Answer {
    Answer(Some(error), None)
  }

  /** The closure variables of one call, and which of its serializers are still to settle. */
  datatype Call<V> = Call(value: Option<V>, key: Option<V>, calledBack: bool, valueOpen: bool, keyOpen: bool)

  /** A call of the underlying produce, and the error it threw. */
  datatype Attempt<V> = Attempt(id: nat, value: V, key: V, refused: Option<int>)

  /** The producer; the number of calls is messageId. reports holds, as history, the report that met
      each listener. */
  datatype State<V> = State(
    calls: seq<Call<V>>,
    polling: R.Counter,
    listeners: set<nat>,
    immediates: seq<(nat, Answer)>,
    callbacks: seq<(nat, Answer)>,
    attempts: seq<Attempt<V>>,
    reports: map<nat, Report>)

  /** refused is what the underlying produce will throw if it is called in this turn. */
  datatype Event<V> =
    | Produce(value: Serialized<V>, key: Serialized<V>, refused: Option<int>)
    | SettleValue(id: nat, result: Settled<V>, refused: Option<int>)
    | SettleKey(id: nat, result: Settled<V>, refused: Option<int>)
    | Deliver(id: nat, report: Report)
    | Immediate

  /** Serializers settle exactly once. */
  predicate Enabled<V>(s: State<V>, e: Event<V>) {
    match e
    case SettleValue(id, _, _) => id < |s.calls| && s.calls[id].valueOpen
    case SettleKey(id, _, _) => id < |s.calls| && s.calls[id].keyOpen
    case Immediate => s.immediates != []
    case _ => true
  }

  function ProduceIfComplete<V>(s: State<V>, id: nat, refused: Option<int>): State<V>
    requires id < |s.calls|
  {
    var c := s.calls[id];
    if c.value.None? || c.key.None? then s
    else
      var t := s.(attempts := s.attempts + [Attempt(id, c.value.value, c.key.value, refused)]);
      if refused.None? then t.(listeners := s.listeners + {id})
      else t.(callbacks := s.callbacks + [(id, Failure(refused.value))])
  }

  function Fail<V>(s: State<V>, id: nat, error: int): State<V>
    requires id < |s.calls|
  {
    if s.calls[id].calledBack then s
    else s.(calls := s.calls[id := s.calls[id].(calledBack := true)],
            callbacks := s.callbacks + [(id, Failure(error))])
  }

  function Given<V>(x: Serialized<V>): Option<V> {
    if x.Now? then Some(x.value) else None
  }

  function Apply<V>(s: State<V>, e: Event<V>): State<V>
    requires Enabled(s, e)
  {
    match e
    case Produce(value, key, refused) =>
      var c := Call(Given(value), Given(key), false, value.Later?, key.Later?);
      ProduceIfComplete(s.(calls := s.calls + [c], polling := R.Up(s.polling)), |s.calls|, refused)
    case SettleValue(id, result, refused) =>
      var c := s.calls[id].(valueOpen := false);
      var t := s.(calls := s.calls[id := c]);
      if result.Rejected? then Fail(t, id, result.error)
      else if c.calledBack then t
      else ProduceIfComplete(t.(calls := s.calls[id := c.(value := Some(result.value))]), id, refused)
    case SettleKey(id, result, refused) =>
      var c := s.calls[id].(keyOpen := false);
      var t := s.(calls := s.calls[id := c]);
      if result.Rejected? then Fail(t, id, result.error)
      else
        var u := t.(calls := s.calls[id := c.(key := Some(result.value))]);
        if c.calledBack then u else ProduceIfComplete(u, id, refused)
    case Deliver(id, report) =>
      if id !in s.listeners then s
      else s.(listeners := s.listeners - {id}, polling := R.Down(s.polling),
              immediates := s.immediates + [(id, AnswerTo(report))], reports := s.reports[id := report])
    case Immediate =>
      s.(callbacks := s.callbacks + [s.immediates[0]], immediates := s.immediates[1..])
  }

  function Initial<V>(): State<V> {
    State([], R.IDLE, {}, [], [], [], map[])
  }

  ghost predicate Runs<V>(s: State<V>, events: seq<Event<V>>, end: State<V>)
    decreases |events|
  {
    if events == [] then s == end
    else Enabled(s, events[0]) && Runs(Apply(s, events[0]), events[1..], end)
  }

  // ---------------------------------------------------------------------------------------
  // One call at a time

  /** What a call got, of all answers in a log. */
  function AnswersOf(log: seq<(nat, Answer)>, id: nat): seq<Answer> {
    if log == [] then [] else AnswersOf(Init(log), id) + if Last(log).0 == id then [Last(log).1] else []
  }

  function AttemptsOf<V>(attempts: seq<Attempt<V>>, id: nat): seq<Attempt<V>> {
    if attempts == [] then []
    else AttemptsOf(Init(attempts), id) + if Last(attempts).id == id then [Last(attempts)] else []
  }

  /** All that concerns one call: its closure, whether it listens for a report, the report, its
      attempts to produce, and the answers its callback got or will get from a queued immediate. */
  datatype View<V> = View(call: Call<V>, listening: bool, report: Option<Report>, attempts: seq<Attempt<V>>,
                          called: seq<Answer>, queued: seq<Answer>)

  function ViewOf<V>(s: State<V>, id: nat): View<V>
    requires id < |s.calls|
  {
    View(s.calls[id], id in s.listeners, if id in s.reports then Some(s.reports[id]) else None,
         AttemptsOf(s.attempts, id), AnswersOf(s.callbacks, id), AnswersOf(s.immediates, id))
  }

  datatype Phase<V> =
    | Serializing                         // a serializer has yet to settle
    | SerializerFailed(error: int)
    | Refused(value: V, key: V, error: int)   // the underlying produce threw
    | Awaiting(value: V, key: V)              // accepted, without a report
    | Reported(value: V, key: V, report: Report)

  /** The whole of what a call has done by the time it is in a phase. */
  ghost predicate InPhase<V>(v: View<V>, id: nat, phase: Phase<V>) {
    var c := v.call;
    && (c.valueOpen ==> c.value.None?) && (c.keyOpen ==> c.key.None?)
    && v.listening == phase.Awaiting?
    && v.report == (if phase.Reported? then Some(phase.report) else None)
    && match phase
       case Serializing =>
         && !c.calledBack && (c.valueOpen || c.keyOpen)
         && (c.value.Some? || c.valueOpen) && (c.key.Some? || c.keyOpen)
         && v.attempts == [] && v.called + v.queued == []
       case SerializerFailed(e) =>
         && c.calledBack && ((c.value.None? && !c.valueOpen) || (c.key.None? && !c.keyOpen))
         && v.attempts == [] && v.called + v.queued == [Failure(e)]
       case Refused(value, key, e) => Sent(v, id, value, key, Some(e)) && v.called + v.queued == [Failure(e)]
       case Awaiting(value, key) => Sent(v, id, value, key, None) && v.called + v.queued == []
       case Reported(value, key, r) => Sent(v, id, value, key, None) && v.called + v.queued == [AnswerTo(r)]
  }

  /** Produced exactly once, with what the serializers gave. */
  ghost predicate Sent<V>(v: View<V>, id: nat, value: V, key: V, refused: Option<int>) {
    && v.call == Call(Some(value), Some(key), false, false, false)
    && v.attempts == [Attempt(id, value, key, refused)]
  }

  ghost predicate Lives<V(!new)>(s: State<V>, id: nat)
    requires id < |s.calls|
  {
    exists phase: Phase<V> :: InPhase(ViewOf(s, id), id, phase)
  }

  lemma AnswersAdd(log: seq<(nat, Answer)>, x: (nat, Answer), id: nat)
    ensures AnswersOf(log + [x], id) == AnswersOf(log, id) + if x.0 == id then [x.1] else []
  {
    assert Init(log + [x]) == log;
  }

  lemma AttemptsAdd<V>(attempts: seq<Attempt<V>>, a: Attempt<V>, id: nat)
    ensures AttemptsOf(attempts + [a], id) == AttemptsOf(attempts, id) + if a.id == id then [a] else []
  {
    assert Init(attempts + [a]) == attempts;
  }

  lemma {:induction false} AnswersFirst(log: seq<(nat, Answer)>, id: nat)
    requires log != []
    ensures AnswersOf(log, id) == (if log[0].0 == id then [log[0].1] else []) + AnswersOf(log[1..], id)
    decreases |log|
  {
    if |log| > 1 {
      AnswersFirst(Init(log), id);
      assert Init(log)[1..] == Init(log[1..]);
    } else {
      assert Init(log) == [] && log[1..] == [];
    }
  }

  // ---------------------------------------------------------------------------------------
  // What each step does to a call

  /** The step concerns this call. */
  predicate Concerns<V>(s: State<V>, e: Event<V>, id: nat)
    requires Enabled(s, e)
  {
    match e
    case Produce(_, _, _) => id == |s.calls|
    case SettleValue(i, _, _) => id == i
    case SettleKey(i, _, _) => id == i
    case Deliver(i, _) => id == i
    case Immediate => id == s.immediates[0].0
  }

  lemma ProduceOther<V>(s: State<V>, i: nat, refused: Option<int>, id: nat)
    requires i < |s.calls| && id < |s.calls| && id != i
    ensures ViewOf(ProduceIfComplete(s, i, refused), id) == ViewOf(s, id)
  {
    var c := s.calls[i];
    if c.value.Some? && c.key.Some? {
      AttemptsAdd(s.attempts, Attempt(i, c.value.value, c.key.value, refused), id);
      if refused.Some? {
        AnswersAdd(s.callbacks, (i, Failure(refused.value)), id);
      }
    }
  }

  lemma FailOther<V>(s: State<V>, i: nat, error: int, id: nat)
    requires i < |s.calls| && id < |s.calls| && id != i
    ensures ViewOf(Fail(s, i, error), id) == ViewOf(s, id)
  {
    AnswersAdd(s.callbacks, (i, Failure(error)), id);
  }

  /** A step leaves all other calls alone. */
  lemma OtherCall<V>(s: State<V>, e: Event<V>, id: nat)
    requires Enabled(s, e) && id < |s.calls| && !Concerns(s, e, id)
    ensures ViewOf(Apply(s, e), id) == ViewOf(s, id)
  {
    hide ProduceIfComplete, Fail, AttemptsOf, AnswersOf;
    match e
    case Produce(value, key, refused) =>
      var c := Call(Given(value), Given(key), false, value.Later?, key.Later?);
      ProduceOther(s.(calls := s.calls + [c], polling := R.Up(s.polling)), |s.calls|, refused, id);
    case SettleValue(i, result, refused) =>
      var c := s.calls[i].(valueOpen := false);
      var t := s.(calls := s.calls[i := c]);
      if result.Rejected? {
        FailOther(t, i, result.error, id);
      } else if !c.calledBack {
        ProduceOther(t.(calls := s.calls[i := c.(value := Some(result.value))]), i, refused, id);
      }
    case SettleKey(i, result, refused) =>
      var c := s.calls[i].(keyOpen := false);
      var t := s.(calls := s.calls[i := c]);
      if result.Rejected? {
        FailOther(t, i, result.error, id);
      } else if !c.calledBack {
        ProduceOther(t.(calls := s.calls[i := c.(key := Some(result.value))]), i, refused, id);
      }
    case Deliver(i, report) => AnswersAdd(s.immediates, (i, AnswerTo(report)), id);
    case Immediate =>
      AnswersFirst(s.immediates, id);
      AnswersAdd(s.callbacks, s.immediates[0], id);
  }

  /** A call that has not produced or failed, with both or not both of its values. */
  ghost predicate Fresh<V>(v: View<V>) {
    var c := v.call;
    && !v.listening && v.report == None && v.attempts == [] && v.called == [] && v.queued == [] && !c.calledBack
    && (c.value.None? <==> c.valueOpen) && (c.key.None? <==> c.keyOpen)
  }

  lemma WaitOwn<V(!new)>(s: State<V>, id: nat, refused: Option<int>)
    requires id < |s.calls| && Fresh(ViewOf(s, id)) && (s.calls[id].value.None? || s.calls[id].key.None?)
    ensures Lives(ProduceIfComplete(s, id, refused), id)
  {
    hide AttemptsOf, AnswersOf;
    assert InPhase(ViewOf(s, id), id, Serializing);
  }

  lemma AcceptOwn<V(!new)>(s: State<V>, id: nat)
    requires id < |s.calls| && Fresh(ViewOf(s, id)) && s.calls[id].value.Some? && s.calls[id].key.Some?
    ensures Lives(ProduceIfComplete(s, id, None), id)
  {
    hide AttemptsOf, AnswersOf;
    var c := s.calls[id];
    AttemptsAdd(s.attempts, Attempt(id, c.value.value, c.key.value, None), id);
    assert InPhase(ViewOf(ProduceIfComplete(s, id, None), id), id, Awaiting(c.value.value, c.key.value));
  }

  lemma RefuseOwn<V(!new)>(s: State<V>, id: nat, error: int)
    requires id < |s.calls| && Fresh(ViewOf(s, id)) && s.calls[id].value.Some? && s.calls[id].key.Some?
    ensures Lives(ProduceIfComplete(s, id, Some(error)), id)
  {
    hide AttemptsOf, AnswersOf;
    var c := s.calls[id];
    AttemptsAdd(s.attempts, Attempt(id, c.value.value, c.key.value, Some(error)), id);
    AnswersAdd(s.callbacks, (id, Failure(error)), id);
    assert InPhase(ViewOf(ProduceIfComplete(s, id, Some(error)), id), id, Refused(c.value.value, c.key.value, error));
  }

  lemma ProduceOwn<V(!new)>(s: State<V>, id: nat, refused: Option<int>)
    requires id < |s.calls| && Fresh(ViewOf(s, id))
    ensures |ProduceIfComplete(s, id, refused).calls| == |s.calls| && Lives(ProduceIfComplete(s, id, refused), id)
  {
    hide Fresh, ViewOf, Lives;
    if s.calls[id].value.None? || s.calls[id].key.None? {
      WaitOwn(s, id, refused);
    } else if refused.None? {
      AcceptOwn(s, id);
    } else {
      RefuseOwn(s, id, refused.value);
    }
  }

  lemma FailOwn<V(!new)>(s: State<V>, id: nat, error: int, phase: Phase<V>)
    requires id < |s.calls| && (phase.Serializing? || phase.SerializerFailed?)
    requires var v := ViewOf(s, id); var c := v.call;
             && (c.valueOpen ==> c.value.None?) && (c.keyOpen ==> c.key.None?)
             && ((c.value.None? && !c.valueOpen) || (c.key.None? && !c.keyOpen))
             && !v.listening && v.report == None && v.attempts == []
             && c.calledBack == phase.SerializerFailed?
             && v.called + v.queued == if phase.SerializerFailed? then [Failure(phase.error)] else []
    ensures |Fail(s, id, error).calls| == |s.calls| && Lives(Fail(s, id, error), id)
  {
    var t := Fail(s, id, error);
    if phase.SerializerFailed? {
      assert InPhase(ViewOf(t, id), id, phase);
    } else {
      assert ViewOf(s, id).called == [] && ViewOf(s, id).queued == [];
      AnswersAdd(s.callbacks, (id, Failure(error)), id);
      assert InPhase(ViewOf(t, id), id, SerializerFailed(error));
    }
  }

  lemma SettleValueOwn<V(!new)>(s: State<V>, id: nat, result: Settled<V>, refused: Option<int>, phase: Phase<V>)
    requires id < |s.calls| && s.calls[id].valueOpen && InPhase(ViewOf(s, id), id, phase)
    ensures Lives(Apply(s, SettleValue(id, result, refused)), id)
  {
    hide AttemptsOf, AnswersOf, Fail, ProduceIfComplete;
    var c := s.calls[id].(valueOpen := false);
    var t := s.(calls := s.calls[id := c]);
    if result.Rejected? {
      FailOwn(t, id, result.error, phase);
    } else if c.calledBack {
      assert InPhase(ViewOf(t, id), id, phase);
    } else {
      var u := t.(calls := s.calls[id := c.(value := Some(result.value))]);
      assert Fresh(ViewOf(u, id));
      ProduceOwn(u, id, refused);
    }
  }

  lemma SettleKeyOwn<V(!new)>(s: State<V>, id: nat, result: Settled<V>, refused: Option<int>, phase: Phase<V>)
    requires id < |s.calls| && s.calls[id].keyOpen && InPhase(ViewOf(s, id), id, phase)
    ensures Lives(Apply(s, SettleKey(id, result, refused)), id)
  {
    hide AttemptsOf, AnswersOf, Fail, ProduceIfComplete;
    var c := s.calls[id].(keyOpen := false);
    var t := s.(calls := s.calls[id := c]);
    if result.Rejected? {
      FailOwn(t, id, result.error, phase);
    } else {
      var u := t.(calls := s.calls[id := c.(key := Some(result.value))]);
      if c.calledBack {
        assert InPhase(ViewOf(u, id), id, phase);
      } else {
        assert Fresh(ViewOf(u, id));
        ProduceOwn(u, id, refused);
      }
    }
  }

  lemma DeliverOwn<V(!new)>(s: State<V>, id: nat, report: Report, phase: Phase<V>)
    requires id < |s.calls| && InPhase(ViewOf(s, id), id, phase)
    ensures Lives(Apply(s, Event<V>.Deliver(id, report)), id)
  {
    hide AttemptsOf, AnswersOf;
    var t := Apply(s, Event<V>.Deliver(id, report));
    if phase.Awaiting? {
      AnswersAdd(s.immediates, (id, AnswerTo(report)), id);
      assert ViewOf(s, id).called == [] && ViewOf(s, id).queued == [];
      assert InPhase(ViewOf(t, id), id, Reported(phase.value, phase.key, report));
    } else {
      assert InPhase(ViewOf(t, id), id, phase);
    }
  }

  lemma ImmediateOwn<V(!new)>(s: State<V>, id: nat, phase: Phase<V>)
    requires id < |s.calls| && s.immediates != [] && s.immediates[0].0 == id && InPhase(ViewOf(s, id), id, phase)
    ensures Lives(Apply(s, Event<V>.Immediate), id)
  {
    hide AttemptsOf, AnswersOf;
    var t, v := Apply(s, Event<V>.Immediate), ViewOf(s, id);
    AnswersFirst(s.immediates, id);
    AnswersAdd(s.callbacks, s.immediates[0], id);
    var w := ViewOf(t, id);
    Associate(v.called, [s.immediates[0].1], w.queued);
    assert InPhase(w, id, phase);
  }

  // ---------------------------------------------------------------------------------------
  // All calls, and polling

  /** How many of the first n calls have no report. */
  function Unreported(n: nat, reports: map<nat, Report>): nat {
    if n == 0 then 0 else Unreported(n - 1, reports) + if n - 1 in reports then 0 else 1
  }

  lemma {:induction false} UnreportedAdd(n: nat, reports: map<nat, Report>, id: nat, r: Report)
    requires id !in reports
    ensures Unreported(n, reports[id := r]) == Unreported(n, reports) - if id < n then 1 else 0
  {
    if n == 0 {
    } else {
      UnreportedAdd(n - 1, reports, id, r);
    }
  }

  lemma {:induction false} UnreportedPositive(n: nat, reports: map<nat, Report>, id: nat)
    requires id < n && id !in reports
    ensures Unreported(n, reports) > 0
  {
    if id == n - 1 {
    } else {
      UnreportedPositive(n - 1, reports, id);
    }
  }

  lemma {:induction false} UnreportedSome(n: nat, reports: map<nat, Report>) returns (id: nat)
    requires Unreported(n, reports) > 0
    ensures id < n && id !in reports
  {
    if n - 1 in reports {
      id := UnreportedSome(n - 1, reports);
    } else {
      id := n - 1;
    }
  }

  /** Only message ids given out appear anywhere, and the reference count is that of the calls
      without a report. */
  ghost predicate Global<V(!new)>(s: State<V>) {
    var n := |s.calls|;
    && (forall id | id in s.listeners :: id < n && id !in s.reports) && (forall id | id in s.reports :: id < n)
    && (forall a | a in s.attempts :: a.id < n)
    && (forall x | x in s.callbacks :: x.0 < n) && (forall x | x in s.immediates :: x.0 < n)
    && R.Consistent(s.polling) && s.polling.value == Unreported(n, s.reports)
  }

  ghost predicate Invariant<V(!new)>(s: State<V>) {
    Global(s) && forall id: nat | id < |s.calls| :: Lives(s, id)
  }

  lemma {:induction false} NoAnswers(log: seq<(nat, Answer)>, id: nat)
    requires forall x | x in log :: x.0 != id
    ensures AnswersOf(log, id) == []
    decreases |log|
  {
    if log == [] {
    } else {
      assert forall x | x in Init(log) :: x in log;
      NoAnswers(Init(log), id);
      assert Last(log) in log;
    }
  }

  lemma {:induction false} NoAttempts<V>(attempts: seq<Attempt<V>>, id: nat)
    requires forall a | a in attempts :: a.id != id
    ensures AttemptsOf(attempts, id) == []
    decreases |attempts|
  {
    if attempts == [] {
    } else {
      assert forall a | a in Init(attempts) :: a in attempts;
      NoAttempts(Init(attempts), id);
      assert Last(attempts) in attempts;
    }
  }

  lemma NewCall<V(!new)>(s: State<V>, value: Serialized<V>, key: Serialized<V>, refused: Option<int>)
    requires Invariant(s)
    ensures var t := Apply(s, Produce(value, key, refused)); |t.calls| == |s.calls| + 1 && Lives(t, |s.calls|)
  {
    hide AttemptsOf, AnswersOf, ProduceIfComplete;
    var id, c := |s.calls|, Call(Given(value), Given(key), false, value.Later?, key.Later?);
    var t := s.(calls := s.calls + [c], polling := R.Up(s.polling));
    NoAnswers(s.callbacks, id);
    NoAnswers(s.immediates, id);
    NoAttempts(s.attempts, id);
    assert Fresh(ViewOf(t, id));
    ProduceOwn(t, id, refused);
  }

  lemma OwnCall<V(!new)>(s: State<V>, e: Event<V>, id: nat)
    requires Invariant(s) && Enabled(s, e) && id < |s.calls| && Concerns(s, e, id)
    ensures |Apply(s, e).calls| == |s.calls| && Lives(Apply(s, e), id)
  {
    hide AttemptsOf, AnswersOf, InPhase, Global, ProduceIfComplete, Fail;
    StepCalls(s, e);
    assert Lives(s, id);
    var phase: Phase<V> :| InPhase(ViewOf(s, id), id, phase);
    match e
    case SettleValue(_, result, refused) => SettleValueOwn(s, id, result, refused, phase);
    case SettleKey(_, result, refused) => SettleKeyOwn(s, id, result, refused, phase);
    case Deliver(_, report) => DeliverOwn(s, id, report, phase);
    case Immediate => ImmediateOwn(s, id, phase);
  }

  lemma ProduceGlobal<V(!new)>(s: State<V>, id: nat, refused: Option<int>)
    requires id < |s.calls| && Global(s) && id !in s.reports
    ensures Global(ProduceIfComplete(s, id, refused))
  {
  }

  lemma {:induction false} UnreportedBeyond(n: nat, m: nat, reports: map<nat, Report>)
    requires forall id | id in reports :: id < n
    ensures Unreported(n + m, reports) == Unreported(n, reports) + m
  {
    if m == 0 {
    } else {
      UnreportedBeyond(n, m - 1, reports);
    }
  }

  lemma StepGlobal<V(!new)>(s: State<V>, e: Event<V>)
    requires Invariant(s) && Enabled(s, e)
    ensures Global(Apply(s, e))
  {
    hide ProduceIfComplete, Unreported;
    match e
    case Produce(value, key, refused) =>
      var c := Call(Given(value), Given(key), false, value.Later?, key.Later?);
      UnreportedBeyond(|s.calls|, 1, s.reports);
      ProduceGlobal(s.(calls := s.calls + [c], polling := R.Up(s.polling)), |s.calls|, refused);
    case SettleValue(id, result, refused) =>
      NotReported(s, id);
      var c := s.calls[id].(valueOpen := false);
      if result.Resolved? && !c.calledBack {
        ProduceGlobal(s.(calls := s.calls[id := c.(value := Some(result.value))]), id, refused);
      }
    case SettleKey(id, result, refused) =>
      NotReported(s, id);
      var c := s.calls[id].(keyOpen := false);
      if result.Resolved? && !c.calledBack {
        ProduceGlobal(s.(calls := s.calls[id := c.(key := Some(result.value))]), id, refused);
      }
    case Deliver(id, report) =>
      if id in s.listeners {
        UnreportedAdd(|s.calls|, s.reports, id, report);
      }
    case Immediate =>
  }

  lemma NotReported<V(!new)>(s: State<V>, id: nat)
    requires Invariant(s) && id < |s.calls| && (s.calls[id].valueOpen || s.calls[id].keyOpen)
    ensures id !in s.reports
  {
    assert Lives(s, id);
  }

  lemma StepKeepsInvariant<V(!new)>(s: State<V>, e: Event<V>)
    requires Invariant(s) && Enabled(s, e)
    ensures Invariant(Apply(s, e))
  {
    hide Global, Lives, AttemptsOf, AnswersOf, ProduceIfComplete, Fail;
    StepGlobal(s, e);
    var t := Apply(s, e);
    StepCalls(s, e);
    forall id: nat | id < |t.calls|
      ensures Lives(t, id)
    {
      if id == |s.calls| {
        NewCall(s, e.value, e.key, e.refused);
      } else if Concerns(s, e, id) {
        OwnCall(s, e, id);
      } else {
        assert Lives(s, id);
        OtherLives(s, e, id);
      }
    }
  }

  lemma StepCalls<V>(s: State<V>, e: Event<V>)
    requires Enabled(s, e)
    ensures |Apply(s, e).calls| == |s.calls| + if e.Produce? then 1 else 0
  {
  }

  lemma OtherLives<V(!new)>(s: State<V>, e: Event<V>, id: nat)
    requires Enabled(s, e) && id < |s.calls| && !Concerns(s, e, id) && Lives(s, id)
    ensures id < |Apply(s, e).calls| && Lives(Apply(s, e), id)
  {
    hide InPhase, Apply;
    StepCalls(s, e);
    OtherCall(s, e, id);
    var phase: Phase<V> :| InPhase(ViewOf(s, id), id, phase);
    assert InPhase(ViewOf(Apply(s, e), id), id, phase);
  }

  lemma {:induction false} EveryRun<V(!new)>(s: State<V>, events: seq<Event<V>>, end: State<V>)
    requires Invariant(s) && Runs(s, events, end)
    ensures Invariant(end)
    decreases |events|
  {
    hide Invariant, Apply;
    if events == [] {
    } else {
      StepKeepsInvariant(s, events[0]);
      EveryRun(Apply(s, events[0]), events[1..], end);
    }
  }

  // ---------------------------------------------------------------------------------------
  // Where the values come from

  function Produces<V>(events: seq<Event<V>>): nat {
    if events == [] then 0 else Produces(Init(events)) + if Last(events).Produce? then 1 else 0
  }

  /** The value, or the key, that a step's serializer result gives a call, after so many calls. */
  function Gives<V>(e: Event<V>, calls: nat, id: nat, key: bool): Option<V> {
    match e
    case Produce(v, k, _) => if calls == id then Given(if key then k else v) else None
    case SettleValue(i, Resolved(x), _) => if i == id && !key then Some(x) else None
    case SettleKey(i, Resolved(x), _) => if i == id && key then Some(x) else None
    case _ => None
  }

  /** The value, or the key, that a call's own serializer gave in the course of a run. */
  function Supplied<V>(events: seq<Event<V>>, id: nat, key: bool): Option<V> {
    if events == [] then None
    else
      var given := Gives(Last(events), Produces(Init(events)), id, key);
      if given.Some? then given else Supplied(Init(events), id, key)
  }

  /** It was given when the call was made, or when its serializer settled. */
  lemma {:induction false} SuppliedIs<V>(events: seq<Event<V>>, id: nat, key: bool)
    requires Supplied(events, id, key).Some?
    ensures exists i :: 0 <= i < |events| && Supplies(events, i, id, key, Supplied(events, id, key).value)
    decreases |events|
  {
    var front, last := Init(events), |events| - 1;
    assert events[..last] == front;
    if Gives(events[last], Produces(front), id, key).Some? {
      assert Supplies(events, last, id, key, Supplied(events, id, key).value);
    } else {
      SuppliedIs(front, id, key);
      var i :| 0 <= i < |front| && Supplies(front, i, id, key, Supplied(events, id, key).value);
      assert front[..i] == events[..i];
      assert Supplies(events, i, id, key, Supplied(events, id, key).value);
    }
  }

  /** Event i makes the call with this value, or key; or settles it with this value, or key. */
  ghost predicate Supplies<V>(events: seq<Event<V>>, i: nat, id: nat, key: bool, x: V)
    requires i < |events|
  {
    var e := events[i];
    || (e.Produce? && Produces(events[..i]) == id && (if key then e.key else e.value) == Now(x))
    || ((if key then e.SettleKey? else e.SettleValue?) && e.id == id && e.result == Resolved(x))
  }

  ghost predicate FromSerializers<V>(done: seq<Event<V>>, s: State<V>) {
    && |s.calls| == Produces(done)
    && forall id: nat | id < |s.calls| ::
         var c := s.calls[id];
         && (c.valueOpen ==> c.value.None?) && (c.keyOpen ==> c.key.None?)
         && (c.value.Some? ==> Supplied(done, id, false) == c.value)
         && (c.key.Some? ==> Supplied(done, id, true) == c.key)
  }

  /** What a step leaves in a closure is what was there or what the step gave. */
  lemma StepGives<V>(s: State<V>, e: Event<V>, id: nat)
    requires Enabled(s, e) && id < |Apply(s, e).calls|
    ensures var c := Apply(s, e).calls[id];
            && (c.value.Some? ==> Gives(e, |s.calls|, id, false) == c.value
                                  || (&& Gives(e, |s.calls|, id, false) == None
                                      && id < |s.calls| && s.calls[id].value == c.value)
                                  || (id < |s.calls| && s.calls[id].valueOpen && s.calls[id].value.Some?))
            && (c.key.Some? ==> Gives(e, |s.calls|, id, true) == c.key
                                || (&& Gives(e, |s.calls|, id, true) == None
                                    && id < |s.calls| && s.calls[id].key == c.key))
    ensures var c := Apply(s, e).calls[id];
            && (c.valueOpen ==> c.value == if id < |s.calls| then s.calls[id].value else None)
            && (c.keyOpen ==> c.key == if id < |s.calls| then s.calls[id].key else None)
            && (id < |s.calls| ==> (c.valueOpen ==> s.calls[id].valueOpen) && (c.keyOpen ==> s.calls[id].keyOpen))
  {
  }

  lemma StepFromSerializers<V>(done: seq<Event<V>>, s: State<V>, e: Event<V>)
    requires FromSerializers(done, s) && Enabled(s, e)
    ensures FromSerializers(done + [e], Apply(s, e))
  {
    hide Apply, Gives;
    assert Init(done + [e]) == done;
    StepCalls(s, e);
    forall id: nat | id < |Apply(s, e).calls|
      ensures var c := Apply(s, e).calls[id];
              && (c.valueOpen ==> c.value.None?) && (c.keyOpen ==> c.key.None?)
              && (c.value.Some? ==> Supplied(done + [e], id, false) == c.value)
              && (c.key.Some? ==> Supplied(done + [e], id, true) == c.key)
    {
      StepGives(s, e, id);
    }
  }

  lemma {:induction false} RunFromSerializers<V>(done: seq<Event<V>>, s: State<V>, events: seq<Event<V>>, end: State<V>)
    requires FromSerializers(done, s) && Runs(s, events, end)
    ensures FromSerializers(done + events, end)
    decreases |events|
  {
    hide FromSerializers, Apply;
    if events == [] {
      assert done + events == done;
    } else {
      StepFromSerializers(done, s, events[0]);
      RunFromSerializers(done + [events[0]], Apply(s, events[0]), events[1..], end);
      assert done + [events[0]] + events[1..] == done + events;
    }
  }

  // ---------------------------------------------------------------------------------------
  // The promises

  /** Whatever the order of settlements, reports and immediates: a call is produced at most once, with
      the values of its own serializers, and its callback gets at most one answer. */
  lemma AtMostOnce<V(!new)>(events: seq<Event<V>>, s: State<V>, id: nat)
    requires Runs(Initial(), events, s) && id < |s.calls|
    ensures var v := ViewOf(s, id);
            && |v.attempts| <= 1 && |v.called| + |v.queued| <= 1
            && (v.attempts != [] ==>
                  && (exists i :: 0 <= i < |events| && Supplies(events, i, id, false, v.attempts[0].value))
                  && (exists i :: 0 <= i < |events| && Supplies(events, i, id, true, v.attempts[0].key)))
  {
    hide AttemptsOf, AnswersOf, Supplied, Supplies, Runs;
    InitialInvariant<V>();
    EveryRun(Initial(), events, s);
    RunFromSerializers([], Initial(), events, s);
    assert [] + events == events;
    assert Lives(s, id);
    var phase: Phase<V> :| InPhase(ViewOf(s, id), id, phase);
    var v := ViewOf(s, id);
    assert |v.called + v.queued| <= 1;
    if v.attempts != [] {
      assert Supplied(events, id, false) == Some(v.attempts[0].value);
      assert Supplied(events, id, true) == Some(v.attempts[0].key);
      SuppliedIs(events, id, false);
      SuppliedIs(events, id, true);
    }
  }

  lemma InitialInvariant<V(!new)>()
    ensures Invariant(Initial<V>())
  {
  }

  /** The user's callback is told the error of the report, and its offset unless that is negative. */
  ghost predicate Tells(a: Answer, r: Report) {
    a.err == r.err && forall x :: a.offset == Some(x) <==> x == r.offset && x >= 0
  }

  /** Every report kept was delivered for its message. */
  lemma {:induction false} ReportsAreDelivered<V(!new)>(done: seq<Event<V>>, s: State<V>, events: seq<Event<V>>,
                                                       end: State<V>)
    requires Runs(s, events, end)
    requires forall id | id in s.reports :: exists i :: 0 <= i < |done| && done[i] == Deliver(id, s.reports[id])
    ensures forall id | id in end.reports ::
              exists i :: 0 <= i < |done + events| && (done + events)[i] == Deliver(id, end.reports[id])
    decreases |events|
  {
    if events == [] {
      assert done + events == done;
    } else {
      var e := events[0];
      var t := Apply(s, e);
      hide Apply;
      StepReports(s, e);
      forall id | id in t.reports
        ensures exists i :: 0 <= i < |done + [e]| && (done + [e])[i] == Deliver(id, t.reports[id])
      {
        if id in s.reports && t.reports[id] == s.reports[id] {
          var i :| 0 <= i < |done| && done[i] == Deliver(id, s.reports[id]);
          assert (done + [e])[i] == done[i];
        } else {
          assert (done + [e])[|done|] == e;
        }
      }
      ReportsAreDelivered(done + [e], t, events[1..], end);
      assert done + [e] + events[1..] == done + events;
    }
  }

  lemma StepReports<V>(s: State<V>, e: Event<V>)
    requires Enabled(s, e)
    ensures forall id | id in Apply(s, e).reports ::
              (id in s.reports && Apply(s, e).reports[id] == s.reports[id]) || e == Deliver(id, Apply(s, e).reports[id])
  {
  }

  /** What one step does to the calls of the underlying produce: at most one is added, it meets what the step
      brings, and it is listened for if it is accepted and answered with the error alone if it is not. */
  lemma StepAttempts<V>(s: State<V>, e: Event<V>)
    requires Enabled(s, e)
    ensures var t := Apply(s, e);
            t.attempts != s.attempts ==>
              && (e.Produce? || e.SettleValue? || e.SettleKey?)
              && |t.attempts| == |s.attempts| + 1 && Init(t.attempts) == s.attempts
              && var a := Last(t.attempts);
                 && a.refused == e.refused && t.immediates == s.immediates
                 && (a.refused.None? ==> t.listeners == s.listeners + {a.id} && t.callbacks == s.callbacks)
                 && (a.refused.Some? ==> t.listeners == s.listeners
                                         && t.callbacks == s.callbacks + [(a.id, Answer(a.refused, None))])
  {
  }

  /** A step rejects a serializer of the call. */
  predicate Rejects<V>(e: Event<V>, id: nat, error: int) {
    (e.SettleValue? || e.SettleKey?) && e.id == id && e.result.Rejected? && e.result.error == error
  }

  /** An accepted message waits, unanswered and with polling on, until its report comes; from then on
      its one answer is that of its own report, and the callback has it once the immediates ran. */
  lemma AcceptedIsAnswered<V(!new)>(events: seq<Event<V>>, s: State<V>, id: nat)
    requires Runs(Initial(), events, s) && id < |s.calls|
    requires ViewOf(s, id).attempts != [] && ViewOf(s, id).attempts[0].refused == None
    ensures var v := ViewOf(s, id);
            match v.report
            case None => v.listening && v.called == [] && v.queued == [] && s.polling.running
            case Some(r) =>
              && |v.called + v.queued| == 1 && Tells((v.called + v.queued)[0], r)
              && (s.immediates == [] ==> |v.called| == 1 && Tells(v.called[0], r))
              && exists i :: 0 <= i < |events| && events[i] == Deliver(id, r)
  {
    hide AttemptsOf, Runs;
    InitialInvariant<V>();
    EveryRun(Initial(), events, s);
    ReportsAreDelivered([], Initial(), events, s);
    assert [] + events == events;
    assert Lives(s, id);
    var phase: Phase<V> :| InPhase(ViewOf(s, id), id, phase);
    var v := ViewOf(s, id);
    if v.report == None {
      UnreportedPositive(|s.calls|, s.reports, id);
      assert |v.called + v.queued| == 0;
    } else if s.immediates == [] {
      assert v.called + [] == v.called;
    }
  }

  /** Polling is on exactly while some call has had no report. */
  lemma PollsExactly<V(!new)>(events: seq<Event<V>>, s: State<V>)
    requires Runs(Initial(), events, s)
    ensures s.polling.running <==> exists id: nat :: id < |s.calls| && id !in s.reports
  {
    hide Runs;
    InitialInvariant<V>();
    EveryRun(Initial(), events, s);
    if s.polling.running {
      var id := UnreportedSome(|s.calls|, s.reports);
    } else if id: nat :| id < |s.calls| && id !in s.reports {
      UnreportedPositive(|s.calls|, s.reports, id);
    }
  }

  /** The call is over without being accepted: a serializer failed, or the produce was refused. */
  predicate Ended<V>(s: State<V>, id: nat)
    requires id < |s.calls|
  {
    s.calls[id].calledBack || (var a := AttemptsOf(s.attempts, id); a != [] && a[0].refused.Some?)
  }

  /** The call may still be produced, or its message was accepted and waits for the report. */
  predicate Outgoing<V>(s: State<V>, id: nat) {
    id < |s.calls| && id !in s.reports && !Ended(s, id)
  }

  /** A call that ended gets no report. */
  lemma EndedIsUnreported<V(!new)>(s: State<V>, id: nat)
    requires Invariant(s) && id < |s.calls| && Ended(s, id)
    ensures id !in s.reports
  {
    hide AttemptsOf, AnswersOf, Global;
    assert Lives(s, id);
    var phase: Phase<V> :| InPhase(ViewOf(s, id), id, phase);
    assert !phase.Reported?;
  }

  /** Polling means outgoing calls, as it is meant to, if and only if there are outgoing calls anyway or
      no call has ever ended without being accepted. */
  lemma PollsForOutgoing<V(!new)>(events: seq<Event<V>>, s: State<V>)
    requires Runs(Initial(), events, s)
    ensures (s.polling.running <==> exists id :: Outgoing(s, id))
            <==> (exists id :: Outgoing(s, id)) || (forall id | 0 <= id < |s.calls| :: !Ended(s, id))
  {
    hide Runs, Ended, Invariant;
    InitialInvariant<V>();
    EveryRun(Initial(), events, s);
    PollsExactly(events, s);
    forall id: nat | id < |s.calls| && Ended(s, id)
      ensures id !in s.reports
    {
      EndedIsUnreported(s, id);
    }
    if id: nat :| id < |s.calls| && id !in s.reports && !Ended(s, id) {
      assert Outgoing(s, id);
    }
  }

  /** No step revives a call that ended. */
  lemma EndedStays<V(!new)>(s: State<V>, e: Event<V>, id: nat)
    requires Invariant(s) && Enabled(s, e) && id < |s.calls| && Ended(s, id)
    ensures id < |Apply(s, e).calls| && Ended(Apply(s, e), id)
  {
    hide AttemptsOf, AnswersOf, Global;
    StepCalls(s, e);
    if Concerns(s, e, id) {
      assert Lives(s, id);
      var phase: Phase<V> :| InPhase(ViewOf(s, id), id, phase);
    } else {
      OtherCall(s, e, id);
      assert AttemptsOf(Apply(s, e).attempts, id) == ViewOf(Apply(s, e), id).attempts;
    }
  }

  /** Once a call has ended without being accepted, polling stays on for good. */
  lemma {:induction false} EndedPollsOn<V(!new)>(s: State<V>, id: nat, events: seq<Event<V>>, end: State<V>)
    requires Invariant(s) && id < |s.calls| && Ended(s, id) && Runs(s, events, end)
    ensures end.polling.running
    decreases |events|
  {
    hide Ended, Apply;
    if events == [] {
      EndedIsUnreported(s, id);
      UnreportedPositive(|s.calls|, s.reports, id);
    } else {
      EndedStays(s, events[0], id);
      StepKeepsInvariant(s, events[0]);
      EndedPollsOn(Apply(s, events[0]), id, events[1..], end);
    }
  }

  /** The failing family, at its smallest: one produce that is refused leaves nothing to wait for, and
      polling on. */
  lemma RefusedPollsOn<V>(v: V, k: V, e: int) returns (s: State<V>)
    ensures Runs(Initial(), [Produce(Now(v), Now(k), Some(e))], s)
    ensures s.polling.running && s.listeners == {} && s.immediates == []
    ensures s.callbacks == [(0, Answer(Some(e), None))]
  {
    var event := Produce(Now(v), Now(k), Some(e));
    s := Apply(Initial(), event);
    assert [event][1..] == [];
  }

  /** A call whose serializers have both settled ended, unless its message was accepted. */
  lemma EndedUnlessAccepted<V(!new)>(s: State<V>, id: nat)
    requires Invariant(s) && id < |s.calls| && !s.calls[id].valueOpen && !s.calls[id].keyOpen
    ensures var a := AttemptsOf(s.attempts, id); Ended(s, id) <==> a == [] || a[0].refused.Some?
  {
    hide AttemptsOf, AnswersOf, Global;
    assert Lives(s, id);
    var phase: Phase<V> :| InPhase(ViewOf(s, id), id, phase);
  }

  /** The error with which a step rejects a serializer of a call. */
  function RejectionOf<V>(e: Event<V>, id: nat): Option<int> {
    match e
    case SettleValue(i, Rejected(error), _) => if i == id then Some(error) else None
    case SettleKey(i, Rejected(error), _) => if i == id then Some(error) else None
    case _ => None
  }

  function FirstRejection<V>(events: seq<Event<V>>, id: nat): Option<int> {
    if events == [] then None
    else
      var earlier := FirstRejection(Init(events), id);
      if earlier.Some? then earlier else RejectionOf(Last(events), id)
  }

  /** It is the error of the first step that rejects a serializer of the call. */
  lemma {:induction false} FirstRejectionIs<V>(events: seq<Event<V>>, id: nat)
    ensures match FirstRejection(events, id)
            case None => forall i, error | 0 <= i < |events| :: !Rejects(events[i], id, error)
            case Some(error) =>
              exists i :: 0 <= i < |events| && Rejects(events[i], id, error)
                          && forall j, other | 0 <= j < i :: !Rejects(events[j], id, other)
    decreases |events|
  {
    if events == [] {
    } else {
      var front, last := Init(events), |events| - 1;
      FirstRejectionIs(front, id);
      assert forall i | 0 <= i < last :: front[i] == events[i];
      if error :| FirstRejection(front, id) == Some(error) {
        var i :| 0 <= i < |front| && Rejects(front[i], id, error)
                 && forall j, other | 0 <= j < i :: !Rejects(front[j], id, other);
        assert Rejects(events[i], id, error);
      } else if error :| RejectionOf(events[last], id) == Some(error) {
        assert Rejects(events[last], id, error);
      }
    }
  }

  /** A call has failed exactly if a serializer of it was rejected, and its answer is the first such
      error. */
  ghost predicate Rejection<V>(s: State<V>, id: nat, first: Option<int>)
    requires id < |s.calls|
  {
    && (s.calls[id].calledBack <==> first.Some?)
    && (first.Some? ==> AnswersOf(s.callbacks, id) + AnswersOf(s.immediates, id) == [Failure(first.value)])
  }

  lemma FailRejection<V>(s: State<V>, id: nat, error: int, first: Option<int>)
    requires id < |s.calls| && Rejection(s, id, first)
    requires first == None ==> AnswersOf(s.callbacks, id) == [] && AnswersOf(s.immediates, id) == []
    ensures Rejection(Fail(s, id, error), id, if first.Some? then first else Some(error))
  {
    hide AnswersOf;
    AnswersAdd(s.callbacks, (id, Failure(error)), id);
  }

  /** A serializer that is still open and did not fail has not been answered. */
  lemma OpenIsUnanswered<V(!new)>(s: State<V>, id: nat)
    requires Invariant(s) && id < |s.calls| && (s.calls[id].valueOpen || s.calls[id].keyOpen) && !s.calls[id].calledBack
    ensures AnswersOf(s.callbacks, id) == [] && AnswersOf(s.immediates, id) == []
  {
    hide AttemptsOf, AnswersOf, Global;
    assert Lives(s, id);
    var phase: Phase<V> :| InPhase(ViewOf(s, id), id, phase);
    assert ViewOf(s, id).called + ViewOf(s, id).queued == [];
  }

  /** Settling with a value, or a report, or an immediate, makes no call fail. */
  lemma OwnUnrejected<V(!new)>(s: State<V>, e: Event<V>, id: nat, first: Option<int>)
    requires Invariant(s) && Enabled(s, e) && id < |s.calls| && Concerns(s, e, id) && Rejection(s, id, first)
    requires RejectionOf(e, id) == None
    ensures id < |Apply(s, e).calls| && Rejection(Apply(s, e), id, first)
  {
    hide AttemptsOf, AnswersOf, Global;
    StepCalls(s, e);
    match e
    case SettleValue(_, _, _) =>
    case SettleKey(_, _, _) =>
    case Deliver(_, report) =>
      assert Lives(s, id);
      var phase: Phase<V> :| InPhase(ViewOf(s, id), id, phase);
      AnswersAdd(s.immediates, (id, AnswerTo(report)), id);
    case Immediate =>
      AnswersFirst(s.immediates, id);
      AnswersAdd(s.callbacks, s.immediates[0], id);
      Associate(AnswersOf(s.callbacks, id), [s.immediates[0].1], AnswersOf(s.immediates[1..], id));
  }

  lemma StepRejection<V(!new)>(s: State<V>, e: Event<V>, id: nat, first: Option<int>)
    requires Invariant(s) && Enabled(s, e) && id < |s.calls| && Rejection(s, id, first)
    ensures id < |Apply(s, e).calls|
    ensures Rejection(Apply(s, e), id, if first.Some? then first else RejectionOf(e, id))
  {
    hide AttemptsOf, AnswersOf, Global, Fail, Lives;
    StepCalls(s, e);
    if !Concerns(s, e, id) {
      OtherCall(s, e, id);
      assert ViewOf(Apply(s, e), id) == ViewOf(s, id);
    } else if RejectionOf(e, id) == None {
      OwnUnrejected(s, e, id, first);
    } else {
      if first == None {
        OpenIsUnanswered(s, id);
      }
      var c := if e.SettleValue? then s.calls[id].(valueOpen := false) else s.calls[id].(keyOpen := false);
      FailRejection(s.(calls := s.calls[id := c]), id, e.result.error, first);
    }
  }

  /** What a run keeps: the calls that have failed are those rejected so far. */
  ghost predicate Rejections<V(!new)>(done: seq<Event<V>>, s: State<V>) {
    && (forall id: nat | id < |s.calls| :: Rejection(s, id, FirstRejection(done, id)))
    && (forall id: nat | id >= |s.calls| :: FirstRejection(done, id) == None)
  }

  lemma StepRejections<V(!new)>(done: seq<Event<V>>, s: State<V>, e: Event<V>)
    requires Invariant(s) && Enabled(s, e) && Rejections(done, s)
    ensures Rejections(done + [e], Apply(s, e))
  {
    hide Invariant, Apply, Rejection;
    var t := Apply(s, e);
    StepCalls(s, e);
    assert Init(done + [e]) == done;
    forall id: nat | id < |t.calls|
      ensures Rejection(t, id, FirstRejection(done + [e], id))
    {
      if id < |s.calls| {
        StepRejection(s, e, id, FirstRejection(done, id));
      } else {
        NewIsUnrejected(s, e);
      }
    }
    forall id: nat | id >= |t.calls|
      ensures FirstRejection(done + [e], id) == None
    {
      assert FirstRejection(done, id) == None;
    }
  }

  lemma NewIsUnrejected<V>(s: State<V>, e: Event<V>)
    requires Enabled(s, e) && e.Produce?
    ensures |Apply(s, e).calls| == |s.calls| + 1 && Rejection(Apply(s, e), |s.calls|, None)
  {
  }

  lemma {:induction false} RunRejections<V(!new)>(done: seq<Event<V>>, s: State<V>, events: seq<Event<V>>,
                                                    end: State<V>)
    requires Invariant(s) && Rejections(done, s) && Runs(s, events, end)
    ensures Rejections(done + events, end)
    decreases |events|
  {
    hide Rejections, Invariant, Apply;
    if events == [] {
      assert done + events == done;
    } else {
      StepRejections(done, s, events[0]);
      StepKeepsInvariant(s, events[0]);
      RunRejections(done + [events[0]], Apply(s, events[0]), events[1..], end);
      assert done + [events[0]] + events[1..] == done + events;
    }
  }

  /** Every call that ended without being accepted got exactly one answer, also while its other
      serializer is still to settle: the first rejection of its serializers, or if there is none the
      error with which its one produce was refused. It has called back on its own account exactly in the
      first case. */
  lemma FailedIsAnswered<V(!new)>(events: seq<Event<V>>, s: State<V>, id: nat)
    requires Runs(Initial(), events, s) && id < |s.calls| && Ended(s, id)
    ensures var v, first := ViewOf(s, id), FirstRejection(events, id);
            && (v.call.calledBack <==> first.Some?)
            && (first.Some? ==> v.attempts == [] && v.called + v.queued == [Answer(Some(first.value), None)])
            && (first.None? ==> |v.attempts| == 1 && v.attempts[0].refused.Some?
                                && v.called + v.queued == [Answer(v.attempts[0].refused, None)])
  {
    hide AttemptsOf, AnswersOf, FirstRejection, Runs, Global;
    InitialInvariant<V>();
    InitialRejections<V>();
    EveryRun(Initial(), events, s);
    RunRejections([], Initial(), events, s);
    assert [] + events == events;
    assert Rejection(s, id, FirstRejection(events, id));
    assert Lives(s, id);
    var phase: Phase<V> :| InPhase(ViewOf(s, id), id, phase);
  }

  lemma InitialRejections<V(!new)>()
    ensures Rejections([], Initial<V>())
  {
  }

  /** In any run, a call has called back on its own account exactly if one of its serializers was
      rejected. */
  lemma FailsExactly<V(!new)>(events: seq<Event<V>>, s: State<V>, id: nat)
    requires Runs(Initial(), events, s) && id < |s.calls|
    ensures s.calls[id].calledBack <==> FirstRejection(events, id).Some?
  {
    hide FirstRejection, Runs, Invariant;
    InitialInvariant<V>();
    InitialRejections<V>();
    RunRejections([], Initial(), events, s);
    assert [] + events == events;
    assert Rejection(s, id, FirstRejection(events, id));
  }

  // ---------------------------------------------------------------------------------------
  // The object

  class HighLevelProducer<V> {
    var messageId: nat
    const pollingRef: R.RefCounter
    var calls: seq<Call<V>>
    var listeners: set<nat>
    var immediates: seq<(nat, Answer)>
    var callbacks: seq<(nat, Answer)>
    var attempts: seq<Attempt<V>>
    ghost var reports: map<nat, Report>

    ghost predicate Valid()
      reads this
    {
      messageId == |calls|
    }

    ghost function Abstract(): State<V>
      reads this, pollingRef
    {
      State(calls, pollingRef.Abstract(), listeners, immediates, callbacks, attempts, reports)
    }

    constructor ()
      ensures Valid() && fresh(pollingRef) && Abstract() == Initial()
    {
      messageId, calls, listeners := 0, [], {};
      immediates, callbacks, attempts, reports := [], [], [], map[];
      pollingRef := new R.RefCounter();
    }

    method ModifiedProduce(value: Serialized<V>, key: Serialized<V>, refused: Option<int>) returns (id: nat)
      requires Valid()
      modifies this, pollingRef
      ensures Valid() && id == old(messageId)
      ensures Abstract() == Apply(old(Abstract()), Produce(value, key, refused))
    {
      id := messageId;
      messageId := messageId + 1;
      pollingRef.Increment();
      calls := calls + [Call(None, None, false, value.Later?, key.Later?)];
      if value.Now? {
        calls := calls[id := calls[id].(value := Some(value.value))];
      }
      if key.Now? {
        calls := calls[id := calls[id].(key := Some(key.value))];
      }
      ProduceIfCompleted(id, refused);
    }

    method ProduceIfCompleted(id: nat, refused: Option<int>)
      requires Valid() && id < |calls|
      modifies this`attempts, this`listeners, this`callbacks
      ensures Abstract() == ProduceIfComplete(old(Abstract()), id, refused)
    {
      if calls[id].key.Some? && calls[id].value.Some? {
        DoProduce(id, calls[id].value.value, calls[id].key.value, refused);
      }
    }

    method DoProduce(id: nat, v: V, k: V, refused: Option<int>)
      modifies this`attempts, this`listeners, this`callbacks
      ensures attempts == old(attempts) + [Attempt(id, v, k, refused)]
      ensures listeners == old(listeners) + if refused.None? then {id} else {}
      ensures callbacks == old(callbacks) + if refused.None? then [] else [(id, Answer(refused, None))]
    {
      attempts := attempts + [Attempt(id, v, k, refused)];
      if refused.None? {
        listeners := listeners + {id};
      } else {
        callbacks := callbacks + [(id, Failure(refused.value))];
      }
    }

    method FinishSerializedValue(id: nat, v: V, refused: Option<int>)
      requires Valid() && id < |calls| && calls[id].valueOpen
      modifies this
      ensures Valid() && Abstract() == Apply(old(Abstract()), SettleValue(id, Resolved(v), refused))
    {
      calls := calls[id := calls[id].(valueOpen := false)];
      if !calls[id].calledBack {
        calls := calls[id := calls[id].(value := Some(v))];
        ProduceIfCompleted(id, refused);
      }
    }

    method FinishSerializedKey(id: nat, k: V, refused: Option<int>)
      requires Valid() && id < |calls| && calls[id].keyOpen
      modifies this
      ensures Valid() && Abstract() == Apply(old(Abstract()), SettleKey(id, Resolved(k), refused))
    {
      calls := calls[id := calls[id].(keyOpen := false)];
      calls := calls[id := calls[id].(key := Some(k))];
      if !calls[id].calledBack {
        ProduceIfCompleted(id, refused);
      }
    }

    method FailSerializedValue(id: nat, err: int)
      requires Valid() && id < |calls| && calls[id].valueOpen
      modifies this
      ensures Valid() && Abstract() == Apply(old(Abstract()), SettleValue(id, Rejected(err), None))
    {
      calls := calls[id := calls[id].(valueOpen := false)];
      if !calls[id].calledBack {
        calls := calls[id := calls[id].(calledBack := true)];
        callbacks := callbacks + [(id, Failure(err))];
      }
    }

    method FailSerializedKey(id: nat, err: int)
      requires Valid() && id < |calls| && calls[id].keyOpen
      modifies this
      ensures Valid() && Abstract() == Apply(old(Abstract()), SettleKey(id, Rejected(err), None))
    {
      calls := calls[id := calls[id].(keyOpen := false)];
      if !calls[id].calledBack {
        calls := calls[id := calls[id].(calledBack := true)];
        callbacks := callbacks + [(id, Failure(err))];
      }
    }

    /** The emitter's once: the listener, if there is one, goes before it runs. */
    method DeliveryReport(id: nat, report: Report)
      requires Valid()
      modifies this, pollingRef
      ensures Valid() && Abstract() == Apply(old(Abstract()), Event<V>.Deliver(id, report))
      ensures if id in old(listeners) then
                && listeners == old(listeners) - {id}
                && |immediates| == |old(immediates)| + 1 && Init(immediates) == old(immediates)
                && Last(immediates).0 == id && Tells(Last(immediates).1, report)
              else listeners == old(listeners) && immediates == old(immediates)
    {
      if id in listeners {
        listeners := listeners - {id};
        reports := reports[id := report];
        pollingRef.Decrement();
        immediates := immediates + [(id, AnswerTo(report))];
      }
    }

    method RunImmediate()
      requires Valid() && immediates != []
      modifies this
      ensures Valid() && Abstract() == Apply(old(Abstract()), Event<V>.Immediate)
      ensures old(immediates) == [Last(callbacks)] + immediates && Init(callbacks) == old(callbacks)
    {
      callbacks := callbacks + [immediates[0]];
      immediates := immediates[1..];
    }
  }
}
