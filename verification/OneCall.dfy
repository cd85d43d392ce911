/** One call of HighLevelProducer with serializers of any kind: they may return or settle later, call
    back before they return, throw, or give undefined. */
module OneCall {
  import opened Lexical

  /** What a serializer ends with; None is undefined. */
  datatype Outcome<V> = Gives(value: Option<V>) | Fails(error: int)

  /** How it gets there: at once, by its callback before it returns, in a later turn, or not at all. */
  datatype Source<V> =
    | Returns(value: Option<V>)
    | CallsBack(result: Outcome<V>)
    | Later(result: Outcome<V>)
    | Throws(error: int)

  /** The closure variables; the calls of the underlying produce; the errors given to the user's callback
      without one; and what later turns will bring. */
  datatype Closure<V> = Closure(value: Option<V>, key: Option<V>, calledBack: bool,
                                attempts: seq<(V, V)>, failures: seq<int>,
                                valueOpen: Option<Outcome<V>>, keyOpen: Option<Outcome<V>>, thrown: Option<int>)

  function New<V>(): Closure<V> {
    Closure(None, None, false, [], [], None, None, None)
  }

  function ProduceIfComplete<V>(c: Closure<V>): Closure<V> {
    if c.key.Some? && c.value.Some? then c.(attempts := c.attempts + [(c.value.value, c.key.value)]) else c
  }

  function Fail<V>(c: Closure<V>, error: int): Closure<V> {
    if c.calledBack then c else c.(calledBack := true, failures := c.failures + [error])
  }

  function SettleValue<V>(c: Closure<V>, r: Outcome<V>): Closure<V> {
    match r
    case Fails(e) => Fail(c, e)
    case Gives(v) => if c.calledBack then c else ProduceIfComplete(c.(value := v))
  }

  function SettleKey<V>(c: Closure<V>, r: Outcome<V>): Closure<V> {
    match r
    case Fails(e) => Fail(c, e)
    case Gives(k) => if c.calledBack then c.(key := k) else ProduceIfComplete(c.(key := k))
  }

  function TakeValue<V>(c: Closure<V>, value: Source<V>): Closure<V> {
    match value
    case Returns(v) => c.(value := v)
    case CallsBack(r) => SettleValue(c, r)
    case Later(r) => c.(valueOpen := Some(r))
    case Throws(e) => c.(thrown := Some(e))
  }

  function TakeKey<V>(c: Closure<V>, key: Source<V>): Closure<V> {
    match key
    case Returns(k) => c.(key := k)
    case CallsBack(r) => SettleKey(c, r)
    case Later(r) => c.(keyOpen := Some(r))
    case Throws(e) => c.(thrown := Some(e))
  }

  /** What _modifiedProduce has done when it returns. */
  function Start<V>(value: Source<V>, key: Source<V>): Closure<V> {
    var c := TakeValue(New(), value);
    if value.Throws? then c
    else
      var d := TakeKey(c, key);
      if key.Throws? then d else ProduceIfComplete(d)
  }

  method ModifiedProduce<V>(valueSource: Source<V>, keySource: Source<V>) returns (c: Closure<V>)
    ensures c == Start(valueSource, keySource)
  {
    c := New();
    match valueSource {
      case CallsBack(r) => c := SettleValue(c, r);
      case Returns(v) => c := c.(value := v);
      case Later(r) => c := c.(valueOpen := Some(r));
      case Throws(e) =>
        c := c.(thrown := Some(e));
        return;
    }
    match keySource {
      case CallsBack(r) => c := SettleKey(c, r);
      case Returns(k) => c := c.(key := k);
      case Later(r) => c := c.(keyOpen := Some(r));
      case Throws(e) =>
        c := c.(thrown := Some(e));
        return;
    }
    if c.key.Some? && c.value.Some? {
      c := c.(attempts := c.attempts + [(c.value.value, c.key.value)]);
    }
  }

  /** A later turn: the value or the key settles, or the immediate of the catch branch runs. */
  datatype Turn = ValueTurn | KeyTurn | Immediate

  predicate Enabled<V>(c: Closure<V>, t: Turn) {
    match t
    case ValueTurn => c.valueOpen.Some?
    case KeyTurn => c.keyOpen.Some?
    case Immediate => c.thrown.Some?
  }

  function Apply<V>(c: Closure<V>, t: Turn): Closure<V>
    requires Enabled(c, t)
  {
    match t
    case ValueTurn => SettleValue(c.(valueOpen := None), c.valueOpen.value)
    case KeyTurn => SettleKey(c.(keyOpen := None), c.keyOpen.value)
    case Immediate => c.(thrown := None, calledBack := true, failures := c.failures + [c.thrown.value])
  }

  function OpenTurns<V>(c: Closure<V>): nat {
    (if c.valueOpen.Some? then 1 else 0) + (if c.keyOpen.Some? then 1 else 0) + (if c.thrown.Some? then 1 else 0)
  }

  /** The turns can follow each other, and nothing is left to do after them. */
  ghost predicate Life<V>(c: Closure<V>, turns: seq<Turn>, end: Closure<V>)
    decreases |turns|
  {
    if turns == [] then c == end && OpenTurns(c) == 0
    else Enabled(c, turns[0]) && Life(Apply(c, turns[0]), turns[1..], end)
  }

  // ---------------------------------------------------------------------------------------
  // How often a call is produced and answered

  /** What is there when the serializer has returned. */
  function AtOnce<V>(s: Source<V>): Option<V> {
    match s
    case Returns(v) => v
    case CallsBack(Gives(v)) => v
    case _ => None
  }

  /** The key comes by callback, at once, when the value is there. */
  predicate Doubles<V>(value: Source<V>, key: Source<V>) {
    key.CallsBack? && AtOnce(key).Some? && AtOnce(value).Some?
  }

  /** The key serializer throws, and the value serializer has failed before the immediate runs. */
  predicate FailsTwice<V>(value: Source<V>, key: Source<V>, turns: seq<Turn>) {
    && key.Throws?
    && match value
       case CallsBack(Fails(_)) => true
       case Later(Fails(_)) => turns != [] && turns[0] == ValueTurn
       case _ => false
  }

  /** What a serializer ends with, if it does not throw. */
  function EndOf<V>(s: Source<V>): Outcome<V> {
    match s
    case Returns(v) => Gives(v)
    case CallsBack(r) => r
    case Later(r) => r
    case Throws(e) => Fails(e)
  }

  /** No serializer fails, and one gives undefined. */
  predicate Lost<V>(value: Source<V>, key: Source<V>) {
    && EndOf(value).Gives? && EndOf(key).Gives?
    && (EndOf(value).value == None || EndOf(key).value == None)
  }

  /** The number of times the underlying produce is called. */
  function Attempts<V>(value: Source<V>, key: Source<V>): nat {
    if Doubles(value, key) then 2
    else if EndOf(value).Gives? && EndOf(key).Gives? && !Lost(value, key) then 1
    else 0
  }

  function Failures<V>(value: Source<V>, key: Source<V>, turns: seq<Turn>): nat {
    if FailsTwice(value, key, turns) then 2
    else if EndOf(value).Fails? || EndOf(key).Fails? then 1
    else 0
  }

  /** The errors the user's callback gets, in order: that of a serializer that throws comes last; of two
      serializers that fail, only the first to fail is told. */
  function Errors<V>(value: Source<V>, key: Source<V>, turns: seq<Turn>): seq<int> {
    if value.Throws? then [value.error]
    else if key.Throws? then (if FailsTwice(value, key, turns) then [EndOf(value).error] else []) + [key.error]
    else if EndOf(value).Fails? && (EndOf(key).Gives? || ValueFirst(value, key, turns)) then [EndOf(value).error]
    else if EndOf(key).Fails? then [EndOf(key).error]
    else []
  }

  /** The value is there, or settles, before the key. */
  predicate ValueFirst<V>(value: Source<V>, key: Source<V>, turns: seq<Turn>) {
    !value.Later? || (key.Later? && turns != [] && turns[0] == ValueTurn)
  }

  /** Every turn closes one. */
  lemma {:induction false} TurnsOpen<V>(c: Closure<V>, turns: seq<Turn>, end: Closure<V>)
    requires Life(c, turns, end)
    ensures |turns| == OpenTurns(c)
    decreases |turns|
  {
    if turns == [] {
    } else {
      TurnsOpen(Apply(c, turns[0]), turns[1..], end);
    }
  }

  lemma OneTurn<V>(c: Closure<V>, turns: seq<Turn>, end: Closure<V>)
    requires Life(c, turns, end) && |turns| == 1
    ensures Enabled(c, turns[0]) && end == Apply(c, turns[0])
  {
    assert turns[1..] == [];
  }

  lemma TwoTurns<V>(c: Closure<V>, turns: seq<Turn>, end: Closure<V>)
    requires Life(c, turns, end) && |turns| == 2
    ensures Enabled(c, turns[0]) && Enabled(Apply(c, turns[0]), turns[1])
    ensures end == Apply(Apply(c, turns[0]), turns[1])
  {
    OneTurn(Apply(c, turns[0]), turns[1..], end);
  }

  /** The attempts and failures of a life are those expected, and each attempt has the values that the
      serializers gave. */
  ghost predicate Tally<V>(value: Source<V>, key: Source<V>, turns: seq<Turn>, end: Closure<V>) {
    && |end.attempts| == Attempts(value, key) && end.failures == Errors(value, key, turns)
    && forall a | a in end.attempts :: EndOf(value) == Gives(Some(a.0)) && EndOf(key) == Gives(Some(a.1))
  }

  lemma TallyNow<V>(value: Source<V>, key: Source<V>)
    requires OpenTurns(Start(value, key)) == 0
    ensures Tally(value, key, [], Start(value, key))
  {
  }

  lemma TallyValueTurn<V>(value: Source<V>, key: Source<V>)
    requires OpenTurns(Start(value, key)) == 1 && value.Later?
    ensures Tally(value, key, [ValueTurn], Apply(Start(value, key), ValueTurn))
  {
  }

  lemma TallyKeyTurn<V>(value: Source<V>, key: Source<V>)
    requires OpenTurns(Start(value, key)) == 1 && key.Later? && !value.Throws?
    ensures Tally(value, key, [KeyTurn], Apply(Start(value, key), KeyTurn))
  {
  }

  lemma TallyImmediate<V>(value: Source<V>, key: Source<V>)
    requires OpenTurns(Start(value, key)) == 1 && (value.Throws? || key.Throws?)
    ensures Enabled(Start(value, key), Immediate)
    ensures Tally(value, key, [Immediate], Apply(Start(value, key), Immediate))
  {
  }

  lemma TallyOne<V>(value: Source<V>, key: Source<V>, turns: seq<Turn>)
    requires OpenTurns(Start(value, key)) == |turns| == 1 && Enabled(Start(value, key), turns[0])
    ensures Tally(value, key, turns, Apply(Start(value, key), turns[0]))
  {
    hide Tally, Apply, SettleValue, SettleKey, ProduceIfComplete;
    Opened(value, key);
    assert turns == [turns[0]];
    match turns[0]
    case ValueTurn => TallyValueTurn(value, key);
    case KeyTurn => TallyKeyTurn(value, key);
    case Immediate => TallyImmediate(value, key);
  }

  /** Which turns are to come when the call returns. */
  lemma Opened<V>(value: Source<V>, key: Source<V>)
    ensures var c := Start(value, key);
            && (c.valueOpen.Some? <==> value.Later?)
            && (c.keyOpen.Some? <==> key.Later? && !value.Throws?)
            && (c.thrown.Some? <==> value.Throws? || key.Throws?)
  {
  }

  lemma TallyBothLater<V>(value: Source<V>, key: Source<V>, turns: seq<Turn>)
    requires value.Later? && key.Later? && (turns == [ValueTurn, KeyTurn] || turns == [KeyTurn, ValueTurn])
    ensures Enabled(Start(value, key), turns[0]) && Enabled(Apply(Start(value, key), turns[0]), turns[1])
    ensures Tally(value, key, turns, Apply(Apply(Start(value, key), turns[0]), turns[1]))
  {
  }

  lemma TallyLaterAndThrown<V>(value: Source<V>, key: Source<V>, turns: seq<Turn>)
    requires value.Later? && key.Throws? && (turns == [ValueTurn, Immediate] || turns == [Immediate, ValueTurn])
    ensures Enabled(Start(value, key), turns[0]) && Enabled(Apply(Start(value, key), turns[0]), turns[1])
    ensures Tally(value, key, turns, Apply(Apply(Start(value, key), turns[0]), turns[1]))
  {
  }

  /** A turn closes itself and no other. */
  lemma ClosesItself<V>(c: Closure<V>, t: Turn)
    requires Enabled(c, t)
    ensures forall u :: Enabled(Apply(c, t), u) <==> Enabled(c, u) && u != t
  {
  }

  lemma TallyTwo<V>(value: Source<V>, key: Source<V>, turns: seq<Turn>)
    requires var c := Start(value, key);
             && OpenTurns(c) == |turns| == 2
             && Enabled(c, turns[0]) && Enabled(Apply(c, turns[0]), turns[1])
    ensures Tally(value, key, turns, Apply(Apply(Start(value, key), turns[0]), turns[1]))
  {
    hide Tally, Apply, SettleValue, SettleKey, ProduceIfComplete;
    Opened(value, key);
    ClosesItself(Start(value, key), turns[0]);
    assert turns == [turns[0], turns[1]];
    if key.Later? {
      TallyBothLater(value, key, turns);
    } else {
      TallyLaterAndThrown(value, key, turns);
    }
  }

  /** What a whole life comes to, for any serializers and any order of the turns. */
  lemma Counts<V>(value: Source<V>, key: Source<V>, turns: seq<Turn>, end: Closure<V>)
    requires Life(Start(value, key), turns, end)
    ensures |end.attempts| == Attempts(value, key) && end.failures == Errors(value, key, turns)
    ensures |end.failures| == Failures(value, key, turns)
    ensures forall a | a in end.attempts :: EndOf(value) == Gives(Some(a.0)) && EndOf(key) == Gives(Some(a.1))
  {
    hide Life, Apply, TakeValue, TakeKey, ProduceIfComplete, Attempts, Failures, Errors, EndOf;
    ErrorsAreFailures(value, key, turns);
    var c := Start(value, key);
    TurnsOpen(c, turns, end);
    AtMostTwo(value, key);
    if turns == [] {
      NoTurn(c, turns, end);
      TallyNow(value, key);
    } else if |turns| == 1 {
      OneTurn(c, turns, end);
      TallyOne(value, key, turns);
    } else {
      TwoTurns(c, turns, end);
      TallyTwo(value, key, turns);
    }
  }

  lemma ErrorsAreFailures<V>(value: Source<V>, key: Source<V>, turns: seq<Turn>)
    ensures |Errors(value, key, turns)| == Failures(value, key, turns)
  {
  }

  lemma AtMostTwo<V>(value: Source<V>, key: Source<V>)
    ensures OpenTurns(Start(value, key)) <= 2
  {
  }

  lemma NoTurn<V>(c: Closure<V>, turns: seq<Turn>, end: Closure<V>)
    requires Life(c, turns, end) && turns == []
    ensures end == c
  {
  }

  /** A call is produced twice if and only if its key comes at once by callback after the value is there;
      and its callback gets one answer, counting one for each produce, if and only if that is not so, the
      key serializer does not throw after a failed value, and no undefined is left without a failure. */
  lemma OnceExactly<V>(value: Source<V>, key: Source<V>, turns: seq<Turn>, end: Closure<V>)
    requires Life(Start(value, key), turns, end)
    ensures |end.attempts| <= 2 && (|end.attempts| == 2 <==> Doubles(value, key))
    ensures |end.attempts| + |end.failures| == 1
            <==> !Doubles(value, key) && !FailsTwice(value, key, turns) && !Lost(value, key)
  {
    Counts(value, key, turns, end);
  }
}
