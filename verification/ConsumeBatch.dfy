/** KafkaConsumerConsumeNum and _consumeNum: a bounded consume loop collects data messages and
    partition-EOF events, C++ splits them into two arrays, and JavaScript merges the arrays back. */
module ConsumeBatch {
  import opened Lexical

  datatype Code = NoError | PartitionEof | TimedOut | TimedOutQueue | Other(code: int)

  const ERR_STATE := Other(-172)

  /** A message object of librdkafka; id tells objects apart. */
  datatype Message = Message(id: nat, err: Code, topic: string, partition: int, offset: int, payload: seq<bv8>)

  /** What one call of KafkaConsumer::Consume meets. */
  datatype Poll = NotConnected | Polled(message: Message)

  datatype Baton = Error(err: Code) | Data(message: Message)

  /** KafkaConsumer::Consume: only four codes escape inside a message; a message with any other code
      is deleted and its code returned. */
  function Consume(poll: Poll): (r: Baton)
    ensures r.Data? ==> !r.message.err.Other?
    ensures r.Error? ==> r.err.Other?
  {
    match poll
    case NotConnected => Error(ERR_STATE)
    case Polled(m) => if m.err.Other? then Error(m.err) else Data(m)
  }

  predicate Collected(poll: Poll) {
    poll.Polled? && (poll.message.err == NoError || poll.message.err == PartitionEof)
  }

  function DataCount(ms: seq<Message>): (r: nat)
    ensures r <= |ms|
  {
    if ms == [] then 0 else DataCount(Init(ms)) + if Last(ms).err == NoError then 1 else 0
  }

  /** Some EOF among the messages came after a data message. */
  predicate Hurried(ms: seq<Message>) {
    exists k | 0 <= k < |ms| :: ms[k].err == PartitionEof && DataCount(ms[..k]) > 0
  }

  /** What the loop collects, its error and what it asked for, given everything that arrives; after
      that librdkafka stays silent and every call times out. */
  ghost predicate Executed(feed: seq<Poll>, max: nat, timeout: int, messages: seq<Message>,
                           error: Option<Code>, timeouts: seq<int>)
  {
    var n, data := |messages|, DataCount(messages);
    // the messages are the longest prefix of the feed before a stop
    && n <= |feed|
    && (forall i | 0 <= i < n :: Collected(feed[i]) && messages[i] == feed[i].message)
    && (n > 0 ==> DataCount(Init(messages)) < max)
    && (data < max && n < |feed| ==> !Collected(feed[n]))
    // an error is reported only when there is no data message to lose
    && error == (if data == 0 < max && n < |feed| && Consume(feed[n]).Error? then Some(Consume(feed[n]).err) else None)
    // one call for each message and one for the stop, hurried once data and then an EOF were seen
    && |timeouts| == n + (if data < max then 1 else 0)
    && (forall i | 0 <= i < |timeouts| :: timeouts[i] == if Hurried(messages[..i]) then 1 else timeout)
  }

  /** The message objects handed over up to and including the stop. */
  function HandedOver(feed: seq<Poll>): seq<Message> {
    if feed == [] then []
    else HandedOver(Init(feed)) + if Last(feed).Polled? then [Last(feed).message] else []
  }

  /** What is collected, reported and asked for is determined by what arrives. */
  lemma ExecutedIsUnique(feed: seq<Poll>, max: nat, timeout: int, ms: seq<Message>, e: Option<Code>, ts: seq<int>,
                         ms': seq<Message>, e': Option<Code>, ts': seq<int>)
    requires Executed(feed, max, timeout, ms, e, ts) && Executed(feed, max, timeout, ms', e', ts')
    ensures ms == ms' && e == e' && ts == ts'
  {
    hide DataCount, Hurried;
    NotShorter(feed, max, timeout, ms, e, ts, ms', e', ts');
    NotShorter(feed, max, timeout, ms', e', ts', ms, e, ts);
    assert ms == ms';
  }

  lemma NotShorter(feed: seq<Poll>, max: nat, timeout: int, ms: seq<Message>, e: Option<Code>, ts: seq<int>,
                   ms': seq<Message>, e': Option<Code>, ts': seq<int>)
    requires Executed(feed, max, timeout, ms, e, ts) && Executed(feed, max, timeout, ms', e', ts')
    ensures |ms| >= |ms'|
  {
    hide DataCount, Hurried;
    var n := if |ms| < |ms'| then |ms| else |ms'|;
    CountPrefix(ms', n);
    assert ms[..n] == ms'[..n] && ms[..|ms|] == ms;
  }

  lemma {:induction false} CountPrefix(ms: seq<Message>, n: nat)
    requires n <= |ms|
    ensures n < |ms| ==> DataCount(ms[..n]) <= DataCount(Init(ms))
    decreases |ms|
  {
    if n == |ms| {
    } else {
      CountPrefix(Init(ms), n);
      assert Init(ms)[..n] == ms[..n];
      assert n == |ms| - 1 ==> ms[..n] == Init(ms);
    }
  }

  /** The messages that arrive before the first stop. */
  function BeforeStop(feed: seq<Poll>): seq<Message> {
    if feed == [] || !Collected(feed[0]) then [] else [feed[0].message] + BeforeStop(feed[1..])
  }

  lemma {:induction false} BeforeStopAt(feed: seq<Poll>, n: nat)
    requires n <= |feed| && forall i | 0 <= i < n :: Collected(feed[i])
    ensures n <= |BeforeStop(feed)|
    ensures forall i | 0 <= i < n :: feed[i].Polled? && BeforeStop(feed)[i] == feed[i].message
    ensures n == |feed| || !Collected(feed[n]) ==> |BeforeStop(feed)| == n
    decreases |feed|
  {
    if n == 0 {
    } else {
      assert forall i | 0 <= i < n - 1 :: feed[1..][i] == feed[i + 1];
      BeforeStopAt(feed[1..], n - 1);
      assert forall i | 1 <= i < n :: feed[i] == feed[1..][i - 1];
    }
  }

  lemma {:induction false} CountGrows(ms: seq<Message>, n: nat)
    requires n <= |ms|
    ensures DataCount(ms[..n]) <= DataCount(ms)
    decreases |ms|
  {
    if n < |ms| {
      CountGrows(Init(ms), n);
      assert Init(ms)[..n] == ms[..n];
    } else {
      assert ms[..n] == ms;
    }
  }

  /** A bounded consume collects a prefix of what arrives before the first stop: all of it, or as much
      as holds exactly the requested number of data messages. */
  lemma AtMostMax(feed: seq<Poll>, max: nat, timeout: int, ms: seq<Message>, e: Option<Code>, ts: seq<int>)
    requires Executed(feed, max, timeout, ms, e, ts)
    ensures ms <= BeforeStop(feed) && (DataCount(ms) < max ==> ms == BeforeStop(feed))
    ensures var all := DataCount(BeforeStop(feed)); DataCount(ms) == if all < max then all else max
  {
    BeforeStopAt(feed, |ms|);
    CountGrows(BeforeStop(feed), |ms|);
    assert BeforeStop(feed)[..|ms|] == ms;
  }

  /** What a call of Consume gives: ERR__STATE without a connection, the message for no error, partition EOF
      and the two time-outs, and for any other code that code. */
  lemma Consumed(message: Message)
    ensures Consume(NotConnected) == Error(Other(-172))
    ensures message.err in {NoError, PartitionEof, TimedOut, TimedOutQueue} ==>
              Consume(Polled(message)) == Data(message)
    ensures forall code :: message.err == Other(code) ==> Consume(Polled(message)) == Error(Other(code))
  {
  }

  /** The code with which a poll stops the loop, unless it is a time-out. */
  function StopCode(poll: Poll): Option<int> {
    match poll
    case NotConnected => Some(-172)
    case Polled(m) => if m.err.Other? then Some(m.err.code) else None
  }

  /** The loop reports an error if and only if it stops at one and has taken no data message; it is the error
      of the stop, and only EOF events were collected. */
  lemma ErrorLosesNoData(feed: seq<Poll>, max: nat, timeout: int, ms: seq<Message>, e: Option<Code>, ts: seq<int>)
    requires Executed(feed, max, timeout, ms, e, ts)
    ensures e.Some?
            <==> max > 0 && |ms| < |feed| && StopCode(feed[|ms|]).Some? && forall m | m in ms :: m.err == PartitionEof
    ensures e.Some? ==> e == Some(Other(StopCode(feed[|ms|]).value))
  {
    if DataCount(ms) == 0 {
      NoData(ms);
    } else {
      SomeData(ms);
    }
  }

  lemma {:induction false} SomeData(ms: seq<Message>)
    requires DataCount(ms) > 0
    ensures exists m :: m in ms && m.err == NoError
    decreases |ms|
  {
    assert ms == Init(ms) + [Last(ms)];
    if Last(ms).err == NoError {
      assert Last(ms) in ms;
    } else {
      SomeData(Init(ms));
    }
  }

  /** The time-outs: the one given, until a data message and after it an EOF were taken, and 1 from then on. */
  lemma TimeoutsAre(feed: seq<Poll>, max: nat, timeout: int, ms: seq<Message>, e: Option<Code>, ts: seq<int>, i: nat)
    requires Executed(feed, max, timeout, ms, e, ts) && i < |ts|
    ensures i <= |ms|
    ensures (exists j, k :: 0 <= j < k < i && ms[j].err == NoError && ms[k].err == PartitionEof) ==> ts[i] == 1
    ensures !(exists j, k :: 0 <= j < k < i && ms[j].err == NoError && ms[k].err == PartitionEof) ==> ts[i] == timeout
  {
    hide Hurried, DataCount;
    HurriedMeans(ms, i);
  }

  lemma HurriedMeans(ms: seq<Message>, i: nat)
    requires i <= |ms|
    ensures Hurried(ms[..i]) <==> exists j, k :: 0 <= j < k < i && ms[j].err == NoError && ms[k].err == PartitionEof
  {
    hide DataCount;
    var s := ms[..i];
    if Hurried(s) {
      var k :| 0 <= k < |s| && s[k].err == PartitionEof && DataCount(s[..k]) > 0;
      SomeData(s[..k]);
      var m :| m in s[..k] && m.err == NoError;
      var j :| 0 <= j < k && s[..k][j] == m;
      assert ms[j].err == NoError && ms[k].err == PartitionEof;
    }
    if j, k :| 0 <= j < k < i && ms[j].err == NoError && ms[k].err == PartitionEof {
      CountsOne(s[..k], j);
      assert s[k].err == PartitionEof && DataCount(s[..k]) > 0;
    }
  }

  lemma {:induction false} CountsOne(ms: seq<Message>, j: nat)
    requires j < |ms| && ms[j].err == NoError
    ensures DataCount(ms) > 0
    decreases |ms|
  {
    if j == |ms| - 1 {
    } else {
      CountsOne(Init(ms), j);
    }
  }

  lemma {:induction false} NoData(ms: seq<Message>)
    requires DataCount(ms) == 0
    ensures forall m | m in ms :: m.err != NoError
    decreases |ms|
  {
    if ms == [] {
    } else {
      NoData(Init(ms));
      assert ms == Init(ms) + [Last(ms)];
    }
  }

  /** Every message object handed over is among the messages or was deleted. */
  ghost predicate Settled(feed: seq<Poll>, messages: seq<Message>, deleted: seq<Message>, timeouts: seq<int>) {
    var calls := if |timeouts| < |feed| then |timeouts| else |feed|;
    multiset(messages) + multiset(deleted) == multiset(HandedOver(feed[..calls]))
  }

  /** The loop has collected the first messages of the feed and has not met a stop. */
  ghost predicate Going(feed: seq<Poll>, max: nat, timeout: int, messages: seq<Message>, timeouts: seq<int>) {
    && |timeouts| == |messages| <= |feed|
    && (forall i | 0 <= i < |messages| :: Collected(feed[i]) && messages[i] == feed[i].message)
    && (messages != [] ==> DataCount(Init(messages)) < max)
    && (forall i | 0 <= i < |messages| :: timeouts[i] == if Hurried(messages[..i]) then 1 else timeout)
    && HandedOver(feed[..|messages|]) == messages
  }

  lemma HandedOverStep(feed: seq<Poll>, n: nat)
    requires n < |feed|
    ensures HandedOver(feed[..n + 1]) == HandedOver(feed[..n]) + if feed[n].Polled? then [feed[n].message] else []
  {
    assert Init(feed[..n + 1]) == feed[..n];
  }

  lemma HurriedStep(ms: seq<Message>, m: Message)
    ensures DataCount(ms + [m]) == DataCount(ms) + if m.err == NoError then 1 else 0
    ensures Hurried(ms + [m]) <==> Hurried(ms) || (m.err == PartitionEof && DataCount(ms) > 0)
  {
    var next := ms + [m];
    assert Init(next) == ms && next[..|ms|] == ms;
    assert forall k | 0 <= k < |ms| :: next[k] == ms[k] && next[..k] == ms[..k];
    if m.err == PartitionEof && DataCount(ms) > 0 {
      assert next[|ms|].err == PartitionEof && DataCount(next[..|ms|]) > 0;
    }
    if Hurried(ms) {
      var k :| 0 <= k < |ms| && ms[k].err == PartitionEof && DataCount(ms[..k]) > 0;
      assert next[k].err == PartitionEof && DataCount(next[..k]) > 0;
    }
  }

  lemma Collect(feed: seq<Poll>, max: nat, timeout: int, ms: seq<Message>, timeouts: seq<int>, t: int)
    requires Going(feed, max, timeout, ms, timeouts) && DataCount(ms) < max
    requires |ms| < |feed| && Collected(feed[|ms|]) && t == if Hurried(ms) then 1 else timeout
    ensures Going(feed, max, timeout, ms + [feed[|ms|].message], timeouts + [t])
  {
    hide Hurried, DataCount, HandedOver;
    var n := |ms|;
    var next := ms + [feed[n].message];
    HurriedStep(ms, feed[n].message);
    HandedOverStep(feed, n);
    assert Init(next) == ms;
    TimeoutsKept(ms, feed[n].message, timeouts, t, timeout);
  }

  lemma TimeoutsKept(ms: seq<Message>, m: Message, timeouts: seq<int>, t: int, timeout: int)
    requires |timeouts| == |ms| && t == if Hurried(ms) then 1 else timeout
    requires forall i | 0 <= i < |ms| :: timeouts[i] == if Hurried(ms[..i]) then 1 else timeout
    ensures forall i | 0 <= i < |ms + [m]| :: (timeouts + [t])[i] == if Hurried((ms + [m])[..i]) then 1 else timeout
  {
    hide Hurried;
    assert ms[..|ms|] == ms;
    forall i | 0 <= i <= |ms|
      ensures (timeouts + [t])[i] == if Hurried((ms + [m])[..i]) then 1 else timeout
    {
      assert (ms + [m])[..i] == ms[..i];
    }
  }

  lemma Start(feed: seq<Poll>, max: nat, timeout: int)
    ensures Going(feed, max, timeout, [], []) && !Hurried([]) && DataCount([]) == 0
  {
  }

  lemma Full(feed: seq<Poll>, max: nat, timeout: int, ms: seq<Message>, timeouts: seq<int>)
    requires Going(feed, max, timeout, ms, timeouts) && DataCount(ms) >= max
    ensures Executed(feed, max, timeout, ms, None, timeouts) && Settled(feed, ms, [], timeouts)
  {
  }

  /** The loop stops at a poll that is not collected, and deletes the message it held. */
  lemma Stop(feed: seq<Poll>, max: nat, timeout: int, ms: seq<Message>, error: Option<Code>,
             timeouts: seq<int>, t: int, deleted: seq<Message>)
    requires Going(feed, max, timeout, ms, timeouts) && DataCount(ms) < max
    requires t == if Hurried(ms) then 1 else timeout
    requires |ms| < |feed| ==> !Collected(feed[|ms|])
    requires deleted == if |ms| < |feed| && feed[|ms|].Polled? then [feed[|ms|].message] else []
    requires error == if DataCount(ms) == 0 && |ms| < |feed| && Consume(feed[|ms|]).Error?
                      then Some(Consume(feed[|ms|]).err) else None
    ensures Executed(feed, max, timeout, ms, error, timeouts + [t]) && Settled(feed, ms, deleted, timeouts + [t])
  {
    hide Hurried, DataCount, HandedOver, Settled, Consume;
    assert ms[..|ms|] == ms;
    StopSettles(feed, ms, timeouts, t, deleted);
  }

  lemma StopSettles(feed: seq<Poll>, ms: seq<Message>, timeouts: seq<int>, t: int, deleted: seq<Message>)
    requires |timeouts| == |ms| <= |feed| && HandedOver(feed[..|ms|]) == ms
    requires deleted == if |ms| < |feed| && feed[|ms|].Polled? then [feed[|ms|].message] else []
    ensures Settled(feed, ms, deleted, timeouts + [t])
  {
    hide HandedOver;
    var n := |ms|;
    if n < |feed| {
      HandedOverStep(feed, n);
    }
    assert multiset(ms + deleted) == multiset(ms) + multiset(deleted);
  }

  // ---------------------------------------------------------------------------------------
  // A feed without end

  /** The loop comes to an end on every finite feed, at the latest when it falls silent. */
  lemma {:induction false} Loop(feed: seq<Poll>, max: nat, timeout: int, ms: seq<Message>, timeouts: seq<int>)
    returns (all: seq<Message>, e: Option<Code>, ts: seq<int>)
    requires Going(feed, max, timeout, ms, timeouts)
    ensures Executed(feed, max, timeout, all, e, ts)
    decreases |feed| - |ms|
  {
    hide Going, Executed, Settled, DataCount, Hurried, Consume;
    var n, t := |ms|, if Hurried(ms) then 1 else timeout;
    GoingOn(feed, max, timeout, ms, timeouts);
    if DataCount(ms) >= max {
      Full(feed, max, timeout, ms, timeouts);
      all, e, ts := ms, None, timeouts;
    } else if n < |feed| && Collected(feed[n]) {
      Collect(feed, max, timeout, ms, timeouts, t);
      all, e, ts := Loop(feed, max, timeout, ms + [feed[n].message], timeouts + [t]);
    } else {
      e := if DataCount(ms) == 0 && n < |feed| && Consume(feed[n]).Error? then Some(Consume(feed[n]).err) else None;
      Stop(feed, max, timeout, ms, e, timeouts, t, if n < |feed| && feed[n].Polled? then [feed[n].message] else []);
      all, ts := ms, timeouts + [t];
    }
  }

  lemma GoingOn(feed: seq<Poll>, max: nat, timeout: int, ms: seq<Message>, timeouts: seq<int>)
    requires Going(feed, max, timeout, ms, timeouts)
    ensures |ms| <= |feed|
  {
  }

  /** The loop has ended before silence, with no more calls than there are polls, exactly if there is a
      stop among them or enough data. */
  lemma EndsBeforeSilence(feed: seq<Poll>, max: nat, timeout: int, ms: seq<Message>, e: Option<Code>, ts: seq<int>)
    requires Executed(feed, max, timeout, ms, e, ts)
    ensures |ts| <= |feed|
            <==> (exists i :: 0 <= i < |feed| && !Collected(feed[i])) || DataCount(BeforeStop(feed)) >= max
  {
    hide BeforeStop, Hurried;
    AtMostMax(feed, max, timeout, ms, e, ts);
    BeforeStopAt(feed, |ms|);
    if |ts| > |feed| {
      assert |ms| == |feed| && forall i | 0 <= i < |feed| :: Collected(feed[i]);
    } else if DataCount(ms) < max {
      assert !Collected(feed[|ms|]);
    }
  }

  /** What comes after the end of the loop makes no difference. */
  lemma LaterPollsUnseen(feed: seq<Poll>, more: seq<Poll>, max: nat, timeout: int,
                         ms: seq<Message>, e: Option<Code>, ts: seq<int>)
    requires Executed(feed, max, timeout, ms, e, ts) && |ts| <= |feed|
    ensures Executed(feed + more, max, timeout, ms, e, ts)
  {
    hide DataCount, Hurried, Consume;
  }

  /** The first n polls of a feed without end. */
  function First(feed: nat -> Poll, n: nat): (r: seq<Poll>)
    ensures |r| == n && forall i | 0 <= i < n :: r[i] == feed(i)
  {
    seq(n, (i: nat) => feed(i))
  }

  /** On a feed without end, the loop ends with this outcome. */
  ghost predicate EndsWith(feed: nat -> Poll, max: nat, timeout: int, ms: seq<Message>, e: Option<Code>, ts: seq<int>) {
    exists n :: |ts| <= n && Executed(First(feed, n), max, timeout, ms, e, ts)
  }

  /** Among the first n polls of a feed without end there is a stop, or data enough. */
  ghost predicate EnoughIn(feed: nat -> Poll, max: nat, n: nat) {
    (exists i :: 0 <= i < n && !Collected(feed(i))) || DataCount(BeforeStop(First(feed, n))) >= max
  }

  /** The loop over a feed without end comes to an end if and only if some poll is not collected or the
      polls hold the requested number of data messages: an endless stream of EOF events keeps it going. */
  lemma EndsExactly(feed: nat -> Poll, max: nat, timeout: int)
    ensures (exists ms, e, ts :: EndsWith(feed, max, timeout, ms, e, ts)) <==> exists n :: EnoughIn(feed, max, n)
  {
    hide Executed, BeforeStop, DataCount, Going;
    if ms, e, ts :| EndsWith(feed, max, timeout, ms, e, ts) {
      var n :| |ts| <= n && Executed(First(feed, n), max, timeout, ms, e, ts);
      EndsBeforeSilence(First(feed, n), max, timeout, ms, e, ts);
      EnoughInFirst(feed, max, n);
    }
    if n :| EnoughIn(feed, max, n) {
      Start(First(feed, n), max, timeout);
      var ms, e, ts := Loop(First(feed, n), max, timeout, [], []);
      EndsBeforeSilence(First(feed, n), max, timeout, ms, e, ts);
      EnoughInFirst(feed, max, n);
      assert EndsWith(feed, max, timeout, ms, e, ts);
    }
  }

  lemma EnoughInFirst(feed: nat -> Poll, max: nat, n: nat)
    ensures var f := First(feed, n);
            EnoughIn(feed, max, n) <==> (exists i :: 0 <= i < n && !Collected(f[i])) || DataCount(BeforeStop(f)) >= max
  {
    var f := First(feed, n);
    if i :| 0 <= i < n && !Collected(feed(i)) {
      assert !Collected(f[i]);
    }
    if i :| 0 <= i < n && !Collected(f[i]) {
      assert !Collected(feed(i));
    }
  }

  /** If it ends, it ends with one outcome. */
  lemma EndsOnce(feed: nat -> Poll, max: nat, timeout: int, ms: seq<Message>, e: Option<Code>, ts: seq<int>,
                 ms': seq<Message>, e': Option<Code>, ts': seq<int>)
    requires EndsWith(feed, max, timeout, ms, e, ts) && EndsWith(feed, max, timeout, ms', e', ts')
    ensures ms == ms' && e == e' && ts == ts'
  {
    hide Executed;
    var n :| |ts| <= n && Executed(First(feed, n), max, timeout, ms, e, ts);
    var n' :| |ts'| <= n' && Executed(First(feed, n'), max, timeout, ms', e', ts');
    if n <= n' {
      assert First(feed, n') == First(feed, n) + First(feed, n')[n..];
      LaterPollsUnseen(First(feed, n), First(feed, n')[n..], max, timeout, ms, e, ts);
      ExecutedIsUnique(First(feed, n'), max, timeout, ms, e, ts, ms', e', ts');
    } else {
      assert First(feed, n) == First(feed, n') + First(feed, n)[n'..];
      LaterPollsUnseen(First(feed, n'), First(feed, n)[n'..], max, timeout, ms', e', ts');
      ExecutedIsUnique(First(feed, n), max, timeout, ms, e, ts, ms', e', ts');
    }
  }

  // ---------------------------------------------------------------------------------------
  // The two arrays

  /** An EOF event; messageIndex is the position in the data array, -1 before the first. */
  datatype EofEvent = EofEvent(topic: string, partition: int, offset: int, messageIndex: Option<int>)

  datatype Event = DataEvent(message: Message) | Eof(event: EofEvent)

  function EofOf(m: Message, index: Option<int>): EofEvent {
    EofEvent(m.topic, m.partition, m.offset, index)
  }

  /** What a collected message means to JavaScript. */
  function Meaning(m: Message): Event {
    if m.err == NoError then DataEvent(m) else Eof(EofOf(m, None))
  }

  function Meanings(ms: seq<Message>): seq<Event> {
    seq(|ms|, i requires 0 <= i < |ms| => Meaning(ms[i]))
  }

  ghost predicate AllCollected(ms: seq<Message>) {
    forall m | m in ms :: m.err == NoError || m.err == PartitionEof
  }

  function DataOf(ms: seq<Message>): seq<Message> {
    if ms == [] then [] else (if ms[0].err == NoError then [ms[0]] else []) + DataOf(ms[1..])
  }

  /** The EOF events of ms when n data messages came before. */
  function EofsOf(ms: seq<Message>, n: nat): seq<EofEvent> {
    if ms == [] then []
    else if ms[0].err == NoError then EofsOf(ms[1..], n + 1)
    else [EofOf(ms[0], Some(n - 1))] + EofsOf(ms[1..], n)
  }

  /** emitEofEventsFor: the events at the front with this index. */
  function LeadingEofs(eofs: seq<EofEvent>, index: int): seq<Event> {
    if eofs == [] || eofs[0].messageIndex != Some(index) then []
    else [Eof(eofs[0].(messageIndex := None))] + LeadingEofs(eofs[1..], index)
  }

  /** What _consumeNum emits for the remaining arrays after n data messages. */
  function Merge(data: seq<Message>, eofs: seq<EofEvent>, n: nat): seq<Event>
    decreases |data| + |eofs|
  {
    if eofs != [] && eofs[0].messageIndex == Some(n - 1) then
      [Eof(eofs[0].(messageIndex := None))] + Merge(data, eofs[1..], n)
    else if data != [] then [DataEvent(data[0])] + Merge(data[1..], eofs, n + 1)
    else LeadingEofs(eofs, n)
  }

  lemma {:induction false} EofsStartLate(ms: seq<Message>, n: nat)
    ensures var e := EofsOf(ms, n); e != [] ==> e[0].messageIndex.Some? && e[0].messageIndex.value >= n - 1
    decreases |ms|
  {
    if ms != [] && ms[0].err == NoError {
      EofsStartLate(ms[1..], n + 1);
    }
  }

  /** Splitting and merging gives back the collected events in their order, each exactly once. */
  lemma {:induction false} SplitThenMerge(ms: seq<Message>, n: nat)
    requires AllCollected(ms)
    ensures Merge(DataOf(ms), EofsOf(ms, n), n) == Meanings(ms)
    decreases |ms|
  {
    if ms == [] {
    } else {
      var m, tail := ms[0], ms[1..];
      assert ms == [m] + tail && m in ms && forall x | x in tail :: x in ms;
      assert Meanings(ms) == [Meaning(m)] + Meanings(tail);
      if m.err == NoError {
        assert DataOf(ms)[0] == m && DataOf(ms)[1..] == DataOf(tail);
        EofsStartLate(tail, n + 1);
        SplitThenMerge(tail, n + 1);
      } else {
        assert DataOf(ms) == DataOf(tail) && EofsOf(ms, n)[1..] == EofsOf(tail, n);
        SplitThenMerge(tail, n);
      }
    }
  }

  lemma SplitStep(ms: seq<Message>, i: nat, n: nat)
    requires i < |ms|
    ensures ms[i] in ms
    ensures DataOf(ms[i..]) == (if ms[i].err == NoError then [ms[i]] else []) + DataOf(ms[i + 1..])
    ensures EofsOf(ms[i..], n) == if ms[i].err == NoError then EofsOf(ms[i + 1..], n + 1)
                                  else [EofOf(ms[i], Some(n - 1))] + EofsOf(ms[i + 1..], n)
  {
    assert ms[i..][1..] == ms[i + 1..];
  }

  lemma SplitNothing(ms: seq<Message>)
    ensures ms[..|ms|] == ms && DataOf(ms[|ms|..]) == [] && forall n: nat :: EofsOf(ms[|ms|..], n) == []
  {
  }

  lemma {:induction false} MergeLeading(data: seq<Message>, eofs: seq<EofEvent>, n: nat)
    ensures var first := LeadingEofs(eofs, n - 1);
            && |first| <= |eofs|
            && Merge(data, eofs, n) == first + Merge(data, eofs[|first|..], n)
    decreases |eofs|
  {
    if eofs != [] && eofs[0].messageIndex == Some(n - 1) {
      var tail := eofs[1..];
      MergeLeading(data, tail, n);
      var first := LeadingEofs(tail, n - 1);
      assert tail[|first|..] == eofs[|first| + 1..];
      Associate([Eof(eofs[0].(messageIndex := None))], first, Merge(data, tail[|first|..], n));
    } else {
      assert eofs[0..] == eofs;
    }
  }

  lemma {:induction false} CountFront(ms: seq<Message>)
    requires ms != []
    ensures DataCount(ms) == (if ms[0].err == NoError then 1 else 0) + DataCount(ms[1..])
    decreases |ms|
  {
    if |ms| == 1 {
      assert Init(ms) == [] && ms[1..] == [];
    } else {
      CountFront(Init(ms));
      assert Init(ms)[1..] == Init(ms[1..]);
    }
  }

  /** Where a message is found: a data message at the place given by the data messages before it, an EOF
      message at the place given by the others, with its own topic, partition and offset and the index of
      the last data message before it. */
  ghost predicate Placed(m: Message, i: nat, c: nat, data: seq<Message>, eofs: seq<EofEvent>, n: nat) {
    if m.err == NoError then c < |data| && data[c] == m
    else
      && 0 <= i - c < |eofs|
      && eofs[i - c].topic == m.topic && eofs[i - c].partition == m.partition
      && eofs[i - c].offset == m.offset && eofs[i - c].messageIndex == Some(n + c - 1)
  }

  /** Every message is in one array, at its place. */
  ghost predicate SplitInto(ms: seq<Message>, data: seq<Message>, eofs: seq<EofEvent>) {
    && |data| == DataCount(ms) && |eofs| == |ms| - |data|
    && forall i | 0 <= i < |ms| :: Placed(ms[i], i, DataCount(ms[..i]), data, eofs, 0)
  }

  lemma {:induction false} SplitSizes(ms: seq<Message>, n: nat)
    ensures |DataOf(ms)| == DataCount(ms) && |EofsOf(ms, n)| == |ms| - |DataOf(ms)|
    decreases |ms|
  {
    if ms == [] {
    } else {
      SplitSizes(ms[1..], if ms[0].err == NoError then n + 1 else n);
      CountFront(ms);
    }
  }

  lemma PlacedFirst(ms: seq<Message>, n: nat)
    requires ms != []
    ensures Placed(ms[0], 0, 0, DataOf(ms), EofsOf(ms, n), n)
  {
  }

  lemma PlacedLater(ms: seq<Message>, n: nat, i: nat, c: nat)
    requires 0 < i < |ms|
    requires var m := if ms[0].err == NoError then n + 1 else n;
             Placed(ms[1..][i - 1], i - 1, c, DataOf(ms[1..]), EofsOf(ms[1..], m), m)
    ensures Placed(ms[i], i, c + if ms[0].err == NoError then 1 else 0, DataOf(ms), EofsOf(ms, n), n)
  {
  }

  lemma {:induction false} SplitPlace(ms: seq<Message>, n: nat, i: nat)
    requires i < |ms|
    ensures Placed(ms[i], i, DataCount(ms[..i]), DataOf(ms), EofsOf(ms, n), n)
    decreases |ms|
  {
    hide DataCount, Placed;
    if i == 0 {
      CountNothing();
      assert ms[..0] == [];
      PlacedFirst(ms, n);
    } else {
      var m := if ms[0].err == NoError then n + 1 else n;
      SplitPlace(ms[1..], m, i - 1);
      CountFront(ms[..i]);
      assert ms[..i][1..] == ms[1..][..i - 1];
      PlacedLater(ms, n, i, DataCount(ms[1..][..i - 1]));
    }
  }

  lemma SplitPlaces(ms: seq<Message>)
    ensures SplitInto(ms, DataOf(ms), EofsOf(ms, 0))
  {
    hide DataCount, DataOf, EofsOf, Placed;
    SplitSizes(ms, 0);
    forall i | 0 <= i < |ms|
      ensures Placed(ms[i], i, DataCount(ms[..i]), DataOf(ms), EofsOf(ms, 0), 0)
    {
      SplitPlace(ms, 0, i);
    }
  }

  lemma CountNothing()
    ensures DataCount([]) == 0
  {
  }

  /** The places of the data messages. */
  function DataPlaces(ms: seq<Message>): (r: set<nat>)
    ensures forall i: nat :: i in r <==> i < |ms| && ms[i].err == NoError
  {
    set i: nat | i < |ms| && ms[i].err == NoError
  }

  lemma DataPlacesStep(ms: seq<Message>)
    requires ms != []
    ensures DataPlaces(ms) == DataPlaces(Init(ms)) + if Last(ms).err == NoError then {|ms| - 1} else {}
  {
    hide DataPlaces;
  }

  /** The count is the number of data messages. */
  lemma {:induction false} CountIsNumber(ms: seq<Message>)
    ensures DataCount(ms) == |DataPlaces(ms)|
    decreases |ms|
  {
    hide DataPlaces;
    if ms == [] {
      assert DataPlaces(ms) == {};
    } else {
      CountIsNumber(Init(ms));
      DataPlacesStep(ms);
      assert |ms| - 1 !in DataPlaces(Init(ms));
    }
  }

  // ---------------------------------------------------------------------------------------
  // The worker

  class KafkaConsumerConsumeNum {
    const max: nat
    const timeout: int
    var messages: seq<Message>
    var error: Option<Code>
    var timeouts: seq<int>       // the timeout of each call of Consume
    var deleted: seq<Message>    // the message objects deleted so far

    constructor (max: nat, timeout: int)
      ensures this.max == max && this.timeout == timeout
      ensures messages == [] && error == None && timeouts == [] && deleted == []
    {
      this.max, this.timeout := max, timeout;
      messages, error, timeouts, deleted := [], None, [], [];
    }

    method Execute(feed: seq<Poll>)
      requires messages == [] && error == None && timeouts == [] && deleted == []
      modifies this
      ensures Executed(feed, max, timeout, messages, error, timeouts)
      ensures Settled(feed, messages, deleted, timeouts)
    {
      hide Hurried, DataCount, Going, Executed, Settled, HandedOver;
      var looping, timeoutMs, eofCount := true, timeout, 0;
      Start(feed, max, timeout);
      while |messages| - eofCount < max && looping
        invariant looping ==> Going(feed, max, timeout, messages, timeouts) && |messages| <= |feed|
        invariant looping ==> error == None && deleted == []
        invariant looping ==> eofCount == |messages| - DataCount(messages)
        invariant looping ==> timeoutMs == if Hurried(messages) then 1 else timeout
        invariant !looping ==> Executed(feed, max, timeout, messages, error, timeouts)
        invariant !looping ==> Settled(feed, messages, deleted, timeouts)
        decreases looping, |feed| - |messages|
      {
        ghost var asked := timeouts;
        timeouts := timeouts + [timeoutMs];
        if |messages| == |feed| {
          // silence: librdkafka hands over a timed-out message, which is deleted at once
          Stop(feed, max, timeout, messages, error, asked, timeoutMs, deleted);
          looping := false;
          continue;
        }
        match Consume(feed[|messages|])
        case Data(message) =>
          match message.err {
            case PartitionEof =>
              Collect(feed, max, timeout, messages, asked, timeoutMs);
              HurriedStep(messages, message);
              if |messages| > eofCount {
                timeoutMs := 1;
              }
              messages := messages + [message];
              eofCount := eofCount + 1;
            case NoError =>
              Collect(feed, max, timeout, messages, asked, timeoutMs);
              HurriedStep(messages, message);
              messages := messages + [message];
            case TimedOut =>
              deleted := [message];
              looping := false;
              Stop(feed, max, timeout, messages, error, asked, timeoutMs, deleted);
            case TimedOutQueue =>
              deleted := [message];
              looping := false;
              Stop(feed, max, timeout, messages, error, asked, timeoutMs, deleted);
            case Other(_) =>
              assert false;
          }
        case Error(err) =>
          if feed[|messages|].Polled? {
            deleted := [feed[|messages|].message];
          }
          if |messages| == eofCount {
            error := Some(err);
          }
          looping := false;
          Stop(feed, max, timeout, messages, error, asked, timeoutMs, deleted);
      }
      if looping {
        Full(feed, max, timeout, messages, timeouts);
      }
    }

    method HandleOKCallback() returns (returnArray: seq<Message>, eofEventsArray: seq<EofEvent>)
      requires AllCollected(messages)
      modifies this`deleted
      ensures returnArray == DataOf(messages) && eofEventsArray == EofsOf(messages, 0)
      ensures SplitInto(messages, returnArray, eofEventsArray)
      ensures deleted == old(deleted) + messages
    {
      hide DataOf, EofsOf;
      returnArray, eofEventsArray := [], [];
      var returnArrayIndex := -1;
      assert messages[0..] == messages;
      for i := 0 to |messages|
        invariant returnArrayIndex == |returnArray| - 1
        invariant returnArray + DataOf(messages[i..]) == DataOf(messages)
        invariant eofEventsArray + EofsOf(messages[i..], |returnArray|) == EofsOf(messages, 0)
        invariant deleted == old(deleted) + messages[..i]
      {
        var message := messages[i];
        SplitStep(messages, i, |returnArray|);
        if message.err == NoError {
          returnArrayIndex := returnArrayIndex + 1;
          Associate(returnArray, [message], DataOf(messages[i + 1..]));
          returnArray := returnArray + [message];
        } else {
          Associate(eofEventsArray, [EofOf(message, Some(returnArrayIndex))], EofsOf(messages[i + 1..], |returnArray|));
          eofEventsArray := eofEventsArray + [EofOf(message, Some(returnArrayIndex))];
        }
        deleted := deleted + [message];
      }
      SplitNothing(messages);
      SplitPlaces(messages);
    }

    method HandleErrorCallback() returns (err: Code)
      requires error.Some?
      modifies this`deleted
      ensures err == error.value && deleted == old(deleted) + messages
    {
      for i := 0 to |messages|
        invariant deleted == old(deleted) + messages[..i]
      {
        deleted := deleted + [messages[i]];
      }
      return error.value;
    }
  }

  // ---------------------------------------------------------------------------------------
  // JavaScript

  /** The callback of _consumeNum on success; it strips messageIndex from the events in place. */
  method ConsumeNumCallback(messages: seq<Message>, eofEvents: array<EofEvent>) returns (emitted: seq<Event>)
    modifies eofEvents
    ensures emitted == Merge(messages, old(eofEvents[..]), 0)
  {
    ghost var was := eofEvents[..];
    var current := 0;
    var run;
    emitted, current := EmitEofEventsFor(eofEvents, current, -1, was);
    MergeLeading(messages, was, 0);
    assert was[0..] == was && messages[0..] == messages;
    for i := 0 to |messages|
      invariant current <= eofEvents.Length && forall j | current <= j < eofEvents.Length :: eofEvents[j] == was[j]
      invariant LeadingEofs(was[current..], i - 1) == []
      invariant emitted + Merge(messages[i..], was[current..], i) == Merge(messages, was, 0)
    {
      ghost var before, rest, next := emitted, messages[i + 1..], current;
      assert messages[i..][0] == messages[i] && messages[i..][1..] == rest;
      emitted := emitted + [DataEvent(messages[i])];
      run, current := EmitEofEventsFor(eofEvents, current, i, was);
      MergeLeading(rest, was[next..], i + 1);
      assert was[next..][|run|..] == was[current..];
      Associate(before, [DataEvent(messages[i])], run + Merge(rest, was[current..], i + 1));
      Associate(emitted, run, Merge(rest, was[current..], i + 1));
      emitted := emitted + run;
    }
    assert messages[|messages|..] == [];
    run, current := EmitEofEventsFor(eofEvents, current, |messages|, was);
    emitted := emitted + run;
  }

  method EmitEofEventsFor(eofEvents: array<EofEvent>, from: nat, index: int, ghost was: seq<EofEvent>)
    returns (emitted: seq<Event>, current: nat)
    requires |was| == eofEvents.Length && from <= |was|
    requires forall j | from <= j < |was| :: eofEvents[j] == was[j]
    modifies eofEvents
    ensures from <= current <= |was|
    ensures forall j | current <= j < |was| :: eofEvents[j] == was[j]
    ensures emitted == LeadingEofs(was[from..], index) && LeadingEofs(was[current..], index) == []
    ensures |emitted| == current - from
  {
    emitted, current := [], from;
    while current < eofEvents.Length && eofEvents[current].messageIndex == Some(index)
      invariant from <= current <= |was| && |emitted| == current - from
      invariant forall j | current <= j < |was| :: eofEvents[j] == was[j]
      invariant emitted + LeadingEofs(was[current..], index) == LeadingEofs(was[from..], index)
    {
      assert was[current..][1..] == was[current + 1..];
      eofEvents[current] := eofEvents[current].(messageIndex := None);
      emitted := emitted + [Eof(eofEvents[current])];
      current := current + 1;
    }
  }

  /** What the user's callback is given. */
  datatype Answer = Failed(err: Code) | Fetched(messages: seq<Message>)

  /** The events are the messages, one by one and in order. */
  ghost predicate Emitted(ms: seq<Message>, emitted: seq<Event>) {
    && |emitted| == |ms|
    && forall i | 0 <= i < |emitted| ::
         if ms[i].err == NoError then emitted[i] == DataEvent(ms[i])
         else emitted[i] == Eof(EofEvent(ms[i].topic, ms[i].partition, ms[i].offset, None))
  }

  lemma MeaningsAreEmitted(ms: seq<Message>)
    requires AllCollected(ms)
    ensures Emitted(ms, Meanings(ms))
  {
  }

  /** The messages are the data messages among ms, in order. */
  ghost predicate DataAmong(ms: seq<Message>, data: seq<Message>) {
    |data| == DataCount(ms) && forall i | 0 <= i < |ms| && ms[i].err == NoError :: data[DataAt(ms, i)] == ms[i]
  }

  function DataAt(ms: seq<Message>, i: nat): (c: nat)
    requires i < |ms| && ms[i].err == NoError
    ensures c < DataCount(ms)
  {
    CountGrows(ms, i + 1);
    assert Init(ms[..i + 1]) == ms[..i];
    DataCount(ms[..i])
  }

  lemma SplitData(ms: seq<Message>, data: seq<Message>, eofs: seq<EofEvent>)
    requires SplitInto(ms, data, eofs)
    ensures DataAmong(ms, data)
  {
    hide DataCount;
    forall i | 0 <= i < |ms| && ms[i].err == NoError
      ensures data[DataAt(ms, i)] == ms[i]
    {
      assert Placed(ms[i], i, DataCount(ms[..i]), data, eofs, 0);
    }
  }

  /** The worker from end to end: one of the two handlers runs. On success JavaScript emits the collected
      messages in order, each with its own fields, and calls back with the data messages; on an error it
      emits nothing and calls back with the error. Every message object is deleted exactly once. */
  method RunWorker(feed: seq<Poll>, max: nat, timeout: int)
    returns (worker: KafkaConsumerConsumeNum, emitted: seq<Event>, answer: Answer)
    ensures fresh(worker) && Executed(feed, max, timeout, worker.messages, worker.error, worker.timeouts)
    ensures worker.error.None? ==>
              Emitted(worker.messages, emitted) && answer.Fetched? && DataAmong(worker.messages, answer.messages)
    ensures worker.error.Some? ==> emitted == [] && answer == Failed(worker.error.value)
    ensures var calls := if |worker.timeouts| < |feed| then |worker.timeouts| else |feed|;
            multiset(worker.deleted) == multiset(HandedOver(feed[..calls]))
  {
    worker := new KafkaConsumerConsumeNum(max, timeout);
    worker.Execute(feed);
    assert AllCollected(worker.messages);
    hide Executed, HandedOver, DataOf, EofsOf, Merge, Meanings, Emitted, SplitInto, DataAmong;
    ghost var deleted := worker.deleted;
    emitted := [];
    if worker.error.Some? {
      var err := worker.HandleErrorCallback();
      answer := Failed(err);
    } else {
      var data, eofs := worker.HandleOKCallback();
      var eofEvents := new EofEvent[|eofs|](i requires 0 <= i < |eofs| => eofs[i]);
      assert eofEvents[..] == eofs;
      emitted := ConsumeNumCallback(data, eofEvents);
      answer := Fetched(data);
      SplitThenMerge(worker.messages, 0);
      MeaningsAreEmitted(worker.messages);
      SplitData(worker.messages, data, eofs);
    }
    assert multiset(worker.deleted) == multiset(deleted) + multiset(worker.messages);
  }
}
