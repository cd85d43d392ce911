/** writev of the producer stream: produces chunks one after the other and, when the local queue is
    full, schedules itself again on the chunks that are left. */
module StreamWriter {
  import opened Lexical

  datatype Message = Message(topic: string, partition: Option<int>, value: seq<bv8>, key: Option<seq<bv8>>,
                             timestamp: Option<int>, token: Option<int>, headers: seq<(string, string)>)

  /** A buffer, or an object that already names its topic and the rest. */
  datatype Chunk = Buffer(value: seq<bv8>) | Object(message: Message)

  function MessageOf(topic: string, chunk: Chunk): Message {
    match chunk
    case Buffer(value) => Message(topic, None, value, None, None, None, [])
    case Object(message) => message
  }

  function Messages(topic: string, chunks: seq<Chunk>): (r: seq<Message>)
    ensures |r| == |chunks|
  {
    seq(|chunks|, i requires 0 <= i < |chunks| => MessageOf(topic, chunks[i]))
  }

  /** A buffer is produced to the stream's topic with nothing else; an object as it says. */
  lemma MessagesAre(topic: string, chunk: Chunk)
    ensures chunk.Buffer? ==>
              var m := MessageOf(topic, chunk);
              && m.topic == topic && m.value == chunk.value
              && m.partition == None && m.key == None && m.timestamp == None && m.token == None && m.headers == []
    ensures chunk.Object? ==> MessageOf(topic, chunk) == chunk.message
  {
  }

  /** What a call of producer.produce does: return, throw ERR__QUEUE_FULL, or throw something else. */
  datatype Outcome = Accepted | QueueFull | Fatal(error: int)

  type Producer = nat -> Outcome

  /** From this call on the queue is never full again. */
  ghost predicate Bounded(produce: Producer, bound: nat) {
    forall n: nat | n >= bound :: produce(n) != QueueFull
  }

  /** How writing ends, and how many chunks were not accepted. */
  datatype End = Complete | Failed(error: int, left: nat)

  /** The simple form: offer the same chunk until it is taken, then the next. */
  ghost function EndOf(produce: Producer, bound: nat, n: nat, left: nat): (r: End)
    requires Bounded(produce, bound)
    ensures r.Failed? ==> 0 < r.left <= left
    decreases left, bound - n
  {
    if left == 0 then Complete
    else match produce(n)
      case Accepted => EndOf(produce, bound, n + 1, left - 1)
      case QueueFull => EndOf(produce, bound, n + 1, left)
      case Fatal(e) => Failed(e, left)
  }

  function CountAccepted(produce: Producer, lo: nat, hi: nat): nat
    requires lo <= hi
  {
    if lo == hi then 0 else CountAccepted(produce, lo, hi - 1) + if produce(hi - 1).Accepted? then 1 else 0
  }

  ghost predicate NoFatal(produce: Producer, lo: nat, hi: nat) {
    forall m | lo <= m < hi :: !produce(m).Fatal?
  }

  lemma {:induction false} CountFirst(produce: Producer, lo: nat, hi: nat)
    requires lo < hi
    ensures CountAccepted(produce, lo, hi)
            == (if produce(lo).Accepted? then 1 else 0) + CountAccepted(produce, lo + 1, hi)
    decreases hi
  {
    if hi == lo + 1 {
    } else {
      CountFirst(produce, lo, hi - 1);
    }
  }

  /** Writing fails with the first fatal error, and is complete exactly when every chunk was accepted
      before one. */
  lemma {:induction false} EndMeaning(produce: Producer, bound: nat, n: nat, left: nat) returns (m: nat)
    requires Bounded(produce, bound)
    ensures n <= m && NoFatal(produce, n, m)
    ensures match EndOf(produce, bound, n, left)
            case Complete => CountAccepted(produce, n, m) == left
            case Failed(e, l) => produce(m) == Fatal(e) && CountAccepted(produce, n, m) == left - l
    decreases left, bound - n
  {
    m := n;
    if left > 0 && !produce(n).Fatal? {
      m := EndMeaning(produce, bound, n + 1, if produce(n).Accepted? then left - 1 else left);
      CountFirst(produce, n, m);
    }
  }

  /** What writing the chunks to an end leaves: the accepted messages are a prefix, and the callback
      has fired once, with null or with the error; for no chunks it never fires. */
  ghost predicate Wrote(topic: string, chunks: seq<Chunk>, end: End, accepted: seq<Message>, accepted': seq<Message>,
                        callbacks: seq<Option<int>>, callbacks': seq<Option<int>>)
  {
    match end
    case Complete => accepted' == accepted + Messages(topic, chunks)
                     && callbacks' == callbacks + if chunks == [] then [] else [None]
    case Failed(e, left) => left <= |chunks|
                            && accepted' == accepted + Messages(topic, chunks[..|chunks| - left])
                            && callbacks' == callbacks + [Some(e)]
  }

  /** Up to call m nothing but full queues came between the accepted chunks; then all were accepted, or call m
      failed with an error. The messages of the chunks accepted follow what was accepted before, and the
      callback has had null or the error. */
  ghost predicate Written(topic: string, chunks: seq<Chunk>, produce: Producer, n: nat, m: nat,
                          accepted: seq<Message>, accepted': seq<Message>,
                          callbacks: seq<Option<int>>, callbacks': seq<Option<int>>)
  {
    && n <= m && NoFatal(produce, n, m)
    && var k := CountAccepted(produce, n, m);
       && k <= |chunks| && |accepted'| == |accepted| + k && accepted'[..|accepted|] == accepted
       && (forall i | 0 <= i < k :: accepted'[|accepted| + i] == MessageOf(topic, chunks[i]))
       && if k == |chunks| then callbacks' == callbacks + if chunks == [] then [] else [None]
          else produce(m).Fatal? && callbacks' == callbacks + [Some(produce(m).error)]
  }

  lemma WroteIsWritten(topic: string, chunks: seq<Chunk>, produce: Producer, bound: nat, n: nat,
                       accepted: seq<Message>, accepted': seq<Message>,
                       callbacks: seq<Option<int>>, callbacks': seq<Option<int>>)
    requires Bounded(produce, bound)
    requires Wrote(topic, chunks, EndOf(produce, bound, n, |chunks|), accepted, accepted', callbacks, callbacks')
    ensures exists m :: Written(topic, chunks, produce, n, m, accepted, accepted', callbacks, callbacks')
  {
    hide EndOf, CountAccepted, NoFatal;
    var m := EndMeaning(produce, bound, n, |chunks|);
    EndLeaves(produce, bound, n, |chunks|);
    assert Written(topic, chunks, produce, n, m, accepted, accepted', callbacks, callbacks');
  }

  lemma EndLeaves(produce: Producer, bound: nat, n: nat, left: nat)
    requires Bounded(produce, bound)
    ensures var end := EndOf(produce, bound, n, left); end.Failed? ==> 0 < end.left <= left
  {
  }

  lemma WroteLater(topic: string, chunks: seq<Chunk>, k: nat, end: End, accepted: seq<Message>, accepted': seq<Message>,
                   callbacks: seq<Option<int>>, callbacks': seq<Option<int>>)
    requires k < |chunks|
    requires Wrote(topic, chunks[k..], end, accepted + Messages(topic, chunks[..k]), accepted', callbacks, callbacks')
    ensures Wrote(topic, chunks, end, accepted, accepted', callbacks, callbacks')
  {
    var j := if end.Complete? then |chunks| - k else |chunks| - k - end.left;
    MessagesSplit(topic, chunks, k, j);
    assert chunks[k..][..|chunks| - k] == chunks[k..] && chunks[..|chunks|] == chunks;
    Associate(accepted, Messages(topic, chunks[..k]), Messages(topic, chunks[k..][..j]));
  }

  class Stream {
    const topic: string
    const produce: Producer
    var calls: nat                         // how often produce was called
    var accepted: seq<Message>             // what it accepted
    var callbacks: seq<Option<int>>        // the calls of the user's callback; None is null
    var polls: nat

    constructor (topic: string, produce: Producer)
      ensures this.topic == topic && this.produce == produce
      ensures calls == 0 && accepted == [] && callbacks == [] && polls == 0
    {
      this.topic, this.produce := topic, produce;
      calls, accepted, callbacks, polls := 0, [], [], 0;
    }

    /** One call of writev; the chunks it returns are those a timer will write again. */
    method Writev(chunks: seq<Chunk>, ghost bound: nat) returns (rest: seq<Chunk>)
      requires Bounded(produce, bound)
      modifies this
      ensures |rest| <= |chunks| && rest == chunks[|chunks| - |rest|..]
      ensures var end := old(EndOf(produce, bound, calls, |chunks|));
              if rest != [] then
                && accepted == old(accepted) + Messages(topic, chunks[..|chunks| - |rest|])
                && callbacks == old(callbacks) && polls == old(polls) + 1
                && old(calls) < calls <= bound && end == EndOf(produce, bound, calls, |rest|)
              else
                polls == old(polls) && Wrote(topic, chunks, end, old(accepted), accepted, old(callbacks), callbacks)
    {
      var doneCount := 0;
      var err: Option<int> := None;
      for i := 0 to |chunks|
        invariant doneCount == i && err == None
        invariant accepted == old(accepted) + Messages(topic, chunks[..i])
        invariant callbacks == old(callbacks) + if i > 0 && i == |chunks| then [None] else []
        invariant polls == old(polls) && old(calls) <= calls
        invariant EndOf(produce, bound, calls, |chunks| - i) == old(EndOf(produce, bound, calls, |chunks|))
      {
        var outcome := produce(calls);
        calls := calls + 1;
        match outcome
        case Accepted =>
          MessagesStep(topic, chunks, i);
          accepted := accepted + [MessageOf(topic, chunks[i])];
          doneCount := doneCount + 1;
          if doneCount == |chunks| {
            callbacks := callbacks + [err];
          }
        case QueueFull =>
          polls := polls + 1;
          return chunks[i..];
        case Fatal(e) =>
          callbacks := callbacks + [Some(e)];
          return [];
      }
      assert chunks[..|chunks|] == chunks;
      return [];
    }

    /** writev and then every retry that its timers start. */
    method WriteAll(chunks: seq<Chunk>, ghost bound: nat)
      requires Bounded(produce, bound)
      modifies this
      ensures Wrote(topic, chunks, old(EndOf(produce, bound, calls, |chunks|)),
                    old(accepted), accepted, old(callbacks), callbacks)
      ensures |callbacks| == |old(callbacks)| + if chunks == [] then 0 else 1
      ensures exists m ::
                Written(topic, chunks, produce, old(calls), m, old(accepted), accepted, old(callbacks), callbacks)
    {
      ghost var before := calls;
      var rest := Writev(chunks, bound);
      while rest != []
        invariant |rest| <= |chunks| && rest == chunks[|chunks| - |rest|..]
        invariant rest != [] ==>
                    && accepted == old(accepted) + Messages(topic, chunks[..|chunks| - |rest|])
                    && callbacks == old(callbacks)
                    && EndOf(produce, bound, calls, |rest|) == old(EndOf(produce, bound, calls, |chunks|))
        invariant rest == [] ==> Wrote(topic, chunks, old(EndOf(produce, bound, calls, |chunks|)),
                                       old(accepted), accepted, old(callbacks), callbacks)
        decreases rest != [], bound - calls
      {
        hide Wrote, EndOf, Messages;
        ghost var k := |chunks| - |rest|;
        var next := Writev(rest, bound);
        if next == [] {
          WroteLater(topic, chunks, k, old(EndOf(produce, bound, calls, |chunks|)),
                     old(accepted), accepted, old(callbacks), callbacks);
        } else {
          MessagesSplit(topic, chunks, k, |rest| - |next|);
          Associate(old(accepted), Messages(topic, chunks[..k]), Messages(topic, rest[..|rest| - |next|]));
        }
        rest := next;
      }
      WroteIsWritten(topic, chunks, produce, bound, before, old(accepted), accepted, old(callbacks), callbacks);
    }
  }

  lemma MessagesStep(topic: string, chunks: seq<Chunk>, i: nat)
    requires i < |chunks|
    ensures Messages(topic, chunks[..i + 1]) == Messages(topic, chunks[..i]) + [MessageOf(topic, chunks[i])]
  {
  }

  lemma MessagesSplit(topic: string, chunks: seq<Chunk>, k: nat, j: nat)
    requires k + j <= |chunks|
    ensures Messages(topic, chunks[..k]) + Messages(topic, chunks[k..][..j]) == Messages(topic, chunks[..k + j])
  {
  }
}
