/** PollForEvent: a time-out split into doubling slices, and the life of the events polled. */
module AdminPoll {
  import opened Lexical

  datatype Event = Event(id: nat, kind: int)

  const NO_EVENT := 0

  /** The type of a missing event is that of no event. */
  function KindOf(e: Option<Event>): int {
    if e.Some? then e.value.kind else NO_EVENT
  }

  /** An event as the library frees it: freeing null does nothing. */
  function Held(e: Option<Event>): seq<Event> {
    if e.Some? then [e.value] else []
  }

  /** The events among what the first n polls found. */
  function Polled(arrivals: nat -> Option<Event>, n: nat): seq<Event> {
    if n == 0 then [] else Polled(arrivals, n - 1) + Held(arrivals(n - 1))
  }

  function Pow2(n: nat): (p: nat)
    ensures p >= 1
  {
    if n == 0 then 1 else 2 * Pow2(n - 1)
  }

  /** The whole part of the base-two logarithm. */
  function Log2(n: nat): nat {
    if n < 2 then 0 else 1 + Log2(n / 2)
  }

  lemma {:induction false} Log2Bounds(n: nat)
    requires n >= 1
    ensures Pow2(Log2(n)) <= n < Pow2(Log2(n) + 1)
  {
    if n < 2 {
    } else {
      Log2Bounds(n / 2);
    }
  }

  function Attempts(timeout: int): (a: nat)
    ensures a >= 1
  {
    if timeout > 2000 then Log2(timeout / 1000) + 1 else 1
  }

  function FirstSlice(timeout: int, attempts: nat): int
    requires attempts >= 1
  {
    if timeout > 2000 then timeout / (Pow2(attempts) - 1) else timeout
  }

  /** Each slice is twice the one before. */
  function Slice(first: int, k: nat): int {
    if k == 0 then first else 2 * Slice(first, k - 1)
  }

  function Slices(first: int, n: nat): seq<int> {
    if n == 0 then [] else Slices(first, n - 1) + [Slice(first, n - 1)]
  }

  function Sum(s: seq<int>): int {
    if s == [] then 0 else Sum(Init(s)) + Last(s)
  }

  ghost predicate PolledFor(arrivals: nat -> Option<Event>, kind: int, timeout: int,
                            response: Option<Event>, slices: seq<int>, destroyed: seq<Event>)
  {
    // what is waited for, and how long
    && (var attempts := Attempts(timeout);
        1 <= |slices| <= attempts && slices == Slices(FirstSlice(timeout, attempts), |slices|))
    // it stops at the first event of the right kind, or when the attempts are used
    && (forall k: nat | k < |slices| - 1 :: KindOf(arrivals(k)) != kind)
    && (|slices| < Attempts(timeout) ==> KindOf(arrivals(|slices| - 1)) == kind)
    // what comes back
    && response == (if KindOf(arrivals(|slices| - 1)) == kind then arrivals(|slices| - 1) else None)
    // every polled event is destroyed, in order, or returned
    && Polled(arrivals, |slices|) == destroyed + Held(response)
  }

  method PollForEvent(arrivals: nat -> Option<Event>, kind: int, timeout: int)
    returns (response: Option<Event>, slices: seq<int>, destroyed: seq<Event>)
    ensures PolledFor(arrivals, kind, timeout, response, slices, destroyed)
  {
    var attempts, expTimeout := 1, timeout;
    if timeout > 2000 {
      attempts := Log2(timeout / 1000) + 1;
      expTimeout := timeout / (Pow2(attempts) - 1);
    }
    ghost var first, n := expTimeout, 0;
    response, slices, destroyed := None, [], [];
    while true
      invariant attempts == Attempts(timeout) - n && n < Attempts(timeout)
      invariant first == FirstSlice(timeout, Attempts(timeout))
      invariant |slices| == n && slices == Slices(first, n) && expTimeout == Slice(first, n)
      invariant forall k: nat | k < n :: KindOf(arrivals(k)) != kind
      invariant response == if n == 0 then None else arrivals(n - 1)
      invariant Polled(arrivals, n) == destroyed + Held(response)
      decreases attempts
    {
      destroyed := destroyed + Held(response);
      response := arrivals(|slices|);
      slices := slices + [expTimeout];
      attempts := attempts - 1;
      expTimeout := 2 * expTimeout;
      n := n + 1;
      if !(KindOf(response) != kind && attempts > 0) {
        break;
      }
    }
    if response == None || KindOf(response) != kind {
      destroyed := destroyed + Held(response);
      response := None;
    }
  }

  /** How many of the first n polls found an event. */
  function Often(arrivals: nat -> Option<Event>, n: nat, e: Event): nat {
    if n == 0 then 0 else Often(arrivals, n - 1, e) + if arrivals(n - 1) == Some(e) then 1 else 0
  }

  /** Every event is destroyed or returned as often as it was found. */
  ghost predicate Accounted(arrivals: nat -> Option<Event>, n: nat, destroyed: seq<Event>, response: Option<Event>) {
    forall e :: multiset(destroyed)[e] + (if response == Some(e) then 1 else 0) == Often(arrivals, n, e)
  }

  ghost predicate Doubling(slices: seq<int>) {
    forall k | 0 < k < |slices| :: slices[k] == 2 * slices[k - 1]
  }

  lemma EventsAccounted(arrivals: nat -> Option<Event>, n: nat, destroyed: seq<Event>, response: Option<Event>)
    requires Polled(arrivals, n) == destroyed + Held(response)
    ensures Accounted(arrivals, n, destroyed, response)
  {
    forall e
      ensures multiset(destroyed)[e] + (if response == Some(e) then 1 else 0) == Often(arrivals, n, e)
    {
      PolledOften(arrivals, n, e);
    }
  }

  lemma {:induction false} PolledOften(arrivals: nat -> Option<Event>, n: nat, e: Event)
    ensures multiset(Polled(arrivals, n))[e] == Often(arrivals, n, e)
  {
    if n == 0 {
    } else {
      PolledOften(arrivals, n - 1, e);
    }
  }

  lemma {:induction false} SlicesAt(first: int, n: nat, k: nat)
    requires k < n
    ensures |Slices(first, n)| == n && Slices(first, n)[k] == Slice(first, k)
  {
    if n == 1 {
    } else if k < n - 1 {
      SlicesAt(first, n - 1, k);
    } else {
      SlicesAt(first, n - 1, 0);
    }
  }

  lemma SlicesDouble(first: int, n: nat)
    ensures Doubling(Slices(first, n))
  {
    hide Slices;
    SliceSum(first, n);
    forall k | 0 < k < n
      ensures Slices(first, n)[k] == 2 * Slices(first, n)[k - 1]
    {
      SlicesAt(first, n, k);
      SlicesAt(first, n, k - 1);
    }
  }

  lemma {:induction false} SliceSum(first: int, n: nat)
    ensures |Slices(first, n)| == n && Sum(Slices(first, n)) == Slice(first, n) - first
  {
    if n == 0 {
    } else {
      SliceSum(first, n - 1);
      assert Init(Slices(first, n)) == Slices(first, n - 1);
    }
  }

  /** What such a poll means for the events: each event found is destroyed or returned, as often as it was
      found; the response is the last event found, of the kind asked for, and without one no event of that
      kind was found. */
  lemma PollMeans(arrivals: nat -> Option<Event>, kind: int, timeout: int,
                  response: Option<Event>, slices: seq<int>, destroyed: seq<Event>)
    requires PolledFor(arrivals, kind, timeout, response, slices, destroyed)
    ensures slices != [] && Accounted(arrivals, |slices|, destroyed, response)
    ensures response.Some? ==> response == arrivals(|slices| - 1) && response.value.kind == kind
    ensures response.None? ==> forall k: nat | k < |slices| && arrivals(k).Some? :: arrivals(k).value.kind != kind
    // only the right event ends the polling early, or no event where type 0 is asked for
    ensures |slices| < Attempts(timeout) ==> response.Some? || (kind == 0 && arrivals(|slices| - 1) == None)
    ensures kind == 0 ==> forall k: nat | k < |slices| - 1 :: arrivals(k).Some?
  {
    hide Polled, Accounted, Slices, FirstSlice, Attempts, Held;
    EventsAccounted(arrivals, |slices|, destroyed, response);
  }

  /** What it means for the slices: a time-out of at most two seconds is one slice; otherwise the first n
      slices double, and the sum of those used stays within the time-out. */
  lemma SlicesMean(timeout: int, n: nat)
    requires 1 <= n <= Attempts(timeout)
    ensures var slices := Slices(FirstSlice(timeout, Attempts(timeout)), n);
            Doubling(slices) && (timeout <= 2000 ==> slices == [timeout]) && (timeout >= 0 ==> Sum(slices) <= timeout)
  {
    hide Doubling, Sum, Pow2, Log2;
    SlicesDouble(FirstSlice(timeout, Attempts(timeout)), n);
    if timeout <= 2000 {
      assert Slices(timeout, 1) == [timeout];
    }
    if timeout >= 0 {
      SlicesFillTimeout(timeout, Attempts(timeout), n);
    }
  }

  lemma {:induction false} SliceGrows(first: nat, m: nat, n: nat)
    requires m <= n
    ensures 0 <= Slice(first, m) <= Slice(first, n)
    decreases n
  {
    if m < n {
      SliceGrows(first, m, n - 1);
    } else if n > 0 {
      SliceGrows(first, n - 1, n - 1);
    }
  }

  lemma Double(x: int, p: int)
    ensures 2 * (x * p) == x * (2 * p)
  {
  }

  lemma {:induction false} SliceIsPower(first: int, k: nat)
    ensures Slice(first, k) == first * Pow2(k)
  {
    if k == 0 {
    } else {
      SliceIsPower(first, k - 1);
      Double(first, Pow2(k - 1));
    }
  }

  lemma {:induction false} Pow2Grows(m: nat, n: nat)
    requires m <= n
    ensures Pow2(m) <= Pow2(n)
  {
    if m == n {
    } else {
      Pow2Grows(m, n - 1);
    }
  }

  /** The quotient, taken as often as the divisor and once more. */
  lemma Quotient(t: nat, q: nat)
    requires q >= 1
    ensures t / q >= 0 && (t / q) * (q + 1) - t / q <= t < (t / q) * (q + 1) - t / q + q
  {
    var x := t / q;
    assert x * (q + 1) == x * q + x;
  }

  lemma QuotientAtLeast(t: nat, q: nat, x: nat)
    requires q >= 1 && x * q <= t
    ensures t / q >= x
  {
    var y := t / q;
    assert y < x ==> (y + 1) * q <= x * q;
    assert (y + 1) * q == y * q + q;
  }

  lemma QuotientBelow(t: nat, q: nat, x: nat)
    requires q >= 1 && t < x * q
    ensures t / q < x
  {
    var y := t / q;
    assert y >= x ==> y * q >= x * q;
  }

  /** However many slices are used, they stay within the time-out, and all of them together fall short
      of it by less than 2 ^ attempts - 1. This holds also should the rounding of the logarithm lose
      attempts. */
  lemma SlicesFillTimeout(timeout: nat, attempts: nat, n: nat)
    requires 1 <= attempts <= Attempts(timeout) && n <= attempts
    ensures Sum(Slices(FirstSlice(timeout, attempts), n)) <= timeout
    ensures timeout - Sum(Slices(FirstSlice(timeout, attempts), attempts)) < Pow2(attempts) - 1
  {
    hide Log2, Slices, Sum;
    var first, p := FirstSlice(timeout, attempts), Pow2(attempts);
    Pow2Grows(1, attempts);
    Quotient(timeout, p - 1);
    SliceSum(first, n);
    SliceSum(first, attempts);
    SliceGrows(first, n, attempts);
    SliceIsPower(first, attempts);
  }

  /** Above two seconds no slice is shorter than half a second. */
  lemma FirstSliceIsLong(timeout: nat, attempts: nat)
    requires timeout > 2000 && 1 <= attempts <= Attempts(timeout)
    ensures FirstSlice(timeout, attempts) >= 500
  {
    Log2Bounds(timeout / 1000);
    Pow2Grows(attempts - 1, Attempts(timeout) - 1);
    QuotientAtLeast(timeout, Pow2(attempts) - 1, 500);
  }

  /** With the exact logarithm the first slice is at most a third over a second. */
  lemma FirstSliceIsShort(timeout: nat)
    requires timeout > 2000
    ensures FirstSlice(timeout, Attempts(timeout)) <= 1333
  {
    Log2Bounds(timeout / 1000);
    Pow2Grows(2, Attempts(timeout));
    QuotientBelow(timeout, Pow2(Attempts(timeout)) - 1, 1334);
  }
}
