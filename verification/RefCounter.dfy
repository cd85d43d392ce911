/** RefCounter: runs a callback when the count becomes positive and another when it stops being so. */
module RefCounting {
  import opened Lexical

  /** The fields, and the callbacks run so far: true for onActive, false for onPassive. */
  datatype Counter = Counter(value: int, running: bool, switches: seq<bool>)

  const IDLE := Counter(0, false, [])

  function Up(c: Counter): Counter {
    if c.value + 1 > 0 && !c.running then Counter(c.value + 1, true, c.switches + [true])
    else c.(value := c.value + 1)
  }

  function Down(c: Counter): Counter {
    if c.value - 1 <= 0 && c.running then Counter(c.value - 1, false, c.switches + [false])
    else c.(value := c.value - 1)
  }

  /** Running exactly while the count is positive, and the callbacks alternate from onActive on. */
  ghost predicate Consistent(c: Counter) {
    && (c.running <==> c.value > 0)
    && (forall i | 0 <= i < |c.switches| :: c.switches[i] == (i % 2 == 0))
    && (c.running <==> |c.switches| % 2 == 1)
  }

  /** true increments, false decrements. */
  function Run(steps: seq<bool>): Counter {
    if steps == [] then IDLE
    else if Last(steps) then Up(Run(Init(steps)))
    else Down(Run(Init(steps)))
  }

  function Balance(steps: seq<bool>): int {
    if steps == [] then 0 else Balance(Init(steps)) + if Last(steps) then 1 else -1
  }

  /** After any increments and decrements, below zero included. */
  lemma {:induction false} RunConsistent(steps: seq<bool>)
    ensures Consistent(Run(steps)) && Run(steps).value == Balance(steps)
    decreases |steps|
  {
    if steps == [] {
    } else {
      RunConsistent(Init(steps));
    }
  }

  class RefCounter {
    var currentValue: int
    var isRunning: bool
    var switches: seq<bool>

    ghost function Abstract(): Counter
      reads this
    {
      Counter(currentValue, isRunning, switches)
    }

    constructor ()
      ensures Abstract() == IDLE
    {
      currentValue, isRunning, switches := 0, false, [];
    }

    method Increment()
      modifies this
      ensures Abstract() == Up(old(Abstract()))
    {
      currentValue := currentValue + 1;
      if currentValue > 0 && !isRunning {
        isRunning := true;
        switches := switches + [true];
      }
    }

    method Decrement()
      modifies this
      ensures Abstract() == Down(old(Abstract()))
    {
      currentValue := currentValue - 1;
      if currentValue <= 0 && isRunning {
        isRunning := false;
        switches := switches + [false];
      }
    }
  }
}
