/** The assignment list of KafkaConsumer: five operations edit it incrementally and own the
    TopicPartition objects in it by hand. */
module Assignments {
  import opened Lexical

  /** A TopicPartition object; id tells objects with the same key apart. */
  datatype TopicPartition = TopicPartition(id: nat, topic: string, partition: int)

  datatype Key = Key(topic: string, partition: int)

  function KeyOf(p: TopicPartition): Key {
    Key(p.topic, p.partition)
  }

  function Keys(ps: seq<TopicPartition>): (r: seq<Key>)
    ensures |r| == |ps|
  {
    seq(|ps|, i requires 0 <= i < |ps| => KeyOf(ps[i]))
  }

  /** Connected and Closing have a client; IsConnected holds only in the first, IsClosing only in
      the second. */
  datatype Link = Connected | Closing | Disconnected

  /** A call, the link it meets, and whether librdkafka succeeds. The objects are handed over by
      the caller, or by librdkafka on a successful Refresh. */
  datatype Op =
    | Assign(link: Link, given: seq<TopicPartition>, ok: bool)
    | Unassign(link: Link, ok: bool)
    | IncrementalAssign(link: Link, given: seq<TopicPartition>, ok: bool)
    | IncrementalUnassign(link: Link, given: seq<TopicPartition>, ok: bool)
    | Refresh(link: Link, given: seq<TopicPartition>, ok: bool)

  function HandedOver(op: Op): seq<TopicPartition> {
    match op
    case Unassign(_, _) => []
    case Refresh(link, given, ok) => if link == Connected && ok then given else []
    case _ => op.given
  }

  /** Where the objects handed over so far are: in a slot of m_partitions, destroyed, or dropped
      by an early return. */
  datatype Ledger = Ledger(held: seq<TopicPartition>, destroyed: seq<TopicPartition>, dropped: seq<TopicPartition>)

  /** The list without its first entry with this key, and that entry. */
  function RemoveFirst(held: seq<TopicPartition>, key: Key): (seq<TopicPartition>, seq<TopicPartition>) {
    if held == [] then ([], [])
    else if KeyOf(held[0]) == key then (held[1..], [held[0]])
    else
      var (kept, removed) := RemoveFirst(held[1..], key);
      ([held[0]] + kept, removed)
  }

  function RemoveAll(held: seq<TopicPartition>, given: seq<TopicPartition>): (seq<TopicPartition>, seq<TopicPartition>)
    decreases |given|
  {
    if given == [] then (held, [])
    else
      var (kept, removed) := RemoveAll(held, Init(given));
      var (kept', removed') := RemoveFirst(kept, KeyOf(Last(given)));
      (kept', removed + removed')
  }

  function Apply(s: Ledger, op: Op): Ledger {
    match op
    case Assign(link, given, ok) =>
      if link != Connected then s.(dropped := s.dropped + given)
      else if ok then s.(held := given, destroyed := s.destroyed + s.held)
      else s.(destroyed := s.destroyed + given)
    case Unassign(link, ok) =>
      if link == Disconnected || !ok then s else s.(held := [], destroyed := s.destroyed + s.held)
    case IncrementalAssign(link, given, ok) =>
      if link != Connected then s.(dropped := s.dropped + given)
      else if ok then s.(held := s.held + given)
      else s.(destroyed := s.destroyed + given)
    case IncrementalUnassign(link, given, ok) =>
      if link == Disconnected then s.(dropped := s.dropped + given)
      else
        var (kept, removed) := if ok then RemoveAll(s.held, given) else (s.held, []);
        s.(held := kept, destroyed := s.destroyed + removed + given)
    case Refresh(link, given, ok) =>
      if link != Connected || !ok then s else s.(held := given, destroyed := s.destroyed + s.held)
  }

  function Run(s: Ledger, ops: seq<Op>): Ledger {
    if ops == [] then s else Apply(Run(s, Init(ops)), Last(ops))
  }

  function AllHandedOver(ops: seq<Op>): seq<TopicPartition> {
    if ops == [] then [] else AllHandedOver(Init(ops)) + HandedOver(Last(ops))
  }

  // ---------------------------------------------------------------------------------------
  // Ownership

  lemma {:induction false} RemoveFirstKeepsAll(held: seq<TopicPartition>, key: Key)
    ensures var (kept, removed) := RemoveFirst(held, key); multiset(kept) + multiset(removed) == multiset(held)
    decreases |held|
  {
    if held == [] {
    } else {
      assert held == [held[0]] + held[1..];
      RemoveFirstKeepsAll(held[1..], key);
    }
  }

  lemma {:induction false} RemoveAllKeepsAll(held: seq<TopicPartition>, given: seq<TopicPartition>)
    ensures var (kept, removed) := RemoveAll(held, given); multiset(kept) + multiset(removed) == multiset(held)
    decreases |given|
  {
    if given == [] {
    } else {
      RemoveAllKeepsAll(held, Init(given));
      RemoveFirstKeepsAll(RemoveAll(held, Init(given)).0, KeyOf(Last(given)));
    }
  }

  /** All objects in the ledger. */
  ghost function Everything(s: Ledger): multiset<TopicPartition> {
    multiset(s.held) + multiset(s.destroyed) + multiset(s.dropped)
  }

  lemma StepConserves(s: Ledger, op: Op)
    ensures Everything(Apply(s, op)) == Everything(s) + multiset(HandedOver(op))
  {
    hide RemoveAll;
    match op
    case Assign(_, _, _) => AssignConserves(s, op);
    case Unassign(_, _) => MultisetOfSum(s.destroyed, s.held);
    case IncrementalAssign(_, _, _) => AssignConserves(s, op);
    case IncrementalUnassign(_, given, _) => UnassignConserves(s, op);
    case Refresh(_, given, _) => MultisetOfSum(s.destroyed, s.held);
  }

  lemma AssignConserves(s: Ledger, op: Op)
    requires op.Assign? || op.IncrementalAssign?
    ensures Everything(Apply(s, op)) == Everything(s) + multiset(op.given)
  {
    hide RemoveAll;
    MultisetOfSum(s.destroyed, s.held);
    MultisetOfSum(s.held, op.given);
    MultisetOfSum(s.destroyed, op.given);
    MultisetOfSum(s.dropped, op.given);
  }

  lemma UnassignConserves(s: Ledger, op: Op)
    requires op.IncrementalUnassign?
    ensures Everything(Apply(s, op)) == Everything(s) + multiset(op.given)
  {
    hide RemoveAll;
    if op.link == Disconnected {
      MultisetOfSum(s.dropped, op.given);
    } else {
      var (kept, removed) := if op.ok then RemoveAll(s.held, op.given) else (s.held, []);
      RemoveAllKeepsAll(s.held, op.given);
      MultisetOfSum(s.destroyed, removed);
      MultisetOfSum(s.destroyed + removed, op.given);
    }
  }

  lemma MultisetOfSum<T>(a: seq<T>, b: seq<T>)
    ensures multiset(a + b) == multiset(a) + multiset(b)
  {
  }

  const NOTHING := Ledger([], [], [])

  lemma {:induction false} RunConserves(ops: seq<Op>)
    ensures Everything(Run(NOTHING, ops)) == multiset(AllHandedOver(ops))
    decreases |ops|
  {
    if ops == [] {
    } else {
      RunConserves(Init(ops));
      StepConserves(Run(NOTHING, Init(ops)), Last(ops));
    }
  }

  /** The early return for a missing connection drops the list that was handed over. */
  predicate Drops(op: Op) {
    match op
    case Assign(link, given, _) => link != Connected && given != []
    case IncrementalAssign(link, given, _) => link != Connected && given != []
    case IncrementalUnassign(link, given, _) => link == Disconnected && given != []
    case _ => false
  }

  lemma {:induction false} NothingDropped(ops: seq<Op>)
    ensures Run(NOTHING, ops).dropped == [] <==> forall op | op in ops :: !Drops(op)
    decreases |ops|
  {
    if ops == [] {
    } else {
      NothingDropped(Init(ops));
      StepDrops(Run(NOTHING, Init(ops)), Last(ops));
      assert ops == Init(ops) + [Last(ops)];
      assert forall op :: op in ops <==> op in Init(ops) || op == Last(ops);
    }
  }

  lemma StepDrops(s: Ledger, op: Op)
    ensures Apply(s, op).dropped == [] <==> s.dropped == [] && !Drops(op)
  {
    hide RemoveAll;
  }

  /** The object is in exactly one slot or was destroyed exactly once. */
  ghost predicate OwnedOnce(s: Ledger, p: TopicPartition) {
    multiset(s.held)[p] + multiset(s.destroyed)[p] == 1
  }

  /** After any calls, with librdkafka succeeding or failing, every object handed over is held in one
      slot or was destroyed once, if and only if no call with a list met a missing connection. */
  lemma OwnedOnceExactly(ops: seq<Op>)
    requires forall p | p in AllHandedOver(ops) :: multiset(AllHandedOver(ops))[p] == 1
    ensures (forall p | p in AllHandedOver(ops) :: OwnedOnce(Run(NOTHING, ops), p))
            <==> forall op | op in ops :: !Drops(op)
  {
    RunConserves(ops);
    NothingDropped(ops);
    var s, all := Run(NOTHING, ops), AllHandedOver(ops);
    forall p | p in all
      ensures OwnedOnce(s, p) <==> p !in s.dropped
    {
      assert Everything(s)[p] == 1;
    }
    if s.dropped != [] {
      var p := s.dropped[0];
      assert p in multiset(s.dropped) && p in Everything(s) && p in multiset(all);
      assert p in all && !OwnedOnce(s, p);
    }
  }

  /** No object is ever destroyed twice, or destroyed while in a slot, dropped lists or not. */
  lemma NeverTwice(ops: seq<Op>, p: TopicPartition)
    requires multiset(AllHandedOver(ops))[p] <= 1
    ensures var s := Run(NOTHING, ops); multiset(s.held)[p] + multiset(s.destroyed)[p] <= 1
  {
    RunConserves(ops);
    var s := Run(NOTHING, ops);
    assert Everything(s)[p] == multiset(s.held)[p] + multiset(s.destroyed)[p] + multiset(s.dropped)[p];
  }

  /** The failing family, at its smallest: one assign on a disconnected consumer. */
  lemma DroppedExample(p: TopicPartition)
    ensures var s := Run(NOTHING, [Assign(Disconnected, [p], true)]); s.dropped == [p] && !OwnedOnce(s, p)
  {
    var op := Assign(Disconnected, [p], true);
    assert Init([op]) == [] && Run(NOTHING, []) == NOTHING;
  }

  // ---------------------------------------------------------------------------------------
  // What incremental unassign removes

  /** The reference: one pass over the list with a budget of keys to remove. */
  ghost function Survivors(held: seq<TopicPartition>, budget: multiset<Key>): seq<TopicPartition> {
    if held == [] then []
    else
      var k := KeyOf(held[0]);
      if k in budget then Survivors(held[1..], budget - multiset{k})
      else [held[0]] + Survivors(held[1..], budget)
  }

  lemma {:induction false} RemoveFirstThenSurvivors(held: seq<TopicPartition>, key: Key, budget: multiset<Key>)
    ensures Survivors(RemoveFirst(held, key).0, budget) == Survivors(held, budget + multiset{key})
    decreases |held|
  {
    if held == [] {
    } else {
      var k, tail, more := KeyOf(held[0]), held[1..], budget + multiset{key};
      if k == key {
        assert more - multiset{k} == budget;
      } else {
        var kept := RemoveFirst(tail, key).0;
        assert ([held[0]] + kept)[1..] == kept;
        if k in budget {
          assert more - multiset{k} == (budget - multiset{k}) + multiset{key};
          RemoveFirstThenSurvivors(tail, key, budget - multiset{k});
        } else {
          RemoveFirstThenSurvivors(tail, key, budget);
        }
      }
    }
  }

  lemma KeysOfLast(given: seq<TopicPartition>)
    requires given != []
    ensures multiset(Keys(given)) == multiset(Keys(Init(given))) + multiset{KeyOf(Last(given))}
  {
    assert Keys(given) == Keys(Init(given)) + [KeyOf(Last(given))];
  }

  lemma KeysOfCons(p: TopicPartition, tail: seq<TopicPartition>)
    ensures multiset(Keys([p] + tail)) == multiset{KeyOf(p)} + multiset(Keys(tail))
  {
    assert Keys([p] + tail) == [KeyOf(p)] + Keys(tail);
  }

  lemma KeysOfSum(a: seq<TopicPartition>, b: seq<TopicPartition>)
    ensures multiset(Keys(a + b)) == multiset(Keys(a)) + multiset(Keys(b))
  {
    assert Keys(a + b) == Keys(a) + Keys(b);
  }

  lemma {:induction false} RemoveAllThenSurvivors(held: seq<TopicPartition>, given: seq<TopicPartition>,
                                                     budget: multiset<Key>)
    ensures Survivors(RemoveAll(held, given).0, budget) == Survivors(held, multiset(Keys(given)) + budget)
    decreases |given|
  {
    if given == [] {
      assert multiset(Keys(given)) + budget == budget;
    } else {
      var key, kept := KeyOf(Last(given)), RemoveAll(held, Init(given)).0;
      RemoveFirstThenSurvivors(kept, key, budget);
      RemoveAllThenSurvivors(held, Init(given), budget + multiset{key});
      KeysOfLast(given);
      var front := multiset(Keys(Init(given)));
      assert (front + multiset{key}) + budget == front + (budget + multiset{key});
    }
  }

  lemma {:induction false} SurvivorsOfEmptyBudget(held: seq<TopicPartition>)
    ensures Survivors(held, multiset{}) == held
    decreases |held|
  {
    if held == [] {
    } else {
      SurvivorsOfEmptyBudget(held[1..]);
    }
  }

  /** The nested loops are one pass with a budget: the order of the given keys does not matter. */
  lemma RemoveAllIsSurvivors(held: seq<TopicPartition>, given: seq<TopicPartition>)
    ensures RemoveAll(held, given).0 == Survivors(held, multiset(Keys(given)))
  {
    RemoveAllThenSurvivors(held, given, multiset{});
    SurvivorsOfEmptyBudget(RemoveAll(held, given).0);
    assert multiset(Keys(given)) + multiset{} == multiset(Keys(given));
  }

  /** s is t with some entries left out. */
  ghost predicate Subsequence<T>(s: seq<T>, t: seq<T>)
    decreases |t|
  {
    if t == [] then s == []
    else Subsequence(s, t[1..]) || (s != [] && s[0] == t[0] && Subsequence(s[1..], t[1..]))
  }

  lemma {:induction false} SurvivorsKeys(held: seq<TopicPartition>, budget: multiset<Key>)
    ensures multiset(Keys(Survivors(held, budget))) == multiset(Keys(held)) - budget
    ensures Subsequence(Survivors(held, budget), held)
    decreases |held|
  {
    if held != [] {
      hide Keys;
      var k, tail := KeyOf(held[0]), held[1..];
      assert held == [held[0]] + tail;
      KeysOfCons(held[0], tail);
      if k in budget {
        SurvivorsKeys(tail, budget - multiset{k});
      } else {
        SurvivorsKeys(tail, budget);
        var rest := Survivors(tail, budget);
        KeysOfCons(held[0], rest);
        assert ([held[0]] + rest)[1..] == rest;
      }
    } else {
      assert Keys([]) == [];
    }
  }

  /** Incremental unassign takes from the (topic, partition) multiset what it is given, as far as it
      is there, and the survivors keep their order. */
  lemma UnassignIsDifference(held: seq<TopicPartition>, given: seq<TopicPartition>)
    ensures multiset(Keys(RemoveAll(held, given).0)) == multiset(Keys(held)) - multiset(Keys(given))
    ensures Subsequence(RemoveAll(held, given).0, held)
  {
    RemoveAllIsSurvivors(held, given);
    SurvivorsKeys(held, multiset(Keys(given)));
  }

  /** The list is reduced by the keys given, keeping its order, and all that leaves it is destroyed, together
      with the objects given. */
  ghost predicate Reduced(held: seq<TopicPartition>, kept: seq<TopicPartition>, given: seq<TopicPartition>,
                          destroyed: seq<TopicPartition>, destroyed': seq<TopicPartition>)
  {
    && multiset(Keys(kept)) == multiset(Keys(held)) - multiset(Keys(given))
    && Subsequence(kept, held)
    && multiset(kept) + multiset(destroyed') == multiset(held) + multiset(destroyed) + multiset(given)
  }

  lemma UnassignReduces(held: seq<TopicPartition>, given: seq<TopicPartition>, destroyed: seq<TopicPartition>)
    ensures var (kept, removed) := RemoveAll(held, given);
            Reduced(held, kept, given, destroyed, destroyed + removed + given)
  {
    hide RemoveAll, Keys, Subsequence;
    var (kept, removed) := RemoveAll(held, given);
    UnassignIsDifference(held, given);
    RemoveAllKeepsAll(held, given);
    MultisetOfSum(destroyed, removed);
    MultisetOfSum(destroyed + removed, given);
  }

  /** Incremental assign and then unassign of the same keys restores the multiset. */
  lemma AssignThenUnassign(held: seq<TopicPartition>, given: seq<TopicPartition>, again: seq<TopicPartition>)
    requires multiset(Keys(given)) == multiset(Keys(again))
    ensures multiset(Keys(RemoveAll(held + given, again).0)) == multiset(Keys(held))
  {
    hide RemoveAll, Keys;
    UnassignIsDifference(held + given, again);
    KeysOfSum(held, given);
  }

  /** The key is the topic and the partition. */
  lemma KeysApart(p: TopicPartition, q: TopicPartition)
    ensures KeyOf(p) == KeyOf(q) <==> p.topic == q.topic && p.partition == q.partition
  {
  }

  // ---------------------------------------------------------------------------------------
  // The list against librdkafka's own assignment

  /** What librdkafka has assigned after a call, as a multiset of keys. It changes only when the call gets
      through to it and succeeds: it is replaced, emptied, added to, or reduced. */
  function Assigned(before: multiset<Key>, op: Op): multiset<Key> {
    match op
    case Assign(link, given, ok) => if link.Connected? && ok then multiset(Keys(given)) else before
    case Unassign(link, ok) => if (link.Connected? || link.Closing?) && ok then multiset{} else before
    case IncrementalAssign(link, given, ok) =>
      if link.Connected? && ok then before + multiset(Keys(given)) else before
    case IncrementalUnassign(link, given, ok) =>
      if (link.Connected? || link.Closing?) && ok then before - multiset(Keys(given)) else before
    case Refresh(link, given, ok) => if link.Connected? && ok then multiset(Keys(given)) else before
  }

  function AssignedAfter(ops: seq<Op>): multiset<Key> {
    if ops == [] then multiset{} else Assigned(AssignedAfter(Init(ops)), Last(ops))
  }

  lemma StepHolds(s: Ledger, op: Op)
    ensures multiset(Keys(Apply(s, op).held)) == Assigned(multiset(Keys(s.held)), op)
  {
    hide RemoveAll, Keys, Reduced, Subsequence;
    match op
    case IncrementalAssign(_, _, _) => IncrementalAssignHolds(s, op);
    case IncrementalUnassign(_, _, _) => IncrementalUnassignHolds(s, op);
    case _ => KeysOfNothing();
  }

  lemma IncrementalAssignHolds(s: Ledger, op: Op)
    requires op.IncrementalAssign?
    ensures multiset(Keys(Apply(s, op).held)) == Assigned(multiset(Keys(s.held)), op)
  {
    hide RemoveAll, Keys;
    KeysOfSum(s.held, op.given);
  }

  lemma IncrementalUnassignHolds(s: Ledger, op: Op)
    requires op.IncrementalUnassign?
    ensures multiset(Keys(Apply(s, op).held)) == Assigned(multiset(Keys(s.held)), op)
  {
    hide RemoveAll, Keys, Subsequence;
    UnassignIsDifference(s.held, op.given);
  }

  lemma KeysOfNothing()
    ensures multiset(Keys([])) == multiset{}
  {
    assert Keys([]) == [];
  }

  /** After any calls the list holds exactly what librdkafka has assigned. */
  lemma {:induction false} HoldsTheAssignment(ops: seq<Op>)
    ensures multiset(Keys(Run(NOTHING, ops).held)) == AssignedAfter(ops)
    decreases |ops|
  {
    hide Keys;
    if ops == [] {
      KeysOfNothing();
    } else {
      HoldsTheAssignment(Init(ops));
      StepHolds(Run(NOTHING, Init(ops)), Last(ops));
    }
  }

  // ---------------------------------------------------------------------------------------
  // The class

  class KafkaConsumer {
    var link: Link
    var partitions: seq<TopicPartition>    // m_partitions
    var partitionCnt: int                  // m_partition_cnt, taken to start at 0
    var destroyed: seq<TopicPartition>     // the objects freed so far
    ghost var dropped: seq<TopicPartition>

    ghost predicate Valid()
      reads this
    {
      partitionCnt == |partitions|
    }

    ghost function Abstract(): Ledger
      reads this
    {
      Ledger(partitions, destroyed, dropped)
    }

    constructor (link: Link)
      ensures Valid() && Abstract() == NOTHING && this.link == link
    {
      this.link := link;
      partitions, partitionCnt, destroyed, dropped := [], 0, [], [];
    }

    /** RdKafka::TopicPartition::destroy: frees every object of the list and clears it. */
    method Destroy(list: seq<TopicPartition>) returns (empty: seq<TopicPartition>)
      modifies this`destroyed
      ensures destroyed == old(destroyed) + list && empty == []
    {
      for i := 0 to |list|
        invariant destroyed == old(destroyed) + list[..i]
      {
        destroyed := destroyed + [list[i]];
      }
      return [];
    }

    method Assign(given: seq<TopicPartition>, ok: bool) returns (success: bool)
      requires Valid()
      modifies this
      ensures Valid() && link == old(link) && success == (link == Connected && ok)
      ensures Abstract() == Apply(old(Abstract()), Op.Assign(link, given, ok))
      ensures match link
              case Connected =>
                if ok then partitions == given && destroyed == old(destroyed) + old(partitions)
                else partitions == old(partitions) && destroyed == old(destroyed) + given
              case _ => partitions == old(partitions) && destroyed == old(destroyed)
    {
      var list := given;
      if link != Connected {
        dropped := dropped + given;
        return false;
      }
      if ok {
        partitionCnt := |list|;
        partitions, list := list, partitions;
      }
      list := Destroy(list);
      return ok;
    }

    method Unassign(ok: bool) returns (success: bool)
      requires Valid()
      modifies this
      ensures Valid() && link == old(link) && success == (link != Disconnected && ok)
      ensures Abstract() == Apply(old(Abstract()), Op.Unassign(link, ok))
      ensures if link != Disconnected && ok then partitions == [] && destroyed == old(destroyed) + old(partitions)
              else partitions == old(partitions) && destroyed == old(destroyed)
    {
      if link == Disconnected || !ok {
        return false;
      }
      partitions := Destroy(partitions);
      partitionCnt := 0;
      return true;
    }

    method IncrementalAssign(given: seq<TopicPartition>, ok: bool) returns (success: bool)
      requires Valid()
      modifies this
      ensures Valid() && link == old(link) && success == (link == Connected && ok)
      ensures Abstract() == Apply(old(Abstract()), Op.IncrementalAssign(link, given, ok))
      ensures match link
              case Connected =>
                if ok then partitions == old(partitions) + given && destroyed == old(destroyed)
                else partitions == old(partitions) && destroyed == old(destroyed) + given
              case _ => partitions == old(partitions) && destroyed == old(destroyed)
    {
      if link != Connected {
        dropped := dropped + given;
        return false;
      }
      if ok {
        partitionCnt := partitionCnt + |given|;
        partitions := partitions + given;
      } else {
        var _ := Destroy(given);
      }
      return ok;
    }

    /** The inner loop of IncrementalUnassign: erases the first slot with the key of p. */
    method EraseFirst(p: TopicPartition) returns (erased: seq<TopicPartition>)
      requires Valid()
      modifies this`partitions, this`partitionCnt
      ensures Valid() && (partitions, erased) == RemoveFirst(old(partitions), KeyOf(p))
    {
      var j := 0;
      ghost var (kept, _) := RemoveFirst(partitions, KeyOf(p));
      assert partitions[..0] == [] && partitions[0..] == partitions && [] + kept == kept;
      while j < |partitions|
        invariant j <= |partitions| && partitions == old(partitions) && Valid()
        invariant RemoveFirst(partitions, KeyOf(p)) == Prepend(partitions[..j], RemoveFirst(partitions[j..], KeyOf(p)))
      {
        if p.partition == partitions[j].partition && p.topic == partitions[j].topic {
          assert partitions[j..][1..] == partitions[j + 1..];
          erased := [partitions[j]];
          partitions := partitions[..j] + partitions[j + 1..];
          partitionCnt := partitionCnt - 1;
          return;
        }
        PrependStep(partitions, j, KeyOf(p));
        j := j + 1;
      }
      assert partitions[..j] + [] == partitions;
      return [];
    }

    method IncrementalUnassign(given: seq<TopicPartition>, ok: bool) returns (success: bool)
      requires Valid()
      modifies this
      ensures Valid() && link == old(link) && success == (link != Disconnected && ok)
      ensures Abstract() == Apply(old(Abstract()), Op.IncrementalUnassign(link, given, ok))
      ensures if link == Disconnected then partitions == old(partitions) && destroyed == old(destroyed)
              else if !ok then partitions == old(partitions) && destroyed == old(destroyed) + given
              else Reduced(old(partitions), partitions, given, old(destroyed), destroyed)
    {
      hide Reduced;
      if link == Disconnected {
        dropped := dropped + given;
        return false;
      }
      var deletePartitions := [];
      if ok {
        for i := 0 to |given|
          invariant Valid() && link == old(link) && destroyed == old(destroyed) && dropped == old(dropped)
          invariant (partitions, deletePartitions) == RemoveAll(old(partitions), given[..i])
        {
          assert Init(given[..i + 1]) == given[..i];
          var erased := EraseFirst(given[i]);
          deletePartitions := deletePartitions + erased;
        }
        assert given[..|given|] == given;
      }
      var _ := Destroy(deletePartitions);
      var _ := Destroy(given);
      if ok {
        UnassignReduces(old(partitions), given, old(destroyed));
      }
      return ok;
    }

    method RefreshAssignments(list: seq<TopicPartition>, ok: bool) returns (success: bool)
      requires Valid()
      modifies this
      ensures Valid() && link == old(link) && success == (link == Connected && ok)
      ensures Abstract() == Apply(old(Abstract()), Op.Refresh(link, list, ok))
      ensures if link == Connected && ok then partitions == list && destroyed == old(destroyed) + old(partitions)
              else partitions == old(partitions) && destroyed == old(destroyed)
    {
      if link != Connected || !ok {
        return false;
      }
      var before := partitions;
      partitionCnt := |list|;
      partitions := list;
      before := Destroy(before);
      return true;
    }
  }

  function Prepend(front: seq<TopicPartition>, r: (seq<TopicPartition>, seq<TopicPartition>))
    : (seq<TopicPartition>, seq<TopicPartition>)
  {
    (front + r.0, r.1)
  }

  lemma PrependStep(held: seq<TopicPartition>, j: nat, key: Key)
    requires j < |held| && KeyOf(held[j]) != key
    ensures Prepend(held[..j], RemoveFirst(held[j..], key)) == Prepend(held[..j + 1], RemoveFirst(held[j + 1..], key))
  {
    assert held[j..][1..] == held[j + 1..];
    Associate(held[..j], [held[j]], RemoveFirst(held[j + 1..], key).0);
    assert held[..j] + [held[j]] == held[..j + 1];
  }
}
