/** What the in-memory store keeps over every run of reads and writes: how long an item stays,
    what others' writes do to it, and how long its heap of deadlines gets. */
module CacheRuns {
  import opened Heapq
  import opened Options
  import opened InMemoryCache

  // ---------- how long an item stays ----------

  /** Whether a write finds the store full and evicts a key. */
  predicate EvictsBySize<V>(l: Limits, s: Store<V>, op: Op<V>, key: string) {
    op.Set? && l.max > 0 && |s.cached| >= l.max && !Survives(s.ttl, key, op.t.evict, l.max)
  }

  predicate Drops<V>(s: Store<V>, op: Op<V>, key: string) {
    op.Flush? || (op.Delete? && op.key == key) || (op.Get? && op.key == key && Expired(s, key, op.now))
  }

  predicate Rewrites<V>(op: Op<V>, key: string) {
    op.Set? && op.key == key && op.fits
  }

  /** An operation that does not rewrite an item removes it exactly if it deletes it, reads it
      after its deadline, or finds the store full and too many keys due later; otherwise it
      leaves the item, its value and its deadline alone. */
  ghost predicate KeepsItem<V>(l: Limits, s: Store<V>, op: Op<V>, s': Store<V>, key: string) {
    && (key in s'.cached <==> key in s.cached && !EvictsBySize(l, s, op, key) && !Drops(s, op, key))
    && (key in s'.cached ==>
          Slots(s, key) && Slots(s', key) && s'.cached[key] == s.cached[key] && s'.ttl[key] == s.ttl[key])
  }

  predicate Slots<V>(s: Store<V>, key: string) {
    key in s.cached && key in s.ttl
  }

  lemma StepKeepsItem<V(!new)>(l: Limits, s: Store<V>, op: Op<V>, s': Store<V>, key: string)
    requires Consistent(s) && Step(l, s, op, s') && !Rewrites(op, key)
    ensures KeepsItem(l, s, op, s', key)
  {
    if !op.Set? {
      DropKeepsItem(s, op, key);
    } else if l.max > 0 {
      SetKeepsItem(l, s, op, s', key);
    }
  }

  lemma DropKeepsItem<V>(s: Store<V>, op: Op<V>, key: string)
    requires Consistent(s) && !op.Set?
    ensures var s' := NextStore(s, op);
      && (key in s'.cached <==> key in s.cached && !Drops(s, op, key))
      && (key in s'.cached ==> key in s'.ttl && s'.cached[key] == s.cached[key] && s'.ttl[key] == s.ttl[key])
  {
  }

  lemma SetKeepsItem<V(!new)>(l: Limits, s: Store<V>, op: Op<V>, s': Store<V>, key: string)
    requires Consistent(s) && op.Set? && l.max > 0 && SetStep(l, s, op, s') && !Rewrites(op, key)
    ensures key in s'.cached <==> key in s.cached && !EvictsBySize(l, s, op, key)
    ensures key in s'.cached ==> key in s'.ttl && s'.cached[key] == s.cached[key] && s'.ttl[key] == s.ttl[key]
  {
    var e :| MakesRoom(s, e, op.t.evict, l.max) && s' == AfterRoom(l, e, op);
    RoomKeepsItem(s, e, op.t.evict, l.max, key);
    StoredElsewhere(l, e, op, key);
  }

  lemma StoredElsewhere<V>(l: Limits, e: Store<V>, op: Op<V>, key: string)
    requires op.Set? && !Rewrites(op, key)
    ensures var s := AfterRoom(l, e, op);
      && (key in s.cached <==> key in e.cached) && (key in s.ttl <==> key in e.ttl)
      && (key in e.cached ==> s.cached[key] == e.cached[key]) && (key in e.ttl ==> s.ttl[key] == e.ttl[key])
  {
  }

  lemma RoomKeepsItem<V>(s: Store<V>, e: Store<V>, now: real, max: nat, key: string)
    requires Consistent(s) && MakesRoom(s, e, now, max)
    ensures key in e.cached <==> key in s.cached && (|s.cached| >= max ==> Survives(s.ttl, key, now, max))
    ensures key in e.cached ==> key in e.ttl && e.cached[key] == s.cached[key] && e.ttl[key] == s.ttl[key]
  {
    if |s.cached| >= max {
      SurvivorSurvives(s.ttl, e.cached.Keys, now, max, key);
    }
  }

  lemma StoredIsConsistent<V>(e: Store<V>, key: string, value: V, ttl: real, t: Clock)
    requires Consistent(e)
    ensures Consistent(Stored(e, key, value, ttl, t))
  {
    var s := Stored(e, key, value, ttl, t);
    assert forall k :: k in s.ttl ==> k == key || (k in e.ttl && s.ttl[k] == e.ttl[k]);
  }

  lemma WithoutIsConsistent<V>(s: Store<V>, key: string)
    requires Consistent(s)
    ensures Consistent(Without(s, key))
  {
  }

  lemma SetIsConsistent<V(!new)>(l: Limits, s: Store<V>, op: Op<V>, s': Store<V>)
    requires Consistent(s) && op.Set? && SetStep(l, s, op, s')
    ensures Consistent(s')
  {
    var e :| MakesRoom(s, e, op.t.evict, l.max) && s' == AfterRoom(l, e, op);
    RoomIsConsistent(s, e, op.t.evict, l.max);
    StoredIsConsistent(e, op.key, op.value, op.ttl.GetOr(l.ttl), op.t);
  }

  lemma RoomIsConsistent<V>(s: Store<V>, e: Store<V>, now: real, max: nat)
    requires Consistent(s) && MakesRoom(s, e, now, max)
    ensures Consistent(e)
  {
  }

  lemma StepIsConsistent<V(!new)>(l: Limits, s: Store<V>, op: Op<V>, s': Store<V>)
    requires Consistent(s) && Step(l, s, op, s')
    ensures Consistent(s')
  {
    if op.Set? && l.max > 0 {
      SetIsConsistent(l, s, op, s');
    } else if op.Get? || op.Delete? {
      WithoutIsConsistent(s, op.key);
    }
  }

  /** None of the first `n` operations deleted the item, read it after its deadline or rewrote
      it. */
  ghost predicate Undisturbed<V>(states: seq<Store<V>>, ops: seq<Op<V>>, key: string, n: nat)
    requires n <= |ops| < |states|
  {
    forall i :: 0 <= i < n ==> !Rewrites(ops[i], key) && !Drops(states[i], ops[i], key)
  }

  ghost predicate EvictedBefore<V>(l: Limits, states: seq<Store<V>>, ops: seq<Op<V>>, key: string, n: nat)
    requires n <= |ops| < |states|
  {
    exists i :: 0 <= i < n && EvictsBySize(l, states[i], ops[i], key)
  }

  lemma {:induction false} ConsistentChain<V>(states: seq<Store<V>>, n: nat)
    requires n < |states| && Consistent(states[0])
    requires forall i :: 0 < i <= n ==> Consistent(states[i - 1]) ==> Consistent(states[i])
    ensures forall i :: 0 <= i <= n ==> Consistent(states[i])
  {
    if n > 0 {
      ConsistentChain(states, n - 1);
      assert Consistent(states[n - 1]) ==> Consistent(states[n]);
    }
  }

  lemma RunIsConsistent<V(!new)>(l: Limits, states: seq<Store<V>>, ops: seq<Op<V>>, n: nat)
    requires Run(l, states, ops) && Consistent(states[0]) && n <= |ops|
    ensures forall i :: 0 <= i <= n ==> Consistent(states[i])
  {
    forall i | 0 < i <= n && Consistent(states[i - 1]) ensures Consistent(states[i]) {
      assert StepAt(l, states, ops, i - 1);
      StepIsConsistent(l, states[i - 1], ops[i - 1], states[i]);
    }
    ConsistentChain(states, n);
  }

  lemma {:induction false} ItemChain<V>(l: Limits, states: seq<Store<V>>, ops: seq<Op<V>>, key: string, n: nat)
    requires n <= |ops| < |states| && Slots(states[0], key)
    requires forall i {:trigger ops[i]} :: 0 <= i < n ==>
      !Rewrites(ops[i], key) && KeepsItem(l, states[i], ops[i], states[i + 1], key)
    ensures key in states[n].cached <==> Undisturbed(states, ops, key, n) && !EvictedBefore(l, states, ops, key, n)
    ensures key in states[n].cached ==>
      && Slots(states[n], key)
      && states[n].cached[key] == states[0].cached[key] && states[n].ttl[key] == states[0].ttl[key]
  {
    if n > 0 {
      ItemChain(l, states, ops, key, n - 1);
      assert KeepsItem(l, states[n - 1], ops[n - 1], states[n], key);
    }
  }

  lemma RunKeepsItem<V(!new)>(l: Limits, states: seq<Store<V>>, ops: seq<Op<V>>, key: string, n: nat)
    requires Run(l, states, ops) && Consistent(states[0]) && key in states[0].cached && n <= |ops|
    requires forall i :: 0 <= i < n ==> !Rewrites(ops[i], key)
    ensures Consistent(states[n])
    ensures key in states[n].cached <==> Undisturbed(states, ops, key, n) && !EvictedBefore(l, states, ops, key, n)
    ensures key in states[n].cached ==>
      states[n].cached[key] == states[0].cached[key] && states[n].ttl[key] == states[0].ttl[key]
  {
    RunIsConsistent(l, states, ops, n);
    forall i | 0 <= i < n ensures KeepsItem(l, states[i], ops[i], states[i + 1], key) {
      assert StepAt(l, states, ops, i);
      StepKeepsItem(l, states[i], ops[i], states[i + 1], key);
    }
    ItemChain(l, states, ops, key, n);
  }

  /** Residence, over every run after a write: a read returns the item if and only if it comes
      no later than the item's deadline, and on the way nothing deleted the item or read it
      after its deadline, and no write found the store full with `max - 1` keys due after the
      item (or the item due). */
  lemma ReadFindsItem<V(!new)>(l: Limits, states: seq<Store<V>>, ops: seq<Op<V>>, key: string, n: nat, now: real)
    requires Run(l, states, ops) && Consistent(states[0]) && key in states[0].cached && n <= |ops|
    requires forall i :: 0 <= i < n ==> !Rewrites(ops[i], key)
    ensures Answer(states[n], key, now)
         == if now <= states[0].ttl[key] && Undisturbed(states, ops, key, n) && !EvictedBefore(l, states, ops, key, n)
            then Some(states[0].cached[key]) else None
  {
    RunKeepsItem(l, states, ops, key, n);
  }

  lemma RunSuffix<V(!new)>(l: Limits, states: seq<Store<V>>, ops: seq<Op<V>>, m: nat)
    requires Run(l, states, ops) && m <= |ops|
    ensures Run(l, states[m..], ops[m..])
  {
    forall j | 0 <= j < |ops[m..]| ensures StepAt(l, states[m..], ops[m..], j) {
      assert StepAt(l, states, ops, m + j);
      SameStep(l, states, ops, m + j, states[m..], ops[m..], j);
    }
  }

  /** No operation from `m` on and before `n` deletes or evicts the item, or reads it after its
      deadline. */
  ghost predicate LeftAlone<V>(l: Limits, states: seq<Store<V>>, ops: seq<Op<V>>, key: string, m: nat, n: nat)
    requires n <= |ops| < |states|
  {
    forall j :: m <= j < n ==> !Drops(states[j], ops[j], key) && !EvictsBySize(l, states[j], ops[j], key)
  }

  ghost predicate NotRewritten<V>(ops: seq<Op<V>>, key: string, m: nat, n: nat)
    requires n <= |ops|
  {
    forall j :: m <= j < n ==> !Rewrites(ops[j], key)
  }

  lemma SuffixLeftAlone<V>(l: Limits, states: seq<Store<V>>, ops: seq<Op<V>>, key: string, m: nat, n: nat)
    requires m <= n <= |ops| && |states| == |ops| + 1 && NotRewritten(ops, key, m, n)
    ensures NotRewritten(ops[m..], key, 0, n - m)
    ensures LeftAlone(l, states, ops, key, m, n)
        <==> Undisturbed(states[m..], ops[m..], key, n - m) && !EvictedBefore(l, states[m..], ops[m..], key, n - m)
  {
    var states', ops' := states[m..], ops[m..];
    assert forall j :: 0 <= j < n - m ==> ops'[j] == ops[m + j] && states'[j] == states[m + j];
    if j :| m <= j < n && (Drops(states[j], ops[j], key) || EvictsBySize(l, states[j], ops[j], key)) {
      assert ops'[j - m] == ops[j] && states'[j - m] == states[j];
    }
  }

  /** The same from any state of a run on. */
  lemma ReadFindsItemFrom<V(!new)>(l: Limits, states: seq<Store<V>>, ops: seq<Op<V>>, key: string, m: nat, n: nat,
                                   now: real)
    requires Run(l, states, ops) && m <= n <= |ops| && Consistent(states[m]) && key in states[m].cached
    requires NotRewritten(ops, key, m, n)
    ensures Answer(states[n], key, now)
         == if now <= states[m].ttl[key] && LeftAlone(l, states, ops, key, m, n)
            then Some(states[m].cached[key]) else None
  {
    RunSuffix(l, states, ops, m);
    SuffixLeftAlone(l, states, ops, key, m, n);
    ReadFindsItem(l, states[m..], ops[m..], key, n - m, now);
  }

  /** The item is found at every time up to `until`, by every run that leaves it alone, as long
      as the size of the cache does not require its eviction. */
  ghost predicate StaysUntil<V(!new)>(l: Limits, s: Store<V>, key: string, value: V, until: real) {
    forall states, ops, now ::
      Run(l, states, ops) && states[0] == s && now <= until
      && Undisturbed(states, ops, key, |ops|) && !EvictedBefore(l, states, ops, key, |ops|)
      ==> Answer(states[|ops|], key, now) == Some(value)
  }

  lemma StaysUntilDeadline<V(!new)>(l: Limits, s: Store<V>, key: string, until: real)
    requires Consistent(s) && key in s.cached
    ensures StaysUntil(l, s, key, s.cached[key], until) <==> until <= s.ttl[key]
  {
    if until > s.ttl[key] {
      var states, ops: seq<Op<V>> := [s], [];
      assert Run(l, states, ops) && Undisturbed(states, ops, key, |ops|) && !EvictedBefore(l, states, ops, key, |ops|);
      assert Answer(states[|ops|], key, until) == None;
    }
    forall states, ops, now
      | Run(l, states, ops) && states[0] == s && now <= s.ttl[key]
        && Undisturbed(states, ops, key, |ops|) && !EvictedBefore(l, states, ops, key, |ops|)
      ensures Answer(states[|ops|], key, now) == Some(s.cached[key])
    {
      ReadFindsItem(l, states, ops, key, |ops|, now);
    }
  }

  /** The promise that an item stays for at least its time to live unless the size of the
      cache requires its eviction holds for a write if and only if it does not find the key
      with a deadline that has not passed but comes sooner. */
  lemma ResidencePromise<V(!new)>(l: Limits, s: Store<V>, op: Op<V>, s': Store<V>)
    requires Consistent(s) && op.Set? && op.fits && l.max > 0 && Step(l, s, op, s')
    ensures var until := op.t.stamp + op.ttl.GetOr(l.ttl);
      StaysUntil(l, s', op.key, op.value, until)
      <==> !(&& op.key in s.ttl && op.t.check <= s.ttl[op.key] < until
             && (|s.cached| >= l.max ==> Survives(s.ttl, op.key, op.t.evict, l.max)))
  {
    var e :| MakesRoom(s, e, op.t.evict, l.max) && s' == AfterRoom(l, e, op);
    if |s.cached| >= l.max {
      SurvivorSurvives(s.ttl, e.cached.Keys, op.t.evict, l.max, op.key);
    }
    StepIsConsistent(l, s, op, s');
    StaysUntilDeadline(l, s', op.key, op.t.stamp + op.ttl.GetOr(l.ttl));
  }

  // ---------- isolation ----------

  /** What a store holds under a key. */
  datatype Slot<V> = Slot(value: V, deadline: real)

  function SlotOf<V>(s: Store<V>, key: string): Option<Slot<V>> {
    if key in s.cached && key in s.ttl then Some(Slot(s.cached[key], s.ttl[key])) else None
  }

  function Deadline<V>(slot: Option<Slot<V>>): Option<real> {
    if slot.Some? then Some(slot.value.deadline) else None
  }

  /** What an operation that evicts nothing leaves under a key. */
  function NextSlot<V>(l: Limits, slot: Option<Slot<V>>, op: Op<V>, key: string): Option<Slot<V>> {
    if !op.Flush? && op.key != key then slot
    else
      match op
      case Set(_, value, ttl, fits, t) =>
        if l.max > 0 && fits then Some(Slot(value, NextDeadline(Deadline(slot), t, ttl.GetOr(l.ttl)))) else slot
      case Get(_, now) => if slot.Some? && now > slot.value.deadline then None else slot
      case Delete(_) => None
      case Flush => None
  }

  /** An operation on another key changes what a read finds if and only if it is a write that
      finds the store full and evicts an item that the read would have found. */
  lemma InterferesIff<V(!new)>(l: Limits, s: Store<V>, op: Op<V>, s': Store<V>, key: string, now: real)
    requires Consistent(s) && Step(l, s, op, s') && !op.Flush? && op.key != key
    ensures Answer(s', key, now) != Answer(s, key, now) <==> Answer(s, key, now).Some? && EvictsBySize(l, s, op, key)
  {
    StepKeepsItem(l, s, op, s', key);
  }

  lemma StoredSlot<V>(l: Limits, e: Store<V>, op: Op<V>, key: string)
    requires Consistent(e) && op.Set? && l.max > 0
    ensures SlotOf(AfterRoom(l, e, op), key) == NextSlot(l, SlotOf(e, key), op, key)
  {
    assert DeadlineOf(e.ttl, op.key) == Deadline(SlotOf(e, op.key));
  }

  function SlotStep<V>(l: Limits, s: Store<V>, op: Op<V>, slot: Option<Slot<V>>, key: string): Option<Slot<V>> {
    NextSlot(l, if EvictsBySize(l, s, op, key) then None else slot, op, key)
  }

  /** What is under a key after an operation depends on what was under that key, and on
      whether the operation evicts it. */
  lemma StepSlot<V(!new)>(l: Limits, s: Store<V>, op: Op<V>, s': Store<V>, key: string)
    requires Consistent(s) && Step(l, s, op, s')
    ensures SlotOf(s', key) == SlotStep(l, s, op, SlotOf(s, key), key)
  {
    if op.Set? && l.max > 0 {
      var e :| MakesRoom(s, e, op.t.evict, l.max) && s' == AfterRoom(l, e, op);
      RoomIsConsistent(s, e, op.t.evict, l.max);
      RoomKeepsItem(s, e, op.t.evict, l.max, key);
      StoredSlot(l, e, op, key);
    }
  }

  /** An accepted write leaves its value, under the key's old deadline if that has not passed
      and the write did not evict the key first, else under a new one. */
  lemma AcceptedWrite<V(!new)>(l: Limits, s: Store<V>, op: Op<V>, s': Store<V>)
    requires Consistent(s) && Step(l, s, op, s') && op.Set? && op.fits && l.max > 0
    ensures var pending := if EvictsBySize(l, s, op, op.key) then None else DeadlineOf(s.ttl, op.key);
      SlotOf(s', op.key) == Some(Slot(op.value, NextDeadline(pending, op.t, op.ttl.GetOr(l.ttl))))
  {
    StepSlot(l, s, op, s', op.key);
    assert DeadlineOf(s.ttl, op.key) == Deadline(SlotOf(s, op.key));
  }

  /** What the history of a store leaves under a key. */
  ghost function SlotAfter<V>(l: Limits, states: seq<Store<V>>, ops: seq<Op<V>>, key: string, n: nat): Option<Slot<V>>
    requires n <= |ops| < |states|
  {
    if n == 0 then None else SlotStep(l, states[n - 1], ops[n - 1], SlotAfter(l, states, ops, key, n - 1), key)
  }

  /** The value of the last accepted write under a key among the first `n` operations. */
  function Latest<V>(l: Limits, ops: seq<Op<V>>, key: string, n: nat): Option<V>
    requires n <= |ops|
  {
    if n == 0 || l.max == 0 then None
    else if Rewrites(ops[n - 1], key) then Some(ops[n - 1].value)
    else Latest(l, ops, key, n - 1)
  }

  lemma {:induction false} SlotIsLatest<V>(l: Limits, states: seq<Store<V>>, ops: seq<Op<V>>, key: string, n: nat)
    requires n <= |ops| < |states|
    ensures var slot := SlotAfter(l, states, ops, key, n);
      slot.Some? ==> Latest(l, ops, key, n) == Some(slot.value.value)
  {
    if n > 0 {
      SlotIsLatest(l, states, ops, key, n - 1);
      var op := ops[n - 1];
      if l.max > 0 && !Rewrites(op, key) {
        assert Latest(l, ops, key, n) == Latest(l, ops, key, n - 1);
      }
    }
  }

  lemma {:induction false} SlotChain<V>(l: Limits, states: seq<Store<V>>, ops: seq<Op<V>>, key: string, n: nat)
    requires n <= |ops| < |states| && SlotOf(states[0], key) == None
    requires forall i {:trigger ops[i]} :: 0 <= i < n ==>
      SlotOf(states[i + 1], key) == SlotStep(l, states[i], ops[i], SlotOf(states[i], key), key)
    ensures SlotOf(states[n], key) == SlotAfter(l, states, ops, key, n)
  {
    if n > 0 {
      SlotChain(l, states, ops, key, n - 1);
      assert SlotOf(states[n], key) == SlotStep(l, states[n - 1], ops[n - 1], SlotOf(states[n - 1], key), key);
    }
  }

  lemma SlotIsHistory<V(!new)>(l: Limits, states: seq<Store<V>>, ops: seq<Op<V>>, key: string, n: nat)
    requires Run(l, states, ops) && states[0] == Store(map[], map[], multiset{}) && n <= |ops|
    ensures Consistent(states[n]) && SlotOf(states[n], key) == SlotAfter(l, states, ops, key, n)
  {
    RunIsConsistent(l, states, ops, n);
    forall i | 0 <= i < n
      ensures SlotOf(states[i + 1], key) == SlotStep(l, states[i], ops[i], SlotOf(states[i], key), key)
    {
      assert StepAt(l, states, ops, i);
      StepSlot(l, states[i], ops[i], states[i + 1], key);
    }
    SlotChain(l, states, ops, key, n);
  }

  /** For every history: what a read finds is decided by the operations on its key and by the
      writes that evicted it; and it is the value of the last accepted write under that key. */
  lemma HistoryDecides<V(!new)>(l: Limits, states: seq<Store<V>>, ops: seq<Op<V>>, key: string, n: nat, now: real)
    requires Run(l, states, ops) && states[0] == Store(map[], map[], multiset{}) && n <= |ops|
    ensures var slot := SlotAfter(l, states, ops, key, n);
      && Answer(states[n], key, now)
         == (if slot.Some? && now <= slot.value.deadline then Some(slot.value.value) else None)
      && (slot.Some? ==> Latest(l, ops, key, n) == Some(slot.value.value))
  {
    SlotIsHistory(l, states, ops, key, n);
    SlotIsLatest(l, states, ops, key, n);
  }

  lemma RoomyStep<V(!new)>(l: Limits, s: Store<V>, op: Op<V>, s': Store<V>, key: string)
    requires Consistent(s) && Step(l, s, op, s') && !FullWrite(l, s, op)
    ensures SlotOf(s', key) == NextSlot(l, SlotOf(s, key), op, key)
  {
    StepSlot(l, s, op, s', key);
  }

  /** The second store holds what the first one holds of the keys that are mine, and nothing
      else. */
  ghost predicate Agrees<V(!new)>(mine: string -> bool, s: Store<V>, p: Store<V>) {
    && Consistent(s) && Consistent(p)
    && (forall k :: k in p.cached ==> mine(k))
    && forall k :: mine(k) ==> SlotOf(s, k) == SlotOf(p, k)
  }

  lemma MineIsNoLarger<V(!new)>(mine: string -> bool, s: Store<V>, p: Store<V>)
    requires Agrees(mine, s, p)
    ensures |p.cached| <= |s.cached|
  {
    forall k | k in p.cached ensures k in s.cached {
      assert SlotOf(s, k) == SlotOf(p, k) && k in p.ttl;
    }
    SubsetSize(p.cached.Keys, s.cached.Keys);
    assert |p.cached| == |p.cached.Keys| && |s.cached| == |s.cached.Keys|;
  }

  lemma SlotAgrees<V(!new)>(l: Limits, mine: string -> bool, s: Store<V>, op: Op<V>, s': Store<V>, p: Store<V>,
                            p': Store<V>, k: string)
    requires Consistent(s) && Consistent(p) && mine(k) && SlotOf(s, k) == SlotOf(p, k)
    requires !op.Flush? && !FullWrite(l, s, op) && !FullWrite(l, p, op)
    requires Step(l, s, op, s') && if mine(op.key) then Step(l, p, op, p') else p' == p
    ensures SlotOf(s', k) == SlotOf(p', k)
  {
    RoomyStep(l, s, op, s', k);
    if mine(op.key) {
      RoomyStep(l, p, op, p', k);
    }
  }

  /** A step of mine keeps two agreeing stores in agreement, and a step that is not mine does
      not concern the store of mine alone. */
  lemma StepAgrees<V(!new)>(l: Limits, mine: string -> bool, s: Store<V>, op: Op<V>, s': Store<V>, p: Store<V>,
                            p': Store<V>)
    requires Agrees(mine, s, p) && !op.Flush? && !FullWrite(l, s, op)
    requires Step(l, s, op, s') && if mine(op.key) then Step(l, p, op, p') else p' == p
    ensures Agrees(mine, s', p')
  {
    StepIsConsistent(l, s, op, s');
    MineIsNoLarger(mine, s, p);
    forall k | mine(k) ensures SlotOf(s', k) == SlotOf(p', k) {
      SlotAgrees(l, mine, s, op, s', p, p', k);
    }
    if mine(op.key) {
      StepIsConsistent(l, p, op, p');
      forall k | k in p'.cached ensures mine(k) {
        RoomyStep(l, p, op, p', k);
      }
    }
  }

  /** The operations on my keys among the first `n`. */
  function Own<V>(mine: string -> bool, ops: seq<Op<V>>, n: nat): (r: seq<Op<V>>)
    requires n <= |ops|
  {
    if n == 0 then []
    else Own(mine, ops, n - 1) + if !ops[n - 1].Flush? && mine(ops[n - 1].key) then [ops[n - 1]] else []
  }

  /** As long as no write finds the store full, my reads find exactly what they would find if
      nobody else used the store. */
  lemma OthersDoNotInterfere<V(!new)>(l: Limits, mine: string -> bool, states: seq<Store<V>>, ops: seq<Op<V>>, n: nat,
                                      alone: seq<Store<V>>)
    requires Run(l, states, ops) && n <= |ops| && Run(l, alone, Own(mine, ops, n)) && Agrees(mine, states[0], alone[0])
    requires forall i :: 0 <= i < n ==> !ops[i].Flush? && !FullWrite(l, states[i], ops[i])
    ensures forall k, now :: mine(k) ==> Answer(states[n], k, now) == Answer(alone[|Own(mine, ops, n)|], k, now)
  {
    forall i: nat | i < n && AgreesAt(mine, states, ops, alone, i) ensures AgreesAt(mine, states, ops, alone, i + 1) {
      BothStep(l, mine, states, ops, n, alone, i);
    }
    AgreesChain(mine, states, ops, alone, n);
    forall k, now | mine(k) ensures Answer(states[n], k, now) == Answer(alone[|Own(mine, ops, n)|], k, now) {
      assert SlotOf(states[n], k) == SlotOf(alone[|Own(mine, ops, n)|], k);
    }
  }

  /** After `i` operations of the run, and those of mine among them, the two stores agree. */
  ghost predicate AgreesAt<V(!new)>(mine: string -> bool, states: seq<Store<V>>, ops: seq<Op<V>>, alone: seq<Store<V>>,
                                    i: nat) {
    i <= |ops| < |states| && |Own(mine, ops, i)| < |alone| && Agrees(mine, states[i], alone[|Own(mine, ops, i)|])
  }

  lemma {:induction false} AgreesChain<V(!new)>(mine: string -> bool, states: seq<Store<V>>, ops: seq<Op<V>>,
                                                alone: seq<Store<V>>, n: nat)
    requires AgreesAt(mine, states, ops, alone, 0)
    requires forall i: nat ::
      i < n && AgreesAt(mine, states, ops, alone, i) ==> AgreesAt(mine, states, ops, alone, i + 1)
    ensures AgreesAt(mine, states, ops, alone, n)
  {
    if n > 0 {
      AgreesChain(mine, states, ops, alone, n - 1);
    }
  }

  lemma {:induction false} OwnGrows<V>(mine: string -> bool, ops: seq<Op<V>>, i: nat, n: nat)
    requires i <= n <= |ops|
    ensures Own(mine, ops, i) <= Own(mine, ops, n)
    decreases n
  {
    if i < n {
      OwnGrows(mine, ops, i, n - 1);
    }
  }

  lemma OwnIndex<V>(mine: string -> bool, ops: seq<Op<V>>, i: nat, n: nat)
    requires i < n <= |ops| && !ops[i].Flush?
    ensures var own, m := Own(mine, ops, n), |Own(mine, ops, i)|;
      && |Own(mine, ops, i + 1)| == (if mine(ops[i].key) then m + 1 else m) <= |own|
      && (mine(ops[i].key) ==> own[m] == ops[i])
  {
    OwnGrows(mine, ops, i + 1, n);
  }

  lemma StepsAgree<V(!new)>(l: Limits, mine: string -> bool, states: seq<Store<V>>, ops: seq<Op<V>>, i: nat,
                            alone: seq<Store<V>>, own: seq<Op<V>>, m: nat)
    requires Run(l, states, ops) && i < |ops| && Run(l, alone, own) && m < |alone|
    requires Agrees(mine, states[i], alone[m]) && !ops[i].Flush? && !FullWrite(l, states[i], ops[i])
    requires mine(ops[i].key) ==> m < |own| && own[m] == ops[i]
    ensures Agrees(mine, states[i + 1], alone[if mine(ops[i].key) then m + 1 else m])
  {
    assert StepAt(l, states, ops, i);
    assert mine(ops[i].key) ==> StepAt(l, alone, own, m);
    StepAgrees(l, mine, states[i], ops[i], states[i + 1], alone[m], alone[if mine(ops[i].key) then m + 1 else m]);
  }

  lemma BothStep<V(!new)>(l: Limits, mine: string -> bool, states: seq<Store<V>>, ops: seq<Op<V>>, n: nat,
                          alone: seq<Store<V>>, i: nat)
    requires Run(l, states, ops) && i < n <= |ops| && Run(l, alone, Own(mine, ops, n))
    requires AgreesAt(mine, states, ops, alone, i)
    requires !ops[i].Flush? && !FullWrite(l, states[i], ops[i])
    ensures AgreesAt(mine, states, ops, alone, i + 1)
  {
    var own, m, next := Own(mine, ops, n), |Own(mine, ops, i)|, |Own(mine, ops, i + 1)|;
    OwnIndex(mine, ops, i, n);
    assert next == if mine(ops[i].key) then m + 1 else m;
    StepsAgree(l, mine, states, ops, i, alone, own, m);
    assert Agrees(mine, states[i + 1], alone[next]);
  }

  // ---------- the size of the heap ----------

  lemma {:induction false} AsManyEntries(ttl: map<string, real>)
    ensures |Entries(ttl)| == |ttl|
    decreases |ttl|
  {
    if ttl != map[] {
      var k :| k in ttl;
      assert (ttl - {k}).Keys == ttl.Keys - {k};
      AsManyEntries(ttl - {k});
      assert Entries(ttl) == Entries(ttl - {k}) + {Entry(ttl[k], k)};
    }
  }

  lemma SubmultisetSize<T>(a: multiset<T>, b: multiset<T>)
    requires a <= b
    ensures |a| <= |b|
  {
    assert b == a + (b - a);
  }

  lemma ExcessIsNatural<V>(s: Store<V>)
    requires Consistent(s)
    ensures Excess(s.ttl, s.heap) >= 0 && |s.ttl| == |s.cached|
  {
    AsManyEntries(s.ttl);
    assert forall x :: x in Entries(s.ttl) ==> x in s.heap;
    SubmultisetSize(multiset(Entries(s.ttl)), s.heap);
    assert |s.ttl| == |s.ttl.Keys| == |s.cached.Keys| == |s.cached|;
  }

  /** Whether an operation leaves a heap entry behind: it deletes a cached key, or reads one
      after its deadline, or gives a new deadline to one that is still there after its own
      has passed. */
  predicate Abandons<V>(l: Limits, s: Store<V>, op: Op<V>) {
    match op
    case Set(key, _, _, fits, t) =>
      && l.max > 0 && fits && key in s.ttl && s.ttl[key] < t.check
      && (|s.cached| >= l.max ==> Survives(s.ttl, key, t.evict, l.max))
    case Get(key, now) => Expired(s, key, now)
    case Delete(key) => key in s.ttl
    case Flush => false
  }

  predicate FullWrite<V>(l: Limits, s: Store<V>, op: Op<V>) {
    op.Set? && l.max > 0 && |s.cached| >= l.max
  }

  ghost predicate AddsStale<V>(s: Store<V>, s': Store<V>, abandons: bool, sweeps: bool) {
    var before, after := Excess(s.ttl, s.heap), Excess(s'.ttl, s'.heap);
    && after <= before + (if abandons then 1 else 0)
    && (!sweeps ==> after == before + if abandons then 1 else 0)
    && (abandons ==> after > 0)
  }

  lemma StoredExcess<V>(e: Store<V>, key: string, value: V, ttl: real, t: Clock)
    ensures var s := Stored(e, key, value, ttl, t);
      Excess(s.ttl, s.heap) == Excess(e.ttl, e.heap) + if key in e.ttl && e.ttl[key] < t.check then 1 else 0
  {
    var d := NextDeadline(DeadlineOf(e.ttl, key), t, ttl);
    SizeWith(e.ttl, key, d);
    assert |e.heap + multiset{Entry(d, key)}| == |e.heap| + 1;
  }

  lemma SetLeavesStale<V(!new)>(l: Limits, s: Store<V>, op: Op<V>, s': Store<V>)
    requires Consistent(s) && op.Set? && l.max > 0 && SetStep(l, s, op, s')
    ensures AddsStale(s, s', Abandons(l, s, op), FullWrite(l, s, op))
  {
    var e :| MakesRoom(s, e, op.t.evict, l.max) && s' == AfterRoom(l, e, op);
    if |s.cached| >= l.max {
      SurvivorSurvives(s.ttl, e.cached.Keys, op.t.evict, l.max, op.key);
    }
    RoomIsConsistent(s, e, op.t.evict, l.max);
    ExcessIsNatural(e);
    StoredExcess(e, op.key, op.value, op.ttl.GetOr(l.ttl), op.t);
  }

  /** An operation adds at most one stale entry, and does so exactly if it abandons one;
      stale entries go away only when a write finds the store full, or in a flush. */
  lemma StepLeavesStale<V(!new)>(l: Limits, s: Store<V>, op: Op<V>, s': Store<V>)
    requires Consistent(s) && Step(l, s, op, s')
    ensures LeavesStale(l, s, op, s')
  {
    ExcessIsNatural(s);
    if op.Set? && l.max > 0 {
      SetLeavesStale(l, s, op, s');
    } else if op.Delete? || op.Get? {
      SizeWithout(s.ttl, op.key);
    }
  }

  /** How many of the first `n` operations of a run abandon an entry. */
  ghost function Abandonments<V>(l: Limits, states: seq<Store<V>>, ops: seq<Op<V>>, n: nat): nat
    requires n <= |ops| < |states|
  {
    if n == 0 then 0
    else Abandonments(l, states, ops, n - 1) + if Abandons(l, states[n - 1], ops[n - 1]) then 1 else 0
  }

  ghost predicate LeavesStale<V>(l: Limits, s: Store<V>, op: Op<V>, s': Store<V>) {
    AddsStale(s, s', Abandons(l, s, op), FullWrite(l, s, op) || op.Flush?)
  }

  lemma {:induction false} ExcessChain<V>(l: Limits, states: seq<Store<V>>, ops: seq<Op<V>>, n: nat)
    requires n <= |ops| < |states| && Excess(states[0].ttl, states[0].heap) == 0
    requires forall i {:trigger ops[i]} :: 0 <= i < n ==> LeavesStale(l, states[i], ops[i], states[i + 1])
    ensures Excess(states[n].ttl, states[n].heap) <= Abandonments(l, states, ops, n)
    ensures (forall i :: 0 <= i < n ==> !FullWrite(l, states[i], ops[i]) && !ops[i].Flush?) ==>
      Excess(states[n].ttl, states[n].heap) == Abandonments(l, states, ops, n)
  {
    if n > 0 {
      ExcessChain(l, states, ops, n - 1);
      assert LeavesStale(l, states[n - 1], ops[n - 1], states[n]);
    }
  }

  /** Over every run from an empty store the heap is longer than the number of cached keys by
      at most one entry for every operation that abandoned one; by exactly that many while no
      write finds the store full and nothing is flushed. */
  lemma HeapGrowsByAbandonment<V(!new)>(l: Limits, states: seq<Store<V>>, ops: seq<Op<V>>, n: nat)
    requires Run(l, states, ops) && states[0] == Store(map[], map[], multiset{}) && n <= |ops|
    ensures |states[n].cached| <= |states[n].heap| <= |states[n].cached| + Abandonments(l, states, ops, n)
    ensures (forall i :: 0 <= i < n ==> !FullWrite(l, states[i], ops[i]) && !ops[i].Flush?) ==>
      |states[n].heap| == |states[n].cached| + Abandonments(l, states, ops, n)
  {
    RunIsConsistent(l, states, ops, n);
    forall i | 0 <= i < n ensures LeavesStale(l, states[i], ops[i], states[i + 1]) {
      assert StepAt(l, states, ops, i);
      StepLeavesStale(l, states[i], ops[i], states[i + 1]);
    }
    ExcessChain(l, states, ops, n);
    ExcessIsNatural(states[n]);
  }

  ghost predicate Bounded<V>(s: Store<V>) {
    |s.heap| <= |s.cached|
  }

  lemma StepBounded<V>(l: Limits, s: Store<V>, op: Op<V>, s': Store<V>)
    requires Consistent(s) && Consistent(s') && LeavesStale(l, s, op, s') && Bounded(s)
    ensures Bounded(s') <==> !Abandons(l, s, op)
  {
    ExcessIsNatural(s);
    ExcessIsNatural(s');
  }

  ghost predicate AllBounded<V>(states: seq<Store<V>>, n: nat)
    requires n < |states|
  {
    Bounded(states[n]) && (n > 0 ==> AllBounded(states, n - 1))
  }

  ghost predicate AbandonsNothing<V>(l: Limits, states: seq<Store<V>>, ops: seq<Op<V>>, n: nat)
    requires n <= |ops| < |states|
  {
    n > 0 ==> !Abandons(l, states[n - 1], ops[n - 1]) && AbandonsNothing(l, states, ops, n - 1)
  }

  lemma {:induction false} BoundedChain<V>(l: Limits, states: seq<Store<V>>, ops: seq<Op<V>>, n: nat)
    requires n <= |ops| < |states| && Bounded(states[0])
    requires forall i {:trigger ops[i]} :: 0 <= i < n ==> LeavesStale(l, states[i], ops[i], states[i + 1])
    requires forall i :: 0 <= i <= n ==> Consistent(states[i])
    ensures AllBounded(states, n) <==> AbandonsNothing(l, states, ops, n)
  {
    if n > 0 {
      BoundedChain(l, states, ops, n - 1);
      assert LeavesStale(l, states[n - 1], ops[n - 1], states[n]);
      if AllBounded(states, n - 1) {
        StepBounded(l, states[n - 1], ops[n - 1], states[n]);
      }
    }
  }

  /** The heap is bounded by the number of cached keys throughout a run if and only if no
      operation of the run abandons an entry. */
  lemma HeapIsBoundedIff<V(!new)>(l: Limits, states: seq<Store<V>>, ops: seq<Op<V>>, n: nat)
    requires Run(l, states, ops) && states[0] == Store(map[], map[], multiset{}) && n <= |ops|
    ensures AllBounded(states, n) <==> AbandonsNothing(l, states, ops, n)
  {
    RunIsConsistent(l, states, ops, n);
    forall i | 0 <= i < n ensures LeavesStale(l, states[i], ops[i], states[i + 1]) {
      assert StepAt(l, states, ops, i);
      StepLeavesStale(l, states[i], ops[i], states[i + 1]);
    }
    BoundedChain(l, states, ops, n);
  }

  // ---------- no item is safe ----------

  lemma LaterIsSmaller(ttl: map<string, real>, r: string, k: string, now: real)
    requires r in ttl && k in Later(ttl, r, now)
    ensures |Later(ttl, k, now)| < |Later(ttl, r, now)|
  {
    forall x | x in Later(ttl, k, now) ensures x in Later(ttl, r, now) {
      var a, b, c := Entry(ttl[r], r), Entry(ttl[k], k), Entry(ttl[x], x);
      LtTotal(a, b);
      LtTotal(b, c);
      LtTotal(a, c);
      LeTransitive(a, b, c);
    }
    LtTotal(Entry(ttl[k], k), Entry(ttl[k], k));
    ProperSubsetIsSmaller(Later(ttl, k, now), Later(ttl, r, now), k);
  }

  lemma {:induction false} SurvivorsAreEnough(ttl: map<string, real>, keep: set<string>, now: real, max: nat, r: string)
    requires keep == set k | k in ttl && Survives(ttl, k, now, max)
    requires r in ttl && ttl[r] > now && r !in keep
    ensures |keep| >= max - 1
    decreases |Later(ttl, r, now)|
  {
    var later := Later(ttl, r, now);
    if later <= keep {
      SubsetSize(later, keep);
    } else {
      var k :| k in later && k !in keep;
      LaterIsSmaller(ttl, r, k, now);
      SurvivorsAreEnough(ttl, keep, now, max, k);
    }
  }

  lemma {:induction false} SurvivorsAreFew(ttl: map<string, real>, keep: set<string>, now: real, max: nat, m: string)
    requires keep == set k | k in ttl && Survives(ttl, k, now, max)
    requires m in keep
    ensures |keep| < max
    decreases max - |Later(ttl, m, now)|
  {
    if k :| k in keep && m in Later(ttl, k, now) {
      LaterIsSmaller(ttl, k, m, now);
      SurvivorsAreFew(ttl, keep, now, max, k);
    } else {
      forall k | k in keep - {m} ensures k in Later(ttl, m, now) {
        LtTotal(Entry(ttl[k], k), Entry(ttl[m], m));
      }
      SubsetSize(keep - {m}, Later(ttl, m, now));
    }
  }

  /** Eviction always finds survivors: those that the exact condition names. */
  lemma SurvivorsExist(ttl: map<string, real>, now: real, max: nat) returns (keep: set<string>)
    requires max > 0
    ensures Survivors(ttl, keep, now, max)
  {
    keep := set k | k in ttl && Survives(ttl, k, now, max);
    if m :| m in keep {
      SurvivorsAreFew(ttl, keep, now, max, m);
    }
    forall r, k | r in ttl && r !in keep && k in keep
      ensures Lt(Entry(ttl[r], r), Entry(ttl[k], k))
    {
      LtTotal(Entry(ttl[r], r), Entry(ttl[k], k));
      if r in Later(ttl, k, now) {
        LaterIsSmaller(ttl, k, r, now);
      }
    }
    forall r | r in ttl && r !in keep && ttl[r] > now ensures |keep| == max - 1 {
      SurvivorsAreEnough(ttl, keep, now, max, r);
    }
  }

  lemma RoomExists<V>(s: Store<V>, now: real, max: nat) returns (e: Store<V>)
    requires Consistent(s) && max > 0
    ensures MakesRoom(s, e, now, max)
  {
    if |s.cached| < max {
      return s;
    }
    var keep := SurvivorsExist(s.ttl, now, max);
    var ttl := Restrict(s.ttl, keep);
    e := Store(Restrict(s.cached, keep), ttl, multiset(Entries(ttl)));
    assert e.cached.Keys == keep;
    AsManyEntries(ttl);
    ExcessIsNatural(s);
  }

  /** Every operation is possible in every state: the machine never gets stuck. */
  lemma StepExists<V(!new)>(l: Limits, s: Store<V>, op: Op<V>) returns (s': Store<V>)
    requires Consistent(s)
    ensures Step(l, s, op, s')
  {
    if !op.Set? {
      s' := NextStore(s, op);
    } else if l.max == 0 {
      s' := s;
    } else {
      var e := RoomExists(s, op.t.evict, l.max);
      s' := AfterRoom(l, e, op);
      assert SetStep(l, s, op, s');
    }
  }

  lemma {:induction false} LongerThan(keys: set<string>) returns (n: nat)
    ensures forall k :: k in keys ==> |k| < n
  {
    if keys == {} {
      n := 0;
    } else {
      var k :| k in keys;
      n := LongerThan(keys - {k});
      n := if |k| < n then n else |k| + 1;
    }
  }

  /** A key of its own length. */
  function NewKey(n: nat): string {
    seq(n, _ => 'k')
  }

  /** The store holds `n` fresh keys that are due at `d`. */
  ghost predicate HoldsFresh<V>(s: Store<V>, first: nat, n: nat, d: real) {
    forall i :: first <= i < first + n ==> NewKey(i) in s.cached && NewKey(i) in s.ttl && s.ttl[NewKey(i)] == d
  }

  /** A write of the next fresh key at time `c`, to be due at `d`. */
  function FreshWrite<V>(n: nat, value: V, c: real, d: real): Op<V> {
    Set(NewKey(n), value, Some(d - c), true, Clock(c, c, c))
  }

  /** The store holds nothing as long as the next fresh key, and `key` is due before `d`. */
  ghost predicate Besieged<V>(l: Limits, s: Store<V>, key: string, first: nat, n: nat, d: real) {
    && Consistent(s) && |s.cached| <= l.max
    && key in s.cached && key in s.ttl && s.ttl[key] < d && |key| < first
    && HoldsFresh(s, first, n, d) && forall k :: k in s.cached ==> |k| < first + n
  }

  /** No key that is due later is evicted before `key`. */
  lemma FreshStay<V>(l: Limits, s: Store<V>, e: Store<V>, key: string, first: nat, n: nat, now: real, d: real)
    requires Besieged(l, s, key, first, n, d) && now < d && l.max > 0
    requires MakesRoom(s, e, now, l.max)
    ensures |e.cached| < l.max
    ensures key in e.cached ==> Besieged(l, e, key, first, n, d)
  {
    RoomIsConsistent(s, e, now, l.max);
    assert |e.cached.Keys| == |e.cached|;
    if |s.cached| >= l.max && key in e.cached {
      forall i | first <= i < first + n
        ensures NewKey(i) in e.cached
      {
        LtTotal(Entry(s.ttl[key], key), Entry(d, NewKey(i)));
      }
    }
  }

  lemma BesiegedByOneMore<V>(l: Limits, e: Store<V>, s: Store<V>, key: string, first: nat, n: nat, value: V, d: real)
    requires Besieged(l, e, key, first, n, d) && Consistent(s) && |s.cached| <= l.max
    requires s.cached == e.cached[NewKey(first + n) := value] && s.ttl == e.ttl[NewKey(first + n) := d]
    ensures Besieged(l, s, key, first, n + 1, d)
  {
    assert |NewKey(first + n)| == first + n;
    forall i | first <= i < first + n + 1
      ensures NewKey(i) in s.cached && NewKey(i) in s.ttl && s.ttl[NewKey(i)] == d
    {
      assert i < first + n ==> NewKey(i) in e.cached;
    }
  }

  lemma StoredNew<V>(e: Store<V>, key: string, value: V, ttl: real, t: Clock)
    requires key !in e.ttl
    ensures var s := Stored(e, key, value, ttl, t);
      s.cached == e.cached[key := value] && s.ttl == e.ttl[key := t.stamp + ttl]
  {
  }

  lemma FreshWriteStores<V>(l: Limits, e: Store<V>, n: nat, value: V, c: real, d: real)
    ensures AfterRoom(l, e, FreshWrite(n, value, c, d)) == Stored(e, NewKey(n), value, d - c, Clock(c, c, c))
  {
  }

  lemma FreshIsStored<V>(l: Limits, e: Store<V>, key: string, first: nat, n: nat, value: V, c: real, d: real)
    requires Besieged(l, e, key, first, n, d) && |e.cached| < l.max
    ensures Besieged(l, AfterRoom(l, e, FreshWrite(first + n, value, c, d)), key, first, n + 1, d)
  {
    var k, ttl, t := NewKey(first + n), d - c, Clock(c, c, c);
    assert |k| == first + n;
    var s := Stored(e, k, value, ttl, t);
    StoredNew(e, k, value, ttl, t);
    StoredIsConsistent(e, k, value, ttl, t);
    SizeWith(e.cached, k, value);
    assert t.stamp + ttl == d;
    BesiegedByOneMore(l, e, s, key, first, n, value, d);
    FreshWriteStores(l, e, first + n, value, c, d);
  }

  /** A write of a fresh key either evicts `key`, or adds one more key that is due later: none
      of those can be evicted first. */
  lemma OneMoreFresh<V(!new)>(l: Limits, s: Store<V>, s': Store<V>, key: string, first: nat, n: nat, c: real, d: real)
    requires Besieged(l, s, key, first, n, d) && c < d && l.max > 0
    requires Step(l, s, FreshWrite(first + n, s.cached[key], c, d), s')
    ensures key in s'.cached ==> Besieged(l, s', key, first, n + 1, d)
  {
    var op := FreshWrite(first + n, s.cached[key], c, d);
    var e :| MakesRoom(s, e, c, l.max) && s' == AfterRoom(l, e, op);
    FreshStay(l, s, e, key, first, n, c, d);
    if key in s'.cached {
      FreshIsStored(l, e, key, first, n, s.cached[key], c, d);
    }
  }

  lemma RunOneMore<V(!new)>(l: Limits, states: seq<Store<V>>, ops: seq<Op<V>>, op: Op<V>, s: Store<V>)
    requires Run(l, states, ops) && Step(l, states[|ops|], op, s)
    ensures Run(l, states + [s], ops + [op])
  {
    forall i | 0 <= i < |ops + [op]| ensures StepAt(l, states + [s], ops + [op], i) {
      if i < |ops| {
        assert StepAt(l, states, ops, i);
        SameStep(l, states, ops, i, states + [s], ops + [op], i);
      }
    }
  }

  lemma SameStep<V(!new)>(l: Limits, states: seq<Store<V>>, ops: seq<Op<V>>, i: nat, states': seq<Store<V>>,
                          ops': seq<Op<V>>, j: nat)
    requires i < |ops| < |states| && j < |ops'| < |states'|
    requires states[i] == states'[j] && ops[i] == ops'[j] && states[i + 1] == states'[j + 1]
    ensures StepAt(l, states, ops, i) == StepAt(l, states', ops', j)
  {
  }

  lemma RunFrom<V(!new)>(l: Limits, s: Store<V>, op: Op<V>, states: seq<Store<V>>, ops: seq<Op<V>>)
    requires Run(l, states, ops) && Step(l, s, op, states[0])
    ensures Run(l, [s] + states, [op] + ops) && ([s] + states)[|ops| + 1] == states[|ops|]
  {
    var states', ops' := [s] + states, [op] + ops;
    forall i | 0 <= i < |ops'| ensures StepAt(l, states', ops', i) {
      if i > 0 {
        assert StepAt(l, states, ops, i - 1);
        SameStep(l, states, ops, i - 1, states', ops', i);
      }
    }
  }

  /** A write of another key at time `now`. */
  predicate WritesOther<V>(op: Op<V>, key: string, now: real) {
    op.Set? && op.key != key && op.t == Clock(now, now, now)
  }

  lemma SiegeStep<V(!new)>(l: Limits, s: Store<V>, key: string, first: nat, n: nat, c: real, d: real)
    returns (op: Op<V>, s': Store<V>)
    requires Besieged(l, s, key, first, n, d) && c < d && l.max > 0
    ensures Step(l, s, op, s') && WritesOther(op, key, c)
    ensures key in s'.cached ==> Besieged(l, s', key, first, n + 1, d) && n + 1 < l.max
  {
    op := FreshWrite(first + n, s.cached[key], c, d);
    s' := StepExists(l, s, op);
    OneMoreFresh(l, s, s', key, first, n, c, d);
    if key in s'.cached {
      FreshAreMany(s', key, first, n + 1, d);
    }
  }

  lemma {:induction false} Siege<V(!new)>(l: Limits, s: Store<V>, key: string, first: nat, n: nat, c: real, d: real)
    returns (states: seq<Store<V>>, ops: seq<Op<V>>)
    requires Besieged(l, s, key, first, n, d) && c < d && n < l.max
    ensures Run(l, states, ops) && states[0] == s && |ops| <= l.max - n
    ensures forall i :: 0 <= i < |ops| ==> WritesOther(ops[i], key, c)
    ensures key !in states[|ops|].cached
    decreases l.max - n
  {
    var op, s' := SiegeStep(l, s, key, first, n, c, d);
    if key in s'.cached {
      states, ops := Siege(l, s', key, first, n + 1, c, d);
    } else {
      states, ops := [s'], [];
    }
    RunFrom(l, s, op, states, ops);
    states, ops := [s] + states, [op] + ops;
  }

  /** The promise that an item stays for its time to live whatever else is cached fails from
      every store and at every time before the item's deadline: `max` writes of other keys at
      that time evict it. */
  lemma NoItemIsSafe<V(!new)>(l: Limits, s: Store<V>, key: string, now: real)
    returns (states: seq<Store<V>>, ops: seq<Op<V>>)
    requires Consistent(s) && |s.cached| <= l.max && key in s.cached && now <= s.ttl[key]
    ensures Run(l, states, ops) && states[0] == s && |ops| <= l.max
    ensures forall i :: 0 <= i < |ops| ==> WritesOther(ops[i], key, now)
    ensures Answer(states[|ops|], key, now) == None
  {
    var first := LongerThan(s.cached.Keys);
    assert s.cached != map[];
    states, ops := Siege(l, s, key, first, 0, now, s.ttl[key] + 1.0);
  }

  lemma FreshAreMany<V>(s: Store<V>, key: string, first: nat, n: nat, d: real)
    requires HoldsFresh(s, first, n, d) && key in s.cached && |key| < first
    ensures n < |s.cached|
  {
    var keys := NewKeys(first, n);
    ProperSubsetIsSmaller(keys, s.cached.Keys, key);
  }

  ghost function NewKeys(first: nat, n: nat): (r: set<string>)
    ensures |r| == n && forall k :: k in r <==> first <= |k| < first + n && k == NewKey(|k|)
  {
    if n == 0 then {} else NewKeys(first, n - 1) + {NewKey(first + n - 1)}
  }
}
