/** The priority scheduler over its two-layer cache. */
module Scheduler {
  import opened Heapq
  import opened MixedHeap
  import opened Options
  import opened Sequences
  import opened DualCache
  import W = WaitingQueue

  datatype Outcome = Done | Raised | TypeError | Answer(value: bool)

  /** What can happen to a queue: a step of the scheduler at a time `now`, where `evicted` says
      whether saving it found memory full and evicted the queue first; memory dropping it to
      make room for another (`Drop`); or another process, or Redis itself, changing what Redis
      holds (`Other`). */
  datatype Op =
    | Add(item: W.FlowItem, now: real, evicted: bool)
    | Poll(id: string, healthy: nat, now: real)
    | Peek(id: string, now: real)
    | Drop
    | Other(content: Option<Copy>)

  function QueueKey(model: string): string {
    "scheduler:queue:" + model
  }

  predicate Reads(op: Op) {
    op.Add? || op.Poll? || op.Peek?
  }

  predicate Admits(q: seq<Item>, op: Op) {
    op.Poll? && op.healthy == 0 && q != [] && q[0].entry.id == op.id
  }

  /** What a step does to the list in hand. */
  function Change(q: seq<Item>, op: Op): Sifted
    requires Reads(op)
  {
    if op.Add? then TryPush(q, Item(W.ItemEntry(op.item), false))
    else if Admits(q, op) then TryPop(q)
    else Sifted(q, true)
  }

  function Verdict(q: seq<Item>, op: Op, ok: bool): Outcome
    requires Reads(op)
  {
    if !ok then TypeError
    else if op.Add? then Done
    else if q == [] then Raised
    else if op.Peek? || op.healthy == 0 then Answer(q[0].entry.id == op.id)
    else Answer(true)
  }

  // ---------- one queue ----------

  function Found(setup: Setup, s: Layered, op: Op): seq<Item>
    requires Reads(op)
  {
    InHand(Fetch(setup, s, op.now))
  }

  /** What a step leaves of a queue. A push that raises is not saved; no pop is. */
  function Next(setup: Setup, s: Layered, op: Op): Layered {
    if op.Drop? then s.(memory := None)
    else if op.Other? then s.(redis := op.content)
    else Settle(setup, Fetch(setup, s, op.now), op, Change(Found(setup, s, op), op))
  }

  function Settle(setup: Setup, f: Layered, op: Op, r: Sifted): Layered
    requires Reads(op)
  {
    var m := Mutate(f, r.items);
    if op.Add? && r.ok then Save(setup, m, r.items, op.now, op.evicted) else m
  }

  function OutcomeOf(setup: Setup, s: Layered, op: Op): Outcome {
    if !Reads(op) then Done else Verdict(Found(setup, s, op), op, Change(Found(setup, s, op), op).ok)
  }

  // ---------- all queues ----------

  function ListAt(c: Cache, key: string): seq<Item> {
    if key in c.lists then c.lists[key] else []
  }

  /** What a step on one key leaves of the whole cache. */
  function NextCache(setup: Setup, c: Cache, key: string, op: Op): Cache {
    match op
    case Drop => Forget(c, key)
    case Other(content) =>
      c.(redis := if content.Some? then c.redis[key := content.value] else c.redis - {key})
    case _ =>
      var f := FetchKey(setup, c, key, op.now);
      SettleCache(setup, f, key, op, Change(ListAt(f, key), op))
  }

  function SettleCache(setup: Setup, f: Cache, key: string, op: Op, r: Sifted): Cache
    requires Reads(op)
  {
    var m := MutateKey(f, key, r.items);
    if op.Add? && r.ok then SaveKey(setup, m, key, r.items, op.now) else m
  }

  // ---------- the object ----------

  class Scheduler {
    const cache: DualCache

    constructor (cache: DualCache)
      ensures this.cache == cache
    {
      this.cache := cache;
    }

    method GetQueue(model: string, now: real) returns (queue: PyList)
      requires cache.Valid()
      modifies cache
      ensures cache.Valid()
      ensures cache.Contents() == FetchKey(cache.setup, old(cache.Contents()), QueueKey(model), now)
      ensures queue.items == ListAt(cache.Contents(), QueueKey(model))
      ensures if QueueKey(model) in cache.memory then queue == cache.memory[QueueKey(model)] else fresh(queue)
      ensures forall k :: k in cache.memory && k != QueueKey(model) ==> cache.memory[k] != queue
      ensures fresh(queue) || queue in old(cache.memory.Values)
    {
      var response := cache.AsyncGetCache(QueueKey(model), now);
      if response == null {
        queue := new PyList([]);
      } else {
        queue := response;
      }
    }

    method SaveQueue(queue: PyList, model: string, now: real)
      requires cache.Valid() && forall k :: k in cache.memory && k != QueueKey(model) ==> cache.memory[k] != queue
      modifies cache
      ensures cache.Valid()
      ensures cache.Contents() == SaveKey(cache.setup, old(cache.Contents()), QueueKey(model), queue.items, now)
    {
      cache.AsyncSetCache(QueueKey(model), queue, now);
    }

    /** Changes the list that the cache handed out, in place. */
    method Replace(queue: PyList, items: seq<Item>, model: string)
      requires cache.Valid() && (QueueKey(model) in cache.memory ==> queue == cache.memory[QueueKey(model)])
      requires forall k :: k in cache.memory && k != QueueKey(model) ==> cache.memory[k] != queue
      modifies queue
      ensures queue.items == items
      ensures cache.Contents() == MutateKey(old(cache.Contents()), QueueKey(model), items)
    {
      queue.items := items;
    }

    method AddRequest(request: W.FlowItem, now: real) returns (r: Outcome)
      requires cache.Valid()
      modifies cache, cache.memory.Values
      ensures cache.Valid()
      ensures var c, key, op := old(cache.Contents()), QueueKey(request.modelName), Add(request, now, false);
        && cache.Contents() == NextCache(cache.setup, c, key, op)
        && r == Verdict(ListAt(FetchKey(cache.setup, c, key, now), key), op,
                        Change(ListAt(FetchKey(cache.setup, c, key, now), key), op).ok)
    {
      var queue := GetQueue(request.modelName, now);
      var pushed := TryPush(queue.items, Item(W.ItemEntry(request), false));
      Replace(queue, pushed.items, request.modelName);
      if !pushed.ok {
        return TypeError;
      }
      SaveQueue(queue, request.modelName, now);
      return Done;
    }

    method PollQueue(id: string, model: string, healthy: nat, now: real) returns (r: Outcome)
      requires cache.Valid()
      modifies cache, cache.memory.Values
      ensures cache.Valid()
      ensures var c, key, op := old(cache.Contents()), QueueKey(model), Poll(id, healthy, now);
        && cache.Contents() == NextCache(cache.setup, c, key, op)
        && r == Verdict(ListAt(FetchKey(cache.setup, c, key, now), key), op,
                        Change(ListAt(FetchKey(cache.setup, c, key, now), key), op).ok)
      ensures var q := old(ListAt(FetchKey(cache.setup, cache.Contents(), QueueKey(model), now), QueueKey(model)));
        r == if q == [] then Raised
             else if healthy > 0 then Answer(true)
             else if q[0].entry.id != id then Answer(false)
             else if TryPop(q).ok then Answer(true)
             else TypeError
    {
      var queue := GetQueue(model, now);
      MutateSame(cache.Contents(), QueueKey(model));
      if queue.items == [] {
        return Raised;
      }
      if healthy == 0 {
        if queue.items[0].entry.id == id {
          var popped := TryPop(queue.items);
          Replace(queue, popped.items, model);
          return if popped.ok then Answer(true) else TypeError;
        }
        return Answer(false);
      }
      return Answer(true);
    }

    method PeekQueue(id: string, model: string, now: real) returns (r: Outcome)
      requires cache.Valid()
      modifies cache
      ensures cache.Valid()
      ensures var c, key, op := old(cache.Contents()), QueueKey(model), Peek(id, now);
        && cache.Contents() == NextCache(cache.setup, c, key, op)
        && r == Verdict(ListAt(FetchKey(cache.setup, c, key, now), key), op, true)
      ensures var q := old(ListAt(FetchKey(cache.setup, cache.Contents(), QueueKey(model), now), QueueKey(model)));
        r == if q == [] then Raised else Answer(q[0].entry.id == id)
    {
      var queue := GetQueue(model, now);
      MutateSame(cache.Contents(), QueueKey(model));
      if queue.items == [] {
        return Raised;
      }
      return Answer(queue.items[0].entry.id == id);
    }
  }

  lemma MutateSame(c: Cache, key: string)
    ensures MutateKey(c, key, ListAt(c, key)) == c
  {
    if key in c.lists {
      assert c.lists[key := c.lists[key]] == c.lists;
    }
  }

  // ---------- one queue among all ----------

  /** Whether saving a queue finds memory full and evicts that queue first. */
  predicate EvictsItself(setup: Setup, c: Cache, key: string, op: Op) {
    op.Add? && Evicts(setup, FetchKey(setup, c, key, op.now), key, op.now)
  }

  /** The step as the queue itself sees it. */
  function Seen(setup: Setup, c: Cache, key: string, op: Op): Op {
    if op.Add? then op.(evicted := EvictsItself(setup, c, key, op)) else op
  }

  /** Whether a step on one key evicts another from memory: installing a list, or saving one,
      finds memory full. */
  predicate EvictsOther(setup: Setup, c: Cache, key: string, op: Op, k: string) {
    Reads(op) &&
    var f := FetchKey(setup, c, key, op.now);
    FetchEvicts(setup, c, key, op.now, k) ||
    (op.Add? && Change(ListAt(f, key), op).ok && Evicts(setup, f, k, op.now))
  }

  lemma MutateAt(setup: Setup, c: Cache, key: string, items: seq<Item>, k: string)
    requires WellFormed(setup, c)
    ensures var m := MutateKey(c, key, items);
      && WellFormed(setup, m) && At(m, k) == (if k == key then Mutate(At(c, k), items) else At(c, k))
      && m.deadlines == c.deadlines
  {
    if key in c.lists {
      assert c.lists[key := items].Keys == c.lists.Keys;
    }
  }

  lemma SameEvictions(setup: Setup, c: Cache, m: Cache, k: string, now: real)
    requires m.deadlines == c.deadlines
    ensures Evicts(setup, m, k, now) == Evicts(setup, c, k, now)
  {
  }

  lemma SettleAt(setup: Setup, f: Cache, key: string, op: Op, r: Sifted, k: string)
    requires WellFormed(setup, f) && Reads(op)
    ensures var n := SettleCache(setup, f, key, op, r);
      && WellFormed(setup, n)
      && At(n, k) ==
         if k == key then
           Settle(setup, At(f, k), if op.Add? then op.(evicted := Evicts(setup, f, key, op.now)) else op, r)
         else if op.Add? && r.ok && Evicts(setup, f, k, op.now) then At(f, k).(memory := None)
         else At(f, k)
  {
    var m := MutateKey(f, key, r.items);
    MutateAt(setup, f, key, r.items, k);
    if op.Add? && r.ok {
      SameEvictions(setup, f, m, k, op.now);
      SaveAt(setup, m, key, r.items, op.now, k);
    }
  }

  lemma FoundAt(setup: Setup, c: Cache, key: string, op: Op)
    requires WellFormed(setup, c) && Reads(op)
    ensures ListAt(FetchKey(setup, c, key, op.now), key) == Found(setup, At(c, key), op)
  {
    FetchAt(setup, c, key, op.now, key);
  }

  lemma ReadAt(setup: Setup, c: Cache, key: string, op: Op, k: string)
    requires WellFormed(setup, c) && Reads(op)
    ensures var n := NextCache(setup, c, key, op);
      && WellFormed(setup, n)
      && At(n, k) == if k == key then Next(setup, At(c, k), Seen(setup, c, key, op))
                     else if EvictsOther(setup, c, key, op, k) then At(c, k).(memory := None) else At(c, k)
  {
    var f := FetchKey(setup, c, key, op.now);
    var r := Change(ListAt(f, key), op);
    FoundAt(setup, c, key, op);
    FetchAt(setup, c, key, op.now, k);
    SettleAt(setup, f, key, op, r, k);
  }

  /** A step on one queue is what Next says of that queue; and it touches another queue if and
      only if it finds memory full and evicts it there. */
  lemma StepAt(setup: Setup, c: Cache, key: string, op: Op, k: string)
    requires WellFormed(setup, c) && (op.Other? ==> setup.redis)
    ensures var n := NextCache(setup, c, key, op);
      && WellFormed(setup, n)
      && At(n, k) == if k == key then Next(setup, At(c, k), Seen(setup, c, key, op))
                     else if EvictsOther(setup, c, key, op, k) then At(c, k).(memory := None) else At(c, k)
  {
    if Reads(op) {
      ReadAt(setup, c, key, op, k);
    }
  }

  /** What each method answers is what OutcomeOf says of its own queue. */
  lemma OutcomeAt(setup: Setup, c: Cache, key: string, op: Op)
    requires WellFormed(setup, c) && Reads(op)
    ensures var q := ListAt(FetchKey(setup, c, key, op.now), key);
      OutcomeOf(setup, At(c, key), op) == Verdict(q, op, Change(q, op).ok)
  {
    FoundAt(setup, c, key, op);
  }

  datatype Step = Step(model: string, op: Op)

  function CacheAfter(setup: Setup, c: Cache, steps: seq<Step>): Cache
    decreases steps
  {
    if steps == [] then c
    else CacheAfter(setup, NextCache(setup, c, QueueKey(steps[0].model), steps[0].op), steps[1..])
  }

  function After(setup: Setup, s: Layered, ops: seq<Op>): Layered
    decreases ops
  {
    if ops == [] then s else After(setup, Next(setup, s, ops[0]), ops[1..])
  }

  /** A run on many models as one of them sees it: its own steps, and a drop wherever another
      model's step evicts it from memory. */
  function Projected(setup: Setup, c: Cache, steps: seq<Step>, model: string): seq<Op>
    decreases steps
  {
    if steps == [] then []
    else
      var key, op := QueueKey(steps[0].model), steps[0].op;
      (if steps[0].model == model then [Seen(setup, c, key, op)]
       else if EvictsOther(setup, c, key, op, QueueKey(model)) then [Drop] else [])
      + Projected(setup, NextCache(setup, c, key, op), steps[1..], model)
  }

  lemma KeysDiffer(a: string, b: string)
    requires a != b
    ensures QueueKey(a) != QueueKey(b)
  {
    assert QueueKey(a)[16..] == a && QueueKey(b)[16..] == b;
  }

  lemma {:induction false} AfterBoth(setup: Setup, s: Layered, a: seq<Op>, b: seq<Op>)
    ensures After(setup, s, a + b) == After(setup, After(setup, s, a), b)
    decreases a
  {
    if a == [] {
      assert a + b == b;
    } else {
      assert (a + b)[0] == a[0] && (a + b)[1..] == a[1..] + b;
      AfterBoth(setup, Next(setup, s, a[0]), a[1..], b);
    }
  }

  lemma AfterOne(setup: Setup, s: Layered, op: Op)
    ensures After(setup, s, [op]) == Next(setup, s, op)
  {
    assert [op][1..] == [];
  }

  /** However steps on many models interleave, each queue develops by its own steps and by the
      drops that full memory inflicts on it, and nothing else. */
  lemma {:induction false} RunsAreLocal(setup: Setup, c: Cache, steps: seq<Step>, model: string)
    requires WellFormed(setup, c) && forall step :: step in steps && step.op.Other? ==> setup.redis
    ensures At(CacheAfter(setup, c, steps), QueueKey(model))
         == After(setup, At(c, QueueKey(model)), Projected(setup, c, steps, model))
    decreases steps
  {
    if steps != [] {
      assert steps[0] in steps;
      var key, op, own := QueueKey(steps[0].model), steps[0].op, QueueKey(model);
      var n := NextCache(setup, c, key, op);
      var rest := Projected(setup, n, steps[1..], model);
      StepAt(setup, c, key, op, own);
      RunsAreLocal(setup, n, steps[1..], model);
      if steps[0].model == model {
        AfterOne(setup, At(c, own), Seen(setup, c, key, op));
        AfterBoth(setup, At(c, own), [Seen(setup, c, key, op)], rest);
      } else {
        KeysDiffer(steps[0].model, model);
        AfterOne(setup, At(c, own), Drop);
        AfterBoth(setup, At(c, own), [Drop], rest);
        assert [] + rest == rest;
      }
    }
  }

  /** The steps of a run on one model. */
  function OpsOf(steps: seq<Step>, model: string): seq<Op> {
    if steps == [] then []
    else (if steps[0].model == model then [steps[0].op] else []) + OpsOf(steps[1..], model)
  }

  /** No step finds memory so full that it, or what it installs, could evict anything. */
  predicate Roomy(setup: Setup, c: Cache, steps: seq<Step>)
    decreases steps
  {
    steps == [] ||
    (&& |c.deadlines| + 1 < setup.max
     && Roomy(setup, NextCache(setup, c, QueueKey(steps[0].model), steps[0].op), steps[1..]))
  }

  lemma FetchGrowsByOne(setup: Setup, c: Cache, key: string, now: real)
    requires WellFormed(setup, c) && |c.deadlines| < setup.max
    ensures |ExpireKey(c, key, now).deadlines| <= |c.deadlines|
    ensures |FetchKey(setup, c, key, now).deadlines| <= |c.deadlines| + 1
  {
    var e := ExpireKey(c, key, now);
    Memory.SizeWithout(c.deadlines, key);
    NothingEvicted(setup, e, now);
    Memory.SizeWith(e.deadlines, key, now + setup.ttl);
  }

  lemma NothingEvictedWithRoom(setup: Setup, c: Cache, key: string, op: Op, k: string)
    requires WellFormed(setup, c) && |c.deadlines| + 1 < setup.max
    ensures !EvictsOther(setup, c, key, op, k) && !EvictsItself(setup, c, key, op)
  {
    if Reads(op) {
      FetchGrowsByOne(setup, c, key, op.now);
    }
  }

  /** As long as memory has room, the models' queues do not touch one another at all. */
  lemma {:induction false} RoomyRunsAreSeparate(setup: Setup, c: Cache, steps: seq<Step>, model: string)
    requires WellFormed(setup, c) && Roomy(setup, c, steps)
    requires forall step :: step in steps ==> (step.op.Add? ==> !step.op.evicted) && (step.op.Other? ==> setup.redis)
    ensures Projected(setup, c, steps, model) == OpsOf(steps, model)
    decreases steps
  {
    if steps != [] {
      assert steps[0] in steps;
      var key, op := QueueKey(steps[0].model), steps[0].op;
      StepAt(setup, c, key, op, key);
      NothingEvictedWithRoom(setup, c, key, op, QueueKey(model));
      RoomyRunsAreSeparate(setup, NextCache(setup, c, key, op), steps[1..], model);
      assert Seen(setup, c, key, op) == op;
    }
  }

  // ---------- heaps and TypeErrors ----------

  ghost predicate AllOf(h: seq<Item>, decoded: bool) {
    h == Tag(Untag(h), decoded)
  }

  /** The list in memory holds tuples only or decoded lists only, and both layers are heaps. */
  ghost predicate Good(s: Layered) {
    && (s.memory.Some? ==>
          var h := s.memory.value.items; IsHeap(Untag(h)) && (AllOf(h, false) || AllOf(h, true)))
    && (s.redis.Some? ==> IsHeap(s.redis.value.entries))
  }

  /** An add that finds a list which came back from Redis and is not empty. */
  predicate AddsToReloaded(setup: Setup, s: Layered, op: Op) {
    op.Add? && Found(setup, s, op) != [] && Found(setup, s, op)[0].decoded
  }

  lemma FetchKeepsGood(setup: Setup, s: Layered, now: real)
    requires Good(s)
    ensures Good(Fetch(setup, s, now))
  {
    if s.redis.Some? {
      TagUntag(s.redis.value.entries, true);
    }
  }

  lemma FoundIsUniform(setup: Setup, s: Layered, op: Op) returns (q: seq<Entry>, decoded: bool)
    requires Good(s) && Reads(op)
    ensures IsHeap(q) && Found(setup, s, op) == Tag(q, decoded)
  {
    FetchKeepsGood(setup, s, op.now);
    var h := Found(setup, s, op);
    q, decoded := Untag(h), !AllOf(h, false);
    assert h == [] ==> h == Tag([], false);
  }

  lemma ChangeRaisesIff(q: seq<Entry>, decoded: bool, op: Op)
    requires Reads(op)
    ensures !Change(Tag(q, decoded), op).ok <==> op.Add? && q != [] && decoded
  {
    if op.Add? {
      PushRaisesIff(q, decoded, W.ItemEntry(op.item));
    } else if q != [] {
      UniformPop(q, decoded);
    }
  }

  /** A step raises a TypeError if and only if it is such an add: polls never do. */
  lemma TypeErrorIff(setup: Setup, s: Layered, op: Op)
    requires Good(s)
    ensures OutcomeOf(setup, s, op) == TypeError <==> AddsToReloaded(setup, s, op)
  {
    if Reads(op) {
      var q, decoded := FoundIsUniform(setup, s, op);
      ChangeRaisesIff(q, decoded, op);
    }
  }

  /** On a list of one kind that an add does not find as a nonempty decoded one, a step is the
      step on the plain list, and an add leaves tuples. */
  lemma UniformChange(q: seq<Entry>, decoded: bool, op: Op)
    requires Reads(op) && (op.Add? && decoded ==> q == [])
    ensures Change(Tag(q, decoded), op) == Sifted(Tag(W.NextQueue(q, Plain(op)), decoded && !op.Add?), true)
  {
    if op.Add? {
      assert Tag(q, decoded) == Tag(q, false);
      UniformPush(q, false, W.ItemEntry(op.item));
    } else if q != [] {
      UniformPop(q, decoded);
    }
  }

  lemma SettleKeepsGood(setup: Setup, f: Layered, op: Op, q: seq<Entry>, decoded: bool)
    requires Good(f) && Reads(op) && IsHeap(q)
    ensures Good(Settle(setup, f, op, Sifted(Tag(q, decoded), true)))
  {
    TagUntag(q, decoded);
  }

  lemma StepKeepsGood(setup: Setup, s: Layered, op: Op)
    requires Good(s) && !AddsToReloaded(setup, s, op)
    requires op.Other? && op.content.Some? ==> IsHeap(op.content.value.entries)
    ensures Good(Next(setup, s, op))
  {
    if Reads(op) {
      var q, decoded := FoundIsUniform(setup, s, op);
      FetchKeepsGood(setup, s, op.now);
      UniformChange(q, decoded, op);
      W.NextQueueKeepsHeap(q, Plain(op));
      SettleKeepsGood(setup, Fetch(setup, s, op.now), op, W.NextQueue(q, Plain(op)), decoded && !op.Add?);
    }
  }

  /** No add of a run finds a nonempty list that came back from Redis, and what others put
      into Redis are heaps. */
  ghost predicate NeverAddsToReloaded(setup: Setup, s: Layered, ops: seq<Op>)
    decreases ops
  {
    ops == [] ||
    (&& !AddsToReloaded(setup, s, ops[0])
     && (ops[0].Other? && ops[0].content.Some? ==> IsHeap(ops[0].content.value.entries))
     && NeverAddsToReloaded(setup, Next(setup, s, ops[0]), ops[1..]))
  }

  /** In every state that such a run can reach, both layers hold binary min-heaps; by the exact
      condition above, the first step that breaks this is an add that raises. */
  lemma {:induction false} RunKeepsHeaps(setup: Setup, s: Layered, ops: seq<Op>)
    requires Good(s) && NeverAddsToReloaded(setup, s, ops)
    ensures Good(After(setup, s, ops))
    decreases ops
  {
    if ops != [] {
      StepKeepsGood(setup, s, ops[0]);
      RunKeepsHeaps(setup, Next(setup, s, ops[0]), ops[1..]);
    }
  }

  // ---------- while the queue stays in memory ----------

  /** Memory has the queue, if it has it, as the tuples that were added. */
  ghost predicate Live(s: Layered) {
    s.memory.Some? ==> AllOf(s.memory.value.items, false)
  }

  function Queue(s: Layered): seq<Entry> {
    Untag(InHand(s))
  }

  predicate Expires(s: Layered, op: Op) {
    Reads(op) && s.memory.Some? && op.now > s.memory.value.deadline
  }

  /** A step that takes the queue from Redis. */
  predicate Reloads(s: Layered, op: Op) {
    Reads(op) && (s.memory.None? || Expires(s, op)) && Answered(s.redis, op.now).Some?
  }

  function Plain(op: Op): W.Op
    requires !op.Other?
  {
    match op
    case Add(item, _, _) => W.Add(item)
    case Poll(id, healthy, _) => W.Poll(id, healthy)
    case Peek(id, _) => W.Peek(id)
    case Drop => W.Lose
  }

  /** The step on a plain list; expiry is the list being lost first. */
  function Untimed(s: Layered, op: Op): seq<W.Op> {
    if op.Other? then [] else if Expires(s, op) then [W.Lose, Plain(op)] else [Plain(op)]
  }

  function Lift(o: W.Outcome): Outcome {
    match o
    case Done => Done
    case Raised => Raised
    case Answer(b) => Answer(b)
  }

  /** The queue that a step finds if nothing is reloaded. */
  function Waiting(s: Layered, op: Op): seq<Entry> {
    if Expires(s, op) then [] else Queue(s)
  }

  lemma RunOfOne(q: seq<Entry>, op: W.Op)
    ensures W.QueueAfter(q, [op]) == W.NextQueue(q, op)
  {
    assert [op][1..] == [];
  }

  lemma UntimedRuns(s: Layered, op: Op)
    requires !op.Other?
    ensures W.QueueAfter(Queue(s), Untimed(s, op)) == W.NextQueue(Waiting(s, op), Plain(op))
  {
    RunOfOne(Waiting(s, op), Plain(op));
    if Expires(s, op) {
      RunOfOne(Queue(s), W.Lose);
      W.QueueAfterBoth(Queue(s), [W.Lose], [Plain(op)]);
      assert Untimed(s, op) == [W.Lose] + [Plain(op)];
    }
  }

  lemma FetchIsLive(setup: Setup, s: Layered, op: Op)
    requires Live(s) && Reads(op) && !Reloads(s, op)
    ensures var f := Fetch(setup, s, op.now);
      f == Expire(s, op.now) && Live(f) && InHand(f) == Tag(Waiting(s, op), false)
  {
  }

  lemma SettleIsLive(setup: Setup, f: Layered, op: Op, q: seq<Entry>)
    requires Live(f) && Reads(op) && (f.memory.None? && !op.Add? ==> q == [])
    ensures var n := Settle(setup, f, op, Sifted(Tag(q, false), true));
      && Live(n) && Queue(n) == q
      && n.redis == if op.Add? && setup.redis then Some(Copy(q, op.now + setup.redisTtl)) else f.redis
  {
    TagUntag(q, false);
  }

  lemma ReadIsLive(setup: Setup, s: Layered, op: Op)
    requires Live(s) && Reads(op) && !Reloads(s, op)
    ensures var n, q := Next(setup, s, op), W.NextQueue(Waiting(s, op), Plain(op));
      && Live(n) && Queue(n) == q
      && n.redis == if op.Add? && setup.redis then Some(Copy(q, op.now + setup.redisTtl)) else s.redis
  {
    FetchIsLive(setup, s, op);
    UniformChange(Waiting(s, op), false, op);
    SettleIsLive(setup, Fetch(setup, s, op.now), op, W.NextQueue(Waiting(s, op), Plain(op)));
  }

  lemma AnswerIsLive(setup: Setup, s: Layered, op: Op)
    requires Live(s) && Reads(op) && !Reloads(s, op)
    ensures OutcomeOf(setup, s, op) == Lift(W.OutcomeOn(Waiting(s, op), Plain(op)))
  {
    FetchIsLive(setup, s, op);
    UniformChange(Waiting(s, op), false, op);
  }

  /** As long as nothing is reloaded, a step on the two-layer cache is a step on the plain list:
      same queue, same answer, no TypeError. */
  lemma StepIsLive(setup: Setup, s: Layered, op: Op)
    requires Live(s) && !Reloads(s, op)
    ensures Live(Next(setup, s, op))
    ensures Queue(Next(setup, s, op)) == W.QueueAfter(Queue(s), Untimed(s, op))
    ensures Reads(op) ==> OutcomeOf(setup, s, op) == Lift(W.OutcomeOn(Waiting(s, op), Plain(op)))
  {
    if !op.Other? {
      UntimedRuns(s, op);
    }
    if Reads(op) {
      ReadIsLive(setup, s, op);
      AnswerIsLive(setup, s, op);
    }
  }

  ghost predicate NeverReloads(setup: Setup, s: Layered, ops: seq<Op>)
    decreases ops
  {
    ops == [] || (!Reloads(s, ops[0]) && NeverReloads(setup, Next(setup, s, ops[0]), ops[1..]))
  }

  function UntimedRun(setup: Setup, s: Layered, ops: seq<Op>): seq<W.Op>
    decreases ops
  {
    if ops == [] then [] else Untimed(s, ops[0]) + UntimedRun(setup, Next(setup, s, ops[0]), ops[1..])
  }

  /** Every run without a reload is a run on the plain list, to which all that is proved of the
      waiting queue applies. */
  lemma {:induction false} RunIsLive(setup: Setup, s: Layered, ops: seq<Op>)
    requires Live(s) && NeverReloads(setup, s, ops)
    ensures Live(After(setup, s, ops))
    ensures Queue(After(setup, s, ops)) == W.QueueAfter(Queue(s), UntimedRun(setup, s, ops))
    decreases ops
  {
    if ops != [] {
      StepIsLive(setup, s, ops[0]);
      RunIsLive(setup, Next(setup, s, ops[0]), ops[1..]);
      W.QueueAfterBoth(Queue(s), Untimed(s, ops[0]), UntimedRun(setup, Next(setup, s, ops[0]), ops[1..]));
    }
  }

  /** Without Redis, the scheduler's default, no run ever reloads. */
  lemma {:induction false} MemoryNeverReloads(setup: Setup, s: Layered, ops: seq<Op>)
    requires !setup.redis && s.redis.None? && forall op :: op in ops ==> !op.Other?
    ensures NeverReloads(setup, s, ops)
    decreases ops
  {
    if ops != [] {
      assert ops[0] in ops;
      MemoryNeverReloads(setup, Next(setup, s, ops[0]), ops[1..]);
    }
  }

  // ---------- when the memory layer drops the queue ----------

  /** All steps come while the memory layer keeps the queue, or happen in Redis. */
  ghost predicate StaysResident(setup: Setup, s: Layered, ops: seq<Op>)
    decreases ops
  {
    s.memory.Some? &&
    (ops == [] ||
     (&& (ops[0].Other? || (Reads(ops[0]) && ops[0].now <= s.memory.value.deadline))
      && StaysResident(setup, Next(setup, s, ops[0]), ops[1..])))
  }

  /** However often a queue is saved, it keeps the deadline of its first save, unless a save
      finds memory full and evicts the queue itself. */
  lemma {:induction false} DeadlineStays(setup: Setup, s: Layered, ops: seq<Op>)
    requires StaysResident(setup, s, ops) && forall op :: op in ops && op.Add? ==> !op.evicted
    ensures var n := After(setup, s, ops); n.memory.Some? && n.memory.value.deadline == s.memory.value.deadline
    decreases ops
  {
    if ops != [] {
      assert ops[0] in ops;
      DeadlineStays(setup, Next(setup, s, ops[0]), ops[1..]);
    }
  }

  /** The requests that a run adds. */
  predicate AreAdds(ops: seq<Op>, items: seq<W.FlowItem>) {
    |ops| == |items| && forall i :: 0 <= i < |ops| ==> ops[i].Add? && ops[i].item == items[i]
  }

  lemma {:induction false} ResidentAdds(setup: Setup, s: Layered, ops: seq<Op>, items: seq<W.FlowItem>)
    requires AreAdds(ops, items) && StaysResident(setup, s, ops)
    ensures NeverReloads(setup, s, ops) && UntimedRun(setup, s, ops) == W.Adds(items)
    ensures After(setup, s, ops).memory.Some?
    decreases ops
  {
    if ops != [] {
      ResidentAdds(setup, Next(setup, s, ops[0]), ops[1..], items[1..]);
      assert W.Adds(items) == [W.Add(items[0])] + W.Adds(items[1..]);
    }
  }

  /** Nothing is in either layer. */
  const NOTHING := Layered(None, None)

  /** Requests are added to a queue that neither layer has, while memory keeps it. */
  ghost predicate AddsFromNothing(setup: Setup, ops: seq<Op>, items: seq<W.FlowItem>) {
    AreAdds(ops, items) && ops != [] && StaysResident(setup, Next(setup, NOTHING, ops[0]), ops[1..])
  }

  lemma AddsFromNothingAreLive(setup: Setup, ops: seq<Op>, items: seq<W.FlowItem>)
    requires AddsFromNothing(setup, ops, items)
    ensures NeverReloads(setup, NOTHING, ops) && UntimedRun(setup, NOTHING, ops) == W.Adds(items)
    ensures After(setup, NOTHING, ops).memory.Some?
  {
    ResidentAdds(setup, Next(setup, NOTHING, ops[0]), ops[1..], items[1..]);
    assert W.Adds(items) == [W.Add(items[0])] + W.Adds(items[1..]);
  }

  /** Over the two-layer cache: after requests have been added to a queue that neither layer has,
      and while memory keeps it, a poll without healthy deployments is true exactly for the id of
      a request that comes first by its priority number and then by its id. */
  lemma LeastRequestIsAdmitted(setup: Setup, ops: seq<Op>, items: seq<W.FlowItem>, id: string, now: real)
    requires AddsFromNothing(setup, ops, items)
    requires var n := After(setup, NOTHING, ops); n.memory.Some? ==> now <= n.memory.value.deadline
    ensures OutcomeOf(setup, After(setup, NOTHING, ops), Poll(id, 0, now))
         == Answer(exists m :: m in items && m.requestId == id && W.NoneBefore(items, m))
  {
    AddsFromNothingAreLive(setup, ops, items);
    RunIsLive(setup, NOTHING, ops);
    assert Queue(NOTHING) == [];
    AnswerIsLive(setup, After(setup, NOTHING, ops), Poll(id, 0, now));
    W.LeastRequestIsAdmitted(items, id);
  }

  lemma {:induction false} StaysWithoutRedis(setup: Setup, s: Layered, ops: seq<Op>)
    requires !setup.redis && s.redis.None? && forall op :: op in ops ==> !op.Other?
    ensures After(setup, s, ops).redis.None?
    decreases ops
  {
    if ops != [] {
      assert ops[0] in ops;
      StaysWithoutRedis(setup, Next(setup, s, ops[0]), ops[1..]);
    }
  }

  /** So a queue in steady use is dropped with every request in it when the first save's time
      to live has passed: the next poll of any of them raises. */
  lemma BusyQueueIsDropped(setup: Setup, s: Layered, ops: seq<Op>, id: string, healthy: nat, now: real)
    requires !setup.redis && s.redis.None? && StaysResident(setup, s, ops) && now > s.memory.value.deadline
    requires forall op :: op in ops ==> !op.Other? && (op.Add? ==> !op.evicted)
    ensures OutcomeOf(setup, After(setup, s, ops), Poll(id, healthy, now)) == Raised
    ensures Queue(Next(setup, After(setup, s, ops), Poll(id, healthy, now))) == []
  {
    DeadlineStays(setup, s, ops);
    StaysWithoutRedis(setup, s, ops);
  }

  /** Whether Redis answers at `now` with a queue that is not empty, from the times of the adds
      and from what others did to Redis alone; `before` is whether it did so at the start. */
  predicate Outlives(setup: Setup, ops: seq<Op>, now: real, before: bool)
    decreases ops
  {
    if ops == [] then before
    else
      var still :=
        match ops[0]
        case Add(_, t, _) => now <= t + setup.redisTtl
        case Other(content) => HasEntries(content, now)
        case _ => before;
      Outlives(setup, ops[1..], now, still)
  }

  predicate HasEntries(copy: Option<Copy>, now: real) {
    Answered(copy, now).Some? && copy.value.entries != []
  }

  /** A step while memory keeps the queue. */
  lemma ResidentStep(setup: Setup, s: Layered, op: Op)
    requires setup.redis && Live(s) && StaysResident(setup, s, [op])
    ensures var n := Next(setup, s, op);
      && Live(n)
      && Queue(n) == (if op.Other? then Queue(s) else W.NextQueue(Queue(s), Plain(op)))
      && n.redis == (if op.Add? then Some(Copy(Queue(n), op.now + setup.redisTtl))
                     else if op.Other? then op.content else s.redis)
  {
    if Reads(op) {
      ReadIsLive(setup, s, op);
    }
  }

  lemma ResidentHead(setup: Setup, s: Layered, ops: seq<Op>)
    requires StaysResident(setup, s, ops) && ops != []
    ensures StaysResident(setup, s, [ops[0]])
  {
    assert [ops[0]][1..] == [];
  }

  lemma {:induction false} RedisOutlives(setup: Setup, s: Layered, ops: seq<Op>, now: real)
    requires setup.redis && Live(s) && StaysResident(setup, s, ops)
    ensures HasEntries(After(setup, s, ops).redis, now) <==> Outlives(setup, ops, now, HasEntries(s.redis, now))
    decreases ops
  {
    if ops != [] {
      var n := Next(setup, s, ops[0]);
      ResidentHead(setup, s, ops);
      ResidentStep(setup, s, ops[0]);
      RedisOutlives(setup, n, ops[1..], now);
    }
  }

  /** With Redis: an add after memory has dropped the queue raises if and only if Redis still has
      a queue to decode, because the last add, or another process, put one there within Redis's
      time to live; otherwise it starts a new queue, and all that waited is lost. */
  lemma AddAfterDeadline(setup: Setup, s: Layered, ops: seq<Op>, item: W.FlowItem, now: real, evicted: bool)
    requires setup.redis && Live(s) && StaysResident(setup, s, ops)
    requires var n := After(setup, s, ops); n.memory.Some? ==> now > n.memory.value.deadline
    ensures var n, add := After(setup, s, ops), Add(item, now, evicted);
      var raises := Outlives(setup, ops, now, HasEntries(s.redis, now));
      && OutcomeOf(setup, n, add) == (if raises then TypeError else Done)
      && (!raises ==> Queue(Next(setup, n, add)) == [W.ItemEntry(item)])
  {
    var n, add := After(setup, s, ops), Add(item, now, evicted);
    RedisOutlives(setup, s, ops, now);
    AddToAnswer(setup, n, add);
  }

  lemma AddToAnswer(setup: Setup, s: Layered, add: Op)
    requires add.Add? && (s.memory.Some? ==> add.now > s.memory.value.deadline)
    ensures OutcomeOf(setup, s, add) == if HasEntries(s.redis, add.now) then TypeError else Done
    ensures !HasEntries(s.redis, add.now) ==> Queue(Next(setup, s, add)) == [W.ItemEntry(add.item)]
  {
    var answer := Answered(s.redis, add.now).GetOr([]);
    assert Found(setup, s, add) == Tag(answer, true);
    PushRaisesIff(answer, true, W.ItemEntry(add.item));
    assert answer == [] ==> Tag(answer, true) == [];
  }

  /** Redis holds what memory holds. */
  ghost predicate Saved(s: Layered) {
    s.memory.Some? && AllOf(s.memory.value.items, false) && s.redis.Some? && s.redis.value.entries == Queue(s)
  }

  /** What a read finds after the memory layer has dropped the queue. */
  function Reloaded(setup: Setup, s: Layered, now: real): seq<Entry> {
    Queue(Fetch(setup, s.(memory := None), now))
  }

  predicate Holds(copy: Option<Copy>, e: Entry, now: real) {
    Answered(copy, now).Some? && e in copy.value.entries
  }

  /** Whether an entry that is not in the list in memory is in Redis's answer at `now`: an add
      saves the list without it, others decide for themselves. */
  predicate Returns(ops: seq<Op>, e: Entry, now: real, before: bool)
    decreases ops
  {
    if ops == [] then before
    else
      var still :=
        match ops[0]
        case Add(_, _, _) => false
        case Other(content) => Holds(content, e, now)
        case _ => before;
      Returns(ops[1..], e, now, still)
  }

  lemma NothingBrings(q: seq<Entry>, op: W.Op, e: Entry)
    requires e !in q && (op.Add? ==> W.ItemEntry(op.item) != e)
    ensures e !in W.NextQueue(q, op)
  {
    assert e !in multiset(q);
    assert e !in multiset(W.NextQueue(q, op));
  }

  lemma {:induction false} RedisReturns(setup: Setup, s: Layered, ops: seq<Op>, e: Entry, now: real)
    requires setup.redis && Live(s) && StaysResident(setup, s, ops) && e !in Queue(s)
    requires forall op :: op in ops && op.Add? ==> W.ItemEntry(op.item) != e
    ensures Holds(After(setup, s, ops).redis, e, now) <==> Returns(ops, e, now, Holds(s.redis, e, now))
    decreases ops
  {
    if ops != [] {
      assert ops[0] in ops;
      ResidentHead(setup, s, ops);
      ResidentStep(setup, s, ops[0]);
      if !ops[0].Other? {
        NothingBrings(Queue(s), Plain(ops[0]), e);
      }
      RedisReturns(setup, Next(setup, s, ops[0]), ops[1..], e, now);
    }
  }

  /** A poll that finds its request at the head of a saved queue with no other copy of it. */
  ghost predicate AdmitsSaved(setup: Setup, s: Layered, poll: Op) {
    && Saved(s) && StaysResident(setup, s, [poll]) && poll.Poll?
    && W.Admits(Queue(s), W.Poll(poll.id, poll.healthy)) && multiset(Queue(s))[Queue(s)[0]] == 1
  }

  lemma AdmissionIsNotSaved(setup: Setup, s: Layered, poll: Op)
    requires setup.redis && AdmitsSaved(setup, s, poll)
    ensures OutcomeOf(setup, s, poll) == Answer(true)
    ensures var n, e := Next(setup, s, poll), Queue(s)[0];
      Live(n) && e !in Queue(n) && n.redis == s.redis && e in s.redis.value.entries
  {
    var q := Queue(s);
    ReadIsLive(setup, s, poll);
    AnswerIsLive(setup, s, poll);
    assert multiset(q) == multiset(Pop(q)) + multiset{q[0]};
  }

  /** An entry that was admitted by dequeuing comes back when the memory layer drops the queue
      at `now` if and only if Redis still has a copy with it then: no add has saved the queue
      since, and the time to live of the save before the admission has not passed; unless others
      change what Redis holds. A poll does not save what it popped. */
  lemma AdmittedEntryReappearsIff(setup: Setup, s: Layered, poll: Op, ops: seq<Op>, now: real)
    requires setup.redis && AdmitsSaved(setup, s, poll) && StaysResident(setup, Next(setup, s, poll), ops)
    requires forall op :: op in ops && op.Add? ==> W.ItemEntry(op.item) != Queue(s)[0]
    ensures OutcomeOf(setup, s, poll) == Answer(true)
    ensures Queue(s)[0] in Reloaded(setup, After(setup, Next(setup, s, poll), ops), now)
        <==> Returns(ops, Queue(s)[0], now, now <= s.redis.value.deadline)
  {
    var n, e := Next(setup, s, poll), Queue(s)[0];
    AdmissionIsNotSaved(setup, s, poll);
    RedisReturns(setup, n, ops, e, now);
    ReloadedAnswer(setup, After(setup, n, ops), e, now);
  }

  lemma ReloadedAnswer(setup: Setup, s: Layered, e: Entry, now: real)
    ensures e in Reloaded(setup, s, now) <==> Holds(s.redis, e, now)
  {
    if s.redis.Some? {
      TagUntag(s.redis.value.entries, true);
    }
  }

  /** Without others, that is: no add since, and within the time to live. */
  lemma {:induction false} ReturnsAlone(ops: seq<Op>, e: Entry, now: real, before: bool)
    requires forall op :: op in ops ==> !op.Other?
    ensures Returns(ops, e, now, before) <==> before && forall op :: op in ops ==> !op.Add?
    decreases ops
  {
    if ops != [] {
      assert ops[0] in ops;
      ReturnsAlone(ops[1..], e, now, before && !ops[0].Add?);
    }
  }

  /** Polls of one request, the memory layer dropping the queue after each. */
  ghost function PollsAndDrops(id: string, times: seq<real>): seq<Op> {
    if times == [] then [] else [Poll(id, 0, times[0]), Drop] + PollsAndDrops(id, times[1..])
  }

  /** So the request at the head of what Redis holds is admitted again and again, however often
      memory drops the queue, exactly as long as Redis keeps its copy: no poll renews it. */
  lemma {:induction false} ReadmittedWhileKept(setup: Setup, s: Layered, times: seq<real>, now: real)
    requires s.memory.None? && s.redis.Some? && s.redis.value.entries != []
    ensures var id := s.redis.value.entries[0].id;
      && After(setup, s, PollsAndDrops(id, times)) == s
      && OutcomeOf(setup, s, Poll(id, 0, now)) == if now <= s.redis.value.deadline then Answer(true) else Raised
    decreases times
  {
    OneRound(setup, s, now);
    if times != [] {
      var id := s.redis.value.entries[0].id;
      var ops := PollsAndDrops(id, times);
      assert ops[0] == Poll(id, 0, times[0]) && ops[1..][0] == Drop;
      assert ops[1..][1..] == PollsAndDrops(id, times[1..]);
      OneRound(setup, s, times[0]);
      ReadmittedWhileKept(setup, s, times[1..], now);
    }
  }

  lemma OneRound(setup: Setup, s: Layered, now: real)
    requires s.memory.None? && s.redis.Some? && s.redis.value.entries != []
    ensures var poll := Poll(s.redis.value.entries[0].id, 0, now);
      && Next(setup, Next(setup, s, poll), Drop) == s
      && OutcomeOf(setup, s, poll) == if now <= s.redis.value.deadline then Answer(true) else Raised
  {
    var q, poll := s.redis.value.entries, Poll(s.redis.value.entries[0].id, 0, now);
    if now <= s.redis.value.deadline {
      assert Found(setup, s, poll) == Tag(q, true);
      UniformPop(q, true);
    }
  }

  // ---------- once per copy ----------

  ghost function Copies(q: seq<Entry>, e: Entry): nat {
    multiset(q)[e]
  }

  /** Whether a step admits the entry by dequeuing it. */
  function Takes(setup: Setup, s: Layered, op: Op, e: Entry): nat {
    if Reads(op) && Admits(Found(setup, s, op), op) && Found(setup, s, op)[0].entry == e then 1 else 0
  }

  function Taken(setup: Setup, s: Layered, ops: seq<Op>, e: Entry): nat
    decreases ops
  {
    if ops == [] then 0 else Takes(setup, s, ops[0], e) + Taken(setup, Next(setup, s, ops[0]), ops[1..], e)
  }

  /** The copies of the entry that a step brings into memory: its own add, or those in a list
      that it loads from Redis. */
  ghost function Brings(s: Layered, op: Op, e: Entry): nat {
    (if op.Add? && W.ItemEntry(op.item) == e then 1 else 0) +
    (if Reloads(s, op) then Copies(s.redis.value.entries, e) else 0)
  }

  ghost function Brought(setup: Setup, s: Layered, ops: seq<Op>, e: Entry): nat
    decreases ops
  {
    if ops == [] then 0 else Brings(s, ops[0], e) + Brought(setup, Next(setup, s, ops[0]), ops[1..], e)
  }

  lemma ChangeCounts(q: seq<Item>, op: Op, e: Entry)
    requires Reads(op)
    ensures Copies(Untag(q), e) + (if op.Add? && W.ItemEntry(op.item) == e then 1 else 0)
         == Copies(Untag(Change(q, op).items), e) + if Admits(q, op) && q[0].entry == e then 1 else 0
  {
    if op.Add? {
      PushKeepsItems(q, Item(W.ItemEntry(op.item), false));
      UntagLess(Change(q, op).items, q, Item(W.ItemEntry(op.item), false));
    } else if Admits(q, op) {
      PopKeepsItems(q);
      UntagLess(q, Change(q, op).items, q[0]);
    }
  }

  /** What is in hand after a step is what the change left. */
  lemma SettleHand(setup: Setup, f: Layered, op: Op)
    requires Reads(op)
    ensures InHand(Settle(setup, f, op, Change(InHand(f), op))) == Change(InHand(f), op).items
  {
  }

  lemma FetchCounts(setup: Setup, s: Layered, op: Op, e: Entry)
    requires Reads(op)
    ensures Copies(Untag(Found(setup, s, op)), e)
         <= Copies(Queue(s), e) + if Reloads(s, op) then Copies(s.redis.value.entries, e) else 0
  {
    if s.redis.Some? {
      TagUntag(s.redis.value.entries, true);
    }
  }

  lemma StepTakesACopy(setup: Setup, s: Layered, op: Op, e: Entry)
    ensures Takes(setup, s, op, e) + Copies(Queue(Next(setup, s, op)), e) <= Copies(Queue(s), e) + Brings(s, op, e)
  {
    if Reads(op) {
      FetchCounts(setup, s, op, e);
      ChangeCounts(Found(setup, s, op), op, e);
      SettleHand(setup, Fetch(setup, s, op.now), op);
    }
  }

  /** Over every run, whatever memory drops and others do to Redis, an entry is admitted by
      dequeuing at most once for every copy of it that waited in memory, was added, or was in a
      list loaded from Redis: the bound that the run above meets. */
  lemma {:induction false} AdmittedOncePerCopy(setup: Setup, s: Layered, ops: seq<Op>, e: Entry)
    ensures Taken(setup, s, ops, e) <= Copies(Queue(s), e) + Brought(setup, s, ops, e)
    decreases ops
  {
    if ops != [] {
      StepTakesACopy(setup, s, ops[0], e);
      AdmittedOncePerCopy(setup, Next(setup, s, ops[0]), ops[1..], e);
    }
  }
}
