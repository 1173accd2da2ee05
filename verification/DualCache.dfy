/** The two-layer cache that holds the scheduler's queues: a memory layer that hands out the
    stored list itself until its deadline, and that is bounded in size; and Redis, if
    configured, which is written on every save, forgets what it was given after its own time to
    live, and is read only when memory has nothing. */
module DualCache {
  import opened Heapq
  import opened MixedHeap
  import opened Options
  import Memory = InMemoryCache
  import Runs = CacheRuns

  /** A list in the memory layer, with the time at which that layer drops it. */
  datatype Resident = Resident(items: seq<Item>, deadline: real)

  /** What Redis was given, with the time at which it forgets it. */
  datatype Copy = Copy(entries: seq<Entry>, deadline: real)

  /** Whether there is a Redis layer, the two layers' times to live, and the number of lists
      that memory holds. */
  datatype Setup = Setup(redis: bool, ttl: real, redisTtl: real, max: nat)

  // ---------- one key ----------

  /** What the two layers hold under one key. */
  datatype Layered = Layered(memory: Option<Resident>, redis: Option<Copy>)

  function Expire(s: Layered, now: real): Layered {
    if s.memory.Some? && now > s.memory.value.deadline then s.(memory := None) else s
  }

  /** What Redis answers. */
  function Answered(copy: Option<Copy>, now: real): Option<seq<Entry>> {
    if copy.Some? && now <= copy.value.deadline then Some(copy.value.entries) else None
  }

  /** What a read leaves: a list that only Redis has is decoded and put into memory. */
  function Fetch(setup: Setup, s: Layered, now: real): Layered {
    var e, answer := Expire(s, now), Answered(s.redis, now);
    if e.memory.None? && answer.Some? then e.(memory := Some(Resident(Tag(answer.value, true), now + setup.ttl))) else e
  }

  /** The list that a read hands out; a new empty list if there is none. */
  function InHand(s: Layered): seq<Item> {
    if s.memory.Some? then s.memory.value.items else []
  }

  /** What changing the list in hand does: it is the stored one if memory has one. */
  function Mutate(s: Layered, items: seq<Item>): Layered {
    if s.memory.Some? then s.(memory := Some(s.memory.value.(items := items))) else s
  }

  /** A save keeps a pending deadline, unless it found memory full and evicted the key first. */
  function Save(setup: Setup, s: Layered, items: seq<Item>, now: real, evicted: bool): Layered {
    var pending := if s.memory.Some? && !evicted then Some(s.memory.value.deadline) else None;
    Layered(Some(Resident(items, Memory.NextDeadline(pending, Memory.Clock(now, now, now), setup.ttl))),
            if setup.redis then Some(Copy(Untag(items), now + setup.redisTtl)) else s.redis)
  }

  // ---------- all keys ----------

  datatype Cache = Cache(lists: map<string, seq<Item>>, deadlines: map<string, real>, redis: map<string, Copy>)

  ghost predicate WellFormed(setup: Setup, c: Cache) {
    c.lists.Keys == c.deadlines.Keys && (!setup.redis ==> c.redis == map[])
  }

  function At(c: Cache, key: string): Layered {
    Layered(if key in c.lists && key in c.deadlines then Some(Resident(c.lists[key], c.deadlines[key])) else None,
            if key in c.redis then Some(c.redis[key]) else None)
  }

  /** Whether making room in memory evicts a key. */
  predicate Evicts(setup: Setup, c: Cache, key: string, now: real) {
    key in c.deadlines && |c.deadlines| >= setup.max && !Memory.Survives(c.deadlines, key, now, setup.max)
  }

  function Kept(setup: Setup, c: Cache, now: real): set<string> {
    set k | k in c.deadlines && !Evicts(setup, c, k, now)
  }

  function MakeRoom(setup: Setup, c: Cache, now: real): Cache {
    var kept := Kept(setup, c, now);
    Cache(Memory.Restrict(c.lists, kept), Memory.Restrict(c.deadlines, kept), c.redis)
  }

  function Forget(c: Cache, key: string): Cache {
    Cache(c.lists - {key}, c.deadlines - {key}, c.redis)
  }

  function ExpireKey(c: Cache, key: string, now: real): Cache {
    if key in c.deadlines && now > c.deadlines[key] then Forget(c, key) else c
  }

  /** Whether a read takes the list from Redis. */
  predicate Installs(c: Cache, key: string, now: real) {
    key !in ExpireKey(c, key, now).deadlines && key in c.redis && now <= c.redis[key].deadline
  }

  function PutIn(c: Cache, key: string, items: seq<Item>, deadline: real): Cache {
    Cache(c.lists[key := items], c.deadlines[key := deadline], c.redis)
  }

  function Install(setup: Setup, c: Cache, key: string, items: seq<Item>, now: real): Cache {
    PutIn(MakeRoom(setup, c, now), key, items, now + setup.ttl)
  }

  function FetchKey(setup: Setup, c: Cache, key: string, now: real): Cache {
    var e := ExpireKey(c, key, now);
    if Installs(c, key, now) then Install(setup, e, key, Tag(c.redis[key].entries, true), now) else e
  }

  function MutateKey(c: Cache, key: string, items: seq<Item>): Cache {
    if key in c.lists then c.(lists := c.lists[key := items]) else c
  }

  function SaveKey(setup: Setup, c: Cache, key: string, items: seq<Item>, now: real): Cache {
    SaveIn(setup, MakeRoom(setup, c, now), key, items, now)
  }

  function SaveIn(setup: Setup, r: Cache, key: string, items: seq<Item>, now: real): Cache {
    var pending := Memory.DeadlineOf(r.deadlines, key);
    var s := PutIn(r, key, items, Memory.NextDeadline(pending, Memory.Clock(now, now, now), setup.ttl));
    if setup.redis then s.(redis := s.redis[key := Copy(Untag(items), now + setup.redisTtl)]) else s
  }

  // ---------- one key among all ----------

  lemma RoomAt(setup: Setup, c: Cache, key: string, now: real)
    requires WellFormed(setup, c)
    ensures var r := MakeRoom(setup, c, now);
      && WellFormed(setup, r)
      && At(r, key) == if Evicts(setup, c, key, now) then At(c, key).(memory := None) else At(c, key)
  {
  }

  lemma ExpireAt(setup: Setup, c: Cache, key: string, now: real, k: string)
    requires WellFormed(setup, c)
    ensures var e := ExpireKey(c, key, now);
      WellFormed(setup, e) && At(e, k) == if k == key then Expire(At(c, k), now) else At(c, k)
  {
  }

  /** Whether a read of one key evicts another: it installs a list and finds memory full. */
  predicate FetchEvicts(setup: Setup, c: Cache, key: string, now: real, k: string) {
    Installs(c, key, now) && Evicts(setup, ExpireKey(c, key, now), k, now)
  }

  lemma FetchAt(setup: Setup, c: Cache, key: string, now: real, k: string)
    requires WellFormed(setup, c)
    ensures var f := FetchKey(setup, c, key, now);
      && WellFormed(setup, f)
      && At(f, k) == if k == key then Fetch(setup, At(c, k), now)
                     else if FetchEvicts(setup, c, key, now, k) then At(c, k).(memory := None) else At(c, k)
  {
    ExpireAt(setup, c, key, now, k);
    ExpireAt(setup, c, key, now, key);
    RoomAt(setup, ExpireKey(c, key, now), k, now);
  }

  lemma SaveAt(setup: Setup, c: Cache, key: string, items: seq<Item>, now: real, k: string)
    requires WellFormed(setup, c)
    ensures var s, evicted := SaveKey(setup, c, key, items, now), Evicts(setup, c, k, now);
      && WellFormed(setup, s)
      && At(s, k) == if k == key then Save(setup, At(c, k), items, now, evicted)
                     else if evicted then At(c, k).(memory := None) else At(c, k)
  {
    RoomAt(setup, c, k, now);
  }

  // ---------- the memory layer is the in-memory store ----------

  function Bounds(setup: Setup): Memory.Limits {
    Memory.Limits(setup.max, setup.ttl)
  }

  lemma KeptSurvive(setup: Setup, c: Cache, now: real, heap: multiset<Entry>) returns (left: multiset<Entry>)
    requires WellFormed(setup, c) && setup.max > 0 && Memory.Knows(heap, c.deadlines)
    ensures var r := MakeRoom(setup, c, now);
      && Memory.Knows(left, r.deadlines)
      && Memory.MakesRoom(Memory.Store(c.lists, c.deadlines, heap), Memory.Store(r.lists, r.deadlines, left),
                          now, setup.max)
  {
    var s, r := Memory.Store(c.lists, c.deadlines, heap), MakeRoom(setup, c, now);
    var e := Runs.RoomExists(s, now, setup.max);
    left := e.heap;
    forall k ensures k in e.cached <==> k in r.lists {
      Runs.RoomKeepsItem(s, e, now, setup.max, k);
    }
    assert |c.lists.Keys| == |c.deadlines.Keys|;
    assert |c.lists| == |c.lists.Keys| && |c.deadlines| == |c.deadlines.Keys|;
    assert e.cached.Keys == r.lists.Keys;
    if |c.lists| < setup.max {
      assert r.lists == c.lists && r.deadlines == c.deadlines;
    }
    assert e.cached == r.lists && e.ttl == r.deadlines;
  }

  /** A read drops from the memory layer what the in-memory store's read drops. */
  lemma ExpiryIsTheStores(setup: Setup, c: Cache, key: string, now: real, heap: multiset<Entry>)
    ensures var e := ExpireKey(c, key, now);
      Memory.Step(Bounds(setup), Memory.Store(c.lists, c.deadlines, heap), Memory.Get(key, now),
                  Memory.Store(e.lists, e.deadlines, heap))
  {
  }

  /** A save, or installing a list that Redis had, does to the memory layer what the in-memory
      store's write does, eviction included: for whatever heap of deadlines that store has, there
      is one that it has afterwards. */
  lemma MemoryLayerIsTheStore(setup: Setup, c: Cache, key: string, items: seq<Item>, now: real, heap: multiset<Entry>)
    returns (heap': multiset<Entry>)
    requires WellFormed(setup, c) && setup.max > 0 && Memory.Knows(heap, c.deadlines)
    ensures var s := SaveKey(setup, c, key, items, now);
      Memory.Step(Bounds(setup), Memory.Store(c.lists, c.deadlines, heap),
                  Memory.Set(key, items, None, true, Memory.Clock(now, now, now)),
                  Memory.Store(s.lists, s.deadlines, heap'))
    ensures key !in c.deadlines ==>
      var i, s := Install(setup, c, key, items, now), SaveKey(setup, c, key, items, now);
      i.lists == s.lists && i.deadlines == s.deadlines
  {
    var left := KeptSurvive(setup, c, now, heap);
    var r, s := MakeRoom(setup, c, now), SaveKey(setup, c, key, items, now);
    var op := Memory.Set(key, items, None, true, Memory.Clock(now, now, now));
    var room := Memory.Store(r.lists, r.deadlines, left);
    var stored := Memory.AfterRoom(Bounds(setup), room, op);
    heap' := stored.heap;
    assert stored == Memory.Store(s.lists, s.deadlines, heap');
    assert Memory.SetStep(Bounds(setup), Memory.Store(c.lists, c.deadlines, heap), op, stored);
  }

  // ---------- the object ----------

  /** A Python list: an object, so that two holders of it see each other's changes. */
  class PyList {
    var items: seq<Item>

    constructor (items: seq<Item>)
      ensures this.items == items
    {
      this.items := items;
    }
  }

  /** What the stored list objects hold. */
  ghost function Lists(memory: map<string, PyList>): map<string, seq<Item>>
    reads memory.Values
  {
    map k | k in memory :: memory[k].items
  }

  lemma ListsRestricted(memory: map<string, PyList>, kept: set<string>)
    ensures Lists(Memory.Restrict(memory, kept)) == Memory.Restrict(Lists(memory), kept)
  {
  }

  lemma ListsWith(memory: map<string, PyList>, key: string, list: PyList)
    ensures Lists(memory[key := list]) == Lists(memory)[key := list.items]
  {
  }

  lemma ListsWithout(memory: map<string, PyList>, key: string)
    ensures Lists(memory - {key}) == Lists(memory) - {key}
  {
  }

  lemma RestrictToAll<V>(m: map<string, V>, keys: set<string>)
    requires m.Keys <= keys
    ensures Memory.Restrict(m, keys) == m
  {
  }

  lemma NothingEvicted(setup: Setup, c: Cache, now: real)
    requires WellFormed(setup, c) && |c.deadlines| < setup.max
    ensures Kept(setup, c, now) == c.deadlines.Keys && MakeRoom(setup, c, now) == c
  {
    assert Kept(setup, c, now) == c.deadlines.Keys;
    RestrictToAll(c.lists, c.deadlines.Keys);
    RestrictToAll(c.deadlines, c.deadlines.Keys);
  }

  lemma SurvivorsKept(setup: Setup, c: Cache, now: real)
    requires |c.deadlines| >= setup.max
    ensures Kept(setup, c, now) == set k | k in c.deadlines && Memory.Survives(c.deadlines, k, now, setup.max)
  {
  }

  class DualCache {
    const setup: Setup
    var memory: map<string, PyList>
    var deadlines: map<string, real>
    var redis: map<string, Copy>

    /** No list object is stored under two keys. */
    ghost predicate Valid()
      reads this
    {
      && deadlines.Keys == memory.Keys
      && (!setup.redis ==> redis == map[])
      && forall k, l :: k in memory && l in memory && k != l ==> memory[k] != memory[l]
    }

    ghost function Contents(): Cache
      reads this, memory.Values
    {
      Cache(Lists(memory), deadlines, redis)
    }

    constructor (setup: Setup)
      ensures Valid() && this.setup == setup && Contents() == Cache(map[], map[], map[])
    {
      this.setup := setup;
      memory, deadlines, redis := map[], map[], map[];
    }

    /** Drops every other key from memory. */
    method Retain(kept: set<string>)
      requires Valid()
      modifies this
      ensures Valid() && redis == old(redis)
      ensures Contents() == Cache(Memory.Restrict(old(Contents()).lists, kept), deadlines, redis)
      ensures deadlines == Memory.Restrict(old(deadlines), kept)
      ensures forall k :: k in memory ==> k in old(memory) && memory[k] == old(memory)[k]
    {
      ListsRestricted(memory, kept);
      memory, deadlines := Memory.Restrict(memory, kept), Memory.Restrict(deadlines, kept);
    }

    /** Evicts what the in-memory store evicts when it is full; how it finds those keys is the
        store's business. */
    method EvictIfFull(now: real)
      requires Valid()
      modifies this
      ensures Valid() && Contents() == MakeRoom(setup, old(Contents()), now)
      ensures |old(deadlines)| < setup.max ==> memory == old(memory) && deadlines == old(deadlines)
      ensures |old(deadlines)| >= setup.max ==>
        forall k :: k in deadlines <==> Memory.Survives(old(deadlines), k, now, setup.max)
      ensures forall k :: k in deadlines ==> k in old(deadlines) && deadlines[k] == old(deadlines)[k]
      ensures redis == old(redis) && forall k :: k in memory ==> k in old(memory) && memory[k] == old(memory)[k]
    {
      if |deadlines| >= setup.max {
        SurvivorsKept(setup, Contents(), now);
        var kept := set k | k in deadlines && Memory.Survives(deadlines, k, now, setup.max);
        Retain(kept);
      } else {
        NothingEvicted(setup, Contents(), now);
      }
    }

    method DropIfExpired(key: string, now: real)
      requires Valid()
      modifies this
      ensures Valid() && Contents() == ExpireKey(old(Contents()), key, now)
      ensures redis == old(redis) && forall k :: k in memory ==> k in old(memory) && memory[k] == old(memory)[k]
    {
      if key in memory && now > deadlines[key] {
        ListsWithout(memory, key);
        memory, deadlines := memory - {key}, deadlines - {key};
      }
    }

    /** Stores a list under a key. */
    method Put(key: string, list: PyList, deadline: real)
      requires Valid() && forall k :: k in memory && k != key ==> memory[k] != list
      modifies `memory, `deadlines
      ensures Valid() && Contents() == PutIn(old(Contents()), key, list.items, deadline)
      ensures memory == old(memory)[key := list] && deadlines == old(deadlines)[key := deadline]
    {
      ListsWith(memory, key, list);
      memory, deadlines := memory[key := list], deadlines[key := deadline];
    }

    method StoreNew(key: string, items: seq<Item>, now: real) returns (list: PyList)
      requires Valid()
      modifies this
      ensures Valid() && fresh(list) && Contents() == Install(setup, old(Contents()), key, items, now)
      ensures key in memory && memory[key] == list && list.items == items && deadlines[key] == now + setup.ttl
      ensures redis == old(redis)
      ensures forall k :: k in memory && k != key ==> k in old(memory) && memory[k] == old(memory)[k]
    {
      EvictIfFull(now);
      list := new PyList(items);
      Put(key, list, now + setup.ttl);
    }

    method AsyncGetCache(key: string, now: real) returns (r: PyList?)
      requires Valid()
      modifies this
      ensures Valid() && Contents() == FetchKey(setup, old(Contents()), key, now)
      ensures if key in memory then r == memory[key] else r == null
      ensures forall k :: k in memory && !(k in old(memory) && memory[k] == old(memory)[k]) ==> fresh(memory[k])
      ensures redis == old(redis)
      ensures key in old(memory) && now <= old(deadlines)[key] ==>
        r == old(memory)[key] && memory == old(memory) && deadlines == old(deadlines)
      ensures !(key in old(memory) && now <= old(deadlines)[key]) ==>
        if key in redis && now <= redis[key].deadline
        then r != null && fresh(r) && r.items == Tag(redis[key].entries, true) && deadlines[key] == now + setup.ttl
        else r == null && memory == old(memory) - {key} && deadlines == old(deadlines) - {key}
    {
      DropIfExpired(key, now);
      if key in memory {
        return memory[key];
      }
      if key in redis && now <= redis[key].deadline {
        r := StoreNew(key, Tag(redis[key].entries, true), now);
        return;
      }
      return null;
    }

    method AsyncSetCache(key: string, value: PyList, now: real)
      requires Valid() && forall k :: k in memory && k != key ==> memory[k] != value
      modifies this
      ensures Valid() && Contents() == SaveKey(setup, old(Contents()), key, value.items, now)
      ensures key in memory && memory[key] == value
      ensures redis == if !setup.redis then old(redis)
                       else old(redis)[key := Copy(Untag(value.items), now + setup.redisTtl)]
      ensures |old(deadlines)| < setup.max ==>
        && memory == old(memory)[key := value]
        && deadlines == (if key in old(deadlines) && now <= old(deadlines)[key] then old(deadlines)
                         else old(deadlines)[key := now + setup.ttl])
      ensures |old(deadlines)| >= setup.max ==>
        && deadlines[key] == (if Memory.Survives(old(deadlines), key, now, setup.max) then old(deadlines)[key]
                              else now + setup.ttl)
        && forall k :: k != key ==> (k in memory <==> Memory.Survives(old(deadlines), k, now, setup.max))
    {
      EvictIfFull(now);
      StoreInBoth(key, value, now);
    }

    method StoreInBoth(key: string, value: PyList, now: real)
      requires Valid() && forall k :: k in memory && k != key ==> memory[k] != value
      modifies this
      ensures Valid() && Contents() == SaveIn(setup, old(Contents()), key, value.items, now)
      ensures memory == old(memory)[key := value]
      ensures deadlines == if key in old(deadlines) && now <= old(deadlines)[key] then old(deadlines)
                           else old(deadlines)[key := now + setup.ttl]
      ensures redis == if !setup.redis then old(redis)
                       else old(redis)[key := Copy(Untag(value.items), now + setup.redisTtl)]
    {
      var pending := if key in deadlines then Some(deadlines[key]) else None;
      Put(key, value, Memory.NextDeadline(pending, Memory.Clock(now, now, now), setup.ttl));
      if setup.redis {
        redis := redis[key := Copy(Untag(value.items), now + setup.redisTtl)];
      }
    }
  }
}
