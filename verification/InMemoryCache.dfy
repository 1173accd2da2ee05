/** The in-memory store behind the scheduler's queues and the response cache: a dictionary
    with deadlines, a size bound, and a heap of deadlines that drives eviction. */
module InMemoryCache {
  import opened Heapq
  import opened Options

  // ---------- eviction, as a specification ----------

  function Restrict<V>(m: map<string, V>, keys: set<string>): map<string, V> {
    map k | k in m && k in keys :: m[k]
  }

  ghost predicate SubMap<V>(a: map<string, V>, b: map<string, V>) {
    forall k :: k in a ==> k in b && a[k] == b[k]
  }

  /** `keep` is what evicting at `now` leaves of a cache with these deadlines: nothing
      expired, fewer than `max` keys, every evicted key due before every kept one, and no
      more evicted than the bound asks for. */
  ghost predicate Survivors(ttl: map<string, real>, keep: set<string>, now: real, max: nat) {
    && keep <= ttl.Keys
    && |keep| < max
    && (forall k :: k in keep ==> ttl[k] > now)
    && (forall r, k :: r in ttl && r !in keep && k in keep ==> Lt(Entry(ttl[r], r), Entry(ttl[k], k)))
    && (forall r :: r in ttl && r !in keep && ttl[r] > now ==> |keep| == max - 1)
  }

  lemma ProperSubsetIsSmaller(a: set<string>, b: set<string>, x: string)
    requires a <= b && x in b && x !in a
    ensures |a| < |b|
  {
    var rest := b - {x};
    assert a <= rest;
    SubsetSize(a, rest);
  }

  lemma {:induction false} SubsetSize(a: set<string>, b: set<string>)
    requires a <= b
    ensures |a| <= |b|
  {
    if a != {} {
      var x :| x in a;
      SubsetSize(a - {x}, b - {x});
    }
  }

  lemma SurvivorsAreNested(ttl: map<string, real>, a: set<string>, b: set<string>, now: real, max: nat, x: string)
    requires Survivors(ttl, a, now, max) && Survivors(ttl, b, now, max)
    requires x in a && x !in b
    ensures b <= a
  {
    forall y | y in b
      ensures y in a
    {
      LtTotal(Entry(ttl[x], x), Entry(ttl[y], y));
    }
  }

  lemma NoSurvivorIsMissing(ttl: map<string, real>, a: set<string>, b: set<string>, now: real, max: nat)
    requires Survivors(ttl, a, now, max) && Survivors(ttl, b, now, max)
    ensures a <= b
  {
    forall x | x in a
      ensures x in b
    {
      if x !in b {
        SurvivorsAreNested(ttl, a, b, now, max, x);
        ProperSubsetIsSmaller(b, a, x);
      }
    }
  }

  /** The eviction policy is deterministic: the deadlines, the clock and the bound decide
      which keys survive, whatever stale entries the heap holds and in whatever order. */
  lemma SurvivorsUnique(ttl: map<string, real>, a: set<string>, b: set<string>, now: real, max: nat)
    requires Survivors(ttl, a, now, max) && Survivors(ttl, b, now, max)
    ensures a == b
  {
    NoSurvivorIsMissing(ttl, a, b, now, max);
    NoSurvivorIsMissing(ttl, b, a, now, max);
  }

  /** The unexpired keys that are due after a key. */
  function Later(ttl: map<string, real>, key: string, now: real): set<string>
    requires key in ttl
  {
    set k | k in ttl && ttl[k] > now && Lt(Entry(ttl[key], key), Entry(ttl[k], k))
  }

  /** Whether a full cache's eviction spares a key: it is not due, and fewer than `max - 1`
      keys are due after it. */
  predicate Survives(ttl: map<string, real>, key: string, now: real, max: nat) {
    key in ttl && ttl[key] > now && |Later(ttl, key, now)| < max - 1
  }

  lemma SurvivorSurvives(ttl: map<string, real>, keep: set<string>, now: real, max: nat, key: string)
    requires Survivors(ttl, keep, now, max)
    ensures key in keep <==> Survives(ttl, key, now, max)
  {
    if key in keep {
      var later := Later(ttl, key, now);
      forall k | k in later ensures k in keep {
        LtTotal(Entry(ttl[key], key), Entry(ttl[k], k));
      }
      LtTotal(Entry(ttl[key], key), Entry(ttl[key], key));
      ProperSubsetIsSmaller(later, keep, key);
    } else if key in ttl && ttl[key] > now {
      SubsetSize(keep, Later(ttl, key, now));
    }
  }

  // ---------- deadlines ----------

  /** The readings of the clock that one write takes: for evicting, for checking the old
      deadline, and for setting the new one. */
  datatype Clock = Clock(evict: real, check: real, stamp: real)

  /** The deadline a write leaves: a deadline that has not passed is kept, not extended. */
  function NextDeadline(pending: Option<real>, t: Clock, ttl: real): real {
    if pending.Some? && t.check <= pending.value then pending.value else t.stamp + ttl
  }

  function DeadlineOf(ttl: map<string, real>, key: string): Option<real> {
    if key in ttl then Some(ttl[key]) else None
  }

  datatype Write = Write(t: Clock, ttl: real)

  function DeadlineAfter(pending: Option<real>, writes: seq<Write>): Option<real>
    decreases writes
  {
    if writes == [] then pending
    else DeadlineAfter(Some(NextDeadline(pending, writes[0].t, writes[0].ttl)), writes[1..])
  }

  /** However often a key is rewritten before its deadline, it expires at the deadline of its
      first write. */
  lemma {:induction false} RewritesDoNotExtend(deadline: real, writes: seq<Write>)
    requires forall w :: w in writes ==> w.t.check <= deadline
    ensures DeadlineAfter(Some(deadline), writes) == Some(deadline)
  {
    if writes != [] {
      assert writes[0] in writes;
      RewritesDoNotExtend(deadline, writes[1..]);
    }
  }

  // ---------- the store as a state machine ----------

  datatype Store<V> = Store(cached: map<string, V>, ttl: map<string, real>, heap: multiset<Entry>)

  datatype Op<V> =
    | Set(key: string, value: V, ttl: Option<real>, fits: bool, t: Clock)
    | Get(key: string, now: real)
    | Delete(key: string)
    | Flush

  /** The bound on the number of keys, and the time to live of a write that names none. */
  datatype Limits = Limits(max: nat, ttl: real)

  ghost function Entries(ttl: map<string, real>): (r: set<Entry>)
    ensures forall x :: x in r <==> x.id in ttl && x.rank == ttl[x.id]
  {
    set k | k in ttl :: Entry(ttl[k], k)
  }

  /** How many more entries the heap holds than there are keys with a deadline: the stale
      ones, that no cached key stands behind any more. */
  function Excess(ttl: map<string, real>, heap: multiset<Entry>): int {
    |heap| - |ttl|
  }

  /** The heap holds the deadline of every key. */
  ghost predicate Knows(heap: multiset<Entry>, ttl: map<string, real>) {
    forall k :: k in ttl ==> Entry(ttl[k], k) in heap
  }

  ghost predicate Consistent<V>(s: Store<V>) {
    s.ttl.Keys == s.cached.Keys && Knows(s.heap, s.ttl)
  }

  /** `e` is what a write leaves of the store before it stores its value. */
  ghost predicate MakesRoom<V>(s: Store<V>, e: Store<V>, now: real, max: nat) {
    if |s.cached| >= max then
      && Survivors(s.ttl, e.cached.Keys, now, max)
      && e.cached == Restrict(s.cached, e.cached.Keys) && e.ttl == Restrict(s.ttl, e.cached.Keys)
      && Knows(e.heap, e.ttl) && Excess(e.ttl, e.heap) <= Excess(s.ttl, s.heap)
    else e == s
  }

  /** Whether a write gives the key a new deadline. */
  predicate Stamps(ttl: map<string, real>, key: string, t: Clock) {
    key !in ttl || ttl[key] < t.check
  }

  ghost function Stored<V>(e: Store<V>, key: string, value: V, ttl: real, t: Clock): Store<V> {
    var d := NextDeadline(DeadlineOf(e.ttl, key), t, ttl);
    Store(e.cached[key := value], e.ttl[key := d],
          if Stamps(e.ttl, key, t) then e.heap + multiset{Entry(d, key)} else e.heap)
  }

  ghost function Without<V>(s: Store<V>, key: string): Store<V> {
    Store(s.cached - {key}, s.ttl - {key}, s.heap)
  }

  predicate Expired<V>(s: Store<V>, key: string, now: real) {
    key in s.ttl && now > s.ttl[key]
  }

  /** What a write that found room leaves. */
  ghost function AfterRoom<V>(l: Limits, e: Store<V>, op: Op<V>): Store<V>
    requires op.Set?
  {
    if op.fits then Stored(e, op.key, op.value, op.ttl.GetOr(l.ttl), op.t) else e
  }

  ghost predicate SetStep<V(!new)>(l: Limits, s: Store<V>, op: Op<V>, s': Store<V>)
    requires op.Set?
  {
    exists e :: MakesRoom(s, e, op.t.evict, l.max) && s' == AfterRoom(l, e, op)
  }

  ghost function NextStore<V>(s: Store<V>, op: Op<V>): Store<V>
    requires !op.Set?
  {
    match op
    case Get(key, now) => if Expired(s, key, now) then Without(s, key) else s
    case Delete(key) => Without(s, key)
    case Flush => Store(map[], map[], multiset{})
  }

  /** A store of size zero ignores writes. */
  ghost predicate Step<V(!new)>(l: Limits, s: Store<V>, op: Op<V>, s': Store<V>) {
    if !op.Set? then s' == NextStore(s, op)
    else if l.max == 0 then s' == s
    else SetStep(l, s, op, s')
  }

  ghost predicate StepAt<V(!new)>(l: Limits, states: seq<Store<V>>, ops: seq<Op<V>>, i: nat)
    requires i < |ops| < |states|
  {
    Step(l, states[i], ops[i], states[i + 1])
  }

  /** A run of operations and the states it passes through. */
  ghost predicate Run<V(!new)>(l: Limits, states: seq<Store<V>>, ops: seq<Op<V>>) {
    |states| == |ops| + 1 && forall i :: 0 <= i < |ops| ==> StepAt(l, states, ops, i)
  }

  /** What a read finds. */
  function Answer<V>(s: Store<V>, key: string, now: real): Option<V> {
    if key in s.cached && key in s.ttl && now <= s.ttl[key] then Some(s.cached[key]) else None
  }

  // ---------- what the object needs ----------

  lemma SizeWithout<V>(m: map<string, V>, key: string)
    ensures |m - {key}| == |m| - if key in m then 1 else 0
  {
    assert (m - {key}).Keys == m.Keys - {key};
  }

  lemma SizeWith<V>(m: map<string, V>, key: string, v: V)
    ensures |m[key := v]| == |m| + if key in m then 0 else 1
  {
    assert m[key := v].Keys == m.Keys + {key};
  }

  /** Removing what is due, and then the keys due first until the bound is met, leaves the
      survivors. */
  lemma PurgedAndShrunk(ttl: map<string, real>, unexpired: map<string, real>, left: map<string, real>, now: real,
                        max: nat)
    requires SubMap(unexpired, ttl) && SubMap(left, unexpired) && |left.Keys| < max
    requires forall k :: k in ttl ==> (k in unexpired <==> ttl[k] > now)
    requires forall r, k :: r in unexpired && r !in left && k in left ==> Lt(Entry(unexpired[r], r), Entry(left[k], k))
    requires left != unexpired ==> |left.Keys| == max - 1
    ensures Survivors(ttl, left.Keys, now, max)
  {
  }

  /** The heap is a heap and knows the deadline of every key. */
  ghost predicate Tracks(heap: seq<Entry>, ttl: map<string, real>) {
    IsHeap(heap) && forall k :: k in ttl ==> Entry(ttl[k], k) in heap
  }

  lemma PushTracks(heap: seq<Entry>, ttl: map<string, real>, key: string, d: real)
    requires Tracks(heap, ttl)
    ensures Tracks(Push(heap, Entry(d, key)), ttl[key := d])
  {
    PushKeepsHeap(heap, Entry(d, key));
    PushMembers(heap, Entry(d, key));
  }

  lemma StampedDeadline(ttl: map<string, real>, key: string, t: Clock, x: real)
    ensures Stamps(ttl, key, t) ==> NextDeadline(DeadlineOf(ttl, key), t, x) == t.stamp + x
    ensures !Stamps(ttl, key, t) ==> key in ttl && ttl[key := NextDeadline(DeadlineOf(ttl, key), t, x)] == ttl
  {
  }

  lemma SubMapIsRestricted<V>(a: map<string, V>, b: map<string, V>)
    requires SubMap(a, b)
    ensures a == Restrict(b, a.Keys)
  {
  }

  lemma RoomLeavesSurvivors<V>(s: Store<V>, e: Store<V>, now: real, max: nat)
    requires s.ttl.Keys == s.cached.Keys && MakesRoom(s, e, now, max)
    ensures |s.cached| >= max ==>
      forall k ::
        && (k in e.cached <==> k in s.cached && Survives(s.ttl, k, now, max))
        && (k in e.cached ==> k in e.ttl && e.cached[k] == s.cached[k] && e.ttl[k] == s.ttl[k])
  {
    if |s.cached| >= max {
      forall k ensures k in e.cached <==> k in s.cached && Survives(s.ttl, k, now, max) {
        SurvivorSurvives(s.ttl, e.cached.Keys, now, max, k);
      }
    }
  }

  // ---------- the object ----------

  class InMemoryCache<V(!new)> {
    const maxSize: nat
    const defaultTtl: real
    var cacheDict: map<string, V>
    var ttlDict: map<string, real>
    var expirationHeap: seq<Entry>

    ghost predicate Tracked()
      reads this
    {
      ttlDict.Keys == cacheDict.Keys && Tracks(expirationHeap, ttlDict)
    }

    ghost function State(): Store<V>
      reads this
    {
      Store(cacheDict, ttlDict, multiset(expirationHeap))
    }

    ghost function Bounds(): Limits {
      Limits(maxSize, defaultTtl)
    }

    /** Every cached key has a deadline that the heap knows, the heap is a heap, and the size
        bound holds. */
    ghost predicate Valid()
      reads this
    {
      Tracked() && |cacheDict| <= maxSize
    }

    lemma ValidIsConsistent()
      requires Tracked()
      ensures Consistent(State())
    {
    }

    constructor (maxSize: nat, defaultTtl: real)
      ensures Valid() && State() == Store(map[], map[], multiset{}) && expirationHeap == []
      ensures this.maxSize == maxSize && this.defaultTtl == defaultTtl
    {
      this.maxSize := maxSize;
      this.defaultTtl := defaultTtl;
      cacheDict, ttlDict, expirationHeap := map[], map[], [];
    }

    /** How many entries of the heap are stale. */
    ghost function StaleEntries(): int
      reads this
    {
      |expirationHeap| - |ttlDict|
    }

    method RemoveKey(key: string)
      modifies `cacheDict, `ttlDict
      ensures cacheDict == old(cacheDict) - {key} && ttlDict == old(ttlDict) - {key}
    {
      cacheDict := cacheDict - {key};
      ttlDict := ttlDict - {key};
    }

    /** Takes the top off the heap; the caller makes sure that no cached key needs it. */
    method PopTop() returns (top: Entry)
      requires IsHeap(expirationHeap) && expirationHeap != []
      modifies `expirationHeap
      ensures IsHeap(expirationHeap) && |expirationHeap| == |old(expirationHeap)| - 1
      ensures top == old(expirationHeap)[0]
      ensures forall e :: e in old(expirationHeap) && e != top ==> e in expirationHeap
    {
      top := expirationHeap[0];
      PopKeepsHeap(expirationHeap);
      PopMembers(expirationHeap);
      expirationHeap := Pop(expirationHeap);
    }

    /** Pushes the entry of a new deadline. */
    method PushDeadline(key: string, d: real)
      requires Tracks(expirationHeap, ttlDict)
      modifies `ttlDict, `expirationHeap
      ensures Tracks(expirationHeap, ttlDict)
      ensures ttlDict == old(ttlDict)[key := d]
      ensures multiset(expirationHeap) == multiset(old(expirationHeap)) + multiset{Entry(d, key)}
    {
      PushTracks(expirationHeap, ttlDict, key, d);
      ttlDict := ttlDict[key := d];
      expirationHeap := Push(expirationHeap, Entry(d, key));
    }

    /** The top of the heap is due no later than any cached key. */
    lemma TopIsDueFirst(key: string)
      requires Tracked() && key in ttlDict
      ensures expirationHeap != [] && Le(expirationHeap[0], Entry(ttlDict[key], key))
    {
      var i :| 0 <= i < |expirationHeap| && expirationHeap[i] == Entry(ttlDict[key], key);
      HeadIsLeast(expirationHeap, i);
    }

    /** Removes what has expired, and nothing else, from the dictionaries. */
    method PurgeExpired(now: real)
      requires Tracked()
      modifies `cacheDict, `ttlDict, `expirationHeap
      ensures Tracked() && StaleEntries() <= old(StaleEntries())
      ensures SubMap(cacheDict, old(cacheDict))
      ensures SubMap(ttlDict, old(ttlDict))
      ensures forall k :: k in old(ttlDict) ==> (k in ttlDict <==> old(ttlDict)[k] > now)
    {
      while expirationHeap != []
        invariant Tracked() && StaleEntries() <= old(StaleEntries())
        invariant SubMap(cacheDict, old(cacheDict))
        invariant SubMap(ttlDict, old(ttlDict))
        invariant forall k :: k in old(ttlDict) && k !in ttlDict ==> old(ttlDict)[k] <= now
        decreases |expirationHeap|
      {
        var top := expirationHeap[0];
        if DeadlineOf(ttlDict, top.id) != Some(top.rank) {
          var _ := PopTop();
        } else if top.rank <= now {
          SizeWithout(ttlDict, top.id);
          var _ := PopTop();
          RemoveKey(top.id);
        } else {
          break;
        }
      }
      forall k | k in ttlDict ensures ttlDict[k] > now {
        TopIsDueFirst(k);
      }
    }

    /** One round of eviction by size: pops the top, and removes its key if the entry is
        current; otherwise the key was removed or given another deadline. */
    method EvictTop()
      requires Tracked() && cacheDict != map[]
      modifies `cacheDict, `ttlDict, `expirationHeap
      ensures Tracked() && |expirationHeap| < |old(expirationHeap)| && StaleEntries() <= old(StaleEntries())
      ensures (cacheDict == old(cacheDict) && ttlDict == old(ttlDict))
        || exists key :: key in old(ttlDict) && cacheDict == old(cacheDict) - {key} && ttlDict == old(ttlDict) - {key}
             && forall k :: k in ttlDict ==> Lt(Entry(old(ttlDict)[key], key), Entry(ttlDict[k], k))
    {
      ghost var some :| some in cacheDict;
      TopIsDueFirst(some);
      forall k | k in ttlDict ensures Le(expirationHeap[0], Entry(ttlDict[k], k)) {
        TopIsDueFirst(k);
      }
      var top := PopTop();
      if DeadlineOf(ttlDict, top.id) == Some(top.rank) {
        forall k | k in ttlDict && k != top.id ensures Lt(top, Entry(ttlDict[k], k)) {
          LtTotal(top, Entry(ttlDict[k], k));
        }
        SizeWithout(ttlDict, top.id);
        RemoveKey(top.id);
      }
    }

    /** Evicts the keys due first until fewer than `maxSize` are left. */
    method Shrink()
      requires Tracked() && maxSize > 0
      modifies `cacheDict, `ttlDict, `expirationHeap
      ensures Tracked() && |cacheDict| < maxSize && StaleEntries() <= old(StaleEntries())
      ensures SubMap(cacheDict, old(cacheDict))
      ensures SubMap(ttlDict, old(ttlDict))
      ensures ttlDict != old(ttlDict) ==> |cacheDict| == maxSize - 1
      ensures forall r, k :: r in old(ttlDict) && r !in ttlDict && k in ttlDict ==>
        Lt(Entry(old(ttlDict)[r], r), Entry(ttlDict[k], k))
    {
      while |cacheDict| >= maxSize
        invariant Tracked() && StaleEntries() <= old(StaleEntries())
        invariant SubMap(cacheDict, old(cacheDict))
        invariant SubMap(ttlDict, old(ttlDict))
        invariant ttlDict != old(ttlDict) ==> |cacheDict| >= maxSize - 1
        invariant forall r, k :: r in old(ttlDict) && r !in ttlDict && k in ttlDict ==>
          Lt(Entry(old(ttlDict)[r], r), Entry(ttlDict[k], k))
        decreases |expirationHeap|
      {
        ghost var before := cacheDict;
        EvictTop();
        if cacheDict != before {
          ghost var key :| key in before && cacheDict == before - {key};
          assert cacheDict.Keys == before.Keys - {key};
        }
      }
    }

    /** What is left is the survivors, whatever stale entries the heap held; the heap loses at
        least as many entries as the dictionaries lose keys. */
    method EvictCache(now: real)
      requires Tracked() && maxSize > 0
      modifies `cacheDict, `ttlDict, `expirationHeap
      ensures Tracked() && StaleEntries() <= old(StaleEntries())
      ensures Survivors(old(ttlDict), ttlDict.Keys, now, maxSize)
      ensures cacheDict == Restrict(old(cacheDict), ttlDict.Keys)
      ensures ttlDict == Restrict(old(ttlDict), ttlDict.Keys)
    {
      PurgeExpired(now);
      ghost var unexpired := ttlDict;
      Shrink();
      assert |ttlDict.Keys| == |cacheDict.Keys| == |cacheDict|;
      PurgedAndShrunk(old(ttlDict), unexpired, ttlDict, now, maxSize);
      SubMapIsRestricted(cacheDict, old(cacheDict));
      SubMapIsRestricted(ttlDict, old(ttlDict));
    }

    /** Evicts if the cache is full. */
    method MakeRoom(now: real)
      requires Valid() && maxSize > 0
      modifies `cacheDict, `ttlDict, `expirationHeap
      ensures Valid() && |cacheDict| < maxSize
      ensures MakesRoom(old(State()), State(), now, maxSize)
    {
      if |cacheDict| >= maxSize {
        EvictCache(now);
        ValidIsConsistent();
        assert |cacheDict| == |cacheDict.Keys|;
      }
    }

    /** Gives the key a deadline and a heap entry unless it has a deadline that has not
        passed. */
    method StampDeadline(key: string, ttl: real, t: Clock)
      requires cacheDict.Keys == ttlDict.Keys + {key}
      requires Tracks(expirationHeap, ttlDict)
      modifies `ttlDict, `expirationHeap
      ensures Tracked()
      ensures ttlDict == old(ttlDict)[key := NextDeadline(DeadlineOf(old(ttlDict), key), t, ttl)]
      ensures multiset(expirationHeap) ==
        if Stamps(old(ttlDict), key, t) then multiset(old(expirationHeap)) + multiset{Entry(t.stamp + ttl, key)}
        else multiset(old(expirationHeap))
    {
      ghost var deadline := NextDeadline(DeadlineOf(ttlDict, key), t, ttl);
      StampedDeadline(ttlDict, key, t, ttl);
      if key !in ttlDict || ttlDict[key] < t.check {
        PushDeadline(key, t.stamp + ttl);
      }
      assert ttlDict == old(ttlDict)[key := deadline];
    }

    /** Stores a value. A full cache evicts first, even when the key is already cached and
        even when the value is then refused for its size; a refused value leaves an older
        one in place. */
    method SetCache(key: string, value: V, ttl: Option<real>, sizeOk: bool, t: Clock)
      requires Valid()
      modifies this
      ensures Valid()
      ensures Step(Bounds(), old(State()), Set(key, value, ttl, sizeOk, t), State())
      ensures maxSize == 0 ==> State() == old(State())
      ensures maxSize > 0 && sizeOk ==> key in cacheDict && cacheDict[key] == value
      ensures maxSize > 0 && |old(cacheDict)| < maxSize ==>
        && cacheDict == (if sizeOk then old(cacheDict)[key := value] else old(cacheDict))
        && ttlDict == (if !sizeOk || (key in old(ttlDict) && t.check <= old(ttlDict)[key]) then old(ttlDict)
                       else old(ttlDict)[key := t.stamp + (if ttl.Some? then ttl.value else defaultTtl)])
      ensures maxSize > 0 && |old(cacheDict)| >= maxSize ==>
        forall k :: k != key || !sizeOk ==>
          && (k in cacheDict <==> k in old(cacheDict) && Survives(old(ttlDict), k, t.evict, maxSize))
          && (k in cacheDict ==> cacheDict[k] == old(cacheDict)[k] && ttlDict[k] == old(ttlDict)[k])
    {
      if maxSize == 0 {
        return;
      }
      MakeRoom(t.evict);
      ghost var room := State();
      if sizeOk {
        Put(key, value, ttl.GetOr(defaultTtl), t);
      }
      assert State() == AfterRoom(Bounds(), room, Set(key, value, ttl, sizeOk, t));
      RoomLeavesSurvivors(old(State()), room, t.evict, maxSize);
      assert SetStep(Bounds(), old(State()), Set(key, value, ttl, sizeOk, t), State());
    }

    method Put(key: string, value: V, ttl: real, t: Clock)
      requires Valid() && |cacheDict| < maxSize
      modifies this
      ensures Valid()
      ensures State() == Stored(old(State()), key, value, ttl, t)
    {
      SizeWith(cacheDict, key, value);
      ghost var stored := Stored(State(), key, value, ttl, t);
      cacheDict := cacheDict[key := value];
      assert cacheDict.Keys == old(cacheDict).Keys + {key};
      StampDeadline(key, ttl, t);
      assert stored.cached == cacheDict && stored.ttl == ttlDict && stored.heap == multiset(expirationHeap);
    }

    /** Returns the cached value unless its deadline has passed, in which case it is
        removed. */
    method GetCache(key: string, now: real) returns (r: Option<V>)
      requires Valid()
      modifies `cacheDict, `ttlDict
      ensures Valid()
      ensures Step(Bounds(), old(State()), Get(key, now), State())
      ensures r == Answer(old(State()), key, now)
      ensures r == if key in old(cacheDict) && now <= old(ttlDict)[key] then Some(old(cacheDict)[key]) else None
      ensures cacheDict == if r.None? then old(cacheDict) - {key} else old(cacheDict)
      ensures ttlDict == if r.None? then old(ttlDict) - {key} else old(ttlDict)
    {
      if key in cacheDict {
        if now > ttlDict[key] {
          SizeWithout(cacheDict, key);
          RemoveKey(key);
          return None;
        }
        return Some(cacheDict[key]);
      }
      return None;
    }

    method DeleteCache(key: string)
      requires Valid()
      modifies `cacheDict, `ttlDict
      ensures Valid()
      ensures Step(Bounds(), old(State()), Delete(key), State())
      ensures cacheDict == old(cacheDict) - {key} && ttlDict == old(ttlDict) - {key}
    {
      SizeWithout(cacheDict, key);
      RemoveKey(key);
    }

    method FlushCache()
      modifies this
      ensures Valid()
      ensures Step(Bounds(), old(State()), Flush, State())
      ensures cacheDict == map[] && ttlDict == map[] && expirationHeap == []
    {
      cacheDict, ttlDict, expirationHeap := map[], map[], [];
    }
  }

  /** The size bound covers the dictionaries only: a key that keeps expiring and being
      rewritten leaves one stale heap entry per round, with never more than one key cached. */
  method StaleEntriesAccumulate(rounds: nat) returns (c: InMemoryCache<int>)
    ensures c.Valid() && |c.cacheDict| <= 1 && |c.expirationHeap| == rounds
  {
    c := new InMemoryCache<int>(200, 600.0);
    for i := 0 to rounds
      invariant fresh(c) && c.Valid() && c.maxSize == 200
      invariant c.cacheDict == map[] && c.ttlDict == map[]
      invariant |c.expirationHeap| == i
    {
      var start := (2 * i) as real;
      ghost var before := multiset(c.expirationHeap);
      c.SetCache("key", i, Some(1.0), true, Clock(start, start, start));
      assert |multiset(c.expirationHeap)| == |before| + 1;
      var r := c.GetCache("key", start + 2.0);
    }
  }
}
