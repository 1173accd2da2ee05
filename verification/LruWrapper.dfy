/** The memoising wrapper over functools.lru_cache that also remembers exceptions. */
module LruWrapper {
  import opened Options
  import opened Sequences

  /** How a call of the wrapped function ends: with a value, with an `Exception`, or with
      something that `except Exception` does not catch. */
  datatype Outcome<+R> = Returns(value: R) | Raises(error: string) | Escapes(signal: string)

  /** What the table stores. */
  datatype Tagged<+R> = TagSuccess(value: R) | TagError(error: string)

  datatype Slot<+K, +R> = Slot(key: K, tagged: Tagged<R>)

  function Tag<R>(o: Outcome<R>): Tagged<R>
    requires !o.Escapes?
  {
    if o.Returns? then TagSuccess(o.value) else TagError(o.error)
  }

  function Untag<R>(t: Tagged<R>): Outcome<R> {
    match t
    case TagSuccess(v) => Returns(v)
    case TagError(e) => Raises(e)
  }

  // ---------- the table, least recently used first ----------

  function Lookup<K(==), R>(table: seq<Slot<K, R>>, key: K): Option<Tagged<R>> {
    if table == [] then None
    else if table[0].key == key then Some(table[0].tagged)
    else Lookup(table[1..], key)
  }

  function Without<K(==), R>(table: seq<Slot<K, R>>, key: K): (r: seq<Slot<K, R>>)
    ensures |r| <= |table|
  {
    if table == [] then []
    else (if table[0].key == key then [] else [table[0]]) + Without(table[1..], key)
  }

  predicate Full(maxSize: Option<nat>, size: nat) {
    maxSize.Some? && size >= maxSize.value
  }

  /** The table after a call: a hit becomes the most recent entry; a miss is stored, in place
      of the least recent entry if the table is full; what escapes is not stored. */
  function NextTable<K(==), R>(maxSize: Option<nat>, f: K -> Outcome<R>, table: seq<Slot<K, R>>,
                               key: K): seq<Slot<K, R>> {
    var hit := Lookup(table, key);
    if hit.Some? then Without(table, key) + [Slot(key, hit.value)]
    else if f(key).Escapes? || maxSize == Some(0) then table
    else if Full(maxSize, |table|) && table != [] then table[1..] + [Slot(key, Tag(f(key)))]
    else table + [Slot(key, Tag(f(key)))]
  }

  function TableAfter<K(==), R>(maxSize: Option<nat>, f: K -> Outcome<R>, calls: seq<K>): seq<Slot<K, R>> {
    if calls == [] then []
    else NextTable(maxSize, f, TableAfter(maxSize, f, calls[..|calls| - 1]), calls[|calls| - 1])
  }

  /** Every entry is what the function would answer. */
  ghost predicate Faithful<K, R>(f: K -> Outcome<R>, table: seq<Slot<K, R>>) {
    forall s :: s in table ==> !f(s.key).Escapes? && s.tagged == Tag(f(s.key))
  }

  lemma {:induction false} LookupIsFaithful<K, R>(f: K -> Outcome<R>, table: seq<Slot<K, R>>, key: K)
    requires Faithful(f, table)
    ensures Lookup(table, key).Some? ==> Untag(Lookup(table, key).value) == f(key) && !f(key).Escapes?
    ensures Lookup(table, key).Some? <==> exists s :: s in table && s.key == key
  {
    if table != [] {
      assert table[0] in table;
      LookupIsFaithful(f, table[1..], key);
      assert forall s :: s in table <==> s == table[0] || s in table[1..];
    }
  }

  lemma {:induction false} WithoutKeeps<K, R>(table: seq<Slot<K, R>>, key: K, s: Slot<K, R>)
    requires s in Without(table, key)
    ensures s in table
  {
    if table != [] && s in Without(table[1..], key) {
      WithoutKeeps(table[1..], key, s);
    }
  }

  lemma StepIsFaithful<K, R>(maxSize: Option<nat>, f: K -> Outcome<R>, table: seq<Slot<K, R>>, key: K)
    requires Faithful(f, table)
    ensures Faithful(f, NextTable(maxSize, f, table, key))
  {
    LookupIsFaithful(f, table, key);
    forall s | s in Without(table, key) ensures s in table {
      WithoutKeeps(table, key, s);
    }
  }

  class Wrapper<K(!new, ==), R> {
    const maxSize: Option<nat>
    const f: K -> Outcome<R>
    var table: seq<Slot<K, R>>
    /** The keys of all calls so far. */
    ghost var calls: seq<K>

    ghost predicate Valid()
      reads this
    {
      table == TableAfter(maxSize, f, calls) && Faithful(f, table)
    }

    constructor (maxSize: Option<nat>, f: K -> Outcome<R>)
      ensures Valid() && calls == [] && this.maxSize == maxSize && this.f == f
    {
      this.maxSize, this.f := maxSize, f;
      table, calls := [], [];
    }

    /** Returns, raises or lets escape exactly what a direct call would. */
    method Call(key: K) returns (result: Outcome<R>)
      requires Valid()
      modifies this
      ensures Valid() && calls == old(calls) + [key]
      ensures result == f(key)
    {
      LookupIsFaithful(f, table, key);
      StepIsFaithful(maxSize, f, table, key);
      ghost var next := NextTable(maxSize, f, table, key);
      var hit := Lookup(table, key);
      if hit.Some? {
        table := Without(table, key) + [Slot(key, hit.value)];
        result := Untag(hit.value);
      } else {
        result := f(key);
        if !result.Escapes? && maxSize != Some(0) {
          if Full(maxSize, |table|) && table != [] {
            table := table[1..];
          }
          table := table + [Slot(key, Tag(result))];
        }
      }
      calls := calls + [key];
      assert calls[..|calls| - 1] == old(calls);
    }
  }

  // ---------- what the table holds ----------

  function WithoutKey<K(!new, ==)>(keys: seq<K>, key: K): (r: seq<K>)
    ensures key !in r && forall k :: k in r <==> k in keys && k != key
  {
    if keys == [] then [] else (if keys[0] == key then [] else [keys[0]]) + WithoutKey(keys[1..], key)
  }

  /** The distinct keys of the calls that did not escape, by last use, most recent last. */
  function Recent<K(!new, ==), R>(f: K -> Outcome<R>, calls: seq<K>): seq<K> {
    if calls == [] then []
    else
      var before, key := Recent(f, calls[..|calls| - 1]), calls[|calls| - 1];
      NextRecent(before, key, f(key).Escapes?)
  }

  function NextRecent<K(!new, ==)>(recent: seq<K>, key: K, escapes: bool): seq<K> {
    if escapes then recent else WithoutKey(recent, key) + [key]
  }

  function LastUpTo<T>(s: seq<T>, maxSize: Option<nat>): seq<T> {
    if Full(maxSize, |s|) then s[|s| - maxSize.value..] else s
  }

  function Keys<K, R>(table: seq<Slot<K, R>>): (r: seq<K>)
    ensures |r| == |table|
  {
    seq(|table|, i requires 0 <= i < |table| => table[i].key)
  }

  lemma {:induction false} WithoutKeyAppend<K(!new)>(a: seq<K>, b: seq<K>, key: K)
    ensures WithoutKey(a + b, key) == WithoutKey(a, key) + WithoutKey(b, key)
  {
    if a == [] {
      assert a + b == b;
    } else {
      assert (a + b)[1..] == a[1..] + b;
      WithoutKeyAppend(a[1..], b, key);
    }
  }

  lemma {:induction false} WithoutMissingKey<K(!new)>(keys: seq<K>, key: K)
    requires key !in keys
    ensures WithoutKey(keys, key) == keys
  {
    if keys != [] {
      WithoutMissingKey(keys[1..], key);
    }
  }

  lemma {:induction false} WithoutKeyShrinks<K(!new)>(keys: seq<K>, key: K)
    requires NoRepeats(keys)
    ensures NoRepeats(WithoutKey(keys, key))
    ensures |WithoutKey(keys, key)| == |keys| - if key in keys then 1 else 0
  {
    if keys != [] {
      assert forall i :: 0 < i < |keys| ==> keys[i] == keys[1..][i - 1];
      assert keys[0] !in keys[1..];
      WithoutKeyShrinks(keys[1..], key);
    }
  }

  lemma {:induction false} KeysWithout<K(!new), R>(table: seq<Slot<K, R>>, key: K)
    ensures Keys(Without(table, key)) == WithoutKey(Keys(table), key)
  {
    if table != [] {
      KeysWithout(table[1..], key);
      assert Keys(table) == [table[0].key] + Keys(table[1..]);
      assert Keys(table)[1..] == Keys(table[1..]);
    }
  }

  /** The keys held after a call, from the keys held before. */
  function NextKeys<K(!new, ==)>(maxSize: Option<nat>, held: seq<K>, key: K, escapes: bool): seq<K> {
    if key in held then WithoutKey(held, key) + [key]
    else if escapes || maxSize == Some(0) then held
    else (if Full(maxSize, |held|) && held != [] then held[1..] else held) + [key]
  }

  lemma KeysOfNextTable<K(!new), R>(maxSize: Option<nat>, f: K -> Outcome<R>, table: seq<Slot<K, R>>, key: K)
    requires Faithful(f, table)
    ensures Keys(NextTable(maxSize, f, table, key)) == NextKeys(maxSize, Keys(table), key, f(key).Escapes?)
    ensures key in Keys(table) ==> !f(key).Escapes?
  {
    LookupIsFaithful(f, table, key);
    KeysWithout(table, key);
    assert forall i :: 0 <= i < |table| ==> Keys(table)[i] == table[i].key && table[i] in table;
  }

  lemma RecentHit<K(!new)>(older: seq<K>, held: seq<K>, key: K, maxSize: Option<nat>)
    requires NoRepeats(held) && key in held && key !in older
    requires maxSize.Some? ==> |held| <= maxSize.value
    requires older != [] ==> maxSize == Some(|held|)
    ensures LastUpTo(WithoutKey(older + held, key) + [key], maxSize) == WithoutKey(held, key) + [key]
  {
    WithoutKeyAppend(older, held, key);
    WithoutMissingKey(older, key);
    WithoutKeyShrinks(held, key);
    SuffixOfConcat(older, WithoutKey(held, key) + [key], maxSize);
    assert (older + WithoutKey(held, key)) + [key] == older + (WithoutKey(held, key) + [key]);
  }

  lemma RecentMiss<K(!new)>(older: seq<K>, held: seq<K>, key: K, maxSize: Option<nat>)
    requires key !in held && maxSize != Some(0)
    requires maxSize.Some? ==> |held| <= maxSize.value
    requires older != [] ==> maxSize == Some(|held|)
    ensures LastUpTo(WithoutKey(older + held, key) + [key], maxSize)
         == (if Full(maxSize, |held|) then held[1..] else held) + [key]
  {
    WithoutKeyAppend(older, held, key);
    WithoutMissingKey(held, key);
    var rest := WithoutKey(older, key);
    if Full(maxSize, |held|) {
      ShiftOne(rest, held, key);
      SuffixOfConcat(rest + [held[0]], held[1..] + [key], maxSize);
    } else {
      assert older == [];
      assert rest + held == held;
    }
  }

  lemma ShiftOne<K>(rest: seq<K>, held: seq<K>, key: K)
    requires held != []
    ensures (rest + held) + [key] == (rest + [held[0]]) + (held[1..] + [key])
  {
  }

  lemma SuffixOfConcat<T>(a: seq<T>, b: seq<T>, maxSize: Option<nat>)
    requires maxSize.Some? ==> |b| <= maxSize.value
    requires a != [] ==> maxSize == Some(|b|)
    ensures LastUpTo(a + b, maxSize) == b
  {
  }

  lemma SplitsDistinct<K>(older: seq<K>, held: seq<K>, key: K)
    requires NoRepeats(older + held)
    ensures NoRepeats(held) && (key in held ==> key !in older)
  {
    var all := older + held;
    assert forall i :: 0 <= i < |held| ==> held[i] == all[|older| + i];
    assert forall i :: 0 <= i < |older| ==> older[i] == all[i];
  }

  lemma {:induction false} RecentHasNoRepeats<K(!new), R>(f: K -> Outcome<R>, calls: seq<K>)
    ensures NoRepeats(Recent(f, calls))
    ensures forall k :: k in Recent(f, calls) <==> k in calls && !f(k).Escapes?
  {
    if calls != [] {
      var init, key := calls[..|calls| - 1], calls[|calls| - 1];
      RecentHasNoRepeats(f, init);
      WithoutKeyShrinks(Recent(f, init), key);
      assert calls == init + [key];
    }
  }

  lemma NextKeysAreMostRecent<K(!new)>(maxSize: Option<nat>, recent: seq<K>, key: K, escapes: bool)
    requires NoRepeats(recent) && (key in LastUpTo(recent, maxSize) ==> !escapes)
    ensures NextKeys(maxSize, LastUpTo(recent, maxSize), key, escapes)
         == LastUpTo(NextRecent(recent, key, escapes), maxSize)
  {
    var held := LastUpTo(recent, maxSize);
    var older := recent[..|recent| - |held|];
    assert recent == older + held;
    SplitsDistinct(older, held, key);
    if escapes {
      assert key !in held;
    } else if key in held {
      RecentHit(older, held, key, maxSize);
    } else if maxSize == Some(0) {
      assert held == [];
      assert LastUpTo(WithoutKey(recent, key) + [key], maxSize) == [];
    } else {
      RecentMiss(older, held, key, maxSize);
    }
  }

  /** Where a key was called last. */
  function LastUse<K(==)>(calls: seq<K>, key: K): (i: nat)
    requires key in calls
    ensures i < |calls| && calls[i] == key && forall j :: i < j < |calls| ==> calls[j] != key
  {
    if calls[|calls| - 1] == key then |calls| - 1 else LastUse(calls[..|calls| - 1], key)
  }

  /** Every key was last called before all the keys after it. */
  ghost predicate ByLastUse<K(!new)>(keys: seq<K>, calls: seq<K>) {
    keys == [] ||
    (&& keys[0] in calls
     && (forall k :: k in keys[1..] ==> k in calls && LastUse(calls, keys[0]) < LastUse(calls, k))
     && ByLastUse(keys[1..], calls))
  }

  lemma LastUseAfter<K(!new)>(calls: seq<K>, key: K)
    ensures key in calls + [key] && LastUse(calls + [key], key) == |calls|
    ensures forall k :: k in calls && k != key ==> k in calls + [key] && LastUse(calls + [key], k) == LastUse(calls, k)
  {
    assert (calls + [key])[..|calls|] == calls;
  }

  lemma {:induction false} ByLastUseAfter<K(!new)>(keys: seq<K>, calls: seq<K>, key: K)
    requires ByLastUse(keys, calls)
    ensures ByLastUse(WithoutKey(keys, key) + [key], calls + [key])
    ensures key !in keys ==> ByLastUse(keys, calls + [key])
  {
    LastUseAfter(calls, key);
    if keys != [] {
      var rest := WithoutKey(keys[1..], key) + [key];
      ByLastUseAfter(keys[1..], calls, key);
      if keys[0] == key {
        assert WithoutKey(keys, key) == WithoutKey(keys[1..], key);
      } else {
        assert WithoutKey(keys, key) + [key] == [keys[0]] + rest;
        assert ([keys[0]] + rest)[1..] == rest;
      }
    } else {
      assert ([] + [key])[1..] == [];
    }
  }

  /** The recent keys come in the order of their last calls. */
  lemma {:induction false} RecentIsByLastUse<K(!new), R>(f: K -> Outcome<R>, calls: seq<K>)
    ensures ByLastUse(Recent(f, calls), calls)
  {
    if calls != [] {
      var init, key := calls[..|calls| - 1], calls[|calls| - 1];
      assert calls == init + [key];
      RecentIsByLastUse(f, init);
      RecentHasNoRepeats(f, init);
      ByLastUseAfter(Recent(f, init), init, key);
    }
  }

  /** The table of a bounded wrapper holds exactly the `maxSize` most recently used distinct
      keys, in order of use, and an unbounded one every key. */
  lemma {:induction false} TableIsMostRecent<K(!new), R>(maxSize: Option<nat>, f: K -> Outcome<R>, calls: seq<K>)
    ensures Faithful(f, TableAfter(maxSize, f, calls))
    ensures Keys(TableAfter(maxSize, f, calls)) == LastUpTo(Recent(f, calls), maxSize)
    ensures ByLastUse(Recent(f, calls), calls)
    ensures forall k :: k in Recent(f, calls) <==> k in calls && !f(k).Escapes?
  {
    RecentIsByLastUse(f, calls);
    RecentHasNoRepeats(f, calls);
    if calls != [] {
      var init, key := calls[..|calls| - 1], calls[|calls| - 1];
      var table := TableAfter(maxSize, f, init);
      TableIsMostRecent(maxSize, f, init);
      StepIsFaithful(maxSize, f, table, key);
      KeysOfNextTable(maxSize, f, table, key);
      RecentHasNoRepeats(f, init);
      NextKeysAreMostRecent(maxSize, Recent(f, init), key, f(key).Escapes?);
    }
  }

  /** A bounded wrapper never holds more than `maxSize` entries. */
  lemma TableIsBounded<K(!new), R>(maxSize: nat, f: K -> Outcome<R>, calls: seq<K>)
    ensures |TableAfter(Some(maxSize), f, calls)| <= maxSize
  {
    TableIsMostRecent(Some(maxSize), f, calls);
  }

  // ---------- evaluations ----------

  /** How often the function itself was run for a key. */
  ghost function Evaluations<K(!new), R>(maxSize: Option<nat>, f: K -> Outcome<R>, calls: seq<K>, key: K): nat {
    if calls == [] then 0
    else
      var init, last := calls[..|calls| - 1], calls[|calls| - 1];
      Evaluations(maxSize, f, init, key)
      + if last == key && Lookup(TableAfter(maxSize, f, init), last).None? then 1 else 0
  }

  /** While no more distinct keys have been used than fit, the function is run exactly once
      for every key that was asked for and did not escape. */
  lemma {:induction false} EvaluatedOnce<K(!new), R>(maxSize: Option<nat>, f: K -> Outcome<R>, calls: seq<K>, key: K)
    requires maxSize.Some? ==> |Recent(f, calls)| <= maxSize.value
    requires !f(key).Escapes?
    ensures Evaluations(maxSize, f, calls, key) == if key in calls then 1 else 0
  {
    if calls != [] {
      var init, last := calls[..|calls| - 1], calls[|calls| - 1];
      assert calls == init + [last];
      RecentHasNoRepeats(f, init);
      WithoutKeyShrinks(Recent(f, init), last);
      EvaluatedOnce(maxSize, f, init, key);
      TableIsMostRecent(maxSize, f, init);
      KeysOfNextTable(maxSize, f, TableAfter(maxSize, f, init), key);
      LookupFindsKeys(f, TableAfter(maxSize, f, init), key);
    }
  }

  lemma LookupFindsKeys<K(!new), R>(f: K -> Outcome<R>, table: seq<Slot<K, R>>, key: K)
    requires Faithful(f, table)
    ensures Lookup(table, key).Some? <==> key in Keys(table)
  {
    LookupIsFaithful(f, table, key);
    assert forall i :: 0 <= i < |table| ==> Keys(table)[i] == table[i].key && table[i] in table;
  }
}
