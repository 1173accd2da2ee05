/** Collecting the results of many submitted calls: in submission order for a batch of
    completions, in completion order for a list of token prompts. */
module BatchResults {
  import opened FanOut
  import opened Sequences

  // ---------- chunks ----------

  const CHUNK_SIZE: nat := 100

  /** Successive slices of `n`, the last one possibly shorter. */
  function Chunks<T>(list: seq<T>, n: nat): (r: seq<seq<T>>)
    requires n > 0
    ensures forall i :: 0 <= i < |r| ==> 0 < |r[i]| <= n && (i + 1 < |r| ==> |r[i]| == n)
    decreases |list|
  {
    if list == [] then []
    else if |list| <= n then [list]
    else [list[..n]] + Chunks(list[n..], n)
  }

  function Flatten<T>(lists: seq<seq<T>>): seq<T> {
    if lists == [] then [] else lists[0] + Flatten(lists[1..])
  }

  /** Chunking loses, repeats and reorders nothing. */
  lemma {:induction false} FlattenChunks<T>(list: seq<T>, n: nat)
    requires n > 0
    ensures Flatten(Chunks(list, n)) == list
    decreases |list|
  {
    if |list| > n {
      FlattenChunks(list[n..], n);
      assert list == list[..n] + list[n..];
    } else if list != [] {
      assert [list][1..] == [];
    }
  }

  lemma {:induction false} FlattenPrefix<T>(lists: seq<seq<T>>, i: nat)
    requires i < |lists|
    ensures Flatten(lists[..i + 1]) == Flatten(lists[..i]) + lists[i]
  {
    if i == 0 {
      assert lists[..1] == [lists[0]] && lists[..0] == [];
    } else {
      FlattenPrefix(lists[1..], i - 1);
      assert lists[..i + 1][1..] == lists[1..][..i] && lists[..i][1..] == lists[1..][..i - 1];
    }
  }

  /** The submitting loops: the i-th future runs the i-th message list. */
  method SubmitInChunks<M>(messages: seq<M>) returns (submitted: seq<M>)
    ensures submitted == messages
  {
    var chunks := Chunks(messages, CHUNK_SIZE);
    FlattenChunks(messages, CHUNK_SIZE);
    submitted := [];
    for c := 0 to |chunks|
      invariant submitted == Flatten(chunks[..c])
    {
      var subBatch := chunks[c];
      for m := 0 to |subBatch|
        invariant submitted == Flatten(chunks[..c]) + subBatch[..m]
      {
        submitted := submitted + [subBatch[m]];
        assert subBatch[..m + 1] == subBatch[..m] + [subBatch[m]];
      }
      FlattenPrefix(chunks, c);
    }
    assert chunks[..|chunks|] == chunks;
  }

  // ---------- workers ----------

  function Numbers(n: nat): (r: seq<nat>)
    ensures |r| == n
  {
    seq(n, i => i)
  }

  /** The order in which the futures `0 .. n` complete. */
  ghost predicate CompletionOrder(order: seq<nat>, n: nat) {
    multiset(order) == multiset(Numbers(n))
  }

  /** What the futures hold once the workers have completed them in this order. */
  function RunWorkers<R>(order: seq<nat>, call: nat -> R): map<nat, R> {
    if order == [] then map[]
    else RunWorkers(order[..|order| - 1], call)[order[|order| - 1] := call(order[|order| - 1])]
  }

  lemma {:induction false} WorkersFillFutures<R>(order: seq<nat>, call: nat -> R, f: nat)
    requires f in order
    ensures f in RunWorkers(order, call) && RunWorkers(order, call)[f] == call(f)
  {
    if order[|order| - 1] != f {
      WorkersFillFutures(order[..|order| - 1], call, f);
    }
  }

  lemma OrderCovers(order: seq<nat>, n: nat)
    requires CompletionOrder(order, n)
    ensures |order| == n && forall f: nat :: f in order <==> f < n
  {
    assert |order| == |multiset(order)| == |multiset(Numbers(n))| == n;
    forall f: nat ensures f in order <==> f < n {
      assert f in order <==> f in multiset(order);
      assert f in Numbers(n) <==> f in multiset(Numbers(n));
      if f < n { assert Numbers(n)[f] == f; }
    }
  }

  /** batch_completion: whatever the workers' schedule, one outcome per message list, slot i
      holding request i's result or exception. */
  method BatchCompletion<M, R>(messages: seq<M>, complete: M -> Outcome<R>, order: seq<nat>)
    returns (results: seq<Outcome<R>>)
    requires CompletionOrder(order, |messages|)
    ensures |results| == |messages| && forall i :: 0 <= i < |messages| ==> results[i] == complete(messages[i])
  {
    var submitted := SubmitInChunks(messages);
    var call := (f: nat) => if f < |submitted| then complete(submitted[f]) else Failure("");
    var futures := RunWorkers(order, call);
    OrderCovers(order, |messages|);
    results := [];
    for i := 0 to |submitted|
      invariant |results| == i && forall j :: 0 <= j < i ==> results[j] == complete(messages[j])
    {
      WorkersFillFutures(order, call, i);
      results := results + [futures[i]];
    }
  }

  // ---------- as completed ----------

  /** The token-list branch: slot i gets the result of the i-th future to complete. A failed
      call raises, and no list is returned. */
  method CollectAsCompleted<R>(n: nat, call: nat -> Outcome<R>, order: seq<nat>)
    returns (responses: array<Outcome<R>>, raised: bool)
    requires CompletionOrder(order, n)
    ensures fresh(responses) && responses.Length == n
    ensures raised <==> exists f :: 0 <= f < n && call(f).Failure?
    ensures !raised ==> |order| == n && forall i :: 0 <= i < n ==> responses[i] == call(order[i])
  {
    OrderCovers(order, n);
    responses := new Outcome<R>[n](_ => Failure(""));
    for i := 0 to n
      invariant forall j :: 0 <= j < i ==> responses[j] == call(order[j]) && call(order[j]).Success?
    {
      assert order[i] in order;
      var result := call(order[i]);
      if result.Failure? {
        return responses, true;
      }
      responses[i] := result;
    }
    raised := false;
    forall f | 0 <= f < n ensures call(f).Success? {
      assert f in order;
      var j :| 0 <= j < n && order[j] == f;
    }
  }

  /** The results of calls in a given order. */
  function Collect<R>(order: seq<nat>, call: nat -> R): (r: seq<R>)
    ensures |r| == |order|
  {
    seq(|order|, i requires 0 <= i < |order| => call(order[i]))
  }

  lemma CollectWithout<R>(s: seq<nat>, i: nat, call: nat -> R)
    requires i < |s|
    ensures multiset(Collect(s, call)) == multiset(Collect(Remove(s, i), call)) + multiset{call(s[i])}
  {
    RemoveOne(Collect(s, call), i);
    assert Remove(Collect(s, call), i) == Collect(Remove(s, i), call);
  }

  lemma CancelOne<T>(a: multiset<T>, b: multiset<T>, x: T)
    requires a + multiset{x} == b + multiset{x}
    ensures a == b
  {
    assert a == (a + multiset{x}) - multiset{x} && b == (b + multiset{x}) - multiset{x};
  }

  /** Collecting in another order permutes the results. */
  lemma {:induction false} CollectPermutes<R>(a: seq<nat>, b: seq<nat>, call: nat -> R)
    requires multiset(a) == multiset(b)
    ensures multiset(Collect(a, call)) == multiset(Collect(b, call))
    decreases |a|
  {
    assert |a| == |multiset(a)| == |multiset(b)| == |b|;
    if a == [] {
      assert Collect(a, call) == Collect(b, call);
    } else {
      assert a[0] in multiset(b);
      var i :| 0 <= i < |b| && b[i] == a[0];
      RemoveOne(a, 0);
      RemoveOne(b, i);
      CancelOne(multiset(Remove(a, 0)), multiset(Remove(b, i)), a[0]);
      CollectPermutes(Remove(a, 0), Remove(b, i), call);
      CollectWithout(a, 0, call);
      CollectWithout(b, i, call);
    }
  }

  /** When all calls succeed, so that slot i holds what the i-th future to complete returned, the
      slots hold the results of all prompts, but only as a permutation. */
  lemma AsCompletedIsPermutation<R>(n: nat, call: nat -> R, order: seq<nat>, responses: seq<R>)
    requires CompletionOrder(order, n) && |responses| == |order|
    requires forall i :: 0 <= i < |order| ==> responses[i] == call(order[i])
    ensures multiset(responses) == multiset(seq(n, i requires 0 <= i < n => call(i)))
  {
    OrderCovers(order, n);
    CollectPermutes(order, Numbers(n), call);
    assert responses == Collect(order, call);
    assert seq(n, i requires 0 <= i < n => call(i)) == Collect(Numbers(n), call);
  }

  /** When the results differ, every slot holds its own prompt's result exactly if the
      futures complete in the order of submission. */
  lemma SlotsMatchOnlyInOrder<R>(n: nat, call: nat -> R, order: seq<nat>, responses: seq<R>)
    requires CompletionOrder(order, n) && |responses| == |order|
    requires forall i :: 0 <= i < |order| ==> responses[i] == call(order[i])
    requires forall f, g :: 0 <= f < g < n ==> call(f) != call(g)
    ensures |responses| == n
    ensures (forall i :: 0 <= i < n ==> responses[i] == call(i)) <==> (forall i :: 0 <= i < n ==> order[i] == i)
  {
    OrderCovers(order, n);
    if forall i :: 0 <= i < n ==> responses[i] == call(i) {
      forall i | 0 <= i < n ensures order[i] == i {
        assert order[i] in order;
        assert responses[i] == call(order[i]) == call(i);
      }
    }
  }
}
