/** Fan-out of one call over many deployments or many prompts: keyword merging, the race for
    the first response, and the collection of batch results. */
module FanOut {
  import opened Options
  import opened Sequences

  // ---------- merging keyword arguments into the deployments ----------

  /** A Python dictionary object. */
  class Dict<V> {
    var entries: map<string, V>

    constructor (entries: map<string, V>)
      ensures this.entries == entries
    {
      this.entries := entries;
    }
  }

  function Get<V>(m: map<string, V>, key: string): Option<V> {
    if key in m then Some(m[key]) else None
  }

  /** The inner loop: gives a deployment every argument it lacks. */
  method FillMissing<V>(deployment: Dict<V>, kwargs: map<string, V>)
    modifies deployment
    ensures deployment.entries == kwargs + old(deployment.entries)
  {
    var keys := kwargs.Keys;
    while keys != {}
      invariant keys <= kwargs.Keys
      invariant deployment.entries == (map k | k in kwargs && k !in keys :: kwargs[k]) + old(deployment.entries)
      decreases |keys|
    {
      var key :| key in keys;
      if key !in deployment.entries {
        deployment.entries := deployment.entries[key := kwargs[key]];
      }
      keys := keys - {key};
    }
  }

  /** The submitted arguments for the deployments in turn, when `store` is what the
      dictionaries hold. */
  ghost function Submissions<V>(store: map<Dict<V>, map<string, V>>, deployments: seq<Dict<V>>,
                                kwargs: map<string, V>, nested: map<string, V>): (r: seq<map<string, V>>)
    requires forall d :: d in deployments ==> d in store
    ensures |r| == |deployments|
    decreases deployments
  {
    if deployments == [] then []
    else
      var filled := kwargs + store[deployments[0]];
      [filled + nested] + Submissions(store[deployments[0] := filled], deployments[1..], filled + nested, nested)
  }

  ghost function StoreAfter<V>(store: map<Dict<V>, map<string, V>>, deployments: seq<Dict<V>>,
                               kwargs: map<string, V>, nested: map<string, V>): (r: map<Dict<V>, map<string, V>>)
    requires forall d :: d in deployments ==> d in store
    ensures r.Keys == store.Keys
    decreases deployments
  {
    if deployments == [] then store
    else
      var filled := kwargs + store[deployments[0]];
      StoreAfter(store[deployments[0] := filled], deployments[1..], filled + nested, nested)
  }

  ghost function Snapshot<V>(deployments: seq<Dict<V>>): map<Dict<V>, map<string, V>>
    reads deployments
  {
    map d | d in deployments :: d.entries
  }

  /** One round of the merge loop. */
  method MergeOne<V>(deployments: seq<Dict<V>>, deployment: Dict<V>, kwargs: map<string, V>, nested: map<string, V>)
    returns (submitted: map<string, V>)
    requires deployment in deployments
    modifies deployment
    ensures submitted == kwargs + old(deployment.entries) + nested
    ensures Snapshot(deployments) == old(Snapshot(deployments))[deployment := kwargs + old(deployment.entries)]
  {
    FillMissing(deployment, kwargs);
    submitted := deployment.entries + nested;
  }

  /** The merge loop, for any list of dictionaries, even one that names the same dictionary
      twice. */
  method MergeDeployments<V>(deployments: seq<Dict<V>>, kwargs: map<string, V>, nested: map<string, V>)
    returns (submitted: seq<map<string, V>>)
    modifies deployments
    ensures submitted == Submissions(old(Snapshot(deployments)), deployments, kwargs, nested)
    ensures Snapshot(deployments) == StoreAfter(old(Snapshot(deployments)), deployments, kwargs, nested)
  {
    submitted := [];
    var current := kwargs;
    ghost var start := Snapshot(deployments);
    for i := 0 to |deployments|
      invariant submitted + Submissions(Snapshot(deployments), deployments[i..], current, nested)
             == Submissions(start, deployments, kwargs, nested)
      invariant StoreAfter(Snapshot(deployments), deployments[i..], current, nested)
             == StoreAfter(start, deployments, kwargs, nested)
    {
      var deployment := deployments[i];
      assert deployments[i..][0] == deployment && deployments[i..][1..] == deployments[i + 1..];
      current := MergeOne(deployments, deployment, current, nested);
      ConcatAssociates(submitted, [current], Submissions(Snapshot(deployments), deployments[i + 1..], current, nested));
      submitted := submitted + [current];
    }
    assert deployments[|deployments|..] == [];
  }

  /** The value of a key among the deployments up to `i` as they were given, the latest one
      that has it, else the base arguments. */
  function Inherited<V>(base: map<string, V>, own: seq<map<string, V>>, i: nat, key: string): Option<V>
    requires i < |own|
  {
    if key in own[i] then Some(own[i][key])
    else if i == 0 then Get(base, key)
    else Inherited(base, own, i - 1, key)
  }

  function Submitted<V>(base: map<string, V>, own: seq<map<string, V>>, nested: map<string, V>, i: nat,
                        key: string): Option<V>
    requires i < |own|
  {
    if key in nested then Some(nested[key]) else Inherited(base, own, i, key)
  }

  /** What deployment `i`'s dictionary holds after the loop. */
  function Filled<V>(base: map<string, V>, own: seq<map<string, V>>, nested: map<string, V>, i: nat,
                     key: string): Option<V>
    requires i < |own|
  {
    if key in own[i] then Some(own[i][key])
    else if i == 0 then Get(base, key)
    else Submitted(base, own, nested, i - 1, key)
  }

  ghost function Own<V>(store: map<Dict<V>, map<string, V>>, deployments: seq<Dict<V>>): (r: seq<map<string, V>>)
    requires forall d :: d in deployments ==> d in store
    ensures |r| == |deployments|
  {
    seq(|deployments|, i requires 0 <= i < |deployments| => store[deployments[i]])
  }

  lemma {:induction false} InheritedShifts<V>(base: map<string, V>, own: seq<map<string, V>>, nested: map<string, V>,
                                              i: nat, key: string)
    requires 0 < i < |own| && key !in nested
    ensures Inherited(base + own[0] + nested, own[1..], i - 1, key) == Inherited(base, own, i, key)
  {
    if i > 1 {
      InheritedShifts(base, own, nested, i - 1, key);
    }
  }

  lemma OwnOfRest<V>(store: map<Dict<V>, map<string, V>>, deployments: seq<Dict<V>>, filled: map<string, V>)
    requires deployments != [] && NoRepeats(deployments)
    requires forall d :: d in deployments ==> d in store
    ensures Own(store[deployments[0] := filled], deployments[1..]) == Own(store, deployments)[1..]
  {
    assert forall i :: 0 <= i < |deployments| - 1 ==> deployments[1..][i] == deployments[i + 1];
  }

  /** What is submitted to deployment `i`: a nested argument overrides everything; else the
      deployment's own value; else the value of the latest deployment before it that has the
      key, and only then the base argument. So arguments of earlier deployments flow into
      later ones that lack them. */
  lemma {:induction false} SubmittedClosedForm<V>(store: map<Dict<V>, map<string, V>>, deployments: seq<Dict<V>>,
                                                  base: map<string, V>, nested: map<string, V>, i: nat, key: string)
    requires NoRepeats(deployments) && i < |deployments|
    requires forall d :: d in deployments ==> d in store
    ensures Get(Submissions(store, deployments, base, nested)[i], key)
         == Submitted(base, Own(store, deployments), nested, i, key)
    decreases deployments
  {
    if i > 0 {
      var own, filled := Own(store, deployments), base + store[deployments[0]];
      OwnOfRest(store, deployments, filled);
      SubmittedClosedForm(store[deployments[0] := filled], deployments[1..], filled + nested, nested, i - 1, key);
      if key !in nested {
        InheritedShifts(base, own, nested, i, key);
      }
    }
  }

  lemma {:induction false} LatestOwner<V>(base: map<string, V>, own: seq<map<string, V>>, i: nat, j: nat, key: string)
    requires j <= i < |own| && key in own[j] && forall k :: j < k <= i ==> key !in own[k]
    ensures Inherited(base, own, i, key) == Some(own[j][key])
  {
    if j < i {
      LatestOwner(base, own, i - 1, j, key);
    }
  }

  lemma {:induction false} NoOwner<V>(base: map<string, V>, own: seq<map<string, V>>, i: nat, key: string)
    requires i < |own| && forall k :: 0 <= k <= i ==> key !in own[k]
    ensures Inherited(base, own, i, key) == if key in base then Some(base[key]) else None
  {
    if i > 0 {
      NoOwner(base, own, i - 1, key);
    }
  }

  /** The same case by case, for any dictionaries `store[d]` that the deployments `d` hold at
      first. */
  lemma SubmittedValues<V>(store: map<Dict<V>, map<string, V>>, deployments: seq<Dict<V>>, base: map<string, V>,
                           nested: map<string, V>, i: nat, key: string)
    requires NoRepeats(deployments) && i < |deployments|
    requires forall d :: d in deployments ==> d in store
    ensures var kwargs := Submissions(store, deployments, base, nested)[i];
      && (key in nested ==> key in kwargs && kwargs[key] == nested[key])
      && (key !in nested && key in store[deployments[i]] ==>
            key in kwargs && kwargs[key] == store[deployments[i]][key])
      && (forall j :: 0 <= j < i && key !in nested && key in store[deployments[j]]
                      && (forall k :: j < k <= i ==> key !in store[deployments[k]])
            ==> key in kwargs && kwargs[key] == store[deployments[j]][key])
      && (key !in nested && (forall k :: 0 <= k <= i ==> key !in store[deployments[k]]) ==>
            (key in kwargs <==> key in base) && (key in base ==> kwargs[key] == base[key]))
  {
    var own := Own(store, deployments);
    assert forall k :: 0 <= k < |own| ==> own[k] == store[deployments[k]];
    SubmittedClosedForm(store, deployments, base, nested, i, key);
    if forall k :: 0 <= k <= i ==> key !in own[k] {
      NoOwner(base, own, i, key);
    }
    forall j | 0 <= j < i && key in own[j] && (forall k :: j < k <= i ==> key !in own[k])
      ensures Inherited(base, own, i, key) == Some(own[j][key])
    {
      LatestOwner(base, own, i, j, key);
    }
  }

  lemma {:induction false} OthersUntouched<V>(store: map<Dict<V>, map<string, V>>, deployments: seq<Dict<V>>,
                                              kwargs: map<string, V>, nested: map<string, V>, d: Dict<V>)
    requires forall e :: e in deployments ==> e in store
    requires d in store && d !in deployments
    ensures StoreAfter(store, deployments, kwargs, nested)[d] == store[d]
    decreases deployments
  {
    if deployments != [] {
      var filled := kwargs + store[deployments[0]];
      OthersUntouched(store[deployments[0] := filled], deployments[1..], filled + nested, nested, d);
    }
  }

  lemma FilledShifts<V>(base: map<string, V>, own: seq<map<string, V>>, nested: map<string, V>, i: nat, key: string)
    requires 0 < i < |own|
    ensures Filled(base + own[0] + nested, own[1..], nested, i - 1, key) == Filled(base, own, nested, i, key)
  {
    if i > 1 && key !in nested {
      InheritedShifts(base, own, nested, i - 1, key);
    }
  }

  /** What the caller's dictionaries hold afterwards: nothing they had is overridden, but
      from the second one on they have also taken in the nested arguments they lacked. */
  lemma {:induction false} FilledClosedForm<V>(store: map<Dict<V>, map<string, V>>, deployments: seq<Dict<V>>,
                                               base: map<string, V>, nested: map<string, V>, i: nat, key: string)
    requires NoRepeats(deployments) && i < |deployments|
    requires forall d :: d in deployments ==> d in store
    ensures Get(StoreAfter(store, deployments, base, nested)[deployments[i]], key)
         == Filled(base, Own(store, deployments), nested, i, key)
    decreases deployments
  {
    var own, filled := Own(store, deployments), base + store[deployments[0]];
    var next := store[deployments[0] := filled];
    if i == 0 {
      OthersUntouched(next, deployments[1..], filled + nested, nested, deployments[0]);
    } else {
      OwnOfRest(store, deployments, filled);
      FilledClosedForm(next, deployments[1..], filled + nested, nested, i - 1, key);
      FilledShifts(base, own, nested, i, key);
    }
  }

  /** The same case by case: no value of its own is overridden, the first deployment takes the
      base arguments it lacks, and a later one what was submitted to the one before it. */
  lemma FilledValues<V>(store: map<Dict<V>, map<string, V>>, deployments: seq<Dict<V>>, base: map<string, V>,
                        nested: map<string, V>, i: nat, key: string)
    requires NoRepeats(deployments) && i < |deployments|
    requires forall d :: d in deployments ==> d in store
    ensures var was, now := store[deployments[i]], StoreAfter(store, deployments, base, nested)[deployments[i]];
      && (key in was ==> key in now && now[key] == was[key])
      && (key !in was && i == 0 ==> (key in now <==> key in base) && (key in base ==> now[key] == base[key]))
      && (key !in was && i > 0 ==>
            var before := Submissions(store, deployments, base, nested)[i - 1];
            (key in now <==> key in before) && (key in before ==> now[key] == before[key]))
  {
    var own := Own(store, deployments);
    assert own[i] == store[deployments[i]];
    FilledClosedForm(store, deployments, base, nested, i, key);
    if i > 0 {
      SubmittedClosedForm(store, deployments, base, nested, i - 1, key);
    }
  }

  // ---------- the race ----------

  /** How a submitted call ends. */
  datatype Outcome<+R> = Success(value: R) | Failure(error: string)

  /** The tracked futures after submitting to the deployments in order; the future of the
      i-th submission is `i`, and a model named again replaces its future. */
  function Tracked(models: seq<string>): map<string, nat> {
    if models == [] then map[]
    else Tracked(models[..|models| - 1])[models[|models| - 1] := |models| - 1]
  }

  /** Exactly the last submission of every distinct model is tracked. */
  lemma {:induction false} TrackedIsLastSubmission(models: seq<string>, m: string, f: nat)
    ensures m in Tracked(models) && Tracked(models)[m] == f
        <==> f < |models| && models[f] == m && forall j :: f < j < |models| ==> models[j] != m
  {
    if models != [] {
      var init := models[..|models| - 1];
      TrackedIsLastSubmission(init, m, f);
      if models[|models| - 1] != m && f < |init| {
        assert init[f] == models[f];
      }
    }
  }

  ghost function Elements<T>(s: seq<T>): set<T> {
    set x | x in s
  }

  /** A completion schedule: what each wait returns, in the order the loop visits it. Every
      wait returns some of the futures still tracked, and all of them complete in the end. */
  ghost predicate LegalSchedule(schedule: seq<seq<nat>>, tracked: set<nat>)
    decreases schedule
  {
    if tracked == {} then schedule == []
    else
      && schedule != [] && schedule[0] != []
      && Elements(schedule[0]) <= tracked
      && LegalSchedule(schedule[1..], tracked - Elements(schedule[0]))
  }

  function FirstIn<R>(round: seq<nat>, outcome: nat -> Outcome<R>): Option<R> {
    if round == [] then None
    else if outcome(round[0]).Success? then Some(outcome(round[0]).value)
    else FirstIn(round[1..], outcome)
  }

  /** The result of the first success in completion order. */
  function FirstSuccess<R>(schedule: seq<seq<nat>>, outcome: nat -> Outcome<R>): Option<R> {
    if schedule == [] then None
    else
      var first := FirstIn(schedule[0], outcome);
      if first.Some? then first else FirstSuccess(schedule[1..], outcome)
  }

  function Drop(futures: map<string, nat>, future: nat): map<string, nat> {
    map m | m in futures && futures[m] != future :: futures[m]
  }

  /** The inner loop over one wait's futures: returns at the first success, and drops each
      failure from the tracked futures. */
  method VisitRound<R>(round: seq<nat>, futures: map<string, nat>, outcome: nat -> Outcome<R>)
    returns (result: Option<R>, left: map<string, nat>)
    ensures result == FirstIn(round, outcome)
    ensures result.Some? ==> exists i :: 0 <= i < |round| && outcome(round[i]) == Success(result.value)
                                      && forall j :: 0 <= j < i ==> outcome(round[j]).Failure?
    ensures left.Values <= futures.Values
    ensures forall f :: f in futures.Values && f !in left.Values ==> f in round && outcome(f).Failure?
    ensures result.None? ==> left.Values == futures.Values - Elements(round)
    ensures result.None? ==> forall f :: f in round ==> outcome(f).Failure?
  {
    left := futures;
    for i := 0 to |round|
      invariant FirstIn(round, outcome) == FirstIn(round[i..], outcome)
      invariant left.Values == futures.Values - Elements(round[..i])
      invariant forall f :: f in round[..i] ==> outcome(f).Failure?
    {
      var future := round[i];
      assert round[i..][0] == future && round[i..][1..] == round[i + 1..];
      assert round[..i + 1] == round[..i] + [future];
      if outcome(future).Success? {
        assert forall j :: 0 <= j < i ==> round[j] in round[..i];
        return Some(outcome(future).value), left;
      }
      ghost var before := left;
      left := Drop(left, future);
      DropRemovesOne(before, future);
    }
    assert round[..|round|] == round;
    assert round[|round|..] == [];
    return None, left;
  }

  lemma DropRemovesOne(futures: map<string, nat>, future: nat)
    ensures Drop(futures, future).Values == futures.Values - {future}
  {
    forall f | f in futures.Values - {future} ensures f in Drop(futures, future).Values {
      var m :| m in futures && futures[m] == f;
      assert m in Drop(futures, future);
    }
  }

  /** The race loop. It ends for every schedule; it returns the first success in completion
      order, or nothing; every future it dropped had failed; and it returns nothing exactly
      when every tracked future fails. */
  method Race<R>(tracked: map<string, nat>, outcome: nat -> Outcome<R>, schedule: seq<seq<nat>>)
    returns (result: Option<R>, ghost left: set<nat>)
    requires LegalSchedule(schedule, tracked.Values)
    ensures result == FirstSuccess(schedule, outcome)
    ensures result.Some? ==> exists t, i :: 0 <= t < |schedule| && FirstAt(schedule, outcome, t, i, result.value)
    ensures left <= tracked.Values && forall f :: f in tracked.Values && f !in left ==> outcome(f).Failure?
    ensures result.None? <==> forall f :: f in tracked.Values ==> outcome(f).Failure?
  {
    var futures, waits := tracked, 0;
    while futures != map[]
      invariant waits <= |schedule| && futures.Values <= tracked.Values
      invariant LegalSchedule(schedule[waits..], futures.Values)
      invariant FirstSuccess(schedule, outcome) == FirstSuccess(schedule[waits..], outcome)
      invariant forall f :: f in tracked.Values && f !in futures.Values ==> outcome(f).Failure?
      decreases |schedule| - waits
    {
      assert futures.Values != {} by {
        var m :| m in futures;
        assert futures[m] in futures.Values;
      }
      var done := schedule[waits];
      assert schedule[waits..][0] == done && schedule[waits..][1..] == schedule[waits + 1..];
      ghost var before := futures;
      result, futures := VisitRound(done, futures, outcome);
      if result.Some? {
        left := futures.Values;
        FirstInSucceeds(done, outcome);
        WinnerIsEarliest(schedule, outcome);
        return;
      }
      waits := waits + 1;
    }
    assert futures.Values == {};
    assert schedule[waits..] == [];
    return None, {};
  }

  lemma {:induction false} FirstInSucceeds<R>(round: seq<nat>, outcome: nat -> Outcome<R>)
    requires FirstIn(round, outcome).Some?
    ensures exists i :: 0 <= i < |round| && outcome(round[i]) == Success(FirstIn(round, outcome).value)
                     && forall j :: 0 <= j < i ==> outcome(round[j]).Failure?
  {
    if outcome(round[0]).Failure? {
      FirstInSucceeds(round[1..], outcome);
      var i :| 0 <= i < |round| - 1 && outcome(round[1..][i]) == Success(FirstIn(round, outcome).value)
            && forall j :: 0 <= j < i ==> outcome(round[1..][j]).Failure?;
      forall j | 0 <= j < i + 1 ensures outcome(round[j]).Failure? {
        if j > 0 { assert round[j] == round[1..][j - 1]; }
      }
      assert round[i + 1] == round[1..][i];
    }
  }

  lemma {:induction false} NoneFails<R>(round: seq<nat>, outcome: nat -> Outcome<R>)
    requires FirstIn(round, outcome).None?
    ensures forall f :: f in round ==> outcome(f).Failure?
  {
    if round != [] {
      NoneFails(round[1..], outcome);
    }
  }

  /** The i-th future of round t succeeded with this value; everything before it, in that round
      and in all earlier ones, failed. */
  ghost predicate FirstAt<R>(schedule: seq<seq<nat>>, outcome: nat -> Outcome<R>, t: nat, i: nat, value: R) {
    && t < |schedule| && i < |schedule[t]| && outcome(schedule[t][i]) == Success(value)
    && (forall j :: 0 <= j < i ==> outcome(schedule[t][j]).Failure?)
    && (forall s, g :: 0 <= s < t && g in schedule[s] ==> outcome(g).Failure?)
  }

  /** The winner completed in the earliest wait round that holds a success, and comes first in
      it. */
  lemma {:induction false} WinnerIsEarliest<R>(schedule: seq<seq<nat>>, outcome: nat -> Outcome<R>)
    requires FirstSuccess(schedule, outcome).Some?
    ensures var winner := FirstSuccess(schedule, outcome).value;
      exists t, i :: 0 <= t < |schedule| && FirstAt(schedule, outcome, t, i, winner)
  {
    var value := FirstSuccess(schedule, outcome).value;
    if FirstIn(schedule[0], outcome).Some? {
      FirstInSucceeds(schedule[0], outcome);
      var i :| 0 <= i < |schedule[0]| && outcome(schedule[0][i]) == Success(value)
            && forall j :: 0 <= j < i ==> outcome(schedule[0][j]).Failure?;
      assert FirstAt(schedule, outcome, 0, i, value);
    } else {
      NoneFails(schedule[0], outcome);
      WinnerIsEarliest(schedule[1..], outcome);
      var t, i :| 0 <= t < |schedule| - 1 && FirstAt(schedule[1..], outcome, t, i, value);
      assert schedule[1..][t] == schedule[t + 1];
      forall s, g | 0 <= s < t + 1 && g in schedule[s] ensures outcome(g).Failure? {
        if s > 0 { assert schedule[s] == schedule[1..][s - 1]; }
      }
      assert FirstAt(schedule, outcome, t + 1, i, value);
    }
  }
}
