/** Requests that find no queue in memory: the read waits for Redis, other requests run
    meanwhile, and each such request goes on with what Redis answered when it was asked, a list
    of its own or none. Once memory has a list, a request on it does not wait in between. */
module AddRace {
  import opened Heapq
  import opened MixedHeap
  import opened Options
  import opened Sequences
  import W = WaitingQueue

  datatype Request = Adds(entry: Entry) | Polls(id: string)

  /** The list in memory, and the requests that wait for Redis. */
  datatype State = State(memory: Option<seq<Item>>, reading: map<nat, Request>)

  /** `found` is the list that Redis had when it was asked. */
  datatype Step = Start(task: nat, request: Request) | Finish(task: nat, found: Option<seq<Entry>>)

  function List(s: State): seq<Item> {
    s.memory.GetOr([])
  }

  predicate Takes(q: seq<Item>, r: Request) {
    r.Polls? && q != [] && q[0].entry.id == r.id
  }

  /** What a request leaves of the list it works on; no deployment is healthy. */
  function Act(q: seq<Item>, r: Request): seq<Item> {
    if r.Adds? then TryPush(q, Item(r.entry, false)).items
    else if Takes(q, r) then TryPop(q).items
    else q
  }

  /** Whether a late answer puts another list into memory: the decoded one, or the new one that
      an add saves. */
  predicate Replaces(s: State, step: Step) {
    step.Finish? && step.task in s.reading && (step.found.Some? || s.reading[step.task].Adds?)
  }

  function Next(s: State, step: Step): State {
    match step
    case Start(task, r) =>
      if s.memory.Some? then s.(memory := Some(Act(List(s), r))) else s.(reading := s.reading[task := r])
    case Finish(task, found) =>
      if task !in s.reading then s
      else if !Replaces(s, step) then s.(reading := s.reading - {task})
      else State(Some(Act(Tag(found.GetOr([]), true), s.reading[task])), s.reading - {task})
  }

  function After(s: State, run: seq<Step>): State {
    if run == [] then s else Next(After(s, run[..|run| - 1]), run[|run| - 1])
  }

  /** A poll does to the list what a poll does to a waiting queue, whether its items are tuples or
      decoded lists: it takes the head if and only if its id is the head's. */
  lemma PollIsWaitingQueues(q: seq<Entry>, decoded: bool, id: string)
    ensures Act(Tag(q, decoded), Polls(id)) == Tag(W.NextQueue(q, W.Poll(id, 0)), decoded)
    ensures q != [] ==> (Act(Tag(q, decoded), Polls(id)) != Tag(q, decoded) <==> q[0].id == id)
  {
    if q != [] {
      UniformPop(q, decoded);
    }
  }

  /** The request is the queue's step; no deployment is healthy. */
  ghost predicate Requests(r: Request, op: W.Op) {
    || (op.Add? && r == Adds(W.ItemEntry(op.item)))
    || (op.Poll? && op.healthy == 0 && r == Polls(op.id))
  }

  /** Once memory has the list, nothing races: any run of requests, from whichever tasks, does to
      the list what a waiting queue does, one request after the other, and none waits for Redis. */
  lemma {:induction false} NoRaceInMemory(s: State, q: seq<Entry>, ops: seq<W.Op>, run: seq<Step>)
    requires s.memory == Some(Tag(q, false)) && |run| == |ops|
    requires forall i :: 0 <= i < |run| ==> run[i].Start? && Requests(run[i].request, ops[i])
    ensures After(s, run) == State(Some(Tag(W.QueueAfter(q, ops), false)), s.reading)
  {
    if run != [] {
      var init, op := ops[..|ops| - 1], ops[|ops| - 1];
      var before := W.QueueAfter(q, init);
      NoRaceInMemory(s, q, init, run[..|run| - 1]);
      assert ops == init + [op];
      W.QueueAfterBoth(q, init, [op]);
      assert W.QueueAfter(before, [op]) == W.NextQueue(before, op) by { assert [op][1..] == []; }
      if op.Add? {
        UniformPush(before, false, W.ItemEntry(op.item));
      } else {
        PollIsWaitingQueues(before, false, op.id);
      }
    }
  }

  // ---------- accounting ----------

  /** The list and the request that a step brings together, if any. */
  function Acts(s: State, step: Step): Option<(seq<Item>, Request)> {
    match step
    case Start(_, r) => if s.memory.Some? then Some((List(s), r)) else None
    case Finish(task, found) => if Replaces(s, step) then Some((Tag(found.GetOr([]), true), s.reading[task])) else None
  }

  ghost function AddedBy(s: State, step: Step): multiset<Entry> {
    var act := Acts(s, step);
    if act.Some? && act.value.1.Adds? then multiset{act.value.1.entry} else multiset{}
  }

  ghost function TakenBy(s: State, step: Step): multiset<Entry> {
    var act := Acts(s, step);
    if act.Some? && Takes(act.value.0, act.value.1) then multiset{act.value.0[0].entry} else multiset{}
  }

  /** The entries in memory that a late answer overwrites, and those that it brings instead. */
  ghost function OverwrittenBy(s: State, step: Step): multiset<Entry> {
    if Replaces(s, step) then multiset(Untag(List(s))) else multiset{}
  }

  ghost function InstalledBy(s: State, step: Step): multiset<Entry> {
    if Replaces(s, step) then multiset(step.found.GetOr([])) else multiset{}
  }

  ghost function Waiting(s: State): multiset<Entry> {
    multiset(Untag(List(s)))
  }

  lemma ActConserves(q: seq<Item>, r: Request)
    ensures r.Adds? ==> multiset(Untag(Act(q, r))) == multiset(Untag(q)) + multiset{r.entry}
    ensures Takes(q, r) ==> multiset(Untag(q)) == multiset(Untag(Act(q, r))) + multiset{q[0].entry}
    ensures r.Polls? && !Takes(q, r) ==> Act(q, r) == q
  {
    if r.Adds? {
      PushKeepsItems(q, Item(r.entry, false));
      UntagLess(Act(q, r), q, Item(r.entry, false));
    } else if Takes(q, r) {
      PopKeepsItems(q);
      UntagLess(q, Act(q, r), q[0]);
    }
  }

  lemma StepConserves(s: State, step: Step)
    ensures Waiting(Next(s, step)) + TakenBy(s, step) + OverwrittenBy(s, step)
         == Waiting(s) + AddedBy(s, step) + InstalledBy(s, step)
  {
    var act := Acts(s, step);
    if act.Some? {
      ActConserves(act.value.0, act.value.1);
    }
    if step.Finish? {
      TagUntag(step.found.GetOr([]), true);
    }
  }

  ghost function Added(s: State, run: seq<Step>): multiset<Entry> {
    if run == [] then multiset{}
    else Added(s, run[..|run| - 1]) + AddedBy(After(s, run[..|run| - 1]), run[|run| - 1])
  }

  ghost function Taken(s: State, run: seq<Step>): multiset<Entry> {
    if run == [] then multiset{}
    else Taken(s, run[..|run| - 1]) + TakenBy(After(s, run[..|run| - 1]), run[|run| - 1])
  }

  ghost function Overwritten(s: State, run: seq<Step>): multiset<Entry> {
    if run == [] then multiset{}
    else Overwritten(s, run[..|run| - 1]) + OverwrittenBy(After(s, run[..|run| - 1]), run[|run| - 1])
  }

  ghost function Installed(s: State, run: seq<Step>): multiset<Entry> {
    if run == [] then multiset{}
    else Installed(s, run[..|run| - 1]) + InstalledBy(After(s, run[..|run| - 1]), run[|run| - 1])
  }

  lemma Sum<T>(w0: multiset<T>, w1: multiset<T>, w2: multiset<T>, t0: multiset<T>, t1: multiset<T>, o0: multiset<T>,
               o1: multiset<T>, a0: multiset<T>, a1: multiset<T>, i0: multiset<T>, i1: multiset<T>)
    requires w1 + t0 + o0 == w0 + a0 + i0
    requires w2 + t1 + o1 == w1 + a1 + i1
    ensures w2 + (t0 + t1) + (o0 + o1) == w0 + (a0 + a1) + (i0 + i1)
  {
    forall x
      ensures (w2 + (t0 + t1) + (o0 + o1))[x] == (w0 + (a0 + a1) + (i0 + i1))[x]
    {
      assert (w1 + t0 + o0)[x] == (w0 + a0 + i0)[x];
      assert (w2 + t1 + o1)[x] == (w1 + a1 + i1)[x];
    }
  }

  /** Over every interleaving, and whatever Redis answers: what waits, what polls took and what
      late answers overwrote is what was added and what late answers brought; pushes and pops
      that raise included. */
  lemma {:induction false} Conservation(s: State, run: seq<Step>)
    ensures Waiting(After(s, run)) + Taken(s, run) + Overwritten(s, run)
         == Waiting(s) + Added(s, run) + Installed(s, run)
  {
    if run != [] {
      var init, step := run[..|run| - 1], run[|run| - 1];
      var n := After(s, init);
      Conservation(s, init);
      StepConserves(n, step);
      Sum(Waiting(s), Waiting(n), Waiting(Next(n, step)), Taken(s, init), TakenBy(n, step),
          Overwritten(s, init), OverwrittenBy(n, step), Added(s, init), AddedBy(n, step),
          Installed(s, init), InstalledBy(n, step));
    }
  }

  /** So an entry is taken at most once for every copy that waited, was added, or came in a late
      answer: a late answer undoes the polls since Redis was asked. */
  lemma TakenAtMost(s: State, run: seq<Step>)
    ensures Taken(s, run) <= Waiting(s) + Added(s, run) + Installed(s, run)
  {
    Conservation(s, run);
    var left, out, over := Waiting(After(s, run)), Taken(s, run), Overwritten(s, run);
    forall x ensures out[x] <= (Waiting(s) + Added(s, run) + Installed(s, run))[x] {
      assert (left + out + over)[x] == (Waiting(s) + Added(s, run) + Installed(s, run))[x];
    }
  }

  // ---------- when nothing is lost ----------

  /** Every entry that was added is still waiting or was taken, each once. */
  ghost predicate Balanced(s: State, run: seq<Step>) {
    Waiting(After(s, run)) + Taken(s, run) == Waiting(s) + Added(s, run)
  }

  ghost predicate AlwaysBalanced(s: State, run: seq<Step>) {
    Balanced(s, run) && (run != [] ==> AlwaysBalanced(s, run[..|run| - 1]))
  }

  /** The list that a late answer puts into memory has the entries of the list it replaces. */
  ghost predicate Agrees(s: State, step: Step) {
    Replaces(s, step) ==> multiset(step.found.GetOr([])) == multiset(Untag(List(s)))
  }

  ghost predicate LateAnswersAgree(s: State, run: seq<Step>) {
    run == [] || (LateAnswersAgree(s, run[..|run| - 1]) && Agrees(After(s, run[..|run| - 1]), run[|run| - 1]))
  }

  lemma BalanceStep<T>(w0: multiset<T>, w1: multiset<T>, w2: multiset<T>, t0: multiset<T>, t1: multiset<T>,
                       o: multiset<T>, a0: multiset<T>, a1: multiset<T>, i: multiset<T>)
    requires w1 + t0 == w0 + a0
    requires w2 + t1 + o == w1 + a1 + i
    ensures w2 + (t0 + t1) == w0 + (a0 + a1) <==> o == i
  {
    forall x
      ensures (w2 + (t0 + t1))[x] + o[x] == (w0 + (a0 + a1))[x] + i[x]
    {
      assert (w1 + t0)[x] == (w0 + a0)[x];
      assert (w2 + t1 + o)[x] == (w1 + a1 + i)[x];
    }
    if w2 + (t0 + t1) == w0 + (a0 + a1) {
      forall x ensures o[x] == i[x] {
        assert (w2 + (t0 + t1))[x] == (w0 + (a0 + a1))[x];
      }
    }
    if o == i {
      forall x ensures (w2 + (t0 + t1))[x] == (w0 + (a0 + a1))[x] {
      }
    }
  }

  /** At every moment every entry that was added is still waiting or was taken, and each once, if
      and only if no late answer changes what waits: otherwise entries are lost, or come back. */
  lemma {:induction false} NothingLostIff(s: State, run: seq<Step>)
    ensures AlwaysBalanced(s, run) <==> LateAnswersAgree(s, run)
  {
    if run != [] {
      var init, step := run[..|run| - 1], run[|run| - 1];
      var n := After(s, init);
      NothingLostIff(s, init);
      StepConserves(n, step);
      if AlwaysBalanced(s, init) {
        assert Balanced(s, init);
        BalanceStep(Waiting(s), Waiting(n), Waiting(Next(n, step)), Taken(s, init), TakenBy(n, step),
                    OverwrittenBy(n, step), Added(s, init), AddedBy(n, step), InstalledBy(n, step));
      }
    }
  }

  // ---------- a queue that no layer has yet ----------

  /** Redis never has a list to answer with. */
  ghost predicate NoList(run: seq<Step>) {
    forall step :: step in run ==> step.Finish? ==> step.found.None?
  }

  ghost predicate HeapOfTuples(s: State) {
    List(s) == Tag(Untag(List(s)), false) && IsHeap(Untag(List(s)))
  }

  lemma ActKeepsHeap(q: seq<Entry>, r: Request)
    requires IsHeap(q)
    ensures var h := Act(Tag(q, false), r); h == Tag(Untag(h), false) && IsHeap(Untag(h))
  {
    TagUntag(q, false);
    if r.Adds? {
      UniformPush(q, false, r.entry);
      PushKeepsHeap(q, r.entry);
      TagUntag(Push(q, r.entry), false);
    } else if q != [] {
      UniformPop(q, false);
      PopKeepsHeap(q);
      TagUntag(Pop(q), false);
    }
  }

  /** Whatever is lost, as long as Redis has no list to answer with, the queue stays a heap of
      tuples. */
  lemma {:induction false} RacesKeepHeaps(s: State, run: seq<Step>)
    requires HeapOfTuples(s) && NoList(run)
    ensures HeapOfTuples(After(s, run))
  {
    if run != [] {
      var init, step := run[..|run| - 1], run[|run| - 1];
      var n := After(s, init);
      assert step in run && forall x :: x in init ==> x in run;
      RacesKeepHeaps(s, init);
      var act := Acts(n, step);
      if act.Some? {
        assert Tag([], true) == Tag([], false);
        ActKeepsHeap(if step.Start? then Untag(List(n)) else [], act.value.1);
      }
    }
  }

  /** After several adds found no queue and finished, only the last one's entry waits. */
  lemma LastFinisherWins(s: State, tasks: seq<nat>)
    requires tasks != [] && NoRepeats(tasks)
    requires forall t :: t in tasks ==> t in s.reading && s.reading[t].Adds?
    ensures var run := seq(|tasks|, i requires 0 <= i < |tasks| => Finish(tasks[i], None));
      List(After(s, run)) == [Item(s.reading[tasks[|tasks| - 1]].entry, false)]
  {
    var run := seq(|tasks|, i requires 0 <= i < |tasks| => Finish(tasks[i], None));
    var last := |tasks| - 1;
    StillReading(s, tasks, last);
    assert run[..last] == seq(last, i requires 0 <= i < last => Finish(tasks[i], None));
    assert tasks[last] in tasks;
  }

  lemma {:induction false} StillReading(s: State, tasks: seq<nat>, n: nat)
    requires n < |tasks| && NoRepeats(tasks) && forall t :: t in tasks ==> t in s.reading
    ensures var run := seq(n, i requires 0 <= i < n => Finish(tasks[i], None));
      forall j :: n <= j < |tasks| ==>
        tasks[j] in After(s, run).reading && After(s, run).reading[tasks[j]] == s.reading[tasks[j]]
  {
    if n == 0 {
      assert forall j :: 0 <= j < |tasks| ==> tasks[j] in tasks;
    } else {
      var run := seq(n, i requires 0 <= i < n => Finish(tasks[i], None));
      StillReading(s, tasks, n - 1);
      assert run[..n - 1] == seq(n - 1, i requires 0 <= i < n - 1 => Finish(tasks[i], None));
    }
  }
}
