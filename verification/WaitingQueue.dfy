/** The queue of requests waiting for one model group, as a heap-ordered list that adds and
    polls change in place. */
module WaitingQueue {
  import opened Heapq
  import opened Sequences

  datatype FlowItem = FlowItem(priority: int, requestId: string, modelName: string)

  /** The tuple that stands for a request. */
  function ItemEntry(item: FlowItem): Entry {
    Entry(item.priority as real, item.requestId)
  }

  datatype Outcome = Done | Raised | Answer(value: bool)

  /** One step on the queue; `Lose` is the store dropping the queue by itself. `healthy` is the
      number of healthy deployments the poller found. */
  datatype Op =
    | Add(item: FlowItem)
    | Poll(id: string, healthy: nat)
    | Peek(id: string)
    | Lose

  /** Whether a poll finds its request at the head of the queue and no healthy deployment,
      so that it is let through by dequeuing it. */
  predicate Admits(q: seq<Entry>, op: Op) {
    op.Poll? && op.healthy == 0 && q != [] && q[0].id == op.id
  }

  function NextQueue(q: seq<Entry>, op: Op): seq<Entry> {
    match op
    case Add(item) => Push(q, ItemEntry(item))
    case Poll(_, _) => if Admits(q, op) then Pop(q) else q
    case Peek(_) => q
    case Lose => []
  }

  function OutcomeOn(q: seq<Entry>, op: Op): Outcome {
    match op
    case Add(_) => Done
    case Lose => Done
    case Poll(id, healthy) =>
      if q == [] then Raised else if healthy == 0 then Answer(q[0].id == id) else Answer(true)
    case Peek(id) => if q == [] then Raised else Answer(q[0].id == id)
  }

  function QueueAfter(q: seq<Entry>, ops: seq<Op>): seq<Entry>
    decreases ops
  {
    if ops == [] then q else QueueAfter(NextQueue(q, ops[0]), ops[1..])
  }

  lemma NextQueueKeepsHeap(q: seq<Entry>, op: Op)
    requires IsHeap(q)
    ensures IsHeap(NextQueue(q, op))
  {
    match op
    case Add(item) => PushKeepsHeap(q, ItemEntry(item));
    case Poll(_, _) => if Admits(q, op) { PopKeepsHeap(q); }
    case Peek(_) =>
    case Lose =>
  }

  /** In every state that any run can reach, the queue is a binary min-heap. */
  lemma {:induction false} RunKeepsHeap(q: seq<Entry>, ops: seq<Op>)
    requires IsHeap(q)
    ensures IsHeap(QueueAfter(q, ops))
    decreases ops
  {
    if ops != [] {
      NextQueueKeepsHeap(q, ops[0]);
      RunKeepsHeap(NextQueue(q, ops[0]), ops[1..]);
    }
  }

  /** A poll without healthy deployments succeeds for exactly the least waiting request,
      wherever in the list that request lies. */
  lemma PollAdmitsExactlyTheLeast(q: seq<Entry>, id: string, least: Entry)
    requires IsHeap(q) && least in q && forall e :: e in q ==> Le(least, e)
    ensures OutcomeOn(q, Poll(id, 0)) == OutcomeOn(q, Peek(id)) == Answer(id == least.id)
  {
    var i :| 0 <= i < |q| && q[i] == least;
    HeadIsLeast(q, i);
    assert q[0] in q;
    LtTotal(q[0], least);
  }

  /** With a healthy deployment every waiting request may go, and none leaves the queue; an
      empty queue makes a poll and a peek raise whatever else holds. */
  lemma HealthyPollsKeepTheQueue(q: seq<Entry>, id: string, healthy: nat)
    ensures healthy > 0 ==> NextQueue(q, Poll(id, healthy)) == q
    ensures healthy > 0 && q != [] ==> OutcomeOn(q, Poll(id, healthy)) == Answer(true)
    ensures NextQueue(q, Peek(id)) == q
    ensures q == [] ==> OutcomeOn(q, Poll(id, healthy)) == OutcomeOn(q, Peek(id)) == Raised
  {
  }

  // ---------- accounting ----------

  ghost function AddedBy(op: Op): multiset<Entry> {
    if op.Add? then multiset{ItemEntry(op.item)} else multiset{}
  }

  ghost function Added(ops: seq<Op>): multiset<Entry> {
    if ops == [] then multiset{} else AddedBy(ops[0]) + Added(ops[1..])
  }

  /** The entry a step admits from the head of the queue, if any. */
  ghost function AdmittedBy(q: seq<Entry>, op: Op): seq<Entry> {
    if Admits(q, op) then [q[0]] else []
  }

  /** The entries a run admits from the head of the queue, in order. */
  ghost function Admitted(q: seq<Entry>, ops: seq<Op>): seq<Entry>
    decreases ops
  {
    if ops == [] then [] else AdmittedBy(q, ops[0]) + Admitted(NextQueue(q, ops[0]), ops[1..])
  }

  ghost function LostBy(q: seq<Entry>, op: Op): multiset<Entry> {
    if op.Lose? then multiset(q) else multiset{}
  }

  ghost function Lost(q: seq<Entry>, ops: seq<Op>): multiset<Entry>
    decreases ops
  {
    if ops == [] then multiset{} else LostBy(q, ops[0]) + Lost(NextQueue(q, ops[0]), ops[1..])
  }

  lemma StepConserves(q: seq<Entry>, op: Op)
    ensures multiset(NextQueue(q, op)) + multiset(AdmittedBy(q, op)) + LostBy(q, op) == multiset(q) + AddedBy(op)
  {
  }

  lemma Telescope<T>(q0: multiset<T>, q1: multiset<T>, q2: multiset<T>,
                     out0: multiset<T>, out1: multiset<T>, lost0: multiset<T>, lost1: multiset<T>,
                     in0: multiset<T>, in1: multiset<T>)
    requires q1 + out0 + lost0 == q0 + in0
    requires q2 + out1 + lost1 == q1 + in1
    ensures q2 + (out0 + out1) + (lost0 + lost1) == q0 + (in0 + in1)
  {
    forall x
      ensures (q2 + (out0 + out1) + (lost0 + lost1))[x] == (q0 + (in0 + in1))[x]
    {
      assert (q1 + out0 + lost0)[x] == (q0 + in0)[x];
      assert (q2 + out1 + lost1)[x] == (q1 + in1)[x];
    }
  }

  /** Conservation: what a queue holds is what was added less what was admitted from its head
      less what the store lost; admissions on healthy deployments remove nothing. */
  lemma {:induction false} Conservation(q: seq<Entry>, ops: seq<Op>)
    ensures multiset(QueueAfter(q, ops)) + multiset(Admitted(q, ops)) + Lost(q, ops) == multiset(q) + Added(ops)
    decreases ops
  {
    if ops != [] {
      var op, p := ops[0], NextQueue(q, ops[0]);
      var first, rest := AdmittedBy(q, op), Admitted(p, ops[1..]);
      StepConserves(q, op);
      Conservation(p, ops[1..]);
      Telescope(multiset(q), multiset(p), multiset(QueueAfter(p, ops[1..])), multiset(first), multiset(rest),
                LostBy(q, op), Lost(p, ops[1..]), AddedBy(op), Added(ops[1..]));
      assert multiset(first + rest) == multiset(first) + multiset(rest);
    }
  }

  /** Starting from an empty queue, no request is let through by dequeuing more often than it
      was added, whatever else the run does. */
  lemma AdmissionsNeverExceedAdds(ops: seq<Op>)
    ensures multiset(Admitted([], ops)) <= Added(ops)
  {
    Conservation([], ops);
    var left, out, lost := QueueAfter([], ops), Admitted([], ops), Lost([], ops);
    assert multiset(left) + multiset(out) + lost == Added(ops);
    forall e ensures multiset(out)[e] <= Added(ops)[e] {
      assert (multiset(left) + multiset(out) + lost)[e] == Added(ops)[e];
    }
  }

  // ---------- order of admission ----------

  /** No request joins or is lost. */
  ghost predicate Closed(ops: seq<Op>) {
    forall op :: op in ops ==> !op.Add? && !op.Lose?
  }

  lemma ClosedStepFollowsTheDrain(q: seq<Entry>, op: Op)
    requires !op.Add? && !op.Lose?
    ensures AdmittedBy(q, op) + Drain(NextQueue(q, op)) == Drain(q)
  {
    if !Admits(q, op) {
      assert [] + Drain(q) == Drain(q);
    }
  }

  lemma {:induction false} AdmissionsFollowTheDrain(q: seq<Entry>, ops: seq<Op>)
    requires Closed(ops)
    ensures Admitted(q, ops) + Drain(QueueAfter(q, ops)) == Drain(q)
    decreases ops
  {
    if ops == [] {
      assert [] + Drain(q) == Drain(q);
    } else {
      assert ops[0] in ops;
      ClosedStepFollowsTheDrain(q, ops[0]);
      var p := NextQueue(q, ops[0]);
      AdmissionsFollowTheDrain(p, ops[1..]);
      ConcatAssociates(AdmittedBy(q, ops[0]), Admitted(p, ops[1..]), Drain(QueueAfter(p, ops[1..])));
    }
  }

  /** While no request joins, any run of polls admits the waiting requests in exactly their
      sorted order: its admissions are the first ones of the sorted queue, and what is left
      drains to the rest of it. */
  lemma AdmissionsAreSorted(q: seq<Entry>, ops: seq<Op>, sorted: seq<Entry>)
    requires IsHeap(q) && Closed(ops)
    requires Sorted(sorted) && multiset(sorted) == multiset(q)
    ensures Admitted(q, ops) + Drain(QueueAfter(q, ops)) == sorted
  {
    AdmissionsFollowTheDrain(q, ops);
    DrainIsSorted(q);
    DrainIsPermutation(q);
    SortedUnique(Drain(q), sorted);
  }

  /** The polling rounds one after the other. */
  function AllRounds(rounds: seq<seq<Op>>): seq<Op> {
    if rounds == [] then [] else rounds[0] + AllRounds(rounds[1..])
  }

  /** In a round only requests of `pollers` poll without healthy deployments, and each of them
      that is waiting does so at least once, in any order; no request joins or is lost. */
  ghost predicate FairRound(q: seq<Entry>, ops: seq<Op>, pollers: set<string>) {
    && Closed(ops)
    && (forall op :: op in ops && op.Poll? && op.healthy == 0 ==> op.id in pollers)
    && (forall e :: e in q && e.id in pollers ==> Poll(e.id, 0) in ops)
  }

  /** Every round is fair to the requests that are still waiting when it starts. */
  ghost predicate FairRounds(q: seq<Entry>, rounds: seq<seq<Op>>, pollers: set<string>)
    decreases rounds
  {
    rounds == [] || (FairRound(q, rounds[0], pollers) && FairRounds(QueueAfter(q, rounds[0]), rounds[1..], pollers))
  }

  /** Nobody at the head of the queue will poll. */
  ghost predicate Stuck(q: seq<Entry>, pollers: set<string>) {
    q == [] || q[0].id !in pollers
  }

  lemma {:induction false} QueueAfterBoth(q: seq<Entry>, a: seq<Op>, b: seq<Op>)
    ensures QueueAfter(q, a + b) == QueueAfter(QueueAfter(q, a), b)
    decreases a
  {
    if a == [] {
      assert a + b == b;
    } else {
      assert (a + b)[0] == a[0] && (a + b)[1..] == a[1..] + b;
      QueueAfterBoth(NextQueue(q, a[0]), a[1..], b);
    }
  }

  lemma ClosedRunsShrink(q: seq<Entry>, ops: seq<Op>)
    requires Closed(ops)
    ensures |QueueAfter(q, ops)| <= |q|
  {
    AdmissionsFollowTheDrain(q, ops);
  }

  /** A run in which the head's request polls dequeues something. */
  lemma {:induction false} RoundDequeues(q: seq<Entry>, ops: seq<Op>)
    requires q != [] && Closed(ops) && Poll(q[0].id, 0) in ops
    ensures |QueueAfter(q, ops)| < |q|
    decreases ops
  {
    var p := NextQueue(q, ops[0]);
    if p == q {
      RoundDequeues(q, ops[1..]);
    } else {
      assert ops[0] in ops;
      ClosedRunsShrink(p, ops[1..]);
    }
  }

  lemma {:induction false} StuckStays(q: seq<Entry>, ops: seq<Op>, pollers: set<string>)
    requires Closed(ops) && Stuck(q, pollers)
    requires forall op :: op in ops && op.Poll? && op.healthy == 0 ==> op.id in pollers
    ensures QueueAfter(q, ops) == q
    decreases ops
  {
    if ops != [] {
      assert ops[0] in ops;
      StuckStays(q, ops[1..], pollers);
    }
  }

  lemma {:induction false} RoundsEndStuck(q: seq<Entry>, rounds: seq<seq<Op>>, pollers: set<string>)
    requires FairRounds(q, rounds, pollers) && (|q| <= |rounds| || Stuck(q, pollers))
    ensures Stuck(QueueAfter(q, AllRounds(rounds)), pollers) && Closed(AllRounds(rounds))
    decreases rounds
  {
    if rounds != [] {
      var first := rounds[0];
      if Stuck(q, pollers) {
        StuckStays(q, first, pollers);
      } else {
        assert q[0] in q;
        RoundDequeues(q, first);
      }
      RoundsEndStuck(QueueAfter(q, first), rounds[1..], pollers);
      QueueAfterBoth(q, first, AllRounds(rounds[1..]));
    }
  }

  lemma {:induction false} AdmittedPoll(q: seq<Entry>, ops: seq<Op>, e: Entry)
    requires e in Admitted(q, ops)
    ensures Poll(e.id, 0) in ops
    decreases ops
  {
    if e !in AdmittedBy(q, ops[0]) {
      AdmittedPoll(NextQueue(q, ops[0]), ops[1..], e);
    }
  }

  lemma {:induction false} OnlyPollersPoll(q: seq<Entry>, rounds: seq<seq<Op>>, pollers: set<string>, id: string)
    requires FairRounds(q, rounds, pollers) && Poll(id, 0) in AllRounds(rounds)
    ensures id in pollers
    decreases rounds
  {
    if Poll(id, 0) !in rounds[0] {
      OnlyPollersPoll(QueueAfter(q, rounds[0]), rounds[1..], pollers, id);
    }
  }

  /** Who is admitted: when only some requests keep polling, each until it is admitted, then
      after as many rounds as requests wait the admissions are exactly the longest prefix of
      the sorted queue that consists of pollers. The first request of the sorted queue that
      does not poll, having timed out or gone ahead on a healthy deployment, blocks all those
      behind it. */
  lemma AdmissionsAreThePollingPrefix(q: seq<Entry>, rounds: seq<seq<Op>>, pollers: set<string>, sorted: seq<Entry>)
    requires IsHeap(q) && Sorted(sorted) && multiset(sorted) == multiset(q)
    requires FairRounds(q, rounds, pollers) && |q| <= |rounds|
    ensures var out := Admitted(q, AllRounds(rounds));
      && out <= sorted
      && (forall e :: e in out ==> e.id in pollers)
      && (|out| < |sorted| ==> sorted[|out|].id !in pollers)
  {
    var ops := AllRounds(rounds);
    var out, left := Admitted(q, ops), QueueAfter(q, ops);
    RoundsEndStuck(q, rounds, pollers);
    AdmissionsAreSorted(q, ops, sorted);
    forall e | e in out ensures e.id in pollers {
      AdmittedPoll(q, ops, e);
      OnlyPollersPoll(q, rounds, pollers, e.id);
    }
    assert left != [] ==> sorted[|out|] == Drain(left)[0] == left[0];
  }

  /** No starvation, exactly: the queue drains if and only if all its requests keep polling. */
  lemma QueueDrainsIff(q: seq<Entry>, rounds: seq<seq<Op>>, pollers: set<string>)
    requires IsHeap(q) && FairRounds(q, rounds, pollers) && |q| <= |rounds|
    ensures QueueAfter(q, AllRounds(rounds)) == [] <==> forall e :: e in q ==> e.id in pollers
  {
    var ops, sorted := AllRounds(rounds), Drain(q);
    DrainIsSorted(q);
    DrainIsPermutation(q);
    AdmissionsAreThePollingPrefix(q, rounds, pollers, sorted);
    RoundsEndStuck(q, rounds, pollers);
    AdmissionsAreSorted(q, ops, sorted);
    forall e ensures e in q <==> e in sorted {
      assert e in multiset(q) <==> e in multiset(sorted);
    }
    if QueueAfter(q, ops) != [] {
      assert sorted[|Admitted(q, ops)|] in sorted;
    } else {
      assert Admitted(q, ops) == sorted;
    }
  }

  /** Nothing in `ops` polls for `e`, and the queue is not lost. */
  ghost predicate Abandons(ops: seq<Op>, e: Entry) {
    forall op :: op in ops ==> !op.Lose? && (op.Poll? ==> op.id != e.id)
  }

  lemma AbandonedStep(q: seq<Entry>, op: Op, e: Entry)
    requires IsHeap(q) && e in q && Abandons([op], e)
    ensures e in NextQueue(q, op)
    ensures forall x :: x in AdmittedBy(q, op) ==> Lt(x, e)
  {
    assert op in [op];
    var i :| 0 <= i < |q| && q[i] == e;
    HeadIsLeast(q, i);
    LtTotal(q[0], e);
    assert e in multiset(q);
    assert e in multiset(NextQueue(q, op));
  }

  /** Head of line, with requests joining: a waiting entry whose request has stopped polling
      stays queued for ever, and from then on only entries ordered before it are admitted. */
  lemma {:induction false} AbandonedEntryStays(q: seq<Entry>, ops: seq<Op>, e: Entry)
    requires IsHeap(q) && e in q && Abandons(ops, e)
    ensures e in QueueAfter(q, ops)
    ensures forall x :: x in Admitted(q, ops) ==> Lt(x, e)
    decreases ops
  {
    if ops != [] {
      assert ops[0] in ops;
      AbandonedStep(q, ops[0], e);
      NextQueueKeepsHeap(q, ops[0]);
      AbandonedEntryStays(NextQueue(q, ops[0]), ops[1..], e);
    }
  }

  lemma AdmittedCameFrom(q: seq<Entry>, ops: seq<Op>, x: Entry)
    requires x in Admitted(q, ops)
    ensures x in multiset(q) + Added(ops)
  {
    Conservation(q, ops);
    assert x in multiset(Admitted(q, ops));
  }

  lemma SomeElement<T>(s: seq<T>)
    ensures s == [] || exists x :: x in s
  {
    if s != [] {
      assert s[0] in s;
    }
  }

  /** If the abandoned entry is the least one and nothing ordered before it arrives, nothing
      is admitted from the head of that queue again. */
  lemma AbandonedHeadBlocks(q: seq<Entry>, ops: seq<Op>, e: Entry)
    requires IsHeap(q) && e in q && Abandons(ops, e)
    requires forall x :: x in multiset(q) + Added(ops) ==> Le(e, x)
    ensures Admitted(q, ops) == []
  {
    AbandonedEntryStays(q, ops, e);
    var out := Admitted(q, ops);
    forall x | x in out ensures Le(e, x) {
      AdmittedCameFrom(q, ops, x);
    }
    SomeElement(out);
  }

  // ---------- priorities ----------

  lemma {:induction false} AddedIsItem(ops: seq<Op>, e: Entry) returns (op: Op)
    requires e in Added(ops)
    ensures op in ops && op.Add? && e == ItemEntry(op.item)
  {
    if e in AddedBy(ops[0]) {
      op := ops[0];
    } else {
      op := AddedIsItem(ops[1..], e);
    }
  }

  /** Lower values indicate higher priority: while a request waits that has stopped polling, or
      has not polled yet, no request with a larger priority number is admitted by dequeuing,
      whatever was added and polled before, and after. */
  lemma SmallerNumberGoesFirst(before: seq<Op>, a: FlowItem, after: seq<Op>, b: FlowItem)
    requires a.priority < b.priority && a.requestId != b.requestId
    requires forall op :: op in after ==> !op.Lose? && (op.Poll? ==> op.id != a.requestId)
    requires forall op :: op in before + after && op.Add? && op.item.requestId == b.requestId ==> op.item == b
    ensures OutcomeOn(QueueAfter([], before + [Add(a)] + after), Poll(b.requestId, 0)) == Answer(false)
  {
    var ops := before + [Add(a)] + after;
    var e := ItemEntry(a);
    var q1 := QueueAfter([], before);
    var q2 := Push(q1, e);
    var q := QueueAfter(q2, after);
    QueueAfterBoth([], before + [Add(a)], after);
    QueueAfterBoth([], before, [Add(a)]);
    assert [Add(a)][1..] == [];
    assert QueueAfter(q1, [Add(a)]) == q2;
    RunKeepsHeap([], before);
    PushKeepsHeap(q1, e);
    PushMembers(q1, e);
    AbandonedEntryStays(q2, after, e);
    RunKeepsHeap(q2, after);
    var i :| 0 <= i < |q| && q[i] == e;
    HeadIsLeast(q, i);
    Conservation([], ops);
    assert q[0] in multiset(q) && q[0] in Added(ops) by {
      assert q[0] in multiset([]) + Added(ops);
    }
    var op := AddedIsItem(ops, q[0]);
    assert op in before + after || op == Add(a);
  }

  /** The adds of some requests, one after the other. */
  function Adds(items: seq<FlowItem>): (r: seq<Op>)
    ensures |r| == |items| && forall i :: 0 <= i < |r| ==> r[i] == Add(items[i])
  {
    seq(|items|, i requires 0 <= i < |items| => Add(items[i]))
  }

  lemma {:induction false} AddsQueueThem(q: seq<Entry>, items: seq<FlowItem>, e: Entry)
    ensures e in QueueAfter(q, Adds(items)) <==> e in q || exists m :: m in items && e == ItemEntry(m)
    decreases items
  {
    if items != [] {
      var p := Push(q, ItemEntry(items[0]));
      assert Adds(items)[1..] == Adds(items[1..]);
      AddsQueueThem(p, items[1..], e);
      assert e in multiset(p) <==> e in p;
      assert e in multiset(q) <==> e in q;
      assert forall m :: m in items <==> m == items[0] || m in items[1..];
    }
  }

  lemma {:induction false} SomeLeast(items: seq<FlowItem>) returns (least: FlowItem)
    requires items != []
    ensures least in items && forall m :: m in items ==> Le(ItemEntry(least), ItemEntry(m))
  {
    least := items[0];
    LtTotal(ItemEntry(least), ItemEntry(least));
    if |items| > 1 {
      var other := SomeLeast(items[1..]);
      LtTotal(ItemEntry(least), ItemEntry(other));
      if Lt(ItemEntry(other), ItemEntry(least)) {
        least := other;
      } else {
        forall m | m in items[1..] ensures Le(ItemEntry(least), ItemEntry(m)) {
          LeTransitive(ItemEntry(least), ItemEntry(other), ItemEntry(m));
        }
      }
      assert forall m :: m in items <==> m == items[0] || m in items[1..];
    }
  }

  /** No request has a smaller priority number, or the same number and a smaller id. */
  predicate NoneBefore(items: seq<FlowItem>, m: FlowItem) {
    forall x :: x in items ==>
      m.priority < x.priority
      || (m.priority == x.priority && (m.requestId == x.requestId || StrLt(m.requestId, x.requestId)))
  }

  /** After any adds, a poll without healthy deployments is true exactly for the id of a request
      that comes first by its priority number and then by its id. */
  lemma LeastRequestIsAdmitted(items: seq<FlowItem>, id: string)
    requires items != []
    ensures OutcomeOn(QueueAfter([], Adds(items)), Poll(id, 0))
         == Answer(exists m :: m in items && m.requestId == id && NoneBefore(items, m))
  {
    var q := QueueAfter([], Adds(items));
    var least := SomeLeast(items);
    RunKeepsHeap([], Adds(items));
    AddsQueueThem([], items, ItemEntry(least));
    forall e | e in q ensures Le(ItemEntry(least), e) {
      AddsQueueThem([], items, e);
    }
    PollAdmitsExactlyTheLeast(q, id, ItemEntry(least));
    forall x | x in items
      ensures least.priority < x.priority
           || (least.priority == x.priority && (least.requestId == x.requestId || StrLt(least.requestId, x.requestId)))
    {
      LtTotal(ItemEntry(least), ItemEntry(x));
    }
    assert NoneBefore(items, least);
    forall m | m in items && NoneBefore(items, m) ensures m.requestId == least.requestId {
      StrLtTotal(m.requestId, least.requestId);
    }
  }
}
