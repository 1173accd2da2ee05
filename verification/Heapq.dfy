/** Python's tuple and string order, and the list algorithms of its heapq library. */
module Heapq {

  /** A `(number, str)` tuple as the heaps of this program hold it: a priority and a
      request id, or a deadline and a cache key. */
  datatype Entry = Entry(rank: real, id: string)

  // ---------- the order ----------

  predicate StrLt(a: string, b: string) {
    if b == "" then false
    else if a == "" then true
    else a[0] < b[0] || (a[0] == b[0] && StrLt(a[1..], b[1..]))
  }

  predicate Lt(a: Entry, b: Entry) {
    a.rank < b.rank || (a.rank == b.rank && StrLt(a.id, b.id))
  }

  predicate Le(a: Entry, b: Entry) {
    !Lt(b, a)
  }

  /** Python's order of strings: a proper prefix is less, and otherwise the first character that
      differs decides. */
  lemma {:induction false} StrLtIsLexicographic(a: string, b: string)
    ensures StrLt(a, b) <==>
      || (|a| < |b| && a == b[..|a|])
      || (exists i :: 0 <= i < |a| && i < |b| && a[..i] == b[..i] && a[i] < b[i])
  {
    if a != "" && b != "" && a[0] == b[0] {
      var c, d := a[1..], b[1..];
      StrLtIsLexicographic(c, d);
      assert a == [a[0]] + c && b == [b[0]] + d;
      if |c| < |d| && c == d[..|c|] {
        assert b[..|a|] == [b[0]] + d[..|c|];
      }
      if |a| < |b| && a == b[..|a|] {
        assert d[..|c|] == b[..|a|][1..];
      }
      if i :| 0 <= i < |c| && i < |d| && c[..i] == d[..i] && c[i] < d[i] {
        assert a[..i + 1] == [a[0]] + c[..i] && b[..i + 1] == [b[0]] + d[..i];
        assert a[i + 1] < b[i + 1];
      }
      if i :| 0 <= i < |a| && i < |b| && a[..i] == b[..i] && a[i] < b[i] {
        assert i > 0;
        assert c[..i - 1] == a[..i][1..] && d[..i - 1] == b[..i][1..];
        assert c[i - 1] < d[i - 1];
      }
    } else if a != "" && b != "" {
      assert a[..0] == b[..0];
      assert forall i :: 0 < i < |a| && i < |b| ==> a[..i][0] == a[0] && b[..i][0] == b[0];
      assert |a| < |b| ==> b[..|a|][0] == b[0];
    }
  }

  lemma {:induction false} StrLtTotal(a: string, b: string)
    ensures (if StrLt(a, b) then 1 else 0) + (if StrLt(b, a) then 1 else 0) + (if a == b then 1 else 0) == 1
  {
    if a != "" && b != "" && a[0] == b[0] {
      StrLtTotal(a[1..], b[1..]);
      assert a == [a[0]] + a[1..] && b == [b[0]] + b[1..];
    }
  }

  lemma {:induction false} StrLtTransitive(a: string, b: string, c: string)
    requires StrLt(a, b) && StrLt(b, c)
    ensures StrLt(a, c)
  {
    if a != "" && a[0] == b[0] == c[0] {
      StrLtTransitive(a[1..], b[1..], c[1..]);
    }
  }

  /** Exactly one of `a < b`, `b < a`, `a == b` holds: tuples are totally ordered. */
  lemma LtTotal(a: Entry, b: Entry)
    ensures Lt(a, b) ==> !Lt(b, a) && a != b
    ensures Lt(b, a) ==> !Lt(a, b) && a != b
    ensures !Lt(a, b) && !Lt(b, a) ==> a == b
  {
    StrLtTotal(a.id, b.id);
  }

  lemma LeTransitive(a: Entry, b: Entry, c: Entry)
    requires Le(a, b) && Le(b, c)
    ensures Le(a, c)
  {
    LtTotal(a, b);
    LtTotal(b, c);
    LtTotal(a, c);
    if a != b && b != c && a.rank == b.rank == c.rank {
      StrLtTransitive(a.id, b.id, c.id);
    }
  }

  // ---------- heaps ----------

  function Parent(i: nat): nat
    requires i > 0
  {
    (i - 1) / 2
  }

  ghost predicate IsHeap(h: seq<Entry>) {
    forall i :: 0 < i < |h| ==> Le(h[Parent(i)], h[i])
  }

  /** Every edge is in order except those that touch `pos`, and nothing is lost by
      looking across `pos`: its parent is no larger than its children. */
  ghost predicate HeapAround(h: seq<Entry>, pos: nat) {
    && (forall i :: 0 < i < |h| && i != pos && Parent(i) != pos ==> Le(h[Parent(i)], h[i]))
    && (forall i :: 0 < i < |h| && Parent(i) == pos && pos > 0 ==> Le(h[Parent(pos)], h[i]))
  }

  ghost predicate ChildrenInOrder(h: seq<Entry>, pos: nat) {
    pos < |h| && forall i :: 0 < i < |h| && Parent(i) == pos ==> Le(h[pos], h[i])
  }

  function Swap<T>(h: seq<T>, i: nat, j: nat): (r: seq<T>)
    requires i < |h| && j < |h|
    ensures |r| == |h| && multiset(r) == multiset(h)
  {
    h[i := h[j]][j := h[i]]
  }

  /** heapq._siftdown(heap, 0, pos): the item at `pos` moves towards the root past every
      larger parent. */
  function SiftDown(h: seq<Entry>, pos: nat): (r: seq<Entry>)
    requires pos < |h|
    ensures |r| == |h| && multiset(r) == multiset(h)
    decreases pos
  {
    if pos > 0 && Lt(h[pos], h[Parent(pos)])
    then SiftDown(Swap(h, pos, Parent(pos)), Parent(pos))
    else h
  }

  function SmallerChild(h: seq<Entry>, pos: nat): (c: nat)
    requires 2 * pos + 1 < |h|
    ensures pos < c < |h| && Parent(c) == pos
  {
    var left := 2 * pos + 1;
    if left + 1 < |h| && !Lt(h[left], h[left + 1]) then left + 1 else left
  }

  /** heapq._siftup(heap, pos): the smaller child is pulled up all the way to a leaf,
      then the displaced item is sifted back towards the root. */
  function SiftUp(h: seq<Entry>, pos: nat): (r: seq<Entry>)
    requires pos < |h|
    ensures |r| == |h| && multiset(r) == multiset(h)
    decreases |h| - pos
  {
    if 2 * pos + 1 < |h| then
      var c := SmallerChild(h, pos);
      SiftUp(Swap(h, pos, c), c)
    else SiftDown(h, pos)
  }

  /** heapq.heappush */
  function Push(h: seq<Entry>, e: Entry): (r: seq<Entry>)
    ensures |r| == |h| + 1 && multiset(r) == multiset(h) + multiset{e}
  {
    SiftDown(h + [e], |h|)
  }

  /** The list that heapq.heappop leaves behind; the popped item is `h[0]`. */
  function Pop(h: seq<Entry>): (r: seq<Entry>)
    requires h != []
    ensures |r| == |h| - 1 && multiset(h) == multiset(r) + multiset{h[0]}
  {
    var last := h[|h| - 1];
    var rest := h[..|h| - 1];
    assert h == rest + [last];
    if rest == [] then rest
    else
      assert rest == [rest[0]] + rest[1..] && rest[0 := last] == [last] + rest[1..];
      SiftUp(rest[0 := last], 0)
  }

  lemma PushMembers(h: seq<Entry>, e: Entry)
    ensures forall x :: x in h || x == e ==> x in Push(h, e)
  {
    forall x | x in h || x == e ensures x in Push(h, e) {
      assert x in multiset(h) + multiset{e};
    }
  }

  lemma PopMembers(h: seq<Entry>)
    requires h != []
    ensures forall x :: x in h && x != h[0] ==> x in Pop(h)
  {
    forall x | x in h && x != h[0] ensures x in Pop(h) {
      assert x in multiset(h);
    }
  }

  lemma {:induction false} SiftDownHeap(h: seq<Entry>, pos: nat)
    requires pos < |h| && HeapAround(h, pos) && ChildrenInOrder(h, pos)
    ensures IsHeap(SiftDown(h, pos))
    decreases pos
  {
    if pos > 0 {
      LtTotal(h[pos], h[Parent(pos)]);
    }
    if pos > 0 && Lt(h[pos], h[Parent(pos)]) {
      var p := Parent(pos);
      var g := Swap(h, pos, p);
      forall i | 0 < i < |g| && Parent(i) == p
        ensures Le(g[p], g[i]) && (p > 0 ==> Le(g[Parent(p)], g[i]))
      {
        if i != pos {
          assert Le(h[p], h[i]);
          LeTransitive(h[pos], h[p], h[i]);
        }
        if p > 0 {
          assert Le(h[Parent(p)], h[p]);
          if i != pos { LeTransitive(h[Parent(p)], h[p], h[i]); }
        }
      }
      SiftDownHeap(g, p);
    }
  }

  lemma {:induction false} SiftUpHeap(h: seq<Entry>, pos: nat)
    requires pos < |h| && HeapAround(h, pos)
    ensures IsHeap(SiftUp(h, pos))
    decreases |h| - pos
  {
    if 2 * pos + 1 < |h| {
      var c := SmallerChild(h, pos);
      var g := Swap(h, pos, c);
      forall i | 0 < i < |h| && Parent(i) == pos ensures Le(h[c], h[i]) {
        assert i == 2 * pos + 1 || i == 2 * pos + 2;
        LtTotal(h[c], h[i]);
      }
      SiftUpHeap(g, c);
    } else {
      SiftDownHeap(h, pos);
    }
  }

  /** heappush keeps the heap invariant. */
  lemma PushKeepsHeap(h: seq<Entry>, e: Entry)
    requires IsHeap(h)
    ensures IsHeap(Push(h, e))
  {
    SiftDownHeap(h + [e], |h|);
  }

  /** heappop keeps the heap invariant. */
  lemma PopKeepsHeap(h: seq<Entry>)
    requires IsHeap(h) && h != []
    ensures IsHeap(Pop(h))
  {
    var rest := h[..|h| - 1];
    if rest != [] {
      SiftUpHeap(rest[0 := h[|h| - 1]], 0);
    }
  }

  /** The head of a heap is its least entry. */
  lemma {:induction false} HeadIsLeast(h: seq<Entry>, i: nat)
    requires IsHeap(h) && i < |h|
    ensures Le(h[0], h[i])
  {
    if i == 0 {
      LtTotal(h[0], h[0]);
    } else {
      HeadIsLeast(h, Parent(i));
      LeTransitive(h[0], h[Parent(i)], h[i]);
    }
  }

  // ---------- draining ----------

  ghost predicate Sorted(s: seq<Entry>) {
    forall i, j :: 0 <= i < j < |s| ==> Le(s[i], s[j])
  }

  /** What repeated heappop returns. */
  function Drain(h: seq<Entry>): (r: seq<Entry>)
    ensures |r| == |h|
    decreases |h|
  {
    if h == [] then [] else [h[0]] + Drain(Pop(h))
  }

  lemma {:induction false} DrainIsPermutation(h: seq<Entry>)
    ensures multiset(Drain(h)) == multiset(h)
    decreases |h|
  {
    if h != [] {
      DrainIsPermutation(Pop(h));
    }
  }

  lemma HeadBeforeDrain(h: seq<Entry>, x: Entry)
    requires IsHeap(h) && h != [] && x in Drain(Pop(h))
    ensures Le(h[0], x)
  {
    DrainIsPermutation(Pop(h));
    assert x in multiset(Drain(Pop(h)));
    assert x in multiset(h);
    var i :| 0 <= i < |h| && h[i] == x;
    HeadIsLeast(h, i);
  }

  /** Draining a heap yields its entries in sorted order. */
  lemma {:induction false} DrainIsSorted(h: seq<Entry>)
    requires IsHeap(h)
    ensures Sorted(Drain(h))
    decreases |h|
  {
    if h != [] {
      PopKeepsHeap(h);
      DrainIsSorted(Pop(h));
      var rest := Drain(Pop(h));
      forall j | 0 <= j < |rest| ensures Le(h[0], rest[j]) {
        HeadBeforeDrain(h, rest[j]);
      }
    }
  }

  lemma SortedHead(a: seq<Entry>, b: seq<Entry>)
    requires Sorted(a) && a != [] && b != [] && multiset(a) == multiset(b)
    ensures Le(a[0], b[0])
  {
    assert b[0] in multiset(a);
    var j :| 0 <= j < |a| && a[j] == b[0];
    LtTotal(a[0], a[0]);
  }

  lemma TailMultiset(a: seq<Entry>)
    requires a != []
    ensures multiset(a[1..]) == multiset(a) - multiset{a[0]}
  {
    assert a == [a[0]] + a[1..];
  }

  /** A sorted list is determined by its entries. */
  lemma {:induction false} SortedUnique(a: seq<Entry>, b: seq<Entry>)
    requires Sorted(a) && Sorted(b) && multiset(a) == multiset(b)
    ensures a == b
  {
    assert |a| == |multiset(a)| == |multiset(b)| == |b|;
    if a != [] {
      SortedHead(a, b);
      SortedHead(b, a);
      LtTotal(a[0], b[0]);
      TailMultiset(a);
      TailMultiset(b);
      SortedUnique(a[1..], b[1..]);
      assert a == [a[0]] + a[1..] && b == [b[0]] + b[1..];
    }
  }
}
