/** The heap algorithms on a list that holds tuples and, after JSON decoding, lists: comparing
    a tuple with a list raises a TypeError, which leaves the heap as it is at that point. */
module MixedHeap {
  import opened Heapq

  /** A waiting request: a tuple, or the list that a tuple comes back as from JSON. */
  datatype Item = Item(entry: Entry, decoded: bool)

  /** A list after an operation, and whether the operation went through. */
  datatype Sifted = Sifted(items: seq<Item>, ok: bool)

  function Tag(q: seq<Entry>, decoded: bool): (r: seq<Item>)
    ensures |r| == |q|
  {
    seq(|q|, i requires 0 <= i < |q| => Item(q[i], decoded))
  }

  function Untag(h: seq<Item>): (r: seq<Entry>)
    ensures |r| == |h|
  {
    seq(|h|, i requires 0 <= i < |h| => h[i].entry)
  }

  function TrySiftDown(h: seq<Item>, pos: nat): (r: Sifted)
    requires pos < |h|
    decreases pos
  {
    if pos == 0 then Sifted(h, true)
    else if h[pos].decoded != h[Parent(pos)].decoded then Sifted(h, false)
    else if Lt(h[pos].entry, h[Parent(pos)].entry) then TrySiftDown(Swap(h, pos, Parent(pos)), Parent(pos))
    else Sifted(h, true)
  }

  function SmallerItem(h: seq<Item>, pos: nat): (c: nat)
    requires 2 * pos + 1 < |h|
    ensures pos < c < |h|
  {
    var left := 2 * pos + 1;
    if left + 1 < |h| && !Lt(h[left].entry, h[left + 1].entry) then left + 1 else left
  }

  function TrySiftUp(h: seq<Item>, pos: nat): (r: Sifted)
    requires pos < |h|
    decreases |h| - pos
  {
    var left := 2 * pos + 1;
    if left >= |h| then TrySiftDown(h, pos)
    else if left + 1 < |h| && h[left].decoded != h[left + 1].decoded then Sifted(h, false)
    else TrySiftUp(Swap(h, pos, SmallerItem(h, pos)), SmallerItem(h, pos))
  }

  /** heappush */
  function TryPush(h: seq<Item>, x: Item): Sifted {
    TrySiftDown(h + [x], |h|)
  }

  /** heappop; the popped item is `h[0]`. */
  function TryPop(h: seq<Item>): Sifted
    requires h != []
  {
    var last, rest := h[|h| - 1], h[..|h| - 1];
    if rest == [] then Sifted(rest, true) else TrySiftUp(rest[0 := last], 0)
  }

  lemma {:induction false} SiftDownPermutes(h: seq<Item>, pos: nat)
    requires pos < |h|
    ensures multiset(TrySiftDown(h, pos).items) == multiset(h)
    decreases pos
  {
    if pos > 0 && h[pos].decoded == h[Parent(pos)].decoded && Lt(h[pos].entry, h[Parent(pos)].entry) {
      SiftDownPermutes(Swap(h, pos, Parent(pos)), Parent(pos));
    }
  }

  lemma {:induction false} SiftUpPermutes(h: seq<Item>, pos: nat)
    requires pos < |h|
    ensures multiset(TrySiftUp(h, pos).items) == multiset(h)
    decreases |h| - pos
  {
    if 2 * pos + 1 < |h| {
      SiftUpPermutes(Swap(h, pos, SmallerItem(h, pos)), SmallerItem(h, pos));
    } else {
      SiftDownPermutes(h, pos);
    }
  }

  /** Even if a push raises, its item is in the list and no other is lost. */
  lemma PushKeepsItems(h: seq<Item>, x: Item)
    ensures multiset(TryPush(h, x).items) == multiset(h) + multiset{x}
  {
    SiftDownPermutes(h + [x], |h|);
  }

  /** Even if a pop raises, the head is gone from the list and no other item is. */
  lemma PopKeepsItems(h: seq<Item>)
    requires h != []
    ensures multiset(h) == multiset(TryPop(h).items) + multiset{h[0]}
  {
    var last, rest := h[|h| - 1], h[..|h| - 1];
    assert h == rest + [last];
    if rest != [] {
      assert rest == [rest[0]] + rest[1..] && rest[0 := last] == [last] + rest[1..];
      SiftUpPermutes(rest[0 := last], 0);
    }
  }

  lemma TagSwap(q: seq<Entry>, decoded: bool, i: nat, j: nat)
    requires i < |q| && j < |q|
    ensures Swap(Tag(q, decoded), i, j) == Tag(Swap(q, i, j), decoded)
  {
  }

  lemma TagUntag(q: seq<Entry>, decoded: bool)
    ensures Untag(Tag(q, decoded)) == q
  {
  }

  lemma {:induction false} UntagSplits(h: seq<Item>, x: Entry)
    ensures multiset(Untag(h))[x] == multiset(h)[Item(x, true)] + multiset(h)[Item(x, false)]
  {
    if h == [] {
      assert Untag(h) == [];
    } else {
      UntagSplits(h[1..], x);
      assert h == [h[0]] + h[1..] && Untag(h) == [h[0].entry] + Untag(h[1..]);
    }
  }

  lemma UntagLess(h: seq<Item>, rest: seq<Item>, out: Item)
    requires multiset(h) == multiset(rest) + multiset{out}
    ensures multiset(Untag(h)) == multiset(Untag(rest)) + multiset{out.entry}
  {
    forall x ensures multiset(Untag(h))[x] == (multiset(Untag(rest)) + multiset{out.entry})[x] {
      UntagSplits(h, x);
      UntagSplits(rest, x);
    }
  }

  lemma {:induction false} UniformSiftDown(q: seq<Entry>, decoded: bool, pos: nat)
    requires pos < |q|
    ensures TrySiftDown(Tag(q, decoded), pos) == Sifted(Tag(SiftDown(q, pos), decoded), true)
    decreases pos
  {
    if pos > 0 && Lt(q[pos], q[Parent(pos)]) {
      TagSwap(q, decoded, pos, Parent(pos));
      UniformSiftDown(Swap(q, pos, Parent(pos)), decoded, Parent(pos));
    }
  }

  lemma {:induction false} UniformSiftUp(q: seq<Entry>, decoded: bool, pos: nat)
    requires pos < |q|
    ensures TrySiftUp(Tag(q, decoded), pos) == Sifted(Tag(SiftUp(q, pos), decoded), true)
    decreases |q| - pos
  {
    if 2 * pos + 1 < |q| {
      var c := SmallerChild(q, pos);
      TagSwap(q, decoded, pos, c);
      UniformSiftUp(Swap(q, pos, c), decoded, c);
    } else {
      UniformSiftDown(q, decoded, pos);
    }
  }

  /** On a list of one kind, pushing the same kind is heappush, and never raises. */
  lemma UniformPush(q: seq<Entry>, decoded: bool, e: Entry)
    ensures TryPush(Tag(q, decoded), Item(e, decoded)) == Sifted(Tag(Push(q, e), decoded), true)
  {
    assert Tag(q, decoded) + [Item(e, decoded)] == Tag(q + [e], decoded);
    UniformSiftDown(q + [e], decoded, |q|);
  }

  /** On a list of one kind, popping is heappop, and never raises. */
  lemma UniformPop(q: seq<Entry>, decoded: bool)
    requires q != []
    ensures TryPop(Tag(q, decoded)) == Sifted(Tag(Pop(q), decoded), true)
  {
    var h, rest := Tag(q, decoded), q[..|q| - 1];
    assert h[..|h| - 1] == Tag(rest, decoded);
    if rest != [] {
      assert Tag(rest, decoded)[0 := h[|h| - 1]] == Tag(rest[0 := q[|q| - 1]], decoded);
      UniformSiftUp(rest[0 := q[|q| - 1]], decoded, 0);
    }
  }

  /** Pushing a tuple onto a list of one kind raises if and only if the list holds anything and
      is of the other kind; the tuple is then left at its end. */
  lemma PushRaisesIff(q: seq<Entry>, decoded: bool, e: Entry)
    ensures !TryPush(Tag(q, decoded), Item(e, false)).ok <==> q != [] && decoded
    ensures q != [] && decoded ==> TryPush(Tag(q, decoded), Item(e, false)).items == Tag(q, decoded) + [Item(e, false)]
  {
    if !decoded {
      UniformPush(q, decoded, e);
    } else if q == [] {
      assert Tag(q, true) + [Item(e, false)] == [Item(e, false)];
    } else {
      var h := Tag(q, true) + [Item(e, false)];
      assert h[Parent(|q|)] == Tag(q, true)[Parent(|q|)];
    }
  }

  /** All items but the one at `pos` are of one kind. */
  ghost predicate StrayAt(h: seq<Item>, pos: nat, decoded: bool) {
    && pos < |h| && h[pos].decoded != decoded
    && forall i :: 0 <= i < |h| && i != pos ==> h[i].decoded == decoded
  }

  lemma StraySwap(h: seq<Item>, pos: nat, c: nat, decoded: bool)
    requires StrayAt(h, pos, decoded) && c < |h|
    ensures StrayAt(Swap(h, pos, c), c, decoded)
  {
  }

  lemma StrayAtLeaf(h: seq<Item>, pos: nat, decoded: bool)
    requires StrayAt(h, pos, decoded) && pos > 0
    ensures !TrySiftDown(h, pos).ok
  {
    var p := Parent(pos);
    assert p != pos && h[p].decoded == decoded;
  }

  /** An item of the other kind that has to be sifted among others ends in a TypeError. */
  lemma {:induction false} StraySiftRaises(h: seq<Item>, pos: nat, decoded: bool)
    requires StrayAt(h, pos, decoded) && |h| > 1
    ensures !TrySiftUp(h, pos).ok
    decreases |h| - pos
  {
    var left := 2 * pos + 1;
    if left < |h| {
      var c := SmallerItem(h, pos);
      StraySwap(h, pos, c, decoded);
      StraySiftRaises(Swap(h, pos, c), c, decoded);
    } else {
      StrayAtLeaf(h, pos, decoded);
    }
  }

  /** After such a failed push, the next pop raises too if and only if more than one decoded
      entry waits; it still takes the head off the list. */
  lemma PopAfterFailedPushRaisesIff(q: seq<Entry>, e: Entry)
    requires q != []
    ensures !TryPop(Tag(q, true) + [Item(e, false)]).ok <==> |q| > 1
  {
    var h := Tag(q, true) + [Item(e, false)];
    assert h[..|h| - 1] == Tag(q, true);
    if |q| > 1 {
      StraySiftRaises(Tag(q, true)[0 := Item(e, false)], 0, true);
    }
  }
}
