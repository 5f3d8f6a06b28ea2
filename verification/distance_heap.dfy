/**
 The bounded max-heap of the nearest-neighbour search. Two distances that differ by less than a tolerance count as
 equal and the x coordinate decides, which is an order only if no two stored distances differ by that little.

 Whatever the distances are, the heap still tells the items on one side of a gap from those on the other: a gap is a
 distance with nothing less than the tolerance beyond it.
 */
module DistanceHeap {

  datatype Point = Point(x: real, y: real, z: real)

  datatype Item = Item(point: Point, dist: real)

  const TOLERANCE := 0.0000000001

  // --------------------------------------------------------------------------
  // The order

  function Gap(a: Item, b: Item): real { if a.dist < b.dist then b.dist - a.dist else a.dist - b.dist }

  // The comparison that the heap uses.
  predicate Less(a: Item, b: Item) {
    if Gap(a, b) < TOLERANCE then a.point.x < b.point.x else a.dist < b.dist
  }

  // The order by distance and then by x, without a tolerance.
  predicate Below(a: Item, b: Item) { a.dist < b.dist || (a.dist == b.dist && a.point.x < b.point.x) }

  predicate Distinguished(a: Item, b: Item) { a.dist == b.dist || Gap(a, b) >= TOLERANCE }

  ghost predicate Separated(s: multiset<Item>) {
    forall a, b :: a in s && b in s ==> Distinguished(a, b)
  }

  // The comparison goes round in a circle on three items whose distances are within the tolerance of the next.
  lemma ComparisonCanCycle()
    ensures exists a, b, c :: Less(a, b) && Less(b, c) && Less(c, a)
  {
    var a := Item(Point(0.0, 0.0, 0.0), 0.00000000012);
    var b := Item(Point(1.0, 0.0, 0.0), 0.00000000006);
    var c := Item(Point(2.0, 0.0, 0.0), 0.0);
    assert Less(a, b) && Less(b, c) && Less(c, a);
  }

  // For two distances, the comparison follows the order whatever the points are if and only if the two distances are
  // equal or no closer than the tolerance. Closer than that, only the x coordinates are compared.
  lemma ComparisonIsOrder(d: real, e: real)
    ensures (forall p, q :: Less(Item(p, d), Item(q, e)) <==> d < e || (d == e && p.x < q.x))
       <==> d == e || d - e >= 0.0000000001 || e - d >= 0.0000000001
    ensures d - e < 0.0000000001 && e - d < 0.0000000001 ==>
      forall p, q :: Less(Item(p, d), Item(q, e)) <==> p.x < q.x
  {
    var zero, one := Point(0.0, 0.0, 0.0), Point(1.0, 0.0, 0.0);
    if !Distinguished(Item(zero, d), Item(zero, e)) {
      assert Less(Item(zero, d), Item(one, e)) && !Less(Item(one, d), Item(zero, e));
      assert Below(Item(one, d), Item(zero, e)) == (d < e) == Below(Item(zero, d), Item(one, e));
    }
  }

  // Nothing has a distance less than the tolerance beyond d.
  ghost predicate IsGap(s: multiset<Item>, d: real) {
    forall a :: a in s ==> a.dist <= d || a.dist >= d + TOLERANCE
  }

  // The ways in which the heap can be in order: by distance and then by x, or only across a gap at d.
  datatype Order = ByDistance | ByGap(d: real) {
    // That a can stand below b in the heap.
    predicate Under(a: Item, b: Item) {
      if ByDistance? then !Below(b, a) else a.dist <= d || b.dist > d
    }

    // What it takes of the items for the comparison to follow the order.
    ghost predicate Suits(s: multiset<Item>) {
      if ByDistance? then Separated(s) else IsGap(s, d)
    }
  }

  lemma ComparisonFollows(o: Order, s: multiset<Item>, a: Item, b: Item)
    requires o.Suits(s) && a in s && b in s
    ensures Less(a, b) ==> o.Under(a, b)
    ensures !Less(a, b) ==> o.Under(b, a)
  {
    if o.ByDistance? {
      assert Distinguished(a, b);
    }
  }

  // --------------------------------------------------------------------------
  // Heaps as sequences

  function Parent(i: nat): nat
    requires i > 0
  {
    (i - 1) / 2
  }

  // The child is not above its parent.
  predicate EdgeHolds(o: Order, s: seq<Item>, i: nat)
    requires 0 < i < |s|
  {
    o.Under(s[i], s[Parent(i)])
  }

  ghost predicate IsHeap(o: Order, s: seq<Item>) {
    forall i :: 0 < i < |s| ==> EdgeHolds(o, s, i)
  }

  function Exchange(s: seq<Item>, i: nat, j: nat): (t: seq<Item>)
    requires i < |s| && j < |s|
    ensures |t| == |s|
  {
    s[i := s[j]][j := s[i]]
  }

  lemma ExchangeRearranges(s: seq<Item>, i: nat, j: nat)
    requires i < |s| && j < |s|
    ensures multiset(Exchange(s, i, j)) == multiset(s)
  {}

  lemma {:induction false} RootIsMaximum(o: Order, s: seq<Item>, i: nat)
    requires IsHeap(o, s) && i < |s|
    ensures o.Under(s[i], s[0])
  {
    if i > 0 {
      RootIsMaximum(o, s, Parent(i));
      assert EdgeHolds(o, s, i);
    }
  }

  // --------------------------------------------------------------------------
  // Rising

  // Where the item at an index rises to by the comparison.
  function Risen(s: seq<Item>, i: nat): (t: seq<Item>)
    requires i < |s|
    ensures |t| == |s|
    decreases i
  {
    if i > 0 && Less(s[Parent(i)], s[i]) then Risen(Exchange(s, i, Parent(i)), Parent(i)) else s
  }

  // A heap but for the edge above i; the children of i can stand below the parent of i.
  ghost predicate Rising(o: Order, s: seq<Item>, i: nat) {
    && i < |s|
    && (forall j :: 0 < j < |s| && j != i ==> EdgeHolds(o, s, j))
    && (i > 0 ==> forall j :: 0 < j < |s| && Parent(j) == i ==> o.Under(s[j], s[Parent(i)]))
  }

  lemma RisesToParent(o: Order, s: seq<Item>, i: nat)
    requires Rising(o, s, i) && i > 0 && o.Under(s[Parent(i)], s[i])
    ensures Rising(o, Exchange(s, i, Parent(i)), Parent(i))
  {
    var p := Parent(i);
    var t := Exchange(s, i, p);
    forall j | 0 < j < |s| && j != p
      ensures EdgeHolds(o, t, j)
    {
      assert j != i ==> EdgeHolds(o, s, j);
    }
    if p > 0 {
      forall j | 0 < j < |s| && Parent(j) == p
        ensures o.Under(t[j], t[Parent(p)])
      {
        assert EdgeHolds(o, s, p) && (j != i ==> EdgeHolds(o, s, j));
      }
    }
  }

  lemma HasRisen(o: Order, s: seq<Item>, i: nat)
    requires Rising(o, s, i) && (i > 0 ==> o.Under(s[i], s[Parent(i)]))
    ensures IsHeap(o, s)
  {}

  lemma {:induction false} RisenIsHeap(o: Order, s: seq<Item>, i: nat)
    requires i < |s|
    ensures multiset(Risen(s, i)) == multiset(s)
    ensures Rising(o, s, i) && o.Suits(multiset(s)) ==> IsHeap(o, Risen(s, i))
    decreases i
  {
    hide Less, Rising, IsHeap, Exchange;
    if i > 0 && Less(s[Parent(i)], s[i]) {
      ExchangeRearranges(s, i, Parent(i));
      RisenIsHeap(o, Exchange(s, i, Parent(i)), Parent(i));
    }
    if Rising(o, s, i) && o.Suits(multiset(s)) {
      RisesOrHasRisen(o, s, i);
    }
  }

  lemma RisesOrHasRisen(o: Order, s: seq<Item>, i: nat)
    requires Rising(o, s, i) && o.Suits(multiset(s))
    ensures if i > 0 && Less(s[Parent(i)], s[i]) then Rising(o, Exchange(s, i, Parent(i)), Parent(i)) else IsHeap(o, s)
  {
    if i == 0 {
      HasRisen(o, s, i);
    } else {
      var p := Parent(i);
      assert s[p] in multiset(s) && s[i] in multiset(s);
      hide Less, Rising, IsHeap, Exchange;
      ComparisonFollows(o, multiset(s), s[p], s[i]);
      if Less(s[p], s[i]) {
        RisesToParent(o, s, i);
      } else {
        HasRisen(o, s, i);
      }
    }
  }

  // --------------------------------------------------------------------------
  // Sinking

  // The child that the comparison goes on with: the left one, unless there is a right one and it is larger.
  function LargerChild(s: seq<Item>, i: nat): (c: nat)
    requires 2 * i + 1 < |s|
    ensures i < c < |s| && Parent(c) == i
  {
    if 2 * i + 2 < |s| && Less(s[2 * i + 1], s[2 * i + 2]) then 2 * i + 2 else 2 * i + 1
  }

  // Where the item at an index sinks to by the comparison.
  function Sunk(s: seq<Item>, i: nat): (t: seq<Item>)
    requires i < |s|
    ensures |t| == |s|
    decreases |s| - i
  {
    if 2 * i + 1 < |s| && Less(s[i], s[LargerChild(s, i)]) then
      Sunk(Exchange(s, i, LargerChild(s, i)), LargerChild(s, i))
    else s
  }

  // A heap but for the edges below i; the children of i can stand below the parent of i.
  ghost predicate Sinking(o: Order, s: seq<Item>, i: nat) {
    && i < |s|
    && (forall j :: 0 < j < |s| && Parent(j) != i ==> EdgeHolds(o, s, j))
    && (i > 0 ==> forall j :: 0 < j < |s| && Parent(j) == i ==> o.Under(s[j], s[Parent(i)]))
  }

  ghost predicate IsLargerChild(o: Order, s: seq<Item>, i: nat, c: nat) {
    && 0 < c < |s| && Parent(c) == i
    && forall j :: 0 < j < |s| && Parent(j) == i ==> o.Under(s[j], s[c])
  }

  lemma LargerChildIs(o: Order, s: seq<Item>, i: nat)
    requires o.Suits(multiset(s)) && 2 * i + 1 < |s|
    ensures IsLargerChild(o, s, i, LargerChild(s, i))
  {
    assert s[2 * i + 1] in multiset(s);
    if 2 * i + 2 < |s| {
      assert s[2 * i + 2] in multiset(s);
      ComparisonFollows(o, multiset(s), s[2 * i + 1], s[2 * i + 2]);
    }
  }

  lemma SinksToChild(o: Order, s: seq<Item>, i: nat, c: nat)
    requires Sinking(o, s, i) && IsLargerChild(o, s, i, c) && o.Under(s[i], s[c])
    ensures Sinking(o, Exchange(s, i, c), c)
  {
    var t := Exchange(s, i, c);
    forall j | 0 < j < |s| && Parent(j) != c
      ensures EdgeHolds(o, t, j)
    {
      assert Parent(j) != i ==> EdgeHolds(o, s, j);
    }
    forall j | 0 < j < |s| && Parent(j) == c
      ensures o.Under(t[j], t[Parent(c)])
    {
      assert EdgeHolds(o, s, j);
    }
  }

  lemma HasSunk(o: Order, s: seq<Item>, i: nat, c: nat)
    requires Sinking(o, s, i)
    requires 2 * i + 1 >= |s| || (IsLargerChild(o, s, i, c) && o.Under(s[c], s[i]))
    ensures IsHeap(o, s)
  {
    forall j | 0 < j < |s|
      ensures EdgeHolds(o, s, j)
    {
      if Parent(j) == i {
        assert o.Under(s[j], s[c]);
      }
    }
  }

  lemma SinksOrHasSunk(o: Order, s: seq<Item>, i: nat)
    requires Sinking(o, s, i) && o.Suits(multiset(s))
    ensures if 2 * i + 1 < |s| && Less(s[i], s[LargerChild(s, i)]) then
        Sinking(o, Exchange(s, i, LargerChild(s, i)), LargerChild(s, i))
      else IsHeap(o, s)
  {
    if 2 * i + 1 >= |s| {
      HasSunk(o, s, i, i);
    } else {
      var c := LargerChild(s, i);
      assert s[i] in multiset(s) && s[c] in multiset(s);
      hide Less, Sinking, IsHeap, Exchange, IsLargerChild, LargerChild;
      ComparisonFollows(o, multiset(s), s[i], s[c]);
      LargerChildIs(o, s, i);
      if Less(s[i], s[c]) {
        SinksToChild(o, s, i, c);
      } else {
        HasSunk(o, s, i, c);
      }
    }
  }

  lemma {:induction false} SunkIsHeap(o: Order, s: seq<Item>, i: nat)
    requires i < |s|
    ensures multiset(Sunk(s, i)) == multiset(s)
    ensures Sinking(o, s, i) && o.Suits(multiset(s)) ==> IsHeap(o, Sunk(s, i))
    decreases |s| - i
  {
    hide Less, Sinking, IsHeap, Exchange, IsLargerChild, LargerChild;
    if 2 * i + 1 < |s| && Less(s[i], s[LargerChild(s, i)]) {
      ExchangeRearranges(s, i, LargerChild(s, i));
      SunkIsHeap(o, Exchange(s, i, LargerChild(s, i)), LargerChild(s, i));
    }
    if Sinking(o, s, i) && o.Suits(multiset(s)) {
      SinksOrHasSunk(o, s, i);
    }
  }

  // --------------------------------------------------------------------------
  // One item more, and one item fewer

  // The heap with one more item.
  function Pushed(s: seq<Item>, item: Item): seq<Item> { Risen(s + [item], |s|) }

  // What the heap is once the last entry has replaced the first.
  function Replaced(s: seq<Item>): seq<Item>
    requires s != []
  {
    if |s| == 1 then [] else s[..|s| - 1][0 := s[|s| - 1]]
  }

  // The heap without its first item.
  function Popped(s: seq<Item>): seq<Item>
    requires s != []
  {
    if |s| == 1 then [] else Sunk(Replaced(s), 0)
  }

  // The same items and one more.
  ghost predicate IsWith(t: seq<Item>, s: seq<Item>, item: Item) {
    |t| == |s| + 1 && multiset(t) == multiset(s) + multiset{item}
  }

  // The same items but for the first one.
  ghost predicate IsWithoutFirst(t: seq<Item>, s: seq<Item>) {
    |s| > 0 && |t| == |s| - 1 && multiset(t) == multiset(s) - multiset{s[0]}
  }

  lemma AppendIsRising(o: Order, s: seq<Item>, item: Item)
    requires IsHeap(o, s)
    ensures Rising(o, s + [item], |s|)
  {
    forall j | 0 < j < |s|
      ensures EdgeHolds(o, s + [item], j)
    {
      assert EdgeHolds(o, s, j);
    }
  }

  // Pushing adds the item, and keeps every order that the comparison follows on the items.
  lemma PushedIs(s: seq<Item>, item: Item)
    ensures IsWith(Pushed(s, item), s, item)
    ensures forall o: Order :: IsHeap(o, s) && o.Suits(multiset(s) + multiset{item}) ==> IsHeap(o, Pushed(s, item))
  {
    hide IsHeap, Risen, Rising;
    assert multiset(s + [item]) == multiset(s) + multiset{item};
    RisenIsHeap(ByDistance, s + [item], |s|);
    forall o: Order | IsHeap(o, s) && o.Suits(multiset(s) + multiset{item})
      ensures IsHeap(o, Pushed(s, item))
    {
      AppendIsRising(o, s, item);
      RisenIsHeap(o, s + [item], |s|);
    }
  }

  lemma LastReplacesFirst(s: seq<Item>)
    requires s != []
    ensures IsWithoutFirst(Replaced(s), s)
    ensures multiset(Replaced(s)) <= multiset(s)
    ensures forall o: Order :: IsHeap(o, s) && |s| > 1 ==> Sinking(o, Replaced(s), 0)
  {
    var last := |s| - 1;
    var t := Replaced(s);
    forall o: Order, j | 0 < j < last && Parent(j) != 0 && IsHeap(o, s)
      ensures EdgeHolds(o, t, j)
    {
      assert EdgeHolds(o, s, j);
    }
    assert s == s[..last] + [s[last]];
    assert multiset(s) == multiset(s[..last]) + multiset{s[last]};
  }

  lemma SomeSuit(o: Order, all: multiset<Item>, some: multiset<Item>)
    requires o.Suits(all) && some <= all
    ensures o.Suits(some)
  {}

  // Popping takes the first item away, and keeps every order that the comparison follows on the items.
  lemma PoppedIs(s: seq<Item>)
    requires s != []
    ensures IsWithoutFirst(Popped(s), s)
    ensures forall o: Order :: IsHeap(o, s) && o.Suits(multiset(s)) ==> IsHeap(o, Popped(s))
  {
    LastReplacesFirst(s);
    if |s| > 1 {
      hide IsHeap, Sunk, Sinking, Replaced;
      SunkIsHeap(ByDistance, Replaced(s), 0);
      forall o: Order | IsHeap(o, s) && o.Suits(multiset(s))
        ensures IsHeap(o, Popped(s))
      {
        SomeSuit(o, multiset(s), multiset(Replaced(s)));
        SunkIsHeap(o, Replaced(s), 0);
      }
    }
  }

  // --------------------------------------------------------------------------
  // A heap that is not in order

  // Four items whose distances are not told apart, pushed one after the other: the first item of the heap is then less
  // than another one.
  lemma TopCanBeLess()
    ensures exists a, b, c ::
      var s := Pushed(Pushed(Pushed(Pushed([], b), a), a), c);
      |s| == 4 && Less(s[0], s[3])
  {
    var a := Item(Point(0.0, 0.0, 0.0), 0.00000000012);
    var b := Item(Point(1.0, 0.0, 0.0), 0.00000000006);
    var c := Item(Point(2.0, 0.0, 0.0), 0.0);
    assert !Less(b, a) && !Less(a, c) && Less(b, c);
    hide Less;
    PushedInTurn(a, b, c);
    assert [b, a, a, c][3] == c;
  }

  lemma PushedInTurn(a: Item, b: Item, c: Item)
    requires !Less(b, a) && !Less(a, c)
    ensures Pushed(Pushed(Pushed(Pushed([], b), a), a), c) == [b, a, a, c]
  {
    hide Pushed, Less;
    StaysLast([], b);
    StaysLast([b], a);
    StaysLast([b, a], a);
    StaysLast([b, a, a], c);
    assert [] + [b] == [b] && [b] + [a] == [b, a] && [b, a] + [a] == [b, a, a] && [b, a, a] + [c] == [b, a, a, c];
  }

  lemma StaysLast(s: seq<Item>, item: Item)
    requires s != [] ==> !Less(s[Parent(|s|)], item)
    ensures Pushed(s, item) == s + [item]
  {}

  // --------------------------------------------------------------------------
  // The code moves a hole instead of exchanging items

  lemma HoleMoves(a: seq<Item>, i: nat, j: nat, tmp: Item)
    requires i < |a| && j < |a| && i != j
    ensures Exchange(a[i := tmp], i, j) == a[i := a[j]][j := tmp]
  {}

  lemma HoleSinks(a: seq<Item>, i: nat, tmp: Item)
    requires i < |a|
    ensures 2 * i + 1 >= |a| ==> Sunk(a[i := tmp], i) == a[i := tmp]
    ensures 2 * i + 1 < |a| ==>
      var c := if 2 * i + 2 < |a| && Less(a[2 * i + 1], a[2 * i + 2]) then 2 * i + 2 else 2 * i + 1;
      Sunk(a[i := tmp], i) == if Less(tmp, a[c]) then Sunk(a[i := a[c]][c := tmp], c) else a[i := tmp]
  {
    if 2 * i + 1 < |a| {
      HoleMoves(a, i, LargerChild(a[i := tmp], i), tmp);
    }
    hide Less, Exchange;
  }

  lemma HoleRises(a: seq<Item>, i: nat, tmp: Item)
    requires i < |a|
    ensures Risen(a[i := tmp], i) ==
      if i > 0 && Less(a[Parent(i)], tmp) then Risen(a[i := a[Parent(i)]][Parent(i) := tmp], Parent(i))
      else a[i := tmp]
  {
    if i > 0 {
      HoleMoves(a, i, Parent(i), tmp);
    }
    hide Less, Exchange;
  }

  // --------------------------------------------------------------------------
  // The heap

  class ManualHeap {
    const cap: nat
    const heap: array<Item>
    var heapSize: nat

    ghost function Contents(): seq<Item>
      reads this, heap
      requires heapSize <= heap.Length
    {
      heap[..heapSize]
    }

    ghost predicate Valid()
      reads this, heap
    {
      heapSize <= heap.Length == cap
    }

    constructor (maxCapacity: nat := 100)
      ensures Valid() && cap == maxCapacity && Contents() == [] && fresh(heap)
    {
      cap, heapSize := maxCapacity, 0;
      heap := new Item[maxCapacity](_ => Item(Point(0.0, 0.0, 0.0), 0.0));
    }

    method Size() returns (size: nat)
      requires Valid()
      ensures size == |Contents()|
    {
      size := heapSize;
    }

    // For an empty heap this is whatever the first slot still holds. In every order that the heap is in, no item is
    // above the first.
    method Top() returns (item: Item)
      requires Valid() && cap > 0
      ensures item == heap[0] && (heapSize > 0 ==> item == Contents()[0])
      ensures forall o: Order, x :: IsHeap(o, Contents()) && x in Contents() ==> o.Under(x, item)
    {
      item := heap[0];
      forall o: Order, x | IsHeap(o, Contents()) && x in Contents()
        ensures o.Under(x, item)
      {
        var i :| 0 <= i < heapSize && Contents()[i] == x;
        RootIsMaximum(o, Contents(), i);
      }
    }

    method Clear()
      requires Valid()
      modifies this
      ensures Valid() && Contents() == []
    {
      heapSize := 0;
    }

    // Moves the hole at an index down to where the item at that index belongs.
    method MoveDown(index: nat)
      requires Valid() && index < heap.Length && (heapSize > 0 ==> index < heapSize)
      modifies heap
      ensures heapSize > 0 ==> Contents() == Sunk(old(Contents()), index)
    {
      hide Less, Sunk;
      var i := index;
      var l := 2 * i + 1;
      var tmp := heap[i];
      ghost var s := Contents();
      while l < heapSize
        invariant l == 2 * i + 1 && i < heap.Length && (heapSize > 0 ==> i < heapSize)
        invariant s == if heapSize > 0 then Contents()[i := tmp] else []
        invariant heapSize > 0 ==> Sunk(s, i) == Sunk(old(Contents()), index)
      {
        HoleSinks(Contents(), i, tmp);
        if l + 1 < heapSize && Less(heap[l], heap[l + 1]) {
          l := l + 1;
        }
        if Less(tmp, heap[l]) {
          s := Contents()[i := heap[l]][l := tmp];
          heap[i] := heap[l];
          i := l;
          l := 2 * i + 1;
        } else {
          break;
        }
      }
      if heapSize > 0 {
        HoleSinks(Contents(), i, tmp);
      }
      heap[i] := tmp;
      assert Contents() == s;
    }

    // Moves the hole at the last index up to where the item at that index belongs.
    method FloatUp(index: nat)
      requires index < heap.Length
      modifies heap
      ensures heap[..index + 1] == Risen(old(heap[..index + 1]), index)
    {
      hide Less, Risen;
      var i := index;
      var ancestor := if i == 0 then 0 else (i - 1) / 2;
      var tmp := heap[i];
      ghost var s := heap[..index + 1];
      while i > 0
        invariant i <= index && ancestor == (if i == 0 then 0 else (i - 1) / 2)
        invariant s == heap[..index + 1][i := tmp]
        invariant Risen(s, i) == Risen(old(heap[..index + 1]), index)
      {
        HoleRises(heap[..index + 1], i, tmp);
        if Less(heap[ancestor], tmp) {
          s := heap[..index + 1][i := heap[ancestor]][ancestor := tmp];
          heap[i] := heap[ancestor];
          i := ancestor;
          ancestor := if i == 0 then 0 else (i - 1) / 2;
        } else {
          break;
        }
      }
      HoleRises(heap[..index + 1], i, tmp);
      heap[i] := tmp;
      assert heap[..index + 1] == s;
    }

    // Below capacity the item joins.
    method Push(item: Item)
      requires Valid()
      modifies this, heap
      ensures Valid()
      ensures Contents() == if old(heapSize) < cap then Pushed(old(Contents()), item) else old(Contents())
    {
      if heapSize >= cap {
        return;
      }
      ghost var s := Contents();
      heap[heapSize] := item;
      assert heap[..heapSize + 1] == s + [item];
      FloatUp(heapSize);
      heapSize := heapSize + 1;
    }

    // The first item leaves.
    method Pop()
      requires Valid()
      modifies this, heap
      ensures Valid()
      ensures Contents() == if old(heapSize) > 0 then Popped(old(Contents())) else []
    {
      if heapSize == 0 {
        return;
      }
      ghost var s := Contents();
      heap[0] := heap[heapSize - 1];
      heapSize := heapSize - 1;
      assert Contents() == Replaced(s);
      MoveDown(0);
    }
  }
}
