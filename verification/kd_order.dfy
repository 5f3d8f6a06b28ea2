/**
 The shape of the incremental k-d tree: every node divides the points below it by its axis, whatever the tree goes
 through, and a subtree that was just built is balanced.
 */
module KdOrder {
  import opened DistanceHeap
  import opened KdTree

  // All points of the tree, deleted or not.
  ghost function Points(t: Tree): set<Point> {
    if t.Empty? then {} else {t.point} + Points(t.left) + Points(t.right)
  }

  function Along(axis: nat, p: Point): real { if axis == 0 then p.x else if axis == 1 then p.y else p.z }

  ghost predicate Divides(axis: nat, left: set<Point>, p: Point, right: set<Point>) {
    && axis < 3
    && (forall q <- left :: Along(axis, q) <= Along(axis, p))
    && (forall q <- right :: Along(axis, q) >= Along(axis, p))
  }

  ghost predicate Ordered(t: Tree) {
    t.Node? ==> Divides(t.axis, Points(t.left), t.point, Points(t.right)) && Ordered(t.left) && Ordered(t.right)
  }

  lemma OrderedIs(t: Tree)
    ensures t.Empty? ==> Ordered(t) && Points(t) == {}
    ensures t.Node? ==> Points(t) == {t.point} + Points(t.left) + Points(t.right)
    ensures t.Node? ==> (Ordered(t) <==>
      Divides(t.axis, Points(t.left), t.point, Points(t.right)) && Ordered(t.left) && Ordered(t.right))
  {}

  // What the library function promises of an arrangement: no point before the middle is beyond it, and none after it is
  // before it.
  ghost predicate Splits(arrange: Arrangement) {
    forall points :: points != [] ==> SplitsAt(arrange(points).0, arrange(points).1)
  }

  ghost predicate SplitsAt(axis: nat, a: seq<Point>) {
    axis < 3 &&
    (a != [] ==>
       var mid := (|a| - 1) / 2;
       && (forall i :: 0 <= i < mid ==> Along(axis, a[i]) <= Along(axis, a[mid]))
       && (forall i :: mid < i < |a| ==> Along(axis, a[i]) >= Along(axis, a[mid])))
  }

  ghost predicate AllSplit(calls: seq<Call>) {
    forall c <- calls :: Splits(c.balance.arrange)
  }

  // --------------------------------------------------------------------------
  // Building

  ghost predicate IsBalanced(t: Tree) {
    t.Node? ==> 0 <= Size(t.right) - Size(t.left) <= 1 && IsBalanced(t.left) && IsBalanced(t.right)
  }

  // A built tree has a node for every point, and at every node the subtrees are of one size, or the right one has one
  // point more.
  lemma {:induction false} BuildIsBalanced(arrange: Arrangement, points: seq<Point>)
    requires Arranges(arrange)
    ensures IsBalanced(BuildTree(arrange, points)) && Size(BuildTree(arrange, points)) == |points|
    decreases |points|
  {
    if points != [] {
      hide Arranges, NewNode, IsBalanced, Size;
      var axis, p, left, right := BuildParts(arrange, points);
      BuildIsBalanced(arrange, left);
      BuildIsBalanced(arrange, right);
      hide BuildTree;
      NewNodeIsBalanced(p, axis, BuildTree(arrange, left), BuildTree(arrange, right));
    }
  }

  lemma BuildParts(arrange: Arrangement, points: seq<Point>)
    returns (axis: nat, p: Point, left: seq<Point>, right: seq<Point>)
    requires Arranges(arrange) && points != []
    ensures |left| + 1 + |right| == |points| && 0 <= |right| - |left| <= 1
    ensures BuildTree(arrange, points) == NewNode(p, axis, BuildTree(arrange, left), BuildTree(arrange, right))
  {
    hide NewNode;
    ArrangedLength(arrange, points);
    hide Arranges;
    axis := arrange(points).0;
    var a := arrange(points).1;
    var mid := (|a| - 1) / 2;
    p, left, right := a[mid], a[..mid], a[mid + 1..];
  }

  lemma NewNodeIsBalanced(p: Point, axis: nat, left: Tree, right: Tree)
    requires 0 <= Size(right) - Size(left) <= 1 && IsBalanced(left) && IsBalanced(right)
    ensures var t := NewNode(p, axis, left, right);
      IsBalanced(t) && Size(t) == 1 + Size(left) + Size(right)
  {
    NewNodeParts(p, axis, left, right);
    hide NewNode;
  }

  lemma {:induction false} BuildIsOrdered(arrange: Arrangement, points: seq<Point>)
    requires Arranges(arrange) && Splits(arrange)
    ensures Ordered(BuildTree(arrange, points))
    ensures forall p :: p in Points(BuildTree(arrange, points)) <==> p in points
    decreases |points|
  {
    hide Ordered, Points;
    if points == [] {
      OrderedIs(Empty);
    } else {
      BuildUnfolds(arrange, points);
      var (axis, a) := arrange(points);
      var mid := (|a| - 1) / 2;
      assert SplitsAt(axis, a);
      hide BuildTree, Arranges, Splits, NewNode, SplitsAt;
      BuildIsOrdered(arrange, a[..mid]);
      BuildIsOrdered(arrange, a[mid + 1..]);
      var left, right := BuildTree(arrange, a[..mid]), BuildTree(arrange, a[mid + 1..]);
      AroundIsOrdered(axis, a, left, right);
      SamePoints(a, points);
    }
  }

  lemma SamePoints(a: seq<Point>, points: seq<Point>)
    requires multiset(a) == multiset(points)
    ensures forall p :: p in a <==> p in points
  {
    forall p
      ensures p in a <==> p in points
    {
      assert p in a <==> p in multiset(a);
      assert p in points <==> p in multiset(points);
    }
  }

  lemma AroundIsOrdered(axis: nat, a: seq<Point>, left: Tree, right: Tree)
    requires a != [] && SplitsAt(axis, a) && Ordered(left) && Ordered(right)
    requires var mid := (|a| - 1) / 2;
      && (forall p :: p in Points(left) <==> p in a[..mid])
      && (forall p :: p in Points(right) <==> p in a[mid + 1..])
    ensures var t := NewNode(a[(|a| - 1) / 2], axis, left, right);
      Ordered(t) && forall p :: p in Points(t) <==> p in a
  {
    hide Ordered, Points, NewNode;
    var mid := (|a| - 1) / 2;
    NewNodeParts(a[mid], axis, left, right);
    OrderedIs(NewNode(a[mid], axis, left, right));
    assert a == a[..mid] + [a[mid]] + a[mid + 1..];
    assert forall q <- Points(left) :: Along(axis, q) <= Along(axis, a[mid]);
    assert forall q <- Points(right) :: Along(axis, q) >= Along(axis, a[mid]);
  }

  lemma NewNodeParts(p: Point, axis: nat, left: Tree, right: Tree)
    ensures var t := NewNode(p, axis, left, right);
      t.point == p && t.axis == axis && t.left == left && t.right == right
  {
    hide HullOf, Parts;
  }

  // --------------------------------------------------------------------------
  // What does not touch the shape

  lemma HeardSame(t: Tree, need: bool, treeDeleted: bool, treeDown: bool)
    ensures var u := Heard(t, need, treeDeleted, treeDown);
      Points(u) == Points(t) && Ordered(u) == Ordered(t)
  {}

  lemma PushDownSame(t: Tree)
    requires t.Node?
    ensures var u := PushDown(t);
      && Points(u) == Points(t) && Ordered(u) == Ordered(t)
      && u.axis == t.axis && u.point == t.point
      && Points(u.left) == Points(t.left) && Points(u.right) == Points(t.right)
  {
    hide Ordered, Points;
    OrderedIs(t);
    OrderedIs(PushDown(t));
    HeardSame(t.left, t.needLeft, t.treeDeleted, t.treeDown);
    HeardSame(t.right, t.needRight, t.treeDeleted, t.treeDown);
    hide Heard;
  }

  // The points that may come to stand on the sides of a node.
  ghost predicate Stays(axis: nat, left': set<Point>, left: set<Point>, p: Point,
                        right': set<Point>, right: set<Point>)
  {
    && (forall q <- left' :: q in left || Along(axis, q) < Along(axis, p))
    && (forall q <- right' :: q in right || Along(axis, q) >= Along(axis, p))
  }

  lemma StaysDivided(axis: nat, left': set<Point>, left: set<Point>, p: Point, right': set<Point>, right: set<Point>)
    requires Divides(axis, left, p, right) && Stays(axis, left', left, p, right', right)
    ensures Divides(axis, left', p, right')
  {}

  // Replacing the subtrees of a node keeps its order if they are ordered and their points are on their sides.
  lemma RejoinIsOrdered(t: Tree, left: Tree, right: Tree, v: Tree)
    requires t.Node? && Ordered(t) && Ordered(left) && Ordered(right)
    requires Stays(t.axis, Points(left), Points(t.left), t.point, Points(right), Points(t.right))
    requires v.Node? && v.axis == t.axis && v.point == t.point && v.left == left && v.right == right
    ensures Ordered(v) && Points(v) == {t.point} + Points(left) + Points(right)
  {
    hide Divides, Stays, Ordered, Points;
    OrderedIs(t);
    OrderedIs(v);
    StaysDivided(t.axis, Points(left), Points(t.left), t.point, Points(right), Points(t.right));
  }

  lemma {:induction false} FlattenIsAmong(t: Tree)
    ensures forall p <- Flatten(t) :: p in Points(t)
    decreases Size(t)
  {
    if t.Node? {
      var u := PushDown(t);
      PushDownSame(t);
      FlattenIsAmong(u.left);
      FlattenIsAmong(u.right);
      hide PushDown;
    }
  }

  lemma BalancedIsOrdered(b: Balance, t: Tree)
    requires Arranges(b.arrange) && Splits(b.arrange) && Ordered(t)
    ensures Ordered(Balanced(b, t)) && Points(Balanced(b, t)) <= Points(t)
  {
    hide Arranges, Splits, BuildTree;
    FlattenIsAmong(t);
    BuildIsOrdered(b.arrange, Flatten(t));
  }

  lemma UpdatedSame(t: Tree)
    requires t.Node?
    ensures var u := Updated(t);
      u.Node? && u.axis == t.axis && u.point == t.point && u.left == t.left && u.right == t.right
  {
    hide HullOf, Parts;
  }

  // --------------------------------------------------------------------------
  // Inserting and deleting

  // A point goes to the side on which it is.
  lemma {:induction false} AddIsOrdered(b: Balance, t: Tree, p: Point, axis: nat)
    requires Arranges(b.arrange) && Splits(b.arrange) && Ordered(t)
    ensures Ordered(AddByPoint(b, t, p, axis)) && Points(AddByPoint(b, t, p, axis)) <= Points(t) + {p}
    decreases Size(t)
  {
    if t.Empty? {
      NewNodeParts(p, (axis + 1) % 3, Empty, Empty);
    } else {
      PushDownSame(t);
      var u := PushDown(t);
      hide PushDown, Updated, Arranges, Splits, Balanced;
      var intoLeft := GoesLeft(u, p);
      var child := AddByPoint(b, if intoLeft then u.left else u.right, p, u.axis);
      AddIsOrdered(b, if intoLeft then u.left else u.right, p, u.axis);
      assert intoLeft <==> Along(u.axis, p) < Along(u.axis, u.point);
      var v := if intoLeft then u.(left := child) else u.(right := child);
      hide GoesLeft;
      UpdatedSame(v);
      assert Stays(u.axis, Points(v.left), Points(u.left), u.point, Points(v.right), Points(u.right));
      RejoinIsOrdered(u, v.left, v.right, Updated(v));
      BalancedIsOrdered(b, Updated(v));
    }
  }

  lemma ErasedBelowSame(t: Tree, range: Box, down: bool, left: Tree, right: Tree)
    requires t.Node?
    ensures var v := ErasedBelow(t, range, down, left, right);
      v.Node? && v.axis == t.axis && v.point == t.point && v.left == left && v.right == right
  {
    hide HullOf, Parts;
  }

  lemma {:induction false} DeleteIsOrdered(b: Balance, t: Tree, range: Box, down: bool)
    requires Arranges(b.arrange) && Splits(b.arrange) && Ordered(t)
    ensures Ordered(DeleteByRange(b, t, range, down)) && Points(DeleteByRange(b, t, range, down)) <= Points(t)
    decreases Size(t)
  {
    if !IsDead(t) {
      PushDownSame(t);
      var u := PushDown(t);
      hide PushDown, Arranges, Splits, Balanced, ErasedBelow, Misses, Covers;
      if !Misses(range, u.box) && !Covers(range, u.box) {
        DeleteIsOrdered(b, u.left, range, down);
        DeleteIsOrdered(b, u.right, range, down);
        var left, right := DeleteByRange(b, u.left, range, down), DeleteByRange(b, u.right, range, down);
        var v := ErasedBelow(u, range, down, left, right);
        ErasedBelowSame(u, range, down, left, right);
        assert Stays(u.axis, Points(left), Points(u.left), u.point, Points(right), Points(u.right));
        RejoinIsOrdered(u, left, right, v);
        BalancedIsOrdered(b, v);
      }
    }
  }

  // --------------------------------------------------------------------------
  // Whole runs

  // In every run, every node divides the points below it by its axis: those on its left are not beyond it, those on its
  // right are not before it.
  lemma {:induction false} RunIsOrdered(calls: seq<Call>)
    requires AllArrange(calls) && AllSplit(calls) && Run(calls).Done?
    ensures Ordered(Run(calls).tree)
    decreases |calls|
  {
    if calls != [] {
      var last := |calls| - 1;
      RunIsOrdered(calls[..last]);
      assert calls[last] in calls;
      var t, c := Run(calls[..last]).tree, calls[last];
      hide Ordered, Arranges, Splits, BuildTree, AddByPoint, DeleteByRange;
      match c.op
      case Build(points) => BuildIsOrdered(c.balance.arrange, points);
      case AddPoint(p) => AddIsOrdered(c.balance, t, p, t.axis);
      case DeleteBox(range, down) => DeleteIsOrdered(c.balance, t, range, down);
    }
  }
}
