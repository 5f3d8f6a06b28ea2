/**
 The incremental k-d tree: deletions are marks that are pushed down when a node is next visited, every node keeps the
 smallest box around the points below it that are not deleted, and subtrees are rebuilt when they have become too
 unbalanced.

 Whatever the tree goes through, it stands for a multiset of points.
 */
module KdTree {
  import opened DistanceHeap

  datatype Box = Box(low: Point, high: Point)

  // A mark may be on a point or on a whole subtree, and it may come from thinning out (down). The need marks say that
  // the marks of the subtree have yet to be handed to the left or the right child.
  datatype Tree =
    | Empty
    | Node(point: Point, axis: nat, pointDeleted: bool, treeDeleted: bool, pointDown: bool, treeDown: bool,
           needLeft: bool, needRight: bool, box: Box, left: Tree, right: Tree)

  function Size(t: Tree): nat { if t.Empty? then 0 else 1 + Size(t.left) + Size(t.right) }

  predicate IsDead(t: Tree) { t.Empty? || t.treeDeleted }

  // --------------------------------------------------------------------------
  // What a tree stands for

  function OwnPoint(t: Tree): multiset<Point>
    requires t.Node?
  {
    if t.pointDeleted then multiset{} else multiset{t.point}
  }

  // The points that are not deleted.
  function Live(t: Tree): multiset<Point> {
    if IsDead(t) then multiset{} else OwnPoint(t) + Live(t.left) + Live(t.right)
  }

  predicate Contains(box: Box, p: Point) {
    box.low.x <= p.x <= box.high.x && box.low.y <= p.y <= box.high.y && box.low.z <= p.z <= box.high.z
  }

  ghost predicate AllWithin(t: Tree, box: Box) {
    t.Node? && !t.treeDeleted ==>
      (t.pointDeleted || Contains(box, t.point)) && AllWithin(t.left, box) && AllWithin(t.right, box)
  }

  // Each face of the box has one of the points on it.
  ghost predicate Touches(box: Box, live: multiset<Point>) {
    && (exists p :: p in live && p.x == box.low.x) && (exists p :: p in live && p.x == box.high.x)
    && (exists p :: p in live && p.y == box.low.y) && (exists p :: p in live && p.y == box.high.y)
    && (exists p :: p in live && p.z == box.low.z) && (exists p :: p in live && p.z == box.high.z)
  }

  // The box of every node that is not deleted is the smallest one with the points below it that are not deleted.
  ghost predicate WellBoxed(t: Tree) {
    t.Node? && !t.treeDeleted ==>
      AllWithin(t, t.box) && Touches(t.box, Live(t)) && WellBoxed(t.left) && WellBoxed(t.right)
  }

  // A point that has just been inserted.
  predicate IsFresh(t: Tree) {
    && t.Node? && t.left.Empty? && t.right.Empty?
    && !t.pointDeleted && !t.treeDeleted && !t.pointDown && !t.treeDown
  }

  // What the marks of one node say about its children: in a deleted subtree, a child is deleted or has yet to be told;
  // elsewhere, only a child that has just been inserted has yet to be told, and there is nothing to tell it.
  predicate MarksAgree(t: Tree)
    requires t.Node?
  {
    && (t.treeDown ==> t.treeDeleted) && (t.pointDown ==> t.pointDeleted)
    && (t.treeDeleted ==> t.pointDeleted && (t.needLeft || IsDead(t.left)) && (t.needRight || IsDead(t.right)))
    && (!t.treeDeleted ==>
         && (t.needLeft ==> t.left.Empty? || IsFresh(t.left))
         && (t.needRight ==> t.right.Empty? || IsFresh(t.right)))
  }

  ghost predicate Lazy(t: Tree) {
    t.Node? ==> MarksAgree(t) && Lazy(t.left) && Lazy(t.right)
  }

  ghost predicate Valid(t: Tree) { Lazy(t) && WellBoxed(t) }

  // --------------------------------------------------------------------------
  // Handing the marks down

  // The child takes over the marks of a subtree, and has to hand them on.
  function Told(t: Tree, treeDeleted: bool, treeDown: bool): (u: Tree)
    ensures Size(u) == Size(t)
  {
    if t.Empty? then t else
    var down := t.treeDown || treeDown;
    var pointDown := t.pointDown || treeDown;
    var deleted := treeDeleted || down;
    t.(treeDown := down, pointDown := pointDown, treeDeleted := deleted, pointDeleted := deleted || pointDown,
       needLeft := true, needRight := true)
  }

  function Heard(t: Tree, need: bool, treeDeleted: bool, treeDown: bool): Tree {
    if need then Told(t, treeDeleted, treeDown) else t
  }

  function PushDown(t: Tree): (u: Tree)
    requires t.Node?
    ensures u.Node? && Size(u.left) == Size(t.left) && Size(u.right) == Size(t.right)
  {
    t.(left := Heard(t.left, t.needLeft, t.treeDeleted, t.treeDown),
       right := Heard(t.right, t.needRight, t.treeDeleted, t.treeDown),
       needLeft := t.needLeft && t.left.Empty?,
       needRight := t.needRight && t.right.Empty?)
  }

  lemma HeardIsValid(t: Tree, need: bool, treeDeleted: bool, treeDown: bool, box: Box)
    requires Lazy(t) && (treeDown ==> treeDeleted) && (treeDeleted ==> need || IsDead(t))
    requires !treeDeleted ==> WellBoxed(t) && (need ==> t.Empty? || IsFresh(t))
    ensures var u := Heard(t, need, treeDeleted, treeDown);
      && Valid(u) && Size(u) == Size(t) && u.Empty? == t.Empty?
      && (treeDeleted ==> IsDead(u))
      && (!treeDeleted ==> Live(u) == Live(t) && (AllWithin(t, box) ==> AllWithin(u, box)))
  {}

  // No mark has yet to be handed to a child that is there.
  predicate IsTold(t: Tree)
    requires t.Node?
  {
    (t.needLeft ==> t.left.Empty?) && (t.needRight ==> t.right.Empty?)
  }

  // The children that a deleted node, or one with this box, may have.
  ghost predicate Fits(child: Tree, dead: bool, box: Box) {
    Valid(child) && if dead then IsDead(child) else AllWithin(child, box)
  }

  lemma PushedChildren(t: Tree)
    requires t.Node? && Valid(t)
    ensures var u := PushDown(t);
      && Fits(u.left, t.treeDeleted, t.box) && Fits(u.right, t.treeDeleted, t.box)
      && (!t.treeDeleted ==> Live(u.left) == Live(t.left) && Live(u.right) == Live(t.right))
      && Size(u.left) == Size(t.left) && Size(u.right) == Size(t.right)
      && u.left.Empty? == t.left.Empty? && u.right.Empty? == t.right.Empty?
  {
    HeardIsValid(t.left, t.needLeft, t.treeDeleted, t.treeDown, t.box);
    HeardIsValid(t.right, t.needRight, t.treeDeleted, t.treeDown, t.box);
    hide Heard, IsFresh;
  }

  lemma FittingIsValid(t: Tree)
    requires t.Node? && Fits(t.left, t.treeDeleted, t.box) && Fits(t.right, t.treeDeleted, t.box) && IsTold(t)
    requires (t.treeDown ==> t.treeDeleted) && (t.pointDown ==> t.pointDeleted) && (t.treeDeleted ==> t.pointDeleted)
    requires t.treeDeleted || t.pointDeleted || Contains(t.box, t.point)
    requires t.treeDeleted || Touches(t.box, Live(t))
    ensures Valid(t) && Valid(t.left) && Valid(t.right)
  {
    hide Touches, Contains;
  }

  // Handing the marks down changes nothing that the tree stands for, and leaves children to which the rest of the
  // operation can go on.
  lemma PushDownIsValid(t: Tree)
    requires t.Node? && Valid(t)
    ensures var u := PushDown(t);
      && Valid(u) && Valid(u.left) && Valid(u.right) && IsTold(u)
      && Live(u) == Live(t)
      && Size(u.left) == Size(t.left) && Size(u.right) == Size(t.right)
      && (t.treeDeleted ==> t.pointDeleted && IsDead(u.left) && IsDead(u.right))
  {
    hide Touches;
    PushedChildren(t);
    assert MarksAgree(t) && (t.treeDeleted || t.pointDeleted || Contains(t.box, t.point));
    assert t.treeDeleted || Touches(t.box, Live(t));
    var u := PushDown(t);
    hide Heard, Valid, Contains, IsFresh;
    assert Live(u) == Live(t);
    FittingIsValid(u);
  }

  // --------------------------------------------------------------------------
  // How a node's box and marks are computed anew

  function Least(a: real, b: real): real { if a < b then a else b }

  function Greatest(a: real, b: real): real { if a < b then b else a }

  function Hull(a: Box, b: Box): Box {
    Box(Point(Least(a.low.x, b.low.x), Least(a.low.y, b.low.y), Least(a.low.z, b.low.z)),
        Point(Greatest(a.high.x, b.high.x), Greatest(a.high.y, b.high.y), Greatest(a.high.z, b.high.z)))
  }

  function HullOf(boxes: seq<Box>): Box
    requires boxes != []
  {
    if |boxes| == 1 then boxes[0] else Hull(boxes[0], HullOf(boxes[1..]))
  }

  // The boxes of what the box of a node has to cover: all its parts if none is deleted or everything is, otherwise
  // those that are not deleted.
  function Parts(t: Tree, all: bool): seq<Box>
    requires t.Node?
  {
    (if t.left.Node? && (all || !t.left.treeDeleted) then [t.left.box] else [])
    + (if t.right.Node? && (all || !t.right.treeDeleted) then [t.right.box] else [])
    + (if all || !t.pointDeleted then [Box(t.point, t.point)] else [])
  }

  // Whether none of the parts of a node is deleted.
  predicate Intact(t: Tree)
    requires t.Node?
  {
    !t.pointDeleted && (t.left.Node? ==> !t.left.treeDeleted) && (t.right.Node? ==> !t.right.treeDeleted)
  }

  function Updated(t: Tree): Tree
    requires t.Node?
  {
    var dead := t.pointDeleted && IsDead(t.left) && IsDead(t.right);
    var down := t.pointDown && (t.left.Node? ==> t.left.treeDown) && (t.right.Node? ==> t.right.treeDown);
    t.(treeDeleted := dead, treeDown := down, box := HullOf(Parts(t, dead || Intact(t))))
  }

  predicate Encloses(outer: Box, inner: Box) {
    && outer.low.x <= inner.low.x && inner.high.x <= outer.high.x
    && outer.low.y <= inner.low.y && inner.high.y <= outer.high.y
    && outer.low.z <= inner.low.z && inner.high.z <= outer.high.z
  }

  lemma {:induction false} HullEncloses(boxes: seq<Box>, i: nat)
    requires i < |boxes|
    ensures Encloses(HullOf(boxes), boxes[i])
  {
    if i > 0 {
      assert boxes[1..][i - 1] == boxes[i];
      HullEncloses(boxes[1..], i - 1);
    }
  }

  lemma {:induction false} WithinLarger(t: Tree, inner: Box, outer: Box)
    requires AllWithin(t, inner) && Encloses(outer, inner)
    ensures AllWithin(t, outer)
  {
    if t.Node? && !t.treeDeleted {
      WithinLarger(t.left, inner, outer);
      WithinLarger(t.right, inner, outer);
    }
  }

  lemma SubtreeWithin(t: Tree, boxes: seq<Box>)
    requires WellBoxed(t) && boxes != [] && (t.Node? && !t.treeDeleted ==> t.box in boxes)
    ensures AllWithin(t, HullOf(boxes))
  {
    if t.Node? && !t.treeDeleted {
      var i :| 0 <= i < |boxes| && boxes[i] == t.box;
      HullEncloses(boxes, i);
      WithinLarger(t, t.box, HullOf(boxes));
    }
  }

  lemma TouchesMore(box: Box, some: multiset<Point>, all: multiset<Point>)
    requires Touches(box, some) && some <= all
    ensures Touches(box, all)
  {}

  lemma HullTouchesBoth(a: Box, b: Box, live: multiset<Point>)
    requires Touches(a, live) && Touches(b, live)
    ensures Touches(Hull(a, b), live)
  {}

  lemma {:induction false} HullTouches(boxes: seq<Box>, live: multiset<Point>)
    requires boxes != [] && forall box <- boxes :: Touches(box, live)
    ensures Touches(HullOf(boxes), live)
  {
    hide Touches;
    if |boxes| > 1 {
      HullTouches(boxes[1..], live);
      HullTouchesBoth(boxes[0], HullOf(boxes[1..]), live);
    }
  }

  lemma PointTouches(p: Point, live: multiset<Point>)
    requires p in live
    ensures Touches(Box(p, p), live)
  {}

  // The boxes of the parts that are not deleted touch the points.
  lemma PartsTouch(t: Tree, all: bool)
    requires t.Node? && WellBoxed(t.left) && WellBoxed(t.right)
    requires all ==> Intact(t)
    ensures forall box <- Parts(t, all) :: Touches(box, OwnPoint(t) + Live(t.left) + Live(t.right))
  {
    hide Touches;
    var live := OwnPoint(t) + Live(t.left) + Live(t.right);
    if !IsDead(t.left) {
      TouchesMore(t.left.box, Live(t.left), live);
    }
    if !IsDead(t.right) {
      TouchesMore(t.right.box, Live(t.right), live);
    }
    if !t.pointDeleted {
      PointTouches(t.point, live);
    }
    hide WellBoxed, Live, OwnPoint;
    forall box <- Parts(t, all)
      ensures Touches(box, live)
    {
      PartIs(t, all, box);
      hide Parts;
    }
  }

  lemma PartIs(t: Tree, all: bool, box: Box)
    requires t.Node? && box in Parts(t, all)
    ensures || (t.left.Node? && (all || !t.left.treeDeleted) && box == t.left.box)
            || (t.right.Node? && (all || !t.right.treeDeleted) && box == t.right.box)
            || ((all || !t.pointDeleted) && box == Box(t.point, t.point))
  {}

  // Right above two subtrees with their boxes, updating a node gives it a box, whatever box it had.
  lemma UpdateBoxes(t: Tree)
    requires t.Node? && WellBoxed(t.left) && WellBoxed(t.right)
    ensures WellBoxed(Updated(t))
  {
    var u := Updated(t);
    if !u.treeDeleted {
      var boxes := Parts(t, Intact(t));
      PartsTouch(t, Intact(t));
      hide HullOf, Touches;
      assert OwnPoint(u) == OwnPoint(t);
      HullTouches(boxes, OwnPoint(t) + Live(t.left) + Live(t.right));
      UpdateContains(t);
    }
  }

  lemma UpdateContains(t: Tree)
    requires t.Node? && WellBoxed(t.left) && WellBoxed(t.right)
    requires !(t.pointDeleted && IsDead(t.left) && IsDead(t.right))
    ensures AllWithin(Updated(t), HullOf(Parts(t, Intact(t))))
  {
    var boxes := Parts(t, Intact(t));
    hide HullOf, WellBoxed;
    SubtreeWithin(t.left, boxes);
    SubtreeWithin(t.right, boxes);
    if !t.pointDeleted {
      HullEncloses(boxes, |boxes| - 1);
    }
  }

  // A node that may have a child that was just inserted, and whose other marks have been handed down.
  predicate Updatable(t: Tree)
    requires t.Node?
  {
    && (t.pointDown ==> t.pointDeleted)
    && (t.needLeft ==> t.left.Empty? || IsFresh(t.left))
    && (t.needRight ==> t.right.Empty? || IsFresh(t.right))
  }

  // Updating keeps every point that is not deleted, on the node and below it, and marks none of them as deleted.
  lemma UpdateIsValid(t: Tree)
    requires t.Node? && Valid(t.left) && Valid(t.right) && Updatable(t)
    ensures var u := Updated(t);
      Valid(u) && Live(u) == OwnPoint(t) + Live(t.left) + Live(t.right)
  {
    UpdateBoxes(t);
    hide WellBoxed, HullOf, Parts, IsFresh;
  }

  // --------------------------------------------------------------------------
  // Building and flattening

  // How a subtree is built from points is left open: the axis, and the arrangement with the middle point in place.
  type Arrangement = seq<Point> -> (nat, seq<Point>)

  ghost predicate Arranges(arrange: Arrangement) {
    forall points :: multiset(arrange(points).1) == multiset(points)
  }

  lemma ArrangedLength(arrange: Arrangement, points: seq<Point>)
    requires Arranges(arrange)
    ensures |arrange(points).1| == |points|
  {
    assert |arrange(points).1| == |multiset(arrange(points).1)| == |multiset(points)|;
  }

  function NewNode(p: Point, axis: nat, left: Tree, right: Tree): (t: Tree)
    ensures t.Node?
  {
    Updated(Node(p, axis, false, false, false, false, false, false, Box(p, p), left, right))
  }

  function BuildTree(arrange: Arrangement, points: seq<Point>): Tree
    requires Arranges(arrange)
    decreases |points|
  {
    if points == [] then Empty else
    ArrangedLength(arrange, points);
    var (axis, a) := arrange(points);
    var mid := (|a| - 1) / 2;
    NewNode(a[mid], axis, BuildTree(arrange, a[..mid]), BuildTree(arrange, a[mid + 1..]))
  }

  lemma NewNodeIsValid(p: Point, axis: nat, left: Tree, right: Tree)
    requires Valid(left) && Valid(right)
    ensures var t := NewNode(p, axis, left, right);
      && Valid(t) && Live(t) == Live(left) + multiset{p} + Live(right)
      && (left.Empty? && right.Empty? ==> IsFresh(t))
  {
    var t := Node(p, axis, false, false, false, false, false, false, Box(p, p), left, right);
    UpdateIsValid(t);
    hide Valid, Live, HullOf, Parts;
    assert OwnPoint(t) == multiset{p};
  }

  lemma AroundTheMiddle(a: seq<Point>, mid: nat)
    requires mid < |a|
    ensures multiset(a) == multiset(a[..mid]) + multiset{a[mid]} + multiset(a[mid + 1..])
  {
    assert a == a[..mid] + [a[mid]] + a[mid + 1..];
  }

  // A built tree is valid and stands for the points it was built from.
  lemma {:induction false} BuildIsValid(arrange: Arrangement, points: seq<Point>)
    requires Arranges(arrange)
    ensures Valid(BuildTree(arrange, points)) && Live(BuildTree(arrange, points)) == multiset(points)
    decreases |points|
  {
    if points == [] {
      assert multiset(points) == multiset{};
    } else {
      BuildUnfolds(arrange, points);
      hide Valid, NewNode, Live, Arranges, BuildTree;
      var (axis, a) := arrange(points);
      var mid := (|a| - 1) / 2;
      BuildIsValid(arrange, a[..mid]);
      BuildIsValid(arrange, a[mid + 1..]);
      AroundTheMiddle(a, mid);
      NewNodeIsValid(a[mid], axis, BuildTree(arrange, a[..mid]), BuildTree(arrange, a[mid + 1..]));
    }
  }

  lemma BuildUnfolds(arrange: Arrangement, points: seq<Point>)
    requires Arranges(arrange) && points != []
    ensures var (axis, a) := arrange(points);
      var mid := (|a| - 1) / 2;
      && |a| == |points| && multiset(a) == multiset(points)
      && BuildTree(arrange, points)
         == NewNode(a[mid], axis, BuildTree(arrange, a[..mid]), BuildTree(arrange, a[mid + 1..]))
  {
    ArrangedLength(arrange, points);
    assert multiset(arrange(points).1) == multiset(points);
    hide Arranges, NewNode;
  }

  // The points of a tree that are not deleted; the marks are handed down on the way.
  function Flatten(t: Tree): seq<Point>
    decreases Size(t)
  {
    if t.Empty? then [] else
    var u := PushDown(t);
    (if u.pointDeleted then [] else [u.point]) + Flatten(u.left) + Flatten(u.right)
  }

  lemma {:induction false} FlattenIsLive(t: Tree)
    requires Valid(t)
    ensures multiset(Flatten(t)) == Live(t)
    decreases Size(t)
  {
    if t.Node? {
      hide Valid, PushDown, Live;
      Descend(t);
      var u := PushDown(t);
      FlattenIsLive(u.left);
      FlattenIsLive(u.right);
    }
  }

  lemma LiveOfPushed(t: Tree, u: Tree)
    requires t.Node? && u.Node? && Live(u) == Live(t)
    requires u.treeDeleted == t.treeDeleted && u.pointDeleted == t.pointDeleted
    requires t.treeDeleted ==> t.pointDeleted && IsDead(u.left) && IsDead(u.right)
    ensures Live(t) == OwnPoint(u) + Live(u.left) + Live(u.right)
  {}

  // How an operation goes down the tree: what it finds when it has handed the marks down.
  ghost predicate Descended(t: Tree, u: Tree) {
    && u.Node? && Valid(u) && Valid(u.left) && Valid(u.right) && IsTold(u)
    && u.treeDeleted == IsDead(t) && (u.pointDown ==> u.pointDeleted)
    && Live(u) == Live(t) == OwnPoint(u) + Live(u.left) + Live(u.right)
  }

  lemma Descend(t: Tree)
    requires t.Node? && Valid(t)
    ensures Descended(t, PushDown(t))
  {
    PushDownIsValid(t);
    var u := PushDown(t);
    assert MarksAgree(u);
    assert u.treeDeleted == t.treeDeleted && u.pointDeleted == t.pointDeleted;
    hide Valid, PushDown, IsTold;
    LiveOfPushed(t, u);
  }

  // When a subtree is built anew, and how. Both are left open.
  datatype Balance = Balance(rebuild: Tree -> bool, arrange: Arrangement)

  function Balanced(b: Balance, t: Tree): Tree
    requires Arranges(b.arrange)
  {
    if b.rebuild(t) then BuildTree(b.arrange, Flatten(t)) else t
  }

  lemma BalancedIsValid(b: Balance, t: Tree)
    requires Arranges(b.arrange) && Valid(t)
    ensures Valid(Balanced(b, t)) && Live(Balanced(b, t)) == Live(t)
    ensures t.Node? && Live(t) != multiset{} ==> Balanced(b, t).Node?
  {
    FlattenIsLive(t);
    BuildIsValid(b.arrange, Flatten(t));
  }

  // --------------------------------------------------------------------------
  // Inserting a point

  predicate GoesLeft(t: Tree, p: Point)
    requires t.Node?
  {
    || (t.axis == 0 && p.x < t.point.x) || (t.axis == 1 && p.y < t.point.y) || (t.axis == 2 && p.z < t.point.z)
  }

  function AddByPoint(b: Balance, t: Tree, p: Point, axis: nat): Tree
    requires Arranges(b.arrange)
    decreases Size(t)
  {
    if t.Empty? then NewNode(p, (axis + 1) % 3, Empty, Empty) else
    var u := PushDown(t);
    var v := if GoesLeft(u, p) then u.(left := AddByPoint(b, u.left, p, u.axis))
             else u.(right := AddByPoint(b, u.right, p, u.axis));
    Balanced(b, Updated(v))
  }

  // What an insertion leaves of the child that it goes to.
  ghost predicate IsInserted(child: Tree, before: Tree, p: Point) {
    && Valid(child) && Live(child) == Live(before) + multiset{p}
    && child.Node? && (before.Empty? ==> IsFresh(child))
  }

  lemma InsertedIsValid(t: Tree, child: Tree, intoLeft: bool, p: Point)
    requires t.Node? && Valid(t.left) && Valid(t.right) && IsTold(t) && (t.pointDown ==> t.pointDeleted)
    requires IsInserted(child, if intoLeft then t.left else t.right, p)
    ensures var u := Updated(if intoLeft then t.(left := child) else t.(right := child));
      Valid(u) && Live(u) == OwnPoint(t) + Live(t.left) + Live(t.right) + multiset{p}
  {
    hide Valid, Updated, IsFresh, Live;
    UpdateIsValid(if intoLeft then t.(left := child) else t.(right := child));
  }

  // Into a tree, deleted or not, a point is inserted as one more.
  lemma {:induction false} AddIsValid(b: Balance, t: Tree, p: Point, axis: nat)
    requires Arranges(b.arrange) && Valid(t)
    ensures IsInserted(AddByPoint(b, t, p, axis), t, p)
    decreases Size(t)
  {
    if t.Empty? {
      NewNodeIsValid(p, (axis + 1) % 3, Empty, Empty);
      assert Live(t) + multiset{p} == multiset{p};
    } else {
      hide Valid, PushDown, IsFresh, Updated, Live, IsTold, Arranges, GoesLeft, Balanced;
      Descend(t);
      var u := PushDown(t);
      var child := AddByPoint(b, if GoesLeft(u, p) then u.left else u.right, p, u.axis);
      AddIsValid(b, if GoesLeft(u, p) then u.left else u.right, p, u.axis);
      InsertedIsValid(u, child, GoesLeft(u, p), p);
      var v := Updated(if GoesLeft(u, p) then u.(left := child) else u.(right := child));
      BalancedIsValid(b, v);
      assert p in Live(v);
    }
  }

  // --------------------------------------------------------------------------
  // Deleting the points in a box

  // The box to be deleted is open at its upper faces.
  predicate InRange(range: Box, p: Point) {
    range.low.x <= p.x < range.high.x && range.low.y <= p.y < range.high.y && range.low.z <= p.z < range.high.z
  }

  predicate Misses(range: Box, box: Box) {
    || range.high.x <= box.low.x || range.low.x > box.high.x
    || range.high.y <= box.low.y || range.low.y > box.high.y
    || range.high.z <= box.low.z || range.low.z > box.high.z
  }

  predicate Covers(range: Box, box: Box) {
    && range.low.x <= box.low.x && range.high.x > box.high.x
    && range.low.y <= box.low.y && range.high.y > box.high.y
    && range.low.z <= box.low.z && range.high.z > box.high.z
  }

  // A whole subtree is marked; its children have yet to be told.
  function Erased(t: Tree, down: bool): Tree
    requires t.Node?
  {
    t.(treeDeleted := true, pointDeleted := true, needLeft := true, needRight := true,
       treeDown := t.treeDown || down, pointDown := t.pointDown || down)
  }

  function OwnErased(t: Tree, range: Box, down: bool): (u: Tree)
    requires t.Node?
    ensures u.Node?
  {
    if !t.pointDeleted && InRange(range, t.point) then t.(pointDeleted := true, pointDown := t.pointDown || down)
    else t
  }

  function ErasedBelow(t: Tree, range: Box, down: bool, left: Tree, right: Tree): Tree
    requires t.Node?
  {
    var own := OwnErased(t, range, down);
    Updated(own.(left := left, right := right))
  }

  function DeleteByRange(b: Balance, t: Tree, range: Box, down: bool): Tree
    requires Arranges(b.arrange)
    decreases Size(t)
  {
    if IsDead(t) then t else
    var u := PushDown(t);
    if Misses(range, u.box) then u
    else if Covers(range, u.box) then Erased(u, down)
    else
      Balanced(b, ErasedBelow(u, range, down, DeleteByRange(b, u.left, range, down),
                              DeleteByRange(b, u.right, range, down)))
  }

  // The same points without those in the box.
  ghost predicate IsWithout(after: multiset<Point>, before: multiset<Point>, range: Box) {
    forall p :: after[p] == if InRange(range, p) then 0 else before[p]
  }

  lemma {:induction false} LiveAreWithin(t: Tree, box: Box)
    requires AllWithin(t, box)
    ensures forall p <- Live(t) :: Contains(box, p)
  {
    if !IsDead(t) {
      LiveAreWithin(t.left, box);
      LiveAreWithin(t.right, box);
    }
  }

  lemma MissedOrCovered(t: Tree, range: Box)
    requires WellBoxed(t) && !IsDead(t)
    ensures Misses(range, t.box) ==> IsWithout(Live(t), Live(t), range)
    ensures Covers(range, t.box) ==> IsWithout(multiset{}, Live(t), range)
  {
    LiveAreWithin(t, t.box);
    hide Live;
    forall p
      ensures Misses(range, t.box) && InRange(range, p) ==> p !in Live(t)
      ensures Covers(range, t.box) && p in Live(t) ==> InRange(range, p)
    {
      assert p in Live(t) ==> Contains(t.box, p);
    }
  }

  // A box that contains all points of a node covers the node.
  lemma AllInRangeIsCovered(t: Tree, range: Box)
    requires WellBoxed(t) && !IsDead(t)
    ensures IsWithout(multiset{}, Live(t), range) ==> Covers(range, t.box)
  {
    assert Touches(t.box, Live(t));
    hide Live, AllWithin;
    if IsWithout(multiset{}, Live(t), range) {
      forall p <- Live(t)
        ensures InRange(range, p)
      {
        assert Live(t)[p] > 0;
      }
    }
  }

  lemma ErasedIsValid(t: Tree, down: bool)
    requires t.Node? && Valid(t) && IsTold(t)
    ensures Valid(Erased(t, down)) && Live(Erased(t, down)) == multiset{}
  {}

  // What a deletion leaves of a subtree.
  ghost predicate IsErased(after: Tree, before: Tree, range: Box) {
    Valid(after) && IsWithout(Live(after), Live(before), range) && before.Empty? == after.Empty?
  }

  lemma PartsAreWithout(own': multiset<Point>, own: multiset<Point>, l': multiset<Point>, l: multiset<Point>,
                        r': multiset<Point>, r: multiset<Point>, range: Box)
    requires IsWithout(own', own, range) && IsWithout(l', l, range) && IsWithout(r', r, range)
    ensures IsWithout(own' + l' + r', own + l + r, range)
  {}

  lemma ErasedBelowIsValid(t: Tree, range: Box, down: bool, left: Tree, right: Tree)
    requires t.Node? && IsTold(t) && (t.pointDown ==> t.pointDeleted)
    requires Live(t) == OwnPoint(t) + Live(t.left) + Live(t.right)
    requires IsErased(left, t.left, range) && IsErased(right, t.right, range)
    ensures var u := ErasedBelow(t, range, down, left, right);
      Valid(u) && IsWithout(Live(u), Live(t), range)
  {
    var own := OwnErased(t, range, down);
    var v := own.(left := left, right := right);
    assert IsWithout(OwnPoint(own), OwnPoint(t), range);
    assert OwnPoint(v) == OwnPoint(own);
    assert Updatable(v);
    hide Valid, Updated, Live, IsFresh, OwnErased, OwnPoint, IsWithout, InRange;
    UpdateIsValid(v);
    PartsAreWithout(OwnPoint(own), OwnPoint(t), Live(left), Live(t.left), Live(right), Live(t.right), range);
  }

  // A node that the box does not cover keeps a point, so building it anew leaves a node.
  lemma ErasedAbove(b: Balance, t: Tree, u: Tree, range: Box, down: bool, left: Tree, right: Tree)
    requires Arranges(b.arrange) && !IsDead(t) && Descended(t, u) && !Covers(range, u.box)
    requires IsErased(left, u.left, range) && IsErased(right, u.right, range)
    ensures IsErased(Balanced(b, ErasedBelow(u, range, down, left, right)), t, range)
  {
    hide Live, IsWithout, Covers, Balanced, Valid, Arranges;
    BoxedIfValid(u);
    AllInRangeIsCovered(u, range);
    var v := ErasedBelow(u, range, down, left, right);
    hide ErasedBelow, IsTold;
    ErasedBelowIsValid(u, range, down, left, right);
    BalancedIsValid(b, v);
  }

  lemma BoxedIfValid(t: Tree)
    requires Valid(t)
    ensures WellBoxed(t)
  {}

  // Deleting a box deletes exactly the points in it, whichever subtrees are passed over or marked as a whole.
  lemma {:induction false} DeleteIsValid(b: Balance, t: Tree, range: Box, down: bool)
    requires Arranges(b.arrange) && Valid(t)
    ensures IsErased(DeleteByRange(b, t, range, down), t, range)
    decreases Size(t)
  {
    hide Valid, PushDown, Updated, Live, IsTold, Arranges, Balanced, IsWithout, Misses, Covers, ErasedBelow, Erased;
    if IsDead(t) {
      NothingToErase(t, range);
    } else {
      Descend(t);
      var u := PushDown(t);
      EndsHere(t, u, range, down);
      if !Misses(range, u.box) && !Covers(range, u.box) {
        DeleteIsValid(b, u.left, range, down);
        DeleteIsValid(b, u.right, range, down);
        var left, right := DeleteByRange(b, u.left, range, down), DeleteByRange(b, u.right, range, down);
        ErasedAbove(b, t, u, range, down, left, right);
      }
    }
  }

  lemma NothingToErase(t: Tree, range: Box)
    requires Valid(t) && IsDead(t)
    ensures IsErased(t, t, range)
  {}

  // A box that misses the node or covers it ends the descent.
  lemma EndsHere(t: Tree, u: Tree, range: Box, down: bool)
    requires !IsDead(t) && Descended(t, u)
    ensures Misses(range, u.box) ==> IsErased(u, t, range)
    ensures Covers(range, u.box) ==> IsErased(Erased(u, down), t, range)
  {
    MissedOrCovered(u, range);
    ErasedIsValid(u, down);
    hide Live, IsWithout, Misses, Covers, Erased;
  }

  // --------------------------------------------------------------------------
  // Whole runs

  datatype Operation =
    | Build(points: seq<Point>)
    | AddPoint(point: Point)
    | DeleteBox(range: Box, down: bool)

  // Each operation decides anew which subtrees are built anew, and how.
  datatype Call = Call(op: Operation, balance: Balance)

  ghost predicate AllArrange(calls: seq<Call>) { forall c <- calls :: Arranges(c.balance.arrange) }

  // An insertion reads the axis of the root, and there may be none.
  datatype Outcome = Done(tree: Tree) | NullPointer

  function Apply(t: Tree, c: Call): Outcome
    requires Arranges(c.balance.arrange)
  {
    match c.op
    case Build(points) => Done(BuildTree(c.balance.arrange, points))
    case AddPoint(p) => if t.Empty? then NullPointer else Done(AddByPoint(c.balance, t, p, t.axis))
    case DeleteBox(range, down) => Done(DeleteByRange(c.balance, t, range, down))
  }

  function Run(calls: seq<Call>): Outcome
    requires AllArrange(calls)
  {
    if calls == [] then Done(Empty) else
    var before := Run(calls[..|calls| - 1]);
    if before.NullPointer? then before else Apply(before.tree, calls[|calls| - 1])
  }

  // What the operations do to a multiset of points.
  ghost predicate Means(before: multiset<Point>, op: Operation, after: multiset<Point>) {
    match op
    case Build(points) => after == multiset(points)
    case AddPoint(p) => after == before + multiset{p}
    case DeleteBox(range, _) =>
      forall p :: after[p] ==
        if range.low.x <= p.x < range.high.x && range.low.y <= p.y < range.high.y && range.low.z <= p.z < range.high.z
        then 0 else before[p]
  }

  // The tree was last built from at least one point.
  predicate Rooted(calls: seq<Call>) {
    calls != [] &&
      var last := |calls| - 1;
      if calls[last].op.Build? then calls[last].op.points != [] else Rooted(calls[..last])
  }

  lemma ApplyIsValid(t: Tree, c: Call)
    requires Arranges(c.balance.arrange) && Valid(t) && (c.op.AddPoint? ==> t.Node?)
    ensures var r := Apply(t, c);
      && r.Done? && Valid(r.tree) && Means(Live(t), c.op, Live(r.tree))
      && (r.tree.Node? <==> if c.op.Build? then c.op.points != [] else t.Node?)
  {
    hide Valid, Live, AddByPoint, DeleteByRange, IsWithout, Arranges;
    match c.op
    case Build(points) => BuildIsValid(c.balance.arrange, points);
    case AddPoint(p) => AddIsValid(c.balance, t, p, t.axis);
    case DeleteBox(range, down) =>
      DeleteIsValid(c.balance, t, range, down);
      WithoutMeans(Live(DeleteByRange(c.balance, t, range, down)), Live(t), range, down);
  }

  lemma WithoutMeans(after: multiset<Point>, before: multiset<Point>, range: Box, down: bool)
    requires IsWithout(after, before, range)
    ensures Means(before, DeleteBox(range, down), after)
  {}

  // Whatever is built, inserted and deleted, and however the tree is rebuilt on the way: it is valid, it has a root if
  // and only if it was last built from at least one point, and each operation does to the tree what it means for the
  // points that the tree stands for.
  lemma {:induction false} RunIsValid(calls: seq<Call>)
    requires AllArrange(calls) && Run(calls).Done?
    ensures Valid(Run(calls).tree) && (Run(calls).tree.Node? <==> Rooted(calls))
    ensures calls == [] ==> Live(Run(calls).tree) == multiset{}
    ensures calls != [] ==>
      var last := |calls| - 1;
      && Run(calls[..last]).Done?
      && Means(Live(Run(calls[..last]).tree), calls[last].op, Live(Run(calls).tree))
    decreases |calls|
  {
    if calls != [] {
      var last := |calls| - 1;
      RunIsValid(calls[..last]);
      assert calls[last] in calls;
      hide Valid, Live, Means, Arranges;
      ApplyIsValid(Run(calls[..last]).tree, calls[last]);
    }
  }

  predicate InsertsIntoNothing(calls: seq<Call>, i: nat) {
    i < |calls| && calls[i].op.AddPoint? && !Rooted(calls[..i])
  }

  // So the null pointer is met if and only if a point is inserted into a tree that was never built, or last built from
  // no points; no deletion and no rebuilding leads there.
  lemma {:induction false} RunFailsIff(calls: seq<Call>)
    requires AllArrange(calls)
    ensures Run(calls).NullPointer? <==> exists i :: InsertsIntoNothing(calls, i)
    decreases |calls|
  {
    if calls != [] {
      var before := calls[..|calls| - 1];
      RunFailsIff(before);
      OneMoreCall(calls);
      hide InsertsIntoNothing;
      if Run(before).Done? {
        RunIsValid(before);
      }
      hide Run;
      FailsWithoutRoot(calls);
    }
  }

  lemma OneMoreCall(calls: seq<Call>)
    requires calls != []
    ensures var last := |calls| - 1;
      (exists i :: InsertsIntoNothing(calls, i)) <==>
      (exists i :: InsertsIntoNothing(calls[..last], i)) || (calls[last].op.AddPoint? && !Rooted(calls[..last]))
  {
    var last := |calls| - 1;
    hide Rooted;
    forall i | 0 <= i < last
      ensures InsertsIntoNothing(calls, i) == InsertsIntoNothing(calls[..last], i)
    {
      assert calls[..last][..i] == calls[..i];
    }
    if calls[last].op.AddPoint? && !Rooted(calls[..last]) {
      assert InsertsIntoNothing(calls, last);
    }
    if i :| InsertsIntoNothing(calls[..last], i) {
      assert InsertsIntoNothing(calls, i);
    }
  }

  lemma FailsWithoutRoot(calls: seq<Call>)
    requires calls != [] && AllArrange(calls)
    ensures var before := Run(calls[..|calls| - 1]);
      Run(calls).NullPointer? <==> before.NullPointer? || (calls[|calls| - 1].op.AddPoint? && before.tree.Empty?)
  {}
}
