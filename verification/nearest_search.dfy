/**
 The search of the k nearest points in the incremental k-d tree: it leaves out the subtrees whose box is too far away,
 and keeps the best candidates so far in the bounded heap.
 */
module NearestSearch {
  import opened DistanceHeap
  import opened KdTree

  // A squared distance, or the infinity that stands for no tree and for no limit.
  datatype Bound = Finite(value: real) | Infinite {
    predicate LessThan(other: Bound) {
      Finite? && (other.Infinite? || value < other.value)
    }
  }

  function Square(a: real): real { a * a }

  function CalcDist(a: Point, b: Point): real { Square(a.x - b.x) + Square(a.y - b.y) + Square(a.z - b.z) }

  // How far a coordinate is outside an interval, squared.
  function Outside(t: real, low: real, high: real): real {
    (if t < low then Square(t - low) else 0.0) + (if t > high then Square(t - high) else 0.0)
  }

  function CalcBoxDist(t: Tree, target: Point): Bound {
    if t.Empty? then Infinite
    else
      var low, high := t.box.low, t.box.high;
      Finite(Outside(target.x, low.x, high.x) + Outside(target.y, low.y, high.y) + Outside(target.z, low.z, high.z))
  }

  // --------------------------------------------------------------------------
  // What the search is about

  // The point of the root, if it is not deleted and within the limit.
  function Own(t: Tree, target: Point, limit: Bound): multiset<Item>
    requires t.Node?
  {
    var dist := CalcDist(target, t.point);
    if t.pointDeleted || limit.LessThan(Finite(dist)) then multiset{} else multiset{Item(t.point, dist)}
  }

  // All points of the tree that are not deleted and within the limit, with their distances.
  function Candidates(t: Tree, target: Point, limit: Bound): multiset<Item> {
    if IsDead(t) then multiset{}
    else Own(t, target, limit) + Candidates(t.left, target, limit) + Candidates(t.right, target, limit)
  }

  // They are exactly the points that the tree stands for, within the limit.
  lemma {:induction false} CandidatesAre(t: Tree, target: Point, limit: Bound, item: Item)
    ensures Candidates(t, target, limit)[item] ==
      if item.dist == CalcDist(target, item.point) && !limit.LessThan(Finite(item.dist)) then Live(t)[item.point] else 0
  {
    hide CalcDist;
    if !IsDead(t) {
      CandidatesAre(t.left, target, limit, item);
      CandidatesAre(t.right, target, limit, item);
    }
  }

  // That the distance of the item is the squared distance of its point, in coordinates.
  predicate Measured(item: Item, target: Point) {
    var dx, dy, dz := item.point.x - target.x, item.point.y - target.y, item.point.z - target.z;
    item.dist == dx * dx + dy * dy + dz * dz
  }

  lemma DistanceIs(target: Point, p: Point)
    ensures Measured(Item(p, CalcDist(target, p)), target)
  {
    var dx, dy, dz := p.x - target.x, p.y - target.y, p.z - target.z;
    SquareOfOpposite(dx);
    SquareOfOpposite(dy);
    SquareOfOpposite(dz);
    assert target.x - p.x == -dx && target.y - p.y == -dy && target.z - p.z == -dz;
    assert Square(dx) == dx * dx && Square(dy) == dy * dy && Square(dz) == dz * dz;
    hide Square;
  }

  // The candidates, in coordinates: no more than the search radius away, and as often as the tree holds the point.
  lemma CandidatesAreLive(t: Tree, target: Point, maxDist: Bound, item: Item)
    ensures Candidates(t, target, SquaredLimit(maxDist))[item] ==
      if Measured(item, target) && (maxDist.Infinite? || item.dist <= maxDist.value * maxDist.value)
      then Live(t)[item.point] else 0
  {
    CandidatesAre(t, target, SquaredLimit(maxDist), item);
    DistanceIs(target, item.point);
    hide CalcDist, Candidates, Live;
  }

  // Points that differ in one coordinate are the square of that difference apart.
  lemma DistanceAlongAxis(p: Point, t: real)
    ensures CalcDist(p, p.(x := p.x + t)) == CalcDist(p, p.(y := p.y + t)) == CalcDist(p, p.(z := p.z + t)) == t * t
  {
    SquareOfOpposite(t);
    assert Square(0.0) == 0.0 && Square(t) == t * t;
    assert p.x - (p.x + t) == -t && p.y - (p.y + t) == -t && p.z - (p.z + t) == -t;
    hide Square;
  }

  // The distance adds up along steps on different axes.
  lemma DistanceAddsUp(a: Point, b: Point, c: Point)
    requires (a.x == b.x || b.x == c.x) && (a.y == b.y || b.y == c.y) && (a.z == b.z || b.z == c.z)
    ensures CalcDist(a, c) == CalcDist(a, b) + CalcDist(b, c)
  {
    assert Square(0.0) == 0.0;
    hide Square;
  }

  lemma SameCandidates(t: Tree, u: Tree, target: Point, limit: Bound)
    requires Live(t) == Live(u)
    ensures Candidates(t, target, limit) == Candidates(u, target, limit)
  {
    forall item
      ensures Candidates(t, target, limit)[item] == Candidates(u, target, limit)[item]
    {
      CandidatesAre(t, target, limit, item);
      CandidatesAre(u, target, limit, item);
    }
  }

  // These are k of all the candidates, or all of them if there are fewer.
  ghost predicate AreSome(kept: multiset<Item>, all: multiset<Item>, k: nat) {
    kept <= all && |kept| <= k && (|kept| < k ==> kept == all)
  }

  // And none that was left out is nearer.
  ghost predicate AreNearest(kept: multiset<Item>, all: multiset<Item>, k: nat) {
    AreSome(kept, all, k) && forall x, y :: x in kept && y in all - kept ==> x.dist <= y.dist
  }

  // There is a gap between the nearer and the farther distance.
  ghost predicate ToldApart(all: multiset<Item>, near: real, far: real) {
    exists d :: near <= d < far && IsGap(all, d)
  }

  // And none that was left out is nearer by a gap.
  ghost predicate AreNearestByGaps(kept: multiset<Item>, all: multiset<Item>, k: nat) {
    AreSome(kept, all, k) && forall x, y :: x in kept && y in all - kept ==> !ToldApart(all, y.dist, x.dist)
  }

  lemma GapOfRest(all: multiset<Item>, a: Item, near: real, far: real)
    requires near <= a.dist
    ensures ToldApart(all - multiset{a}, a.dist, far) ==> ToldApart(all, near, far)
  {
    var rest := all - multiset{a};
    if d :| a.dist <= d < far && IsGap(rest, d) {
      assert forall b :: b in all ==> b == a || b in rest;
      assert IsGap(all, d);
    }
  }

  // Distances that are not told apart differ by less than the tolerance for each of the items.
  lemma {:induction false} NotApartIsClose(all: multiset<Item>, near: real, far: real)
    requires near < far && !ToldApart(all, near, far)
    ensures far < near + |all| as real * TOLERANCE
    decreases |all|
  {
    assert !IsGap(all, near);
    var a :| a in all && near < a.dist < near + TOLERANCE;
    var rest := all - multiset{a};
    assert |rest| == |all| - 1;
    if a.dist < far {
      GapOfRest(all, a, near, far);
      NotApartIsClose(rest, a.dist, far);
    }
  }

  // If all distances are told apart, none that was left out is nearer at all.
  lemma SeparatedIsApart(all: multiset<Item>, near: real, far: real)
    requires Separated(all) && near < far && exists b :: b in all && b.dist == near
    ensures ToldApart(all, near, far)
  {
    assert IsGap(all, near) by {
      var b :| b in all && b.dist == near;
      assert forall a :: a in all ==> Distinguished(a, b);
    }
  }

  // --------------------------------------------------------------------------
  // The box bound

  lemma SquareGrows(a: real, b: real)
    requires 0.0 <= a <= b
    ensures Square(a) <= Square(b)
  {
    Grows(a, b, a * a, a * b, b * b);
  }

  lemma Grows(a: real, b: real, aa: real, ab: real, bb: real)
    requires 0.0 <= a <= b && aa == a * a && ab == a * b && bb == b * b
    ensures aa <= bb
  {
    Times(a, b - a);
    Times(b, b - a);
    assert a * (b - a) == ab - aa && b * (b - a) == bb - ab;
  }

  lemma Times(a: real, b: real)
    requires a >= 0.0 && b >= 0.0
    ensures a * b >= 0.0
  {}

  lemma SquareOfOpposite(a: real)
    ensures Square(-a) == Square(a) && Square(a) >= 0.0
  {
    if a >= 0.0 {
      Times(a, a);
    } else {
      Times(-a, -a);
    }
  }

  lemma OutsideIsLeast(t: real, low: real, high: real, p: real)
    requires low <= p <= high
    ensures Outside(t, low, high) <= Square(t - p)
  {
    SquareOfOpposite(t - p);
    SquareOfOpposite(t - low);
    if t < low {
      SquareGrows(low - t, p - t);
    } else if t > high {
      SquareGrows(t - high, t - p);
    }
    hide Square;
  }

  // No point of the subtree is nearer than its box.
  lemma BoxIsLeast(t: Tree, target: Point, p: Point)
    requires t.Node? && Contains(t.box, p)
    ensures CalcBoxDist(t, target).value <= CalcDist(target, p)
  {
    hide Square, Outside;
    OutsideIsLeast(target.x, t.box.low.x, t.box.high.x, p.x);
    OutsideIsLeast(target.y, t.box.low.y, t.box.high.y, p.y);
    OutsideIsLeast(target.z, t.box.low.z, t.box.high.z, p.z);
  }

  // The coordinate of an interval that is nearest to t.
  function Clamped(t: real, low: real, high: real): real {
    if t < low then low else if t > high then high else t
  }

  lemma ClampedIsOutside(t: real, low: real, high: real)
    requires low <= high
    ensures low <= Clamped(t, low, high) <= high && Square(t - Clamped(t, low, high)) == Outside(t, low, high)
  {
    assert Square(0.0) == 0.0;
    hide Square;
  }

  // And some point of the box is exactly as near as its box.
  lemma BoxIsAttained(t: Tree, target: Point) returns (p: Point)
    requires t.Node? && t.box.low.x <= t.box.high.x && t.box.low.y <= t.box.high.y && t.box.low.z <= t.box.high.z
    ensures Contains(t.box, p) && CalcBoxDist(t, target) == Finite(CalcDist(target, p))
  {
    var low, high := t.box.low, t.box.high;
    p := Point(Clamped(target.x, low.x, high.x), Clamped(target.y, low.y, high.y), Clamped(target.z, low.z, high.z));
    hide Square, Outside, Clamped;
    ClampedIsOutside(target.x, low.x, high.x);
    ClampedIsOutside(target.y, low.y, high.y);
    ClampedIsOutside(target.z, low.z, high.z);
  }

  lemma {:induction false} CandidatesWithin(t: Tree, root: Tree, target: Point, limit: Bound, item: Item)
    requires root.Node? && AllWithin(t, root.box) && item in Candidates(t, target, limit)
    ensures CalcBoxDist(root, target).value <= item.dist && !limit.LessThan(Finite(item.dist))
  {
    hide CalcBoxDist, CalcDist;
    if item in Own(t, target, limit) {
      BoxIsLeast(root, target, t.point);
    } else if item in Candidates(t.left, target, limit) {
      CandidatesWithin(t.left, root, target, limit, item);
    } else {
      CandidatesWithin(t.right, root, target, limit, item);
    }
  }

  // So every candidate of a subtree is at least as far as its box.
  lemma CandidatesAreBeyond(t: Tree, target: Point, limit: Bound)
    requires WellBoxed(t)
    ensures forall item <- Candidates(t, target, limit) ::
      !Finite(item.dist).LessThan(CalcBoxDist(t, target)) && !limit.LessThan(CalcBoxDist(t, target))
  {
    forall item <- Candidates(t, target, limit)
      ensures !Finite(item.dist).LessThan(CalcBoxDist(t, target)) && !limit.LessThan(CalcBoxDist(t, target))
    {
      CandidatesWithin(t, t, target, limit, item);
    }
  }

  // --------------------------------------------------------------------------
  // Keeping the nearest

  // No item is beyond d while another one up to d is left out.
  ghost predicate NoneBeyond(d: real, kept: multiset<Item>, rest: multiset<Item>) {
    forall x, y :: x in kept && y in rest ==> x.dist <= d || y.dist > d
  }

  lemma SomeAfterExchange(kept: multiset<Item>, all: multiset<Item>, k: nat, top: Item, item: Item)
    requires AreSome(kept, all, k) && |kept| == k && top in kept
    ensures AreSome(kept - multiset{top} + multiset{item}, all + multiset{item}, k)
  {}

  lemma KeepsNearer(d: real, kept: multiset<Item>, all: multiset<Item>, top: Item, item: Item)
    requires kept <= all && NoneBeyond(d, kept, all - kept) && top in kept
    requires item.dist < top.dist && forall x <- kept :: ByGap(d).Under(x, top)
    ensures var after := kept - multiset{top} + multiset{item};
      NoneBeyond(d, after, all + multiset{item} - after)
  {
    var after := kept - multiset{top} + multiset{item};
    assert all + multiset{item} - after == all - kept + multiset{top};
  }

  lemma KeepsWithoutFarther(d: real, kept: multiset<Item>, all: multiset<Item>, farther: multiset<Item>)
    requires kept <= all && NoneBeyond(d, kept, all - kept) && NoneBeyond(d, kept, farther)
    ensures NoneBeyond(d, kept, all + farther - kept)
  {
    assert all + farther - kept == all - kept + farther;
  }

  // --------------------------------------------------------------------------
  // The search

  // The items of the heap are some of those seen; and across every gap in the distances of all candidates, the heap is
  // in order and nothing nearer was left out.
  ghost predicate Kept(s: seq<Item>, seen: multiset<Item>, k: nat, all: multiset<Item>) {
    && AreSome(multiset(s), seen, k)
    && forall d :: IsGap(all, d) ==> IsHeap(ByGap(d), s) && NoneBeyond(d, multiset(s), seen - multiset(s))
  }

  ghost predicate Holds(q: ManualHeap, seen: multiset<Item>, k: nat, all: multiset<Item>)
    reads q, q.heap
  {
    q.Valid() && 0 < k <= q.cap && Kept(q.Contents(), seen, k, all)
  }

  lemma KeptAreSeen(s: seq<Item>, seen: multiset<Item>, k: nat, all: multiset<Item>)
    requires Kept(s, seen, k, all)
    ensures multiset(s) <= seen && |s| <= k
  {
    assert |multiset(s)| == |s|;
  }

  lemma FirstIsFarthest(d: real, s: seq<Item>, x: Item)
    requires IsHeap(ByGap(d), s) && x in multiset(s)
    ensures s != [] && ByGap(d).Under(x, s[0])
  {
    assert x in s;
    var i :| 0 <= i < |s| && s[i] == x;
    RootIsMaximum(ByGap(d), s, i);
  }

  // With k items in the heap, candidates that are not nearer than the first can be passed over.
  lemma PassesOver(s: seq<Item>, seen: multiset<Item>, k: nat, all: multiset<Item>, farther: multiset<Item>)
    requires Kept(s, seen, k, all) && 0 < k <= |s|
    requires forall y :: y in farther ==> s[0].dist <= y.dist
    ensures Kept(s, seen + farther, k, all)
  {
    assert |multiset(s)| == |s|;
    hide IsHeap, IsGap;
    forall d | IsGap(all, d)
      ensures NoneBeyond(d, multiset(s), seen + farther - multiset(s))
    {
      forall x | x in multiset(s)
        ensures ByGap(d).Under(x, s[0])
      {
        FirstIsFarthest(d, s, x);
      }
      KeepsWithoutFarther(d, multiset(s), seen, farther);
    }
  }

  lemma TakesOneMore(s: seq<Item>, seen: multiset<Item>, k: nat, all: multiset<Item>, item: Item)
    requires Kept(s, seen, k, all) && |s| < k && seen + multiset{item} <= all
    ensures Kept(Pushed(s, item), seen + multiset{item}, k, all)
  {
    assert |multiset(s)| == |s|;
    PushedIs(s, item);
    hide IsHeap, IsGap, Pushed;
    assert |multiset(Pushed(s, item))| == |Pushed(s, item)|;
    forall d | IsGap(all, d)
      ensures IsHeap(ByGap(d), Pushed(s, item)) && NoneBeyond(d, multiset(s) + multiset{item}, multiset{})
    {
      SomeSuit(ByGap(d), all, seen + multiset{item});
    }
  }

  // The first item gives way.
  lemma TakesNearer(s: seq<Item>, seen: multiset<Item>, k: nat, all: multiset<Item>, item: Item)
    requires Kept(s, seen, k, all) && 0 < k <= |s| && item.dist < s[0].dist && seen + multiset{item} <= all
    ensures |Popped(s)| < k && Kept(Pushed(Popped(s), item), seen + multiset{item}, k, all)
  {
    hide IsHeap, IsGap, Pushed, Popped, NoneBeyond, AreSome;
    KeptAreSeen(s, seen, k, all);
    assert |multiset(s)| == |s| && s[0] in multiset(s);
    var kept := multiset(s) - multiset{s[0]} + multiset{item};
    SomeAfterExchange(multiset(s), seen, k, s[0], item);
    ReplacedItems(s, item);
    forall d | IsGap(all, d)
      ensures IsHeap(ByGap(d), Pushed(Popped(s), item)) && NoneBeyond(d, kept, seen + multiset{item} - kept)
    {
      SomeSuit(ByGap(d), all, multiset(s) + multiset{item});
      FirstGivesWay(d, s, seen, item);
    }
  }

  lemma ReplacedItems(s: seq<Item>, item: Item)
    requires s != []
    ensures var after := Pushed(Popped(s), item);
      && |Popped(s)| == |s| - 1 && multiset(after) == multiset(s) - multiset{s[0]} + multiset{item}
      && forall o: Order :: IsHeap(o, s) && o.Suits(multiset(s) + multiset{item}) ==> IsHeap(o, after)
  {
    hide IsHeap, Pushed, Popped;
    PoppedIs(s);
    PushedIs(Popped(s), item);
    forall o: Order | IsHeap(o, s) && o.Suits(multiset(s) + multiset{item})
      ensures IsHeap(o, Pushed(Popped(s), item))
    {
      SomeSuit(o, multiset(s) + multiset{item}, multiset(s));
      SomeSuit(o, multiset(s) + multiset{item}, multiset(Popped(s)) + multiset{item});
    }
  }

  lemma FirstGivesWay(d: real, s: seq<Item>, seen: multiset<Item>, item: Item)
    requires s != [] && item.dist < s[0].dist && IsHeap(ByGap(d), s)
    requires multiset(s) <= seen && NoneBeyond(d, multiset(s), seen - multiset(s))
    ensures var kept := multiset(s) - multiset{s[0]} + multiset{item};
      NoneBeyond(d, kept, seen + multiset{item} - kept)
  {
    hide IsHeap;
    assert s[0] in multiset(s);
    forall x | x in multiset(s)
      ensures ByGap(d).Under(x, s[0])
    {
      FirstIsFarthest(d, s, x);
    }
    KeepsNearer(d, multiset(s), seen, s[0], item);
  }

  // Whether something at that distance can still be among the nearest.
  method Matters(q: ManualHeap, k: nat, dist: Bound) returns (matters: bool)
    requires q.Valid() && 0 < k <= q.cap
    ensures matters == (q.heapSize < k || dist.LessThan(Finite(q.Contents()[0].dist)))
  {
    if q.heapSize < k {
      return true;
    }
    var top := q.Top();
    matters := dist.LessThan(Finite(top.dist));
  }

  // Shows the heap one more candidate. The first item gives way if there are k already.
  method Offer(q: ManualHeap, k: nat, point: Point, dist: real, ghost seen: multiset<Item>, ghost all: multiset<Item>)
    requires Holds(q, seen, k, all) && seen + multiset{Item(point, dist)} <= all
    modifies q, q.heap
    ensures Holds(q, seen + multiset{Item(point, dist)}, k, all)
  {
    hide Kept, Pushed, Popped;
    var item := Item(point, dist);
    ghost var s := q.Contents();
    KeptAreSeen(s, seen, k, all);
    var matters := Matters(q, k, Finite(dist));
    if !matters {
      PassesOver(s, seen, k, all, multiset{item});
      return;
    }
    if q.heapSize >= k {
      TakesNearer(s, seen, k, all, item);
      q.Pop();
    } else {
      TakesOneMore(s, seen, k, all, item);
    }
    q.Push(item);
  }

  // A subtree whose box does not matter has nothing to add.
  lemma PrunedSubtree(s: seq<Item>, seen: multiset<Item>, k: nat, all: multiset<Item>, t: Tree, target: Point,
                      limit: Bound)
    requires Kept(s, seen, k, all) && WellBoxed(t) && 0 < k <= |s|
    requires !CalcBoxDist(t, target).LessThan(Finite(s[0].dist))
    ensures Kept(s, seen + Candidates(t, target, limit), k, all)
  {
    CandidatesAreBeyond(t, target, limit);
    hide Kept, Candidates, CalcBoxDist;
    PassesOver(s, seen, k, all, Candidates(t, target, limit));
  }

  // What a search does to a subtree: it may hand marks down, which changes nothing that the tree stands for.
  ghost predicate Searched(u: Tree, t: Tree) { Valid(u) && Live(u) == Live(t) && u.Empty? == t.Empty? }

  lemma SearchedItself(t: Tree)
    requires Valid(t)
    ensures Searched(t, t)
  {}

  lemma NothingThere(t: Tree, target: Point, limit: Bound, seen: multiset<Item>)
    requires IsDead(t)
    ensures seen + Candidates(t, target, limit) == seen
  {}

  lemma NothingWithin(t: Tree, target: Point, limit: Bound, seen: multiset<Item>)
    requires WellBoxed(t) && limit.LessThan(CalcBoxDist(t, target))
    ensures seen + Candidates(t, target, limit) == seen
  {
    CandidatesAreBeyond(t, target, limit);
    assert forall item :: item !in Candidates(t, target, limit);
  }

  // With the marks handed down, the candidates of a tree are those of the node and of its subtrees.
  lemma CandidatesSplit(t: Tree, u: Tree, target: Point, limit: Bound, seen: multiset<Item>)
    requires !IsDead(t) && Descended(t, u)
    ensures var own, left := Own(u, target, limit), Candidates(u.left, target, limit);
      var right := Candidates(u.right, target, limit);
      seen + Candidates(t, target, limit) == seen + own + left + right
  {
    SameCandidates(t, u, target, limit);
    CandidatesOfNode(u, target, limit);
    hide Candidates, Own, Valid, Live;
  }

  lemma CandidatesOfNode(t: Tree, target: Point, limit: Bound)
    requires !IsDead(t)
    ensures Candidates(t, target, limit)
         == Own(t, target, limit) + Candidates(t.left, target, limit) + Candidates(t.right, target, limit)
  {}

  lemma {:induction false} WithinIfLiveAre(t: Tree, box: Box)
    requires forall p <- Live(t) :: Contains(box, p)
    ensures AllWithin(t, box)
  {
    if !IsDead(t) {
      WithinIfLiveAre(t.left, box);
      WithinIfLiveAre(t.right, box);
    }
  }

  lemma SearchedFits(c: Tree, t: Tree, box: Box)
    requires Searched(c, t) && AllWithin(t, box)
    ensures Fits(c, false, box)
  {
    LiveAreWithin(t, box);
    WithinIfLiveAre(c, box);
  }

  function WithSubtrees(t: Tree, left: Tree, right: Tree): Tree
    requires t.Node?
  {
    t.(left := left, right := right)
  }

  // Putting the searched subtrees back.
  lemma SearchedBelow(t: Tree, u: Tree, left: Tree, right: Tree)
    requires !IsDead(t) && Descended(t, u) && Searched(left, u.left) && Searched(right, u.right)
    ensures u.Node? && Searched(WithSubtrees(u, left, right), t)
  {
    hide Touches, IsFresh, Contains;
    assert !u.treeDeleted && MarksAgree(u) && AllWithin(u.left, u.box) && AllWithin(u.right, u.box);
    assert Touches(u.box, Live(u));
    hide AllWithin, WellBoxed, Lazy;
    SearchedFits(left, u.left, u.box);
    SearchedFits(right, u.right, u.box);
    assert MarksAgree(u) && (u.pointDeleted || Contains(u.box, u.point));
    FittingIsValid(u.(left := left, right := right));
    hide Valid, Fits, Contains;
  }

  method OfferOwn(t: Tree, k: nat, target: Point, q: ManualHeap, limit: Bound, ghost seen: multiset<Item>,
                  ghost all: multiset<Item>)
    requires t.Node? && Holds(q, seen, k, all) && seen + Own(t, target, limit) <= all
    modifies q, q.heap
    ensures Holds(q, seen + Own(t, target, limit), k, all)
  {
    hide Kept, CalcDist;
    assert seen + multiset{} == seen;
    if !t.pointDeleted {
      var dist := CalcDist(target, t.point);
      if !limit.LessThan(Finite(dist)) {
        Offer(q, k, t.point, dist, seen, all);
      }
    }
  }

  // Shows the heap every candidate of the tree that can matter, and hands the marks down on the way.
  method Search(t: Tree, k: nat, target: Point, q: ManualHeap, limit: Bound, ghost seen: multiset<Item>,
                ghost all: multiset<Item>) returns (u: Tree)
    requires Holds(q, seen, k, all) && Valid(t)
    requires seen + Candidates(t, target, limit) <= all
    modifies q, q.heap
    ensures Holds(q, seen + Candidates(t, target, limit), k, all)
    ensures Searched(u, t)
    decreases Size(t), 2
  {
    u := t;
    BoxedIfValid(t);
    SearchedItself(t);
    hide CalcBoxDist, Holds, Valid, Candidates, Searched, WellBoxed;
    if IsDead(t) {
      NothingThere(t, target, limit, seen);
      return;
    }
    if limit.LessThan(CalcBoxDist(t, target)) {
      NothingWithin(t, target, limit, seen);
      return;
    }
    u := SearchNode(t, k, target, q, limit, seen, all);
  }

  // Searches a tree that is neither deleted nor too far away.
  method SearchNode(t: Tree, k: nat, target: Point, q: ManualHeap, limit: Bound, ghost seen: multiset<Item>,
                    ghost all: multiset<Item>) returns (u: Tree)
    requires Holds(q, seen, k, all) && Valid(t) && !IsDead(t)
    requires seen + Candidates(t, target, limit) <= all
    modifies q, q.heap
    ensures Holds(q, seen + Candidates(t, target, limit), k, all)
    ensures Searched(u, t)
    decreases Size(t), 1
  {
    hide Holds, Valid, Candidates, Own, PushDown, Searched, Descended, WithSubtrees;
    u := HandDown(t);
    CandidatesSplit(t, u, target, limit, seen);
    OfferOwn(u, k, target, q, limit, seen, all);
    var left, right := SearchBelow(u, k, target, q, limit, seen + Own(u, target, limit), all);
    SearchedBelow(t, u, left, right);
    u := WithSubtrees(u, left, right);
  }

  // Searches the two subtrees, the nearer one first if both matter.
  method SearchBelow(t: Tree, k: nat, target: Point, q: ManualHeap, limit: Bound, ghost seen: multiset<Item>,
                     ghost all: multiset<Item>) returns (left: Tree, right: Tree)
    requires t.Node? && Valid(t.left) && Valid(t.right) && Holds(q, seen, k, all)
    requires seen + Candidates(t.left, target, limit) + Candidates(t.right, target, limit) <= all
    modifies q, q.heap
    ensures Holds(q, seen + Candidates(t.left, target, limit) + Candidates(t.right, target, limit), k, all)
    ensures Searched(left, t.left) && Searched(right, t.right)
    decreases Size(t), 0
  {
    hide CalcBoxDist, Kept, Valid, Candidates, Searched;
    ghost var l, r := Candidates(t.left, target, limit), Candidates(t.right, target, limit);
    assert seen + l + r == seen + r + l;
    var leftDist, rightDist := CalcBoxDist(t.left, target), CalcBoxDist(t.right, target);
    var leftMatters := Matters(q, k, leftDist);
    var rightMatters := Matters(q, k, rightDist);
    if leftMatters && rightMatters {
      if !rightDist.LessThan(leftDist) {
        left := Search(t.left, k, target, q, limit, seen, all);
        right := SearchIfItMatters(t.right, k, target, q, limit, seen + l, all);
      } else {
        right := Search(t.right, k, target, q, limit, seen, all);
        left := SearchIfItMatters(t.left, k, target, q, limit, seen + r, all);
      }
    } else {
      left := SearchIfItMatters(t.left, k, target, q, limit, seen, all);
      right := SearchIfItMatters(t.right, k, target, q, limit, seen + l, all);
    }
  }

  // The marks are handed down if one of them needs to be.
  method HandDown(t: Tree) returns (u: Tree)
    requires t.Node? && Valid(t)
    ensures u == PushDown(t) && Descended(t, u)
    ensures Size(u) == Size(t) && Valid(u.left) && Valid(u.right)
  {
    Descend(t);
    if t.needLeft || t.needRight {
      u := PushDown(t);
    } else {
      u := t;
    }
  }

  // Once there are k items, there always are, and only the comparison with the top decides.
  method SearchIfItMatters(t: Tree, k: nat, target: Point, q: ManualHeap, limit: Bound, ghost seen: multiset<Item>,
                           ghost all: multiset<Item>) returns (u: Tree)
    requires Holds(q, seen, k, all) && Valid(t)
    requires seen + Candidates(t, target, limit) <= all
    modifies q, q.heap
    ensures Holds(q, seen + Candidates(t, target, limit), k, all)
    ensures Searched(u, t)
    decreases Size(t), 3
  {
    BoxedIfValid(t);
    SearchedItself(t);
    hide CalcBoxDist, Kept, Valid, WellBoxed, Candidates, Searched;
    var matters := Matters(q, k, CalcBoxDist(t, target));
    if matters {
      u := Search(t, k, target, q, limit, seen, all);
    } else {
      u := t;
      PrunedSubtree(q.Contents(), seen, k, all, t, target, limit);
    }
  }

  // --------------------------------------------------------------------------
  // The whole search

  ghost predicate NearestFirst(items: seq<Item>) {
    forall i, j :: 0 <= i < j < |items| ==> items[i].dist <= items[j].dist
  }

  // No item comes before one that is nearer by a gap.
  ghost predicate NearestFirstByGaps(items: seq<Item>, all: multiset<Item>) {
    forall i, j :: 0 <= i < j < |items| ==> !ToldApart(all, items[j].dist, items[i].dist)
  }

  function SquaredLimit(maxDist: Bound): Bound {
    if maxDist.Infinite? then Infinite else Finite(Square(maxDist.value))
  }

  // The items up to d come first, and one that is still in the heap is beyond d only if all of them are.
  ghost predicate Ascends(d: real, s: seq<Item>, items: seq<Item>) {
    && (forall i, j :: 0 <= i < j < |items| ==> items[i].dist <= d || items[j].dist > d)
    && (forall x, j :: x in multiset(s) && 0 <= j < |items| ==> x.dist <= d || items[j].dist > d)
  }

  // The items that the heap has given up so far, the last one first, and what is left in it.
  ghost predicate Drained(s: seq<Item>, items: seq<Item>, found: multiset<Item>, all: multiset<Item>) {
    && multiset(s) + multiset(items) == found && found <= all
    && forall d :: IsGap(all, d) ==> IsHeap(ByGap(d), s) && Ascends(d, s, items)
  }

  lemma TopAscends(d: real, s: seq<Item>, rest: seq<Item>, items: seq<Item>)
    requires IsHeap(ByGap(d), s) && Ascends(d, s, items) && IsWithoutFirst(rest, s)
    ensures Ascends(d, rest, [s[0]] + items)
  {
    forall x | x in multiset(s)
      ensures ByGap(d).Under(x, s[0])
    {
      FirstIsFarthest(d, s, x);
    }
    assert s[0] in multiset(s);
    hide IsHeap;
  }

  // What the heap gives up is put in front of what it gave up before.
  lemma TopGoesFirst(s: seq<Item>, items: seq<Item>, found: multiset<Item>, all: multiset<Item>)
    requires Drained(s, items, found, all) && s != []
    ensures Drained(Popped(s), [s[0]] + items, found, all) && |Popped(s)| == |s| - 1
  {
    hide IsHeap, IsGap, Popped, Ascends;
    PoppedIs(s);
    assert s[0] in multiset(s);
    assert multiset([s[0]] + items) == multiset{s[0]} + multiset(items);
    forall d | IsGap(all, d)
      ensures IsHeap(ByGap(d), Popped(s)) && Ascends(d, Popped(s), [s[0]] + items)
    {
      SomeSuit(ByGap(d), all, multiset(s));
      TopAscends(d, s, Popped(s), items);
    }
  }

  // However the boxes and the marks prune the search, the points found are k of all the points that are not deleted and
  // within the limit, or all of them if there are fewer. None that is left out is nearer than one of them by a gap in
  // the distances, and none comes after one that is farther by a gap. If all distances are told apart, they are k
  // nearest, and they come nearest first.
  method Nearest(root: Tree, k: nat, target: Point, maxDist: Bound) returns (items: seq<Item>, after: Tree)
    requires 0 < k && Valid(root)
    ensures Valid(after) && Live(after) == Live(root)
    ensures forall item <- items :: Measured(item, target) && item.point in Live(root)
    ensures forall item <- items :: maxDist.Finite? ==> item.dist <= maxDist.value * maxDist.value
    ensures AreNearestByGaps(multiset(items), Candidates(root, target, SquaredLimit(maxDist)), k)
    ensures NearestFirstByGaps(items, Candidates(root, target, SquaredLimit(maxDist)))
    ensures Separated(Candidates(root, target, SquaredLimit(maxDist))) ==>
      AreNearest(multiset(items), Candidates(root, target, SquaredLimit(maxDist)), k) && NearestFirst(items)
  {
    hide Separated, AreNearest, NearestFirst, Measured;
    hide Drained, Candidates, Valid, Live, Popped, Pushed, Kept, AreNearestByGaps, NearestFirstByGaps;
    ghost var all := Candidates(root, target, SquaredLimit(maxDist));
    var q := new ManualHeap(2 * k);
    q.Clear();
    NothingSeen(k, all);
    after := Search(root, k, target, q, SquaredLimit(maxDist), multiset{}, all);
    ghost var found := q.Contents();
    FoundAre(found, all, k);
    var size := q.Size();
    var kFound := if k < size then k else size;
    items := [];
    var i := 0;
    while i < kFound
      invariant i <= kFound && q.Valid() && q.cap > 0 && q.heapSize == kFound - i && fresh(q) && fresh(q.heap)
      invariant Drained(q.Contents(), items, multiset(found), all)
    {
      TopGoesFirst(q.Contents(), items, multiset(found), all);
      var top := q.Top();
      q.Pop();
      items := [top] + items;
      i := i + 1;
    }
    AllDrained(q.Contents(), items, found, all, k);
    if Separated(all) {
      NearestIfSeparated(items, all, k);
    }
    ItemsAreLive(root, k, target, maxDist, items);
  }

  lemma ItemsAreLive(root: Tree, k: nat, target: Point, maxDist: Bound, items: seq<Item>)
    requires AreNearestByGaps(multiset(items), Candidates(root, target, SquaredLimit(maxDist)), k)
    ensures forall item <- items :: Measured(item, target) && item.point in Live(root)
    ensures forall item <- items :: maxDist.Finite? ==> item.dist <= maxDist.value * maxDist.value
  {
    hide Candidates, Live, Measured, ToldApart, SquaredLimit;
    forall item <- items
      ensures Measured(item, target) && item.point in Live(root)
      ensures maxDist.Finite? ==> item.dist <= maxDist.value * maxDist.value
    {
      CandidatesAreLive(root, target, maxDist, item);
      assert item in multiset(items);
    }
  }

  lemma NothingSeen(k: nat, all: multiset<Item>)
    ensures Kept([], multiset{}, k, all) && multiset{} + all == all
  {}

  lemma FoundAre(found: seq<Item>, all: multiset<Item>, k: nat)
    requires Kept(found, multiset{} + all, k, all)
    ensures Kept(found, all, k, all) && Drained(found, [], multiset(found), all) && |found| <= k
  {
    assert multiset{} + all == all;
    assert |multiset(found)| == |found|;
  }

  lemma AllDrained(s: seq<Item>, items: seq<Item>, found: seq<Item>, all: multiset<Item>, k: nat)
    requires Drained(s, items, multiset(found), all) && |s| == 0 && Kept(found, all, k, all)
    ensures AreNearestByGaps(multiset(items), all, k) && NearestFirstByGaps(items, all)
  {
    assert s == [];
    assert multiset(items) == multiset(found);
    hide IsGap, IsHeap;
    forall x, y, d | x in multiset(items) && y in all - multiset(items) && IsGap(all, d)
      ensures !(y.dist <= d < x.dist)
    {
      assert NoneBeyond(d, multiset(found), all - multiset(found));
    }
    forall i, j, d | 0 <= i < j < |items| && IsGap(all, d)
      ensures !(items[j].dist <= d < items[i].dist)
    {
      assert Ascends(d, s, items);
    }
  }

  // --------------------------------------------------------------------------
  // What the gaps amount to

  // If all distances are told apart, the points are k nearest, and they come nearest first.
  lemma NearestIfSeparated(items: seq<Item>, all: multiset<Item>, k: nat)
    requires AreNearestByGaps(multiset(items), all, k) && NearestFirstByGaps(items, all) && Separated(all)
    ensures AreNearest(multiset(items), all, k) && NearestFirst(items)
  {
    hide Separated, ToldApart;
    forall x, y | x in multiset(items) && y in all - multiset(items)
      ensures x.dist <= y.dist
    {
      if y.dist < x.dist {
        SeparatedIsApart(all, y.dist, x.dist);
      }
    }
    forall i, j | 0 <= i < j < |items|
      ensures items[i].dist <= items[j].dist
    {
      if items[j].dist < items[i].dist {
        assert items[j] in multiset(items);
        SeparatedIsApart(all, items[j].dist, items[i].dist);
      }
    }
  }

  // In any case, no point left out is nearer than one found by more than the tolerance for each candidate, and none
  // found later is nearer by more than that.
  lemma NearestUpToTolerance(items: seq<Item>, all: multiset<Item>, k: nat)
    requires AreNearestByGaps(multiset(items), all, k) && NearestFirstByGaps(items, all)
    ensures forall x, y :: x in multiset(items) && y in all - multiset(items) ==>
      x.dist <= y.dist + |all| as real * TOLERANCE
    ensures forall i, j :: 0 <= i < j < |items| ==> items[i].dist <= items[j].dist + |all| as real * TOLERANCE
  {
    hide ToldApart;
    forall x, y | x in multiset(items) && y in all - multiset(items)
      ensures x.dist <= y.dist + |all| as real * TOLERANCE
    {
      if y.dist < x.dist {
        NotApartIsClose(all, y.dist, x.dist);
      }
    }
    forall i, j | 0 <= i < j < |items|
      ensures items[i].dist <= items[j].dist + |all| as real * TOLERANCE
    {
      if items[j].dist < items[i].dist {
        NotApartIsClose(all, items[j].dist, items[i].dist);
      }
    }
  }
}
