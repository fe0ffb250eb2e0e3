/** Grid spatial queries: line of sight, path existence (breadth-first),
    A* path finding and the cover scan. Cells are 4-connected; bounds are
    inclusive `(minx, miny, maxx, maxy)`. */
module Tools {
  import opened Base
  import opened Schema
  import opened Util

  type Obstacles = set<(int, int)>

  /** `(minx, miny, maxx, maxy)`, all inclusive. */
  type Bounds = (int, int, int, int)

  predicate Blocked(obs: Obstacles, c: IVec2) {
    (c.x, c.y) in obs
  }

  predicate InBounds(b: Bounds, c: IVec2) {
    b.0 <= c.x <= b.2 && b.1 <= c.y <= b.3
  }

  /** A cell a path may enter. */
  predicate Open(obs: Obstacles, b: Bounds, c: IVec2) {
    InBounds(b, c) && !Blocked(obs, c)
  }

  /** The four neighbour offsets, in the order the searches try them. */
  function Dir(i: nat): IVec2
    requires i < 4
  {
    [IVec2(1, 0), IVec2(-1, 0), IVec2(0, 1), IVec2(0, -1)][i]
  }

  function Nbr(c: IVec2, i: nat): IVec2
    requires i < 4
  {
    IVec2(c.x + Dir(i).x, c.y + Dir(i).y)
  }

  predicate Adjacent(a: IVec2, c: IVec2) {
    Manhattan(a, c) == 1
  }

  lemma NbrAdjacent(c: IVec2, i: nat)
    requires i < 4
    ensures Adjacent(c, Nbr(c, i))
  {
  }

  /** Every 4-adjacent cell is one of the four neighbours. */
  lemma AdjacentIsNbr(a: IVec2, c: IVec2) returns (i: nat)
    requires Adjacent(a, c)
    ensures i < 4 && c == Nbr(a, i)
  {
    if c.x == a.x + 1 { i := 0; }
    else if c.x == a.x - 1 { i := 1; }
    else if c.y == a.y + 1 { i := 2; }
    else { i := 3; }
  }

  /** A walk from `s` to `t` through 4-adjacent steps; every cell entered
      after the start is in bounds and not blocked (the start itself is not
      checked). */
  predicate IsPath(obs: Obstacles, b: Bounds, p: seq<IVec2>, s: IVec2, t: IVec2) {
    |p| >= 1 && p[0] == s && p[|p| - 1] == t
    && forall i :: 1 <= i < |p| ==> Adjacent(p[i - 1], p[i]) && Open(obs, b, p[i])
  }

  ghost predicate Reachable(obs: Obstacles, b: Bounds, s: IVec2, t: IVec2) {
    exists p :: IsPath(obs, b, p, s, t)
  }

  lemma ReachSelf(obs: Obstacles, b: Bounds, s: IVec2)
    ensures Reachable(obs, b, s, s)
  {
    assert IsPath(obs, b, [s], s, s);
  }

  lemma ReachStep(obs: Obstacles, b: Bounds, s: IVec2, c: IVec2, n: IVec2)
    requires Reachable(obs, b, s, c) && Adjacent(c, n) && Open(obs, b, n)
    ensures Reachable(obs, b, s, n)
  {
    var p :| IsPath(obs, b, p, s, c);
    assert IsPath(obs, b, p + [n], s, n);
  }

  /** All open neighbours of `c` are in `k`. */
  predicate Closed(obs: Obstacles, b: Bounds, c: IVec2, k: set<IVec2>) {
    forall i :: 0 <= i < 4 && Open(obs, b, Nbr(c, i)) ==> Nbr(c, i) in k
  }

  /** A set that holds the start, is closed under open neighbours and misses
      the goal proves that no path exists. */
  lemma ClosedUnreachable(obs: Obstacles, b: Bounds, s: IVec2, t: IVec2, k: set<IVec2>)
    requires s in k && t !in k
    requires forall c :: c in k ==> Closed(obs, b, c, k)
    ensures !Reachable(obs, b, s, t)
  {
    if Reachable(obs, b, s, t) {
      var p :| IsPath(obs, b, p, s, t);
      var j := 0;
      while j < |p| - 1
        invariant 0 <= j < |p| && p[j] in k
      {
        var i := AdjacentIsNbr(p[j], p[j + 1]);
        j := j + 1;
      }
      assert false;
    }
  }

  /** The cells inside the bounds. */
  function BoundsCells(b: Bounds): set<IVec2> {
    set x, y | b.0 <= x <= b.2 && b.1 <= y <= b.3 :: IVec2(x, y)
  }

  lemma InBoundsCells(b: Bounds, c: IVec2)
    requires InBounds(b, c)
    ensures c in BoundsCells(b)
  {
  }

  lemma ShrinkingComplement<T>(u: set<T>, a: set<T>, c: set<T>)
    requires a < c <= u
    ensures |u - c| < |u - a|
  {
    assert c - a != {};
    assert u - a == (u - c) + (c - a);
    assert (u - c) * (c - a) == {};
    assert |c - a| >= 1;
  }

  // ----- line of sight -----

  /** Coordinate `a` moved `k` unit steps toward `b`, stopping at `b`. */
  function StepToward(a: int, b: int, k: nat): int {
    if k >= Abs(b - a) then b else if b > a then a + k else a - k
  }

  /** Number of cells the line walk from `a` to `b` checks. */
  function LosSteps(a: IVec2, b: IVec2): nat {
    Max(Abs(b.x - a.x), Abs(b.y - a.y))
  }

  /** The `k`-th cell the walk visits: both axes step together until each
      reaches its target. */
  function LosCell(a: IVec2, b: IVec2, k: nat): IVec2 {
    IVec2(StepToward(a.x, b.x, k), StepToward(a.y, b.y, k))
  }

  /** Reference definition of `los_clear`: none of the cells the walk checks
      (the start, never the goal) is blocked. */
  predicate LosSpec(obs: Obstacles, a: IVec2, b: IVec2) {
    forall k :: 0 <= k < LosSteps(a, b) ==> !Blocked(obs, LosCell(a, b, k))
  }

  /** `los_clear`: the axis-stepping walk. */
  method LosClear(obs: Obstacles, a: IVec2, b: IVec2) returns (clear: bool)
    ensures clear == LosSpec(obs, a, b)
  {
    var x, y := a.x, a.y;
    var dx, dy := Signum(b.x - a.x), Signum(b.y - a.y);
    ghost var k: nat := 0;
    while x != b.x || y != b.y
      invariant k <= LosSteps(a, b)
      invariant x == StepToward(a.x, b.x, k) && y == StepToward(a.y, b.y, k)
      invariant forall j :: 0 <= j < k ==> !Blocked(obs, LosCell(a, b, j))
      decreases LosSteps(a, b) - k
    {
      if (x, y) in obs {
        assert Blocked(obs, LosCell(a, b, k));
        return false;
      }
      if x != b.x { x := x + dx; }
      if y != b.y { y := y + dy; }
      k := k + 1;
    }
    return true;
  }

  /** Sight to oneself is always clear. */
  lemma LosSelf(obs: Obstacles, a: IVec2)
    ensures LosSpec(obs, a, a)
  {
  }

  /** The goal cell is never checked: no cell of the walk is the goal. */
  lemma LosGoalUnchecked(a: IVec2, b: IVec2, k: nat)
    requires k < LosSteps(a, b)
    ensures LosCell(a, b, k) != b
  {
  }

  /** Hence an obstacle on the goal alone never blocks sight. */
  lemma LosIgnoresGoal(obs: Obstacles, a: IVec2, b: IVec2)
    ensures LosSpec(obs, a, b) == LosSpec(obs - {(b.x, b.y)}, a, b)
  {
    forall k | 0 <= k < LosSteps(a, b)
      ensures Blocked(obs, LosCell(a, b, k)) == Blocked(obs - {(b.x, b.y)}, LosCell(a, b, k))
    {
      LosGoalUnchecked(a, b, k);
    }
  }

  /** The start cell is checked whenever the ends differ. */
  lemma LosStartChecked(obs: Obstacles, a: IVec2, b: IVec2)
    requires a != b && Blocked(obs, a)
    ensures !LosSpec(obs, a, b)
  {
    assert LosCell(a, b, 0) == a;
  }

  /** Every checked cell lies in the bounding box of the two ends, and the
      walk has `max(|dx|, |dy|)` cells. */
  lemma LosInBox(a: IVec2, b: IVec2, k: nat)
    requires k < LosSteps(a, b)
    ensures Min(a.x, b.x) <= LosCell(a, b, k).x <= Max(a.x, b.x)
    ensures Min(a.y, b.y) <= LosCell(a, b, k).y <= Max(a.y, b.y)
  {
  }

  // ----- breadth-first path existence -----

  /** The cells a search from `s` can ever record: the bounds and the start. */
  function Universe(b: Bounds, s: IVec2): set<IVec2> {
    BoundsCells(b) + {s}
  }

  /** The inner loop of `path_exists`: tries the four neighbours of `p` and
      queues each open one that was not seen before. */
  method Expand(obs: Obstacles, b: Bounds, p: IVec2, q: seq<IVec2>, seen: set<IVec2>)
    returns (q2: seq<IVec2>, seen2: set<IVec2>)
    ensures seen <= seen2 && Closed(obs, b, p, seen2)
    ensures forall c :: c in seen2 - seen ==> Adjacent(p, c) && Open(obs, b, c)
    ensures |q2| >= |q| && q2[..|q|] == q
    ensures forall j :: |q| <= j < |q2| ==> q2[j] in seen2
    ensures forall c :: c in seen2 - seen ==> c in q2[|q|..]
    ensures seen2 == seen ==> q2 == q
  {
    q2, seen2 := q, seen;
    for i := 0 to 4
      invariant seen <= seen2
      invariant forall c :: c in seen2 - seen ==> Adjacent(p, c) && Open(obs, b, c)
      invariant |q2| >= |q| && q2[..|q|] == q
      invariant forall j :: |q| <= j < |q2| ==> q2[j] in seen2
      invariant forall c :: c in seen2 - seen ==> c in q2[|q|..]
      invariant seen2 == seen ==> q2 == q
      invariant forall j :: 0 <= j < i && Open(obs, b, Nbr(p, j)) ==> Nbr(p, j) in seen2
    {
      var n := Nbr(p, i);
      if n.x < b.0 || n.y < b.1 || n.x > b.2 || n.y > b.3 {
        continue;
      }
      if (n.x, n.y) in obs {
        continue;
      }
      if n !in seen2 {
        NbrAdjacent(p, i);
        assert (q2 + [n])[|q|..] == q2[|q|..] + [n];
        seen2 := seen2 + {n};
        q2 := q2 + [n];
      }
    }
  }

  lemma ClosedMono(obs: Obstacles, b: Bounds, c: IVec2, k: set<IVec2>, k2: set<IVec2>)
    requires k <= k2 && Closed(obs, b, c, k)
    ensures Closed(obs, b, c, k2)
  {
  }

  lemma InSuffix<T>(s: seq<T>, k: nat, x: T)
    requires k <= |s| && x in s[k..]
    ensures x in s
  {
    var j :| 0 <= j < |s[k..]| && s[k..][j] == x;
    assert s[k + j] == x;
  }

  /** The loop invariant of `path_exists`. */
  ghost predicate BfsInv(obs: Obstacles, b: Bounds, start: IVec2, goal: IVec2, u: set<IVec2>,
                         q: seq<IVec2>, seen: set<IVec2>)
  {
    start in seen && seen <= u
    && (forall i :: 0 <= i < |q| ==> q[i] in seen)
    && (forall c :: c in seen ==> Reachable(obs, b, start, c))
    && (forall c :: c in seen ==> c in q || Closed(obs, b, c, seen))
    && (goal in seen ==> goal in q)
  }

  /** One round of the search (pop `q[0]`, which is not the goal, expand it)
      keeps the invariant. */
  lemma BfsRound(obs: Obstacles, b: Bounds, start: IVec2, goal: IVec2, u: set<IVec2>,
                 q: seq<IVec2>, seen: set<IVec2>, q2: seq<IVec2>, seen2: set<IVec2>)
    requires u == Universe(b, start)
    requires BfsInv(obs, b, start, goal, u, q, seen) && q != [] && q[0] != goal
    requires seen <= seen2 && Closed(obs, b, q[0], seen2)
    requires forall c :: c in seen2 - seen ==> Adjacent(q[0], c) && Open(obs, b, c)
    requires |q2| >= |q| - 1 && q2[..|q| - 1] == q[1..]
    requires forall j :: |q| - 1 <= j < |q2| ==> q2[j] in seen2
    requires forall c :: c in seen2 - seen ==> c in q2[|q| - 1..]
    ensures BfsInv(obs, b, start, goal, u, q2, seen2)
  {
    var p := q[0];
    forall c | c in seen2 - seen ensures c in u && Reachable(obs, b, start, c) {
      ReachStep(obs, b, start, p, c);
      InBoundsCells(b, c);
    }
    forall i | 0 <= i < |q2| ensures q2[i] in seen2 {
      if i < |q| - 1 {
        assert q2[i] == q[i + 1];
      }
    }
    forall c | c in seen2 ensures c in q2 || Closed(obs, b, c, seen2) {
      if c == p {
      } else if c in seen && c in q {
        var i :| 0 <= i < |q| && q[i] == c;
        assert q2[i - 1] == c;
      } else if c in seen {
        ClosedMono(obs, b, c, seen, seen2);
      } else {
        assert c in seen2 - seen;
        InSuffix(q2, |q| - 1, c);
      }
    }
    if goal in seen2 {
      if goal in seen {
        var i :| 0 <= i < |q| && q[i] == goal;
        assert q2[i - 1] == goal;
      } else {
        assert goal in seen2 - seen;
        InSuffix(q2, |q| - 1, goal);
      }
    }
  }

  /** `path_exists`: breadth-first search over open 4-neighbours. True
      exactly when a path exists; in particular always when the ends
      coincide, whatever the bounds and obstacles say about the start. */
  method PathExists(obs: Obstacles, start: IVec2, goal: IVec2, b: Bounds) returns (found: bool)
    ensures found == Reachable(obs, b, start, goal)
  {
    var q: seq<IVec2> := [start];
    var seen: set<IVec2> := {start};
    ghost var u := Universe(b, start);
    ReachSelf(obs, b, start);
    while q != []
      invariant BfsInv(obs, b, start, goal, u, q, seen)
      decreases |u - seen|, |q|
    {
      var p := q[0];
      if p == goal {
        return true;
      }
      var q2, seen2 := Expand(obs, b, p, q[1..], seen);
      BfsRound(obs, b, start, goal, u, q, seen, q2, seen2);
      if seen2 != seen {
        ShrinkingComplement(u, seen, seen2);
      }
      q, seen := q2, seen2;
    }
    ClosedUnreachable(obs, b, start, goal, seen);
    return false;
  }

  // ----- A* -----

  /** An open-list entry: priority `f = g + h` and a cell. */
  datatype Node = Node(f: int, x: int, y: int)

  function NodeCell(n: Node): IVec2 {
    IVec2(n.x, n.y)
  }

  function HeapCells(heap: seq<Node>): set<IVec2> {
    set i | 0 <= i < |heap| :: NodeCell(heap[i])
  }

  lemma {:induction false} Enumerate<T>(s: set<T>) returns (e: seq<T>)
    ensures forall x :: x in s <==> x in e
    decreases |s|
  {
    if s == {} {
      e := [];
    } else {
      var x :| x in s;
      var rest := Enumerate(s - {x});
      e := [x] + rest;
    }
  }

  /** Part of the termination measure of A*: the sum of `g` over the
      recorded cells, taken along an enumeration of the search universe.
      Lowering a recorded cell's `g` lowers it. */
  function SumG(g: map<IVec2, nat>, e: seq<IVec2>): nat {
    if e == [] then 0 else (if e[0] in g then g[e[0]] else 0) + SumG(g, e[1..])
  }

  lemma {:induction false} SumGDecrease(g: map<IVec2, nat>, e: seq<IVec2>, n: IVec2, v: nat)
    requires n in g && v < g[n]
    ensures SumG(g[n := v], e) <= SumG(g, e)
    ensures n in e ==> SumG(g[n := v], e) < SumG(g, e)
  {
    if e != [] {
      SumGDecrease(g, e[1..], n, v);
      if n != e[0] {
        assert n in e ==> n in e[1..];
      }
    }
  }

  /** The search state `(g2, heap2)` is no further from termination than
      `(g, heap)`: no cell was forgotten, and if no cell was added the sum of
      `g` did not grow, and if that did not drop either the open list is the
      same. */
  ghost predicate NoWorse(g2: map<IVec2, nat>, heap2: seq<Node>, g: map<IVec2, nat>, heap: seq<Node>, e: seq<IVec2>) {
    g.Keys <= g2.Keys
    && (g2.Keys == g.Keys ==> SumG(g2, e) <= SumG(g, e))
    && (g2.Keys == g.Keys && SumG(g2, e) == SumG(g, e) ==> heap2 == heap)
  }

  lemma NoWorseTrans(g3: map<IVec2, nat>, heap3: seq<Node>, g2: map<IVec2, nat>, heap2: seq<Node>,
                     g: map<IVec2, nat>, heap: seq<Node>, e: seq<IVec2>)
    requires NoWorse(g3, heap3, g2, heap2, e) && NoWorse(g2, heap2, g, heap, e)
    ensures NoWorse(g3, heap3, g, heap, e)
  {
    if g3.Keys == g.Keys {
      assert g2.Keys == g.Keys;
    }
  }

  /** The part of the A* loop invariant that holds at every step: the start
      is recorded with `g = 0` and has no parent; `came` links every other
      recorded cell to an adjacent recorded cell of smaller `g`; every cell
      in the open list is recorded. */
  ghost predicate AStarCore(obs: Obstacles, b: Bounds, start: IVec2, u: set<IVec2>, heap: seq<Node>,
                            came: map<IVec2, IVec2>, g: map<IVec2, nat>)
  {
    start in g && g[start] == 0 && start !in came
    && g.Keys <= u
    && (forall c :: c in g && c != start ==> c in came)
    && (forall c {:trigger came[c]} :: c in came ==>
          c in g && came[c] in g && Adjacent(came[c], c) && Open(obs, b, c) && g[came[c]] < g[c])
    && HeapCells(heap) <= g.Keys
  }

  /** A* completeness bookkeeping: a recorded cell is still queued or has all
      its open neighbours recorded, except possibly `cur`, the cell being
      expanded; and the goal, once recorded, is queued. */
  ghost predicate AStarFrontier(obs: Obstacles, b: Bounds, goal: IVec2, heap: seq<Node>,
                                g: map<IVec2, nat>, cur: Option<IVec2>)
  {
    (forall c :: c in g ==> Some(c) == cur || c in HeapCells(heap) || Closed(obs, b, c, g.Keys))
    && (goal in g ==> goal in HeapCells(heap))
  }

  lemma HeapPush(heap: seq<Node>, node: Node)
    ensures HeapCells(heap + [node]) == HeapCells(heap) + {NodeCell(node)}
  {
    var heap' := heap + [node];
    assert NodeCell(heap'[|heap|]) == NodeCell(node);
    forall i | 0 <= i < |heap| ensures heap'[i] == heap[i] { }
  }

  /** Recording `n` with `g = g[cur] + 1` and parent `cur` (the update A*
      makes when it finds a better route) keeps the core invariant. */
  lemma RelaxCore(obs: Obstacles, b: Bounds, start: IVec2, u: set<IVec2>,
                  heap: seq<Node>, came: map<IVec2, IVec2>, g: map<IVec2, nat>,
                  cur: IVec2, n: IVec2, ng: nat, f: int)
    requires u == Universe(b, start)
    requires AStarCore(obs, b, start, u, heap, came, g)
    requires cur in g && ng == g[cur] + 1 && Adjacent(cur, n) && Open(obs, b, n)
    requires n !in g || ng < g[n]
    ensures AStarCore(obs, b, start, u, heap + [Node(f, n.x, n.y)], came[n := cur], g[n := ng])
  {
    var heap', came', g' := heap + [Node(f, n.x, n.y)], came[n := cur], g[n := ng];
    assert n != start;
    InBoundsCells(b, n);
    HeapPush(heap, Node(f, n.x, n.y));
    forall c | c in came'
      ensures c in g' && came'[c] in g' && Adjacent(came'[c], c) && Open(obs, b, c) && g'[came'[c]] < g'[c]
    {
    }
  }

  /** The same update keeps the completeness bookkeeping. */
  lemma RelaxFrontier(obs: Obstacles, b: Bounds, goal: IVec2, heap: seq<Node>, g: map<IVec2, nat>,
                      cur: IVec2, n: IVec2, ng: nat, f: int)
    requires AStarFrontier(obs, b, goal, heap, g, Some(cur))
    ensures AStarFrontier(obs, b, goal, heap + [Node(f, n.x, n.y)], g[n := ng], Some(cur))
  {
    var heap', g' := heap + [Node(f, n.x, n.y)], g[n := ng];
    HeapPush(heap, Node(f, n.x, n.y));
    forall c | c in g' ensures Some(c) == Some(cur) || c in HeapCells(heap') || Closed(obs, b, c, g'.Keys) {
      if c != n && c != cur && c !in HeapCells(heap) {
        ClosedMono(obs, b, c, g.Keys, g'.Keys);
      }
    }
  }

  /** The index of an entry of least priority (the source's `BinaryHeap`
      with reversed ordering pops a least-`f` entry). */
  method MinIndex(heap: seq<Node>) returns (k: nat)
    requires heap != []
    ensures k < |heap| && forall j :: 0 <= j < |heap| ==> heap[k].f <= heap[j].f
  {
    k := 0;
    for i := 1 to |heap|
      invariant k < i && forall j :: 0 <= j < i ==> heap[k].f <= heap[j].f
    {
      if heap[i].f < heap[k].f {
        k := i;
      }
    }
  }

  lemma HeapRemove(heap: seq<Node>, k: nat)
    requires k < |heap|
    ensures HeapCells(heap[..k] + heap[k + 1..]) <= HeapCells(heap)
    ensures HeapCells(heap) - {NodeCell(heap[k])} <= HeapCells(heap[..k] + heap[k + 1..])
  {
    var r := heap[..k] + heap[k + 1..];
    forall c | c in HeapCells(r) ensures c in HeapCells(heap) {
      var i :| 0 <= i < |r| && NodeCell(r[i]) == c;
      if i < k { assert r[i] == heap[i]; } else { assert r[i] == heap[i + 1]; }
    }
    forall c | c in HeapCells(heap) - {NodeCell(heap[k])} ensures c in HeapCells(r) {
      var i :| 0 <= i < |heap| && NodeCell(heap[i]) == c;
      if i < k { assert r[i] == heap[i]; } else { assert r[i - 1] == heap[i]; }
    }
  }

  /** Follows `came` back from the goal to the start, building the path in
      start-to-goal order (the source pushes and then reverses). */
  method Reconstruct(obs: Obstacles, b: Bounds, start: IVec2, goal: IVec2, ghost u: set<IVec2>, ghost heap: seq<Node>,
                     came: map<IVec2, IVec2>, g: map<IVec2, nat>)
    returns (path: seq<IVec2>)
    requires AStarCore(obs, b, start, u, heap, came, g) && goal in g
    ensures IsPath(obs, b, path, start, goal)
  {
    path := [goal];
    var c := goal;
    while c in came && came[c] != c
      invariant c in g
      invariant |path| >= 1 && path[0] == c && path[|path| - 1] == goal
      invariant forall i :: 1 <= i < |path| ==> Adjacent(path[i - 1], path[i]) && Open(obs, b, path[i])
      decreases g[c]
    {
      c := came[c];
      path := [c] + path;
    }
    assert c !in came;
  }

  /** Taking `cur`'s entry off the open list leaves `cur` as the one cell
      that may be neither queued nor closed. */
  lemma PopFrontier(obs: Obstacles, b: Bounds, goal: IVec2, heap: seq<Node>, g: map<IVec2, nat>, k: nat)
    requires k < |heap| && NodeCell(heap[k]) != goal
    requires AStarFrontier(obs, b, goal, heap, g, None)
    ensures AStarFrontier(obs, b, goal, heap[..k] + heap[k + 1..], g, Some(NodeCell(heap[k])))
  {
    HeapRemove(heap, k);
  }

  lemma CloseCur(obs: Obstacles, b: Bounds, goal: IVec2, heap: seq<Node>, g: map<IVec2, nat>, cur: IVec2)
    requires AStarFrontier(obs, b, goal, heap, g, Some(cur)) && Closed(obs, b, cur, g.Keys)
    ensures AStarFrontier(obs, b, goal, heap, g, None)
  {
  }

  /** One pass of the inner loop of `astar_path`: the neighbour `n` of
      `cur`, if open, is recorded or improved to `g[cur] + 1` when that is
      better than what is recorded. */
  method RelaxNeighbour(obs: Obstacles, b: Bounds, start: IVec2, goal: IVec2, ghost u: set<IVec2>, ghost e: seq<IVec2>,
                        cur: IVec2, n: IVec2, heap: seq<Node>, came: map<IVec2, IVec2>, g: map<IVec2, nat>)
    returns (heap2: seq<Node>, came2: map<IVec2, IVec2>, g2: map<IVec2, nat>)
    requires u == Universe(b, start) && forall x :: x in u ==> x in e
    requires AStarCore(obs, b, start, u, heap, came, g)
    requires AStarFrontier(obs, b, goal, heap, g, Some(cur)) && cur in g && Adjacent(cur, n)
    ensures AStarCore(obs, b, start, u, heap2, came2, g2)
    ensures AStarFrontier(obs, b, goal, heap2, g2, Some(cur))
    ensures cur in g2 && g2[cur] == g[cur]
    ensures Open(obs, b, n) ==> n in g2
    ensures NoWorse(g2, heap2, g, heap, e)
  {
    heap2, came2, g2 := heap, came, g;
    if n.x < b.0 || n.y < b.1 || n.x > b.2 || n.y > b.3 {
      return;
    }
    if (n.x, n.y) in obs {
      return;
    }
    var ng := g[cur] + 1;
    if n !in g || ng < g[n] {
      var f := ng + Manhattan(n, goal);
      RelaxCore(obs, b, start, u, heap, came, g, cur, n, ng, f);
      RelaxFrontier(obs, b, goal, heap, g, cur, n, ng, f);
      if n in g {
        InBoundsCells(b, n);
        SumGDecrease(g, e, n, ng);
      }
      came2 := came[n := cur];
      g2 := g[n := ng];
      heap2 := heap + [Node(f, n.x, n.y)];
    }
  }

  /** The inner loop of `astar_path`: relaxes the four neighbours of `cur`.
      Afterwards `cur` has all its open neighbours recorded, and the search
      made progress unless nothing changed. */
  method ExpandNode(obs: Obstacles, b: Bounds, start: IVec2, goal: IVec2, ghost u: set<IVec2>, ghost e: seq<IVec2>,
                    cur: IVec2, heap: seq<Node>, came: map<IVec2, IVec2>, g: map<IVec2, nat>)
    returns (heap2: seq<Node>, came2: map<IVec2, IVec2>, g2: map<IVec2, nat>)
    requires u == Universe(b, start) && forall x :: x in u ==> x in e
    requires AStarCore(obs, b, start, u, heap, came, g)
    requires AStarFrontier(obs, b, goal, heap, g, Some(cur)) && cur in g
    ensures AStarCore(obs, b, start, u, heap2, came2, g2)
    ensures AStarFrontier(obs, b, goal, heap2, g2, None)
    ensures NoWorse(g2, heap2, g, heap, e)
  {
    heap2, came2, g2 := heap, came, g;
    for d := 0 to 4
      invariant AStarCore(obs, b, start, u, heap2, came2, g2)
      invariant AStarFrontier(obs, b, goal, heap2, g2, Some(cur))
      invariant NoWorse(g2, heap2, g, heap, e)
      invariant forall j :: 0 <= j < d && Open(obs, b, Nbr(cur, j)) ==> Nbr(cur, j) in g2
    {
      NbrAdjacent(cur, d);
      ghost var keys1, g1, heap1 := g2.Keys, g2, heap2;
      heap2, came2, g2 := RelaxNeighbour(obs, b, start, goal, u, e, cur, Nbr(cur, d), heap2, came2, g2);
      NoWorseTrans(g2, heap2, g1, heap1, g, heap, e);
      forall j | 0 <= j < d + 1 && Open(obs, b, Nbr(cur, j)) ensures Nbr(cur, j) in g2 {
        if j < d {
          assert Nbr(cur, j) in keys1;
        }
      }
    }
    CloseCur(obs, b, goal, heap2, g2, cur);
  }

  /** `astar_path`: A* over open 4-neighbours with the Manhattan heuristic.
      The result is a path from start to goal, and it is empty exactly when
      no path exists (so it agrees with `PathExists`). */
  method AStarPath(obs: Obstacles, start: IVec2, goal: IVec2, b: Bounds) returns (path: seq<IVec2>)
    ensures path != [] <==> Reachable(obs, b, start, goal)
    ensures path != [] ==> IsPath(obs, b, path, start, goal)
  {
    var heap: seq<Node> := [Node(Manhattan(start, goal), start.x, start.y)];
    var came: map<IVec2, IVec2> := map[];
    var g: map<IVec2, nat> := map[start := 0];
    ghost var u := Universe(b, start);
    ghost var e := Enumerate(u);
    assert HeapCells(heap) == {start} by {
      assert NodeCell(heap[0]) == start;
    }
    while heap != []
      invariant AStarCore(obs, b, start, u, heap, came, g)
      invariant AStarFrontier(obs, b, goal, heap, g, None)
      decreases |u - g.Keys|, SumG(g, e), |heap|
    {
      var k := MinIndex(heap);
      var x, y := heap[k].x, heap[k].y;
      var cur := IVec2(x, y);
      if cur == goal {
        HeapRemove(heap, k);
        heap := heap[..k] + heap[k + 1..];
        path := Reconstruct(obs, b, start, goal, u, heap, came, g);
        assert Reachable(obs, b, start, goal);
        return;
      }
      PopFrontier(obs, b, goal, heap, g, k);
      HeapRemove(heap, k);
      heap := heap[..k] + heap[k + 1..];
      ghost var keys0 := g.Keys;
      heap, came, g := ExpandNode(obs, b, start, goal, u, e, cur, heap, came, g);
      if g.Keys != keys0 {
        ShrinkingComplement(u, keys0, g.Keys);
      }
    }
    ClosedUnreachable(obs, b, start, goal, g.Keys);
    path := [];
  }

  // ----- cover scan -----

  /** A cover cell: enterable, seen by the player, hidden from the enemy. */
  predicate IsCover(obs: Obstacles, b: Bounds, player: IVec2, enemy: IVec2, p: IVec2) {
    Open(obs, b, p) && LosSpec(obs, player, p) && !LosSpec(obs, enemy, p)
  }

  /** The cover cells `from + (dx, dy)` for `dy` from the given value up to
      `r`, in scan order. */
  function CoverRow(obs: Obstacles, b: Bounds, from: IVec2, player: IVec2, enemy: IVec2, r: int, dx: int, dy: int)
    : seq<IVec2>
    decreases if dy <= r then r - dy + 1 else 0
  {
    if dy > r then []
    else
      var p := IVec2(from.x + dx, from.y + dy);
      (if IsCover(obs, b, player, enemy, p) then [p] else []) + CoverRow(obs, b, from, player, enemy, r, dx, dy + 1)
  }

  /** The rows from `dx` up to `r`, in scan order. */
  function CoverRows(obs: Obstacles, b: Bounds, from: IVec2, player: IVec2, enemy: IVec2, r: int, dx: int)
    : seq<IVec2>
    decreases if dx <= r then r - dx + 1 else 0
  {
    if dx > r then []
    else CoverRow(obs, b, from, player, enemy, r, dx, -r) + CoverRows(obs, b, from, player, enemy, r, dx + 1)
  }

  lemma {:induction false} CoverRowMembers(obs: Obstacles, b: Bounds, from: IVec2, player: IVec2, enemy: IVec2,
                                           r: int, dx: int, dy: int, p: IVec2)
    ensures p in CoverRow(obs, b, from, player, enemy, r, dx, dy) <==>
      p.x == from.x + dx && dy <= p.y - from.y <= r && IsCover(obs, b, player, enemy, p)
    decreases if dy <= r then r - dy + 1 else 0
  {
    if dy <= r {
      CoverRowMembers(obs, b, from, player, enemy, r, dx, dy + 1, p);
    }
  }

  lemma {:induction false} CoverRowsMembers(obs: Obstacles, b: Bounds, from: IVec2, player: IVec2, enemy: IVec2,
                                            r: int, dx: int, p: IVec2)
    ensures p in CoverRows(obs, b, from, player, enemy, r, dx) <==>
      dx <= p.x - from.x <= r && -r <= p.y - from.y <= r && IsCover(obs, b, player, enemy, p)
    decreases if dx <= r then r - dx + 1 else 0
  {
    if dx <= r {
      CoverRowMembers(obs, b, from, player, enemy, r, dx, -r, p);
      CoverRowsMembers(obs, b, from, player, enemy, r, dx + 1, p);
    }
  }

  /** What `find_cover_positions` returns, as a set: exactly the cells within
      the `radius` square around `from` that are in bounds, unblocked, seen by
      the player and hidden from the enemy. */
  lemma CoverScanMembers(obs: Obstacles, b: Bounds, from: IVec2, player: IVec2, enemy: IVec2, r: int, p: IVec2)
    ensures p in CoverRows(obs, b, from, player, enemy, r, -r) <==>
      Abs(p.x - from.x) <= r && Abs(p.y - from.y) <= r && InBounds(b, p) && !Blocked(obs, p)
      && LosSpec(obs, player, p) && !LosSpec(obs, enemy, p)
  {
    CoverRowsMembers(obs, b, from, player, enemy, r, -r, p);
  }

  /** The inner loop of `find_cover_positions`: one row of the square. */
  method ScanRow(obs: Obstacles, b: Bounds, from: IVec2, player: IVec2, enemy: IVec2, radius: int, dx: int)
    returns (row: seq<IVec2>)
    ensures row == CoverRow(obs, b, from, player, enemy, radius, dx, -radius)
  {
    row := [];
    var dy := -radius;
    while dy <= radius
      invariant row + CoverRow(obs, b, from, player, enemy, radius, dx, dy) == CoverRow(obs, b, from, player, enemy, radius, dx, -radius)
      decreases if dy <= radius then radius - dy + 1 else 0
    {
      var nx, ny := from.x + dx, from.y + dy;
      var p := IVec2(nx, ny);
      ghost var rest := CoverRow(obs, b, from, player, enemy, radius, dx, dy + 1);
      assert CoverRow(obs, b, from, player, enemy, radius, dx, dy)
        == (if IsCover(obs, b, player, enemy, p) then [p] else []) + rest;
      if nx < b.0 || ny < b.1 || nx > b.2 || ny > b.3 || (nx, ny) in obs {
        assert !Open(obs, b, p);
        dy := dy + 1;
        continue;
      }
      assert Open(obs, b, p);
      var losPlayer := LosClear(obs, player, p);
      var losEnemy := LosClear(obs, enemy, p);
      if losPlayer && !losEnemy {
        assert IsCover(obs, b, player, enemy, p);
        assert row + [p] + rest == row + ([p] + rest);
        row := row + [p];
      } else {
        assert !IsCover(obs, b, player, enemy, p);
      }
      dy := dy + 1;
    }
  }

  /** `find_cover_positions`: scans the square row by row. */
  method FindCoverPositions(obs: Obstacles, b: Bounds, from: IVec2, player: IVec2, enemy: IVec2, radius: int)
    returns (out: seq<IVec2>)
    ensures out == CoverRows(obs, b, from, player, enemy, radius, -radius)
  {
    out := [];
    var dx := -radius;
    while dx <= radius
      invariant out + CoverRows(obs, b, from, player, enemy, radius, dx) == CoverRows(obs, b, from, player, enemy, radius, -radius)
      decreases if dx <= radius then radius - dx + 1 else 0
    {
      var row := ScanRow(obs, b, from, player, enemy, radius, dx);
      ghost var rest := CoverRows(obs, b, from, player, enemy, radius, dx + 1);
      assert out + row + rest == out + (row + rest);
      out := out + row;
      dx := dx + 1;
    }
  }
}
