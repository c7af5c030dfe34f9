/** The blocking tail: each scheduling point is replaced by a sink whose cost is its
    own measured subtree depth, so that every path reaching it pays that cost once. */
module BlockingTail {
  import opened CallGraph
  import opened WalkerSpec
  import opened WalkerInvariant
  import opened WalkerTheorems
  import W = Walker

  /** The subtree depth of p, from a walk rooted at p with nothing coloured. */
  function Tail(g: Graph, p: Fn): nat {
    DepthOf(WalkFrom(g, EMPTY, p), p)
  }

  function Tails(g: Graph, points: set<Fn>): map<Fn, nat> {
    map p | p in points :: Tail(g, p)
  }

  function Collapse(g: Graph, tails: map<Fn, nat>): Graph {
    Graph(g.frames + tails, g.calls + (map p | p in tails :: {}), g.indirect)
  }

  function Collapsed(g: Graph, points: set<Fn>): Graph {
    Collapse(g, Tails(g, points))
  }

  function SetOf(points: seq<Fn>): set<Fn> {
    set p | p in points
  }

  method WithBlockingTail(g: Graph, points: seq<Fn>) returns (g': Graph, tails: map<Fn, nat>)
    ensures tails == Tails(g, SetOf(points))
    ensures g' == Collapsed(g, SetOf(points))
  {
    hide WalkFrom, DepthOf, Tails;
    tails := map[];
    ghost var done: set<Fn> := {};
    NoTails(g);
    for i := 0 to |points|
      invariant tails == Tails(g, done) && forall p :: p in done <==> p in points[..i]
    {
      var w := new W.Walker(g);
      var d := w.Walk(points[i]);
      TailsMore(g, done, points[i]);
      tails, done := tails[points[i] := d], done + {points[i]};
      assert points[..i + 1] == points[..i] + [points[i]];
    }
    assert points[..|points|] == points;
    assert done == SetOf(points);
    g' := Graph(g.frames + tails, g.calls + (map p | p in tails :: {}), g.indirect);
  }

  lemma NoTails(g: Graph)
    ensures Tails(g, {}) == map[]
  {
  }

  lemma TailsMore(g: Graph, points: set<Fn>, p: Fn)
    ensures Tails(g, points + {p}) == Tails(g, points)[p := Tail(g, p)]
  {
    hide Tail;
  }

  // ---- the collapsed graph -----------------------------------------------

  /** What collapsing changes: the scheduling points lose their calls and cost their
      tail; everything else stays. */
  ghost predicate IsCollapse(g: Graph, points: set<Fn>, g': Graph) {
    && g'.frames.Keys == g.frames.Keys
    && (forall f :: Frame(g', f) == if f in points then Tail(g, f) else Frame(g, f))
    && (forall f, c :: Edge(g', f, c) <==> Edge(g, f, c) && f !in points)
    && (forall f :: HasIndirect(g', f) == HasIndirect(g, f))
  }

  lemma CollapsedShape(g: Graph, points: set<Fn>)
    requires points <= g.frames.Keys
    ensures IsCollapse(g, points, Collapsed(g, points))
  {
  }

  /** The result of the gate's main walk. */
  function Measure(g: Graph, points: set<Fn>): State {
    WalkAll(Collapsed(g, points))
  }

  /** g' is the collapsed graph and st a complete walk of it. */
  ghost predicate IsMeasured(g: Graph, points: set<Fn>, g': Graph, st: State) {
    IsCollapse(g, points, g') && AllClosed(g', st) && st.depth.Keys == g.frames.Keys
  }

  lemma MeasureIsMeasured(g: Graph, points: set<Fn>)
    requires points <= g.frames.Keys
    ensures IsMeasured(g, points, Collapsed(g, points), Measure(g, points))
  {
    WalkAllSettles(Collapsed(g, points));
    CollapsedShape(g, points);
  }

  /** A walk of the collapsed graph is a walk of the image that stops at its first
      scheduling point. */
  lemma CollapsedWalk(g: Graph, points: set<Fn>, g': Graph, p: seq<Fn>)
    requires forall f, c :: Edge(g', f, c) <==> Edge(g, f, c) && f !in points
    ensures Walk(g', p) <==> Walk(g, p) && forall i :: 0 <= i < |p| - 1 ==> p[i] !in points
  {
    if Walk(g, p) && forall i :: 0 <= i < |p| - 1 ==> p[i] !in points {
      assert forall i :: 0 <= i < |p| - 1 ==> Edge(g, p[i], p[i + 1]) && Edge(g', p[i], p[i + 1]);
    }
    if Walk(g', p) {
      forall i | 0 <= i < |p| - 1
        ensures Edge(g, p[i], p[i + 1]) && p[i] !in points
      {
        assert Edge(g', p[i], p[i + 1]);
      }
    }
  }

  lemma ReachFromPoint(g: Graph, points: set<Fn>, g': Graph, p: Fn, h: Fn)
    requires IsCollapse(g, points, g') && p in points && Reaches(g', p, h)
    ensures h == p
  {
    var w :| WalkFromTo(g', w, p, h);
    if |w| >= 2 {
      TailWalk(g', w);
      assert false;
    }
  }

  // ---- the tail is charged -----------------------------------------------

  lemma PointDepth(g: Graph, points: set<Fn>, g': Graph, st: State, p: Fn)
    requires IsMeasured(g, points, g', st) && p in points && p in g.frames
    ensures st.depth[p] == Tail(g, p) && p !in st.recursive
  {
    LeafFacts(g', st, p);
  }

  /** No edge into a scheduling point is ever cut, so every direct caller pays its
      whole tail on top of its own frame. */
  lemma EveryCallerPaysTheTail(g: Graph, points: set<Fn>, f: Fn, p: Fn)
    requires points <= g.frames.Keys && p in points
    requires f in g.frames && f !in points && Edge(g, f, p)
    ensures var st := Measure(g, points);
      f in st.depth && Kept(Collapsed(g, points), st, f, p)
      && st.depth[f] >= Frame(g, f) + Tail(g, p)
  {
    MeasureIsMeasured(g, points);
    CallerPays(g, points, Collapsed(g, points), Measure(g, points), f, p);
  }

  lemma CallerPays(g: Graph, points: set<Fn>, g': Graph, st: State, f: Fn, p: Fn)
    requires IsMeasured(g, points, g', st) && p in points && p in g.frames
    requires f in g.frames && f !in points && Edge(g, f, p)
    ensures Kept(g', st, f, p) && st.depth[f] >= Frame(g, f) + Tail(g, p)
  {
    assert Edge(g', f, p) && Closed(g', st, f);
    assert Before(st, p, f) by {
      if !Before(st, p, f) {
        ReachFromPoint(g, points, g', p, f);
        assert false;
      }
    }
    PointDepth(g, points, g', st, p);
    assert Kept(g', st, f, p);
  }

  /** A function that can block and is not flagged `recursive` is charged, beyond its
      own frame, the tail of some scheduling point. */
  lemma WhoeverCanBlockPays(g: Graph, points: set<Fn>, f: Fn, p: Fn) returns (q: Fn)
    requires points <= g.frames.Keys && p in points
    requires f in g.frames && f !in points && Reaches(g, f, p)
    requires f !in Measure(g, points).recursive
    ensures q in points
    ensures var st := Measure(g, points);
      f in st.depth && st.depth[f] >= Frame(g, f) + Tail(g, q)
  {
    MeasureIsMeasured(g, points);
    var v := WalkToFirstPoint(g, points, f, p);
    q := v[|v| - 1];
    WalkToPointPays(g, points, Collapsed(g, points), Measure(g, points), f, v);
  }

  /** Flagged `recursive` or not, a function is charged, beyond its own frame, the tail of
      every scheduling point it reaches over edges the walk kept. If it reaches none, no tail
      is charged at all: its depth is spent along a path of the image free of scheduling
      points. */
  lemma TailCharged(g: Graph, points: set<Fn>, f: Fn)
    requires points <= g.frames.Keys && f in g.frames && f !in points
    ensures var g', st := Collapsed(g, points), Measure(g, points);
      f in st.depth && HopsDown(st) &&
      (forall q :: q in points && KeptReaches(g', st, f, q) ==> st.depth[f] >= Frame(g, f) + Tail(g, q)) &&
      ((forall q :: q in points ==> !KeptReaches(g', st, f, q)) ==>
        var path := HopPath(st, f);
        Walk(g, path) && path[0] == f && Weight(g, path) == st.depth[f] && forall x :: x in path ==> x !in points)
  {
    hide Tail, Measure, Collapsed;
    var g', st := Collapsed(g, points), Measure(g, points);
    MeasureIsMeasured(g, points);
    PathOffPoints(g, points, g', st, f);
    forall q | q in points && KeptReaches(g', st, f, q)
      ensures st.depth[f] >= Frame(g, f) + Tail(g, q)
    {
      KeptPays(g, points, g', st, f, q);
    }
    if forall q :: q in points ==> !KeptReaches(g', st, f, q) {
      NoTail(g, points, g', st, f);
    }
  }

  lemma KeptPays(g: Graph, points: set<Fn>, g': Graph, st: State, f: Fn, q: Fn)
    requires IsMeasured(g, points, g', st) && f in g.frames && f !in points && q in points
    requires KeptReaches(g', st, f, q)
    ensures st.depth[f] >= Frame(g, f) + Tail(g, q)
  {
    hide Tail, Kept, AllClosed, Edge, HasIndirect, Weight;
    var p :| KeptWalk(g', st, p) && p[0] == f && p[|p| - 1] == q;
    KeptWalksAreBounded(g', st, p);
    WeightOfEnds(g', p);
  }

  lemma NoTail(g: Graph, points: set<Fn>, g': Graph, st: State, f: Fn)
    requires IsMeasured(g, points, g', st) && f in g.frames && HopsDown(st)
    requires forall q :: q in points ==> !KeptReaches(g', st, f, q)
    ensures var path := HopPath(st, f);
      Walk(g, path) && path[0] == f && Weight(g, path) == st.depth[f] && forall x :: x in path ==> x !in points
  {
    hide Tail, AllClosed, HopPath, HopsDown, HopsAdd, KeptReaches, Weight, Walk, Edge, HasIndirect, Distinct;
    var path := HopPath(st, f);
    PathOffPoints(g, points, g', st, f);
    ClosedHops(g', st);
    HopPathIsKept(g', st, f);
    forall x | x in path
      ensures x !in points
    {
      var i :| 0 <= i < |path| && path[i] == x;
      KeptPrefix(g', st, path, i);
    }
    WeightOffPoints(g, points, g', path);
  }

  lemma WalkToPointPays(g: Graph, points: set<Fn>, g': Graph, st: State, f: Fn, v: seq<Fn>)
    requires IsMeasured(g, points, g', st) && f in g.frames && f !in points && f !in st.recursive
    requires |v| >= 2 && Walk(g, v) && v[0] == f && v[|v| - 1] in points
    requires forall i :: 0 <= i < |v| - 1 ==> v[i] !in points
    ensures st.depth[f] >= Frame(g, f) + Tail(g, v[|v| - 1])
  {
    CollapsedWalk(g, points, g', v);
    UnflaggedDepthIsLongest(g', st, f);
    WeightOfEnds(g', v);
  }

  lemma WeightOfEnds(g: Graph, v: seq<Fn>)
    requires |v| >= 2
    ensures Weight(g, v) >= Frame(g, v[0]) + Frame(g, v[|v| - 1])
  {
    var k := |v| - 1;
    assert v == v[..k] + [v[k]];
    WeightConcat(g, v[..k], [v[k]]);
    WeightOfOne(g, v[k]);
    assert v[..k][0] == v[0];
  }

  lemma WalkToFirstPoint(g: Graph, points: set<Fn>, f: Fn, p: Fn) returns (v: seq<Fn>)
    requires f !in points && p in points && Reaches(g, f, p)
    ensures |v| >= 2 && Walk(g, v) && v[0] == f && v[|v| - 1] in points
    ensures forall i :: 0 <= i < |v| - 1 ==> v[i] !in points
  {
    var w :| WalkFromTo(g, w, f, p);
    var k := FirstPoint(points, w);
    v := w[..k + 1];
    assert forall i :: 0 <= i < |v| - 1 ==> Edge(g, w[i], w[i + 1]);
  }

  lemma WeightOfOne(g: Graph, f: Fn)
    ensures Weight(g, [f]) == Frame(g, f)
  {
    assert [f][1..] == [];
  }

  /** The position of the first scheduling point on a walk that ends in one. */
  lemma FirstPoint(points: set<Fn>, w: seq<Fn>) returns (k: nat)
    requires w != [] && w[0] !in points && w[|w| - 1] in points
    ensures 0 < k < |w| && w[k] in points && forall i :: 0 <= i < k ==> w[i] !in points
  {
    k := 1;
    while w[k] !in points
      invariant 0 < k < |w| && forall i :: 0 <= i < k ==> w[i] !in points
      decreases |w| - k
    {
      k := k + 1;
    }
  }

  // ---- and it is charged once, along a real walk -------------------------

  /** A `next_hop` path meets at most one scheduling point, and only at its end. */
  lemma OneTailPerPath(g: Graph, points: set<Fn>, f: Fn)
    requires points <= g.frames.Keys && f in g.frames
    ensures var st := Measure(g, points);
      f in st.depth && HopsDown(st) &&
      var path := HopPath(st, f);
      Distinct(path) && forall i :: 0 <= i < |path| - 1 ==> path[i] !in points
  {
    MeasureIsMeasured(g, points);
    PathOffPoints(g, points, Collapsed(g, points), Measure(g, points), f);
  }

  lemma PathOffPoints(g: Graph, points: set<Fn>, g': Graph, st: State, f: Fn)
    requires IsMeasured(g, points, g', st) && f in g.frames
    ensures HopsDown(st)
    ensures var path := HopPath(st, f);
      && path[0] == f && Distinct(path) && Walk(g, path) && Weight(g', path) == st.depth[f]
      && forall i :: 0 <= i < |path| - 1 ==> path[i] !in points
  {
    DepthIsRealPath(g', st, f);
    CollapsedWalk(g, points, g', HopPath(st, f));
  }

  lemma {:induction false} WeightOffPoints(g: Graph, points: set<Fn>, g': Graph, p: seq<Fn>)
    requires forall f :: Frame(g', f) == if f in points then Tail(g, f) else Frame(g, f)
    requires forall x :: x in p ==> x !in points
    ensures Weight(g', p) == Weight(g, p)
  {
    if p != [] {
      assert p[0] in p && forall x :: x in p[1..] ==> x in p;
      WeightOffPoints(g, points, g', p[1..]);
    }
  }

  /** A simple path to a scheduling point's own subtree path: the point once. */
  ghost function Graft(p: seq<Fn>, q: seq<Fn>): seq<Fn>
    requires p != []
  {
    p[..|p| - 1] + q
  }

  lemma GraftIsWalk(g: Graph, p: seq<Fn>, q: seq<Fn>)
    requires Walk(g, p) && Walk(g, q) && p[|p| - 1] == q[0]
    requires Distinct(p) && Distinct(q)
    ensures var r := Graft(p, q);
      Walk(g, r) && r[0] == p[0] && forall x :: multiset(r)[x] <= 2
  {
    var n := |p| - 1;
    JoinWalks(g, p, q);
    assert p + q[1..] == Graft(p, q);
    forall x
      ensures multiset(Graft(p, q))[x] <= 2
    {
      OccursOnce(p[..n], x);
      OccursOnce(q, x);
    }
  }

  lemma OccursOnce(p: seq<Fn>, x: Fn)
    requires Distinct(p)
    ensures multiset(p)[x] <= 1
  {
    if p != [] {
      var n := |p| - 1;
      OccursOnce(p[..n], x);
      assert p == p[..n] + [p[n]];
      assert x == p[n] ==> x !in p[..n];
    }
  }

  /** w is a call walk of the image from f that spends exactly d bytes and passes
      through no function more than twice. */
  ghost predicate SpendsAlong(g: Graph, f: Fn, d: nat, w: seq<Fn>) {
    Walk(g, w) && w[0] == f && Weight(g, w) == d && forall x :: multiset(w)[x] <= 2
  }

  /** Every reported depth is the weight of a call walk of the image itself, the
      scheduling points' subtrees included. */
  lemma DepthUnfoldsToRealWalk(g: Graph, points: set<Fn>, f: Fn) returns (w: seq<Fn>)
    requires points <= g.frames.Keys && f in g.frames
    ensures f in Measure(g, points).depth
    ensures SpendsAlong(g, f, Measure(g, points).depth[f], w)
  {
    MeasureIsMeasured(g, points);
    w := Unfold(g, points, Collapsed(g, points), Measure(g, points), f);
  }

  lemma Unfold(g: Graph, points: set<Fn>, g': Graph, st: State, f: Fn) returns (w: seq<Fn>)
    requires IsMeasured(g, points, g', st) && f in g.frames
    ensures SpendsAlong(g, f, st.depth[f], w)
  {
    PathOffPoints(g, points, g', st, f);
    w := UnfoldPath(g, points, g', HopPath(st, f));
  }

  lemma UnfoldPath(g: Graph, points: set<Fn>, g': Graph, path: seq<Fn>) returns (w: seq<Fn>)
    requires forall f :: Frame(g', f) == if f in points then Tail(g, f) else Frame(g, f)
    requires Walk(g, path) && Distinct(path)
    requires forall i :: 0 <= i < |path| - 1 ==> path[i] !in points
    ensures SpendsAlong(g, path[0], Weight(g', path), w)
  {
    if path[|path| - 1] in points {
      w := UnfoldPoint(g, points, g', path);
    } else {
      assert forall x :: x in path ==> x !in points;
      WeightOffPoints(g, points, g', path);
      forall x
        ensures multiset(path)[x] <= 2
      {
        OccursOnce(path, x);
      }
      w := path;
    }
  }

  /** The path recorded by the walk rooted at the scheduling point itself. */
  lemma TailPath(g: Graph, p: Fn) returns (t: seq<Fn>)
    ensures Walk(g, t) && t[0] == p && Distinct(t) && Weight(g, t) == Tail(g, p)
  {
    EmptySettled(g);
    WalkSettles(g, EMPTY, p);
    var below := WalkFrom(g, EMPTY, p);
    DepthIsRealPath(g, below, p);
    t := HopPath(below, p);
  }

  lemma UnfoldPoint(g: Graph, points: set<Fn>, g': Graph, path: seq<Fn>) returns (w: seq<Fn>)
    requires forall f :: Frame(g', f) == if f in points then Tail(g, f) else Frame(g, f)
    requires Walk(g, path) && Distinct(path) && path[|path| - 1] in points
    requires forall i :: 0 <= i < |path| - 1 ==> path[i] !in points
    ensures SpendsAlong(g, path[0], Weight(g', path), w)
  {
    var n := |path| - 1;
    var q := path[n];
    var tail := TailPath(g, q);
    GraftIsWalk(g, path, tail);
    WeightConcat(g, path[..n], tail);
    WeightConcat(g', path[..n], [q]);
    assert path == path[..n] + [q];
    WeightOffPoints(g, points, g', path[..n]);
    WeightOfOne(g', q);
    w := Graft(path, tail);
  }

  /** When no cycle avoids the scheduling points, every depth is the longest walk of
      the collapsed graph. */
  lemma AcyclicDepthIsLongest(g: Graph, points: set<Fn>, f: Fn, p: seq<Fn>)
    requires points <= g.frames.Keys && f in g.frames
    requires !ReachesCycle(Collapsed(g, points), f)
    requires Walk(Collapsed(g, points), p) && p[0] == f
    ensures f in Measure(g, points).depth
    ensures Weight(Collapsed(g, points), p) <= Measure(g, points).depth[f]
  {
    MeasureIsMeasured(g, points);
    RecursiveIsExact(Collapsed(g, points), Measure(g, points), f);
    UnflaggedDepthIsLongest(Collapsed(g, points), Measure(g, points), f);
  }

  // ---- the flags stop at the scheduling point ----------------------------

  /** The flag `+indirect` of f is what the image says of f. */
  ghost predicate IndirectRight(g: Graph, st: State, f: Fn) {
    f in st.crosses <==> ReachesIndirect(g, f)
  }

  /** The collapsed walk cannot see indirect calls below a scheduling point. Off the
      `recursive` functions its flag is right for every function exactly when each
      scheduling point whose subtree has an indirect call has one itself. */
  lemma IndirectRightIff(g: Graph, points: set<Fn>)
    requires points <= g.frames.Keys
    ensures var st := Measure(g, points);
      (forall f :: f in g.frames && f !in st.recursive ==> IndirectRight(g, st, f)) <==>
      (forall p :: p in points && ReachesIndirect(g, p) ==> HasIndirect(g, p))
  {
    hide Measure, Collapsed, IsMeasured, ReachesIndirect;
    MeasureIsMeasured(g, points);
    var g', st := Collapsed(g, points), Measure(g, points);
    if forall f :: f in g.frames && f !in st.recursive ==> IndirectRight(g, st, f) {
      forall p | p in points && ReachesIndirect(g, p)
        ensures HasIndirect(g, p)
      {
        PointDepth(g, points, g', st, p);
        assert IndirectRight(g, st, p);
        PointFlag(g, points, g', st, p);
      }
    }
    if forall p :: p in points && ReachesIndirect(g, p) ==> HasIndirect(g, p) {
      forall f | f in g.frames && f !in st.recursive
        ensures IndirectRight(g, st, f)
      {
        FlagIsRight(g, points, g', st, f);
      }
    }
  }

  lemma PointFlag(g: Graph, points: set<Fn>, g': Graph, st: State, p: Fn)
    requires IsMeasured(g, points, g', st) && p in points && p in st.crosses
    ensures HasIndirect(g, p)
  {
    assert Closed(g', st, p) && FlagEquations(g', st, p);
  }

  lemma FlagIsRight(g: Graph, points: set<Fn>, g': Graph, st: State, f: Fn)
    requires IsMeasured(g, points, g', st) && f in g.frames && f !in st.recursive
    requires forall p :: p in points && ReachesIndirect(g, p) ==> HasIndirect(g, p)
    ensures IndirectRight(g, st, f)
  {
    IndirectIsExact(g', st, f);
    if ReachesIndirect(g', f) {
      CollapsedReaches(g, points, g', f);
    }
    if ReachesIndirect(g, f) {
      ReachesCollapsed(g, points, g', f);
    }
  }

  lemma CollapsedReaches(g: Graph, points: set<Fn>, g': Graph, f: Fn)
    requires IsCollapse(g, points, g') && ReachesIndirect(g', f)
    ensures ReachesIndirect(g, f)
  {
    var h :| Reaches(g', f, h) && HasIndirect(g', h);
    var w :| WalkFromTo(g', w, f, h);
    CollapsedWalk(g, points, g', w);
    assert WalkFromTo(g, w, f, h);
  }

  lemma ReachesCollapsed(g: Graph, points: set<Fn>, g': Graph, f: Fn)
    requires IsCollapse(g, points, g') && ReachesIndirect(g, f)
    requires forall p :: p in points && ReachesIndirect(g, p) ==> HasIndirect(g, p)
    ensures ReachesIndirect(g', f)
  {
    var h :| Reaches(g, f, h) && HasIndirect(g, h);
    var w :| WalkFromTo(g, w, f, h);
    var k := StopAtPoint(points, w);
    var v, x := w[..k + 1], w[k];
    assert Walk(g, v) && forall i :: 0 <= i < |v| - 1 ==> v[i] !in points by {
      assert forall i :: 0 <= i < |v| - 1 ==> Edge(g, w[i], w[i + 1]);
    }
    CollapsedWalk(g, points, g', v);
    assert WalkFromTo(g', v, f, x);
    SuffixWalk(g, w, k);
    assert WalkFromTo(g, w[k..], x, h);
    assert HasIndirect(g', x);
  }

  lemma SuffixWalk(g: Graph, w: seq<Fn>, k: nat)
    requires Walk(g, w) && k < |w|
    ensures Walk(g, w[k..])
  {
    forall i | 0 <= i < |w[k..]| - 1
      ensures Edge(g, w[k..][i], w[k..][i + 1])
    {
      assert Edge(g, w[k + i], w[k + i + 1]);
    }
  }

  lemma StopAtPoint(points: set<Fn>, w: seq<Fn>) returns (k: nat)
    requires w != []
    ensures k < |w| && (forall i :: 0 <= i < k ==> w[i] !in points)
    ensures w[k] in points || k == |w| - 1
  {
    k := 0;
    while k < |w| - 1 && w[k] !in points
      invariant k < |w| && forall i :: 0 <= i < k ==> w[i] !in points
    {
      k := k + 1;
    }
  }
}
