/** What the walker's result means, for every call graph. A closed function's depth
    is the weight of a real, simple call path; the `recursive` flag is exact; and off
    the flagged functions the depth is the longest call path and `+indirect` is exact. */
module WalkerTheorems {
  import opened Options
  import opened CallGraph
  import opened WalkerSpec
  import opened WalkerInvariant

  // ---- every run settles -------------------------------------------------

  /** f has been closed or is on the stack. */
  ghost predicate Handled(m: Machine, f: Fn) {
    f in m.st.depth || Item(f, true) in m.stack || Item(f, false) in m.stack
  }

  /** What has been closed keeps its depth and its flags. */
  ghost predicate Extends(st: State, st': State) {
    forall f :: f in st.depth ==>
      && f in st'.depth && st'.depth[f] == st.depth[f]
      && (f in st'.recursive <==> f in st.recursive)
      && (f in st'.crosses <==> f in st.crosses)
  }

  ghost predicate Within(g: Graph, m: Machine, fs: set<Fn>) {
    && g.frames.Keys <= fs
    && m.st.depth.Keys <= fs
    && forall it :: it in m.stack ==> it.fn in fs
  }

  lemma StepKeepsHandled(g: Graph, m: Machine, f: Fn)
    requires GreyIsStack(m) && m.stack != [] && Handled(m, f)
    ensures Handled(Step(g, m), f)
  {
    var n := |m.stack| - 1;
    assert m.stack == m.stack[..n] + [m.stack[n]];
    var m' := Step(g, m);
    if Opening(m) {
      assert m'.stack[n] == Item(m.stack[n].fn, true);
      assert forall i :: 0 <= i < n ==> m'.stack[i] == m.stack[i];
    } else if m.stack[n] == Item(f, false) && f !in m.st.depth {
      assert Item(f, true) in m.stack && Item(f, true) in m.stack[..n];
    }
  }

  lemma StepExtends(g: Graph, m: Machine)
    requires GreyIsStack(m) && m.stack != []
    ensures Extends(m.st, Step(g, m).st)
  {
    var it := m.stack[|m.stack| - 1];
    if it.revisit {
      assert it == Item(it.fn, true) && it in m.stack;
    }
  }

  lemma StepWithin(g: Graph, m: Machine, fs: set<Fn>)
    requires m.stack != [] && Within(g, m, fs)
    ensures Within(g, Step(g, m), fs)
  {
    var n := |m.stack| - 1;
    assert m.stack[n] in m.stack;
    assert forall it :: it in m.stack[..n] ==> it in m.stack;
  }

  /** Everything a run from m is going to keep. */
  ghost predicate OnTheWay(g: Graph, m: Machine, st: State, f: Fn, fs: set<Fn>) {
    Inv(g, m) && Handled(m, f) && Within(g, m, fs) && Extends(st, m.st)
  }

  ghost predicate Arrived(g: Graph, st: State, f: Fn, fs: set<Fn>, st': State) {
    Settled(g, st') && f in st'.depth && Extends(st, st') && st'.depth.Keys <= fs
  }

  lemma StepOnTheWay(g: Graph, m: Machine, st: State, f: Fn, fs: set<Fn>)
    requires m.stack != [] && OnTheWay(g, m, st, f, fs)
    ensures OnTheWay(g, Step(g, m), st, f, fs)
  {
    StepKeepsInv(g, m);
    StepKeepsHandled(g, m, f);
    StepExtends(g, m);
    StepWithin(g, m, fs);
  }

  lemma DoneArrives(g: Graph, m: Machine, st: State, f: Fn, fs: set<Fn>)
    requires m.stack == [] && OnTheWay(g, m, st, f, fs)
    ensures Arrived(g, st, f, fs, m.st)
  {
  }

  lemma {:induction false} RunArrives(g: Graph, m: Machine, st: State, f: Fn, fs: set<Fn>)
    requires OnTheWay(g, m, st, f, fs)
    ensures Arrived(g, st, f, fs, Run(g, m))
    decreases Unvisited(g, m), |m.stack|
  {
    if m.stack == [] {
      DoneArrives(g, m, st, f, fs);
    } else {
      StepShrinks(g, m);
      StepOnTheWay(g, m, st, f, fs);
      RunArrives(g, Step(g, m), st, f, fs);
    }
  }

  lemma InitialInv(g: Graph, st: State, root: Fn)
    requires Settled(g, st)
    ensures Inv(g, Machine(st, map[], [Item(root, false)]))
  {
    hide AllClosed, Edge;
    var m := Machine(st, map[], [Item(root, false)]);
    assert Linked(g, m.stack[..0]);
  }

  /** A walk started between walks ends between walks, with its root closed. */
  lemma WalkSettles(g: Graph, st: State, root: Fn)
    requires Settled(g, st)
    ensures Settled(g, WalkFrom(g, st, root))
    ensures root in WalkFrom(g, st, root).depth
    ensures Extends(st, WalkFrom(g, st, root))
    ensures WalkFrom(g, st, root).depth.Keys <= g.frames.Keys + st.depth.Keys + {root}
  {
    InitialInv(g, st, root);
    var m := Machine(st, map[], [Item(root, false)]);
    assert m.stack[0] == Item(root, false);
    RunArrives(g, m, st, root, g.frames.Keys + st.depth.Keys + {root});
  }

  lemma EmptySettled(g: Graph)
    ensures Settled(g, EMPTY)
  {
  }

  /** The state of `walk_all` once the functions of fs have been walked. */
  ghost predicate Measured(g: Graph, st: State, fs: seq<Fn>) {
    Settled(g, st) && (forall f :: f in fs ==> f in st.depth) && st.depth.Keys <= g.frames.Keys
  }

  lemma WalkNext(g: Graph, st: State, fs: seq<Fn>)
    requires fs != [] && Measured(g, st, fs[..|fs| - 1]) && fs[|fs| - 1] in g.frames
    ensures Measured(g, WalkIfNew(g, st, fs[|fs| - 1]), fs)
  {
    hide Settled, WalkFrom;
    var k := |fs| - 1;
    assert forall f :: f in fs ==> f in fs[..k] || f == fs[k];
    if fs[k] !in st.depth {
      WalkKeys(g, st, fs[k]);
    }
  }

  lemma WalkKeys(g: Graph, st: State, root: Fn)
    requires Settled(g, st)
    ensures var st' := WalkFrom(g, st, root);
      Settled(g, st') && st.depth.Keys + {root} <= st'.depth.Keys <= g.frames.Keys + st.depth.Keys + {root}
  {
    hide Settled, WalkFrom;
    WalkSettles(g, st, root);
  }

  lemma {:induction false} WalkEachSettles(g: Graph, fs: seq<Fn>)
    requires forall f :: f in fs ==> f in g.frames
    ensures Measured(g, WalkEach(g, EMPTY, fs), fs)
  {
    if fs == [] {
      EmptySettled(g);
    } else {
      var k := |fs| - 1;
      WalkEachSettles(g, fs[..k]);
      WalkNext(g, WalkEach(g, EMPTY, fs[..k]), fs);
    }
  }

  /** `walk_all` measures exactly the functions of the image. */
  lemma WalkAllSettles(g: Graph)
    ensures Settled(g, WalkAll(g))
    ensures WalkAll(g).depth.Keys == g.frames.Keys
  {
    WalkEachSettles(g, Sorted(g.frames.Keys));
  }

  // ---- the reported depth is a real call path ----------------------------

  /** Every recorded hop was closed earlier. */
  ghost predicate HopsDown(st: State) {
    && st.depth.Keys == st.order.Keys == st.hop.Keys
    && forall f :: f in st.depth && st.hop[f].Some? ==> Before(st, st.hop[f].value, f)
  }

  ghost predicate HopsAdd(g: Graph, st: State) {
    HopsDown(st) &&
    forall f :: f in st.depth ==>
      match st.hop[f]
      case None => st.depth[f] == Frame(g, f)
      case Some(h) => Edge(g, f, h) && st.depth[f] == Frame(g, f) + st.depth[h]
  }

  lemma ClosedHops(g: Graph, st: State)
    requires AllClosed(g, st)
    ensures HopsAdd(g, st)
  {
    forall f | f in st.depth
      ensures DepthEquation(g, st, f)
    {
      assert Closed(g, st, f);
    }
  }

  /** The chain of `next_hop` from f. */
  function HopPath(st: State, f: Fn): (p: seq<Fn>)
    requires HopsDown(st) && f in st.depth
    decreases st.order[f]
  {
    match st.hop[f]
    case None => [f]
    case Some(h) => [f] + HopPath(st, h)
  }

  lemma {:induction false} HopPathOrdered(st: State, f: Fn)
    requires HopsDown(st) && f in st.depth
    ensures var p := HopPath(st, f);
      && p[0] == f
      && (forall x :: x in p ==> x in st.depth && st.order[x] <= st.order[f])
      && Distinct(p)
    decreases st.order[f]
  {
    if st.hop[f].Some? {
      var h := st.hop[f].value;
      HopPathOrdered(st, h);
      assert f !in HopPath(st, h);
    }
  }

  lemma {:induction false} HopPathAdds(g: Graph, st: State, f: Fn)
    requires HopsAdd(g, st) && f in st.depth
    ensures var p := HopPath(st, f);
      Walk(g, p) && p[0] == f && Weight(g, p) == st.depth[f]
    decreases st.order[f]
  {
    var p := HopPath(st, f);
    if st.hop[f].Some? {
      var h := st.hop[f].value;
      HopPathAdds(g, st, h);
      ConsWalk(g, f, HopPath(st, h));
      assert p[1..] == HopPath(st, h);
    } else {
      assert p[1..] == [];
    }
  }

  /** Every reported depth is the weight of the simple call path that `next_hop`
      spells out: a depth at or over the ceiling is always a real path. */
  lemma DepthIsRealPath(g: Graph, st: State, f: Fn)
    requires AllClosed(g, st) && f in st.depth
    ensures HopsDown(st)
    ensures var p := HopPath(st, f);
      Walk(g, p) && p[0] == f && Distinct(p) && Weight(g, p) == st.depth[f]
  {
    ClosedHops(g, st);
    HopPathOrdered(st, f);
    HopPathAdds(g, st, f);
  }

  // ---- exactness along the edges that were kept --------------------------

  /** A call walk that uses no cut edge. */
  ghost predicate KeptWalk(g: Graph, st: State, p: seq<Fn>) {
    p != [] && forall i :: 0 <= i < |p| - 1 ==> Kept(g, st, p[i], p[i + 1])
  }

  ghost predicate KeptReaches(g: Graph, st: State, f: Fn, h: Fn) {
    exists p :: KeptWalk(g, st, p) && p[0] == f && p[|p| - 1] == h
  }

  lemma KeptTail(g: Graph, st: State, p: seq<Fn>)
    requires KeptWalk(g, st, p) && |p| >= 2
    ensures KeptWalk(g, st, p[1..]) && Kept(g, st, p[0], p[1])
  {
    assert Kept(g, st, p[0], p[0 + 1]);
    forall i | 0 <= i < |p[1..]| - 1
      ensures Kept(g, st, p[1..][i], p[1..][i + 1])
    {
      assert Kept(g, st, p[i + 1], p[i + 1 + 1]);
    }
  }

  lemma KeptCons(g: Graph, st: State, f: Fn, c: Fn, h: Fn)
    requires Kept(g, st, f, c) && KeptReaches(g, st, c, h)
    ensures KeptReaches(g, st, f, h)
  {
    var p :| KeptWalk(g, st, p) && p[0] == c && p[|p| - 1] == h;
    var q := [f] + p;
    forall i | 0 <= i < |q| - 1
      ensures Kept(g, st, q[i], q[i + 1])
    {
      if i > 0 {
        assert Kept(g, st, p[i - 1], p[i - 1 + 1]);
      }
    }
    assert q[|q| - 1] == h;
  }

  lemma KeptSelf(g: Graph, st: State, f: Fn)
    ensures KeptReaches(g, st, f, f)
  {
    var p := [f];
    assert KeptWalk(g, st, p) && p[0] == f && p[|p| - 1] == f;
  }

  lemma KeptEdgeFacts(g: Graph, st: State, f: Fn, c: Fn)
    requires AllClosed(g, st) && f in st.depth && Kept(g, st, f, c)
    ensures c in st.depth && st.depth[f] >= Frame(g, f) + st.depth[c]
    ensures c in st.crosses ==> f in st.crosses
  {
    hide CutsAreCycles;
    assert Closed(g, st, f) && DepthEquation(g, st, f) && FlagEquations(g, st, f);
  }

  lemma OwnFacts(g: Graph, st: State, f: Fn)
    requires AllClosed(g, st) && f in st.depth
    ensures st.depth[f] >= Frame(g, f)
    ensures HasIndirect(g, f) ==> f in st.crosses
  {
    hide CutsAreCycles;
    assert Closed(g, st, f) && DepthEquation(g, st, f) && FlagEquations(g, st, f);
  }

  lemma KeptConsWalk(g: Graph, st: State, f: Fn, q: seq<Fn>)
    requires KeptWalk(g, st, q) && Kept(g, st, f, q[0])
    ensures KeptWalk(g, st, [f] + q)
  {
    hide Kept;
    var p := [f] + q;
    forall i | 0 <= i < |p| - 1
      ensures Kept(g, st, p[i], p[i + 1])
    {
      if i > 0 {
        assert Kept(g, st, q[i - 1], q[i - 1 + 1]);
      }
    }
  }

  /** The chain of `next_hop` runs over kept edges. */
  lemma {:induction false} HopPathIsKept(g: Graph, st: State, f: Fn)
    requires HopsAdd(g, st) && f in st.depth
    ensures KeptWalk(g, st, HopPath(st, f))
    decreases st.order[f]
  {
    hide KeptWalk;
    if st.hop[f].Some? {
      var h := st.hop[f].value;
      HopPathIsKept(g, st, h);
      assert HopPath(st, h)[0] == h;
      KeptConsWalk(g, st, f, HopPath(st, h));
    } else {
      JustOne(g, st, f);
    }
  }

  lemma JustOne(g: Graph, st: State, f: Fn)
    ensures KeptWalk(g, st, [f])
  {
  }

  lemma {:induction false} KeptPrefix(g: Graph, st: State, p: seq<Fn>, i: nat)
    requires KeptWalk(g, st, p) && i < |p|
    ensures KeptReaches(g, st, p[0], p[i])
  {
    var q := p[..i + 1];
    assert forall k :: 0 <= k < |q| - 1 ==> Kept(g, st, p[k], p[k + 1]);
    assert KeptWalk(g, st, q) && q[0] == p[0] && q[|q| - 1] == p[i];
  }

  /** No call walk over kept edges is heavier than the reported depth. */
  lemma {:induction false} KeptWalksAreBounded(g: Graph, st: State, p: seq<Fn>)
    requires AllClosed(g, st) && KeptWalk(g, st, p) && p[0] in st.depth
    ensures Weight(g, p) <= st.depth[p[0]]
    decreases |p|
  {
    hide AllClosed, Frame;
    if |p| >= 2 {
      KeptTail(g, st, p);
      KeptEdgeFacts(g, st, p[0], p[1]);
      KeptWalksAreBounded(g, st, p[1..]);
    } else {
      assert p[1..] == [];
      OwnFacts(g, st, p[0]);
    }
  }

  lemma KeptImpliesReaches(g: Graph, st: State, f: Fn, h: Fn)
    requires KeptReaches(g, st, f, h)
    ensures Reaches(g, f, h)
  {
    var p :| KeptWalk(g, st, p) && p[0] == f && p[|p| - 1] == h;
    assert forall i :: 0 <= i < |p| - 1 ==> Kept(g, st, p[i], p[i + 1]) && Edge(g, p[i], p[i + 1]);
    assert WalkFromTo(g, p, f, h);
  }

  lemma {:induction false} CrossesHasWitness(g: Graph, st: State, f: Fn) returns (h: Fn)
    requires AllClosed(g, st) && f in st.crosses
    ensures KeptReaches(g, st, f, h) && HasIndirect(g, h)
    decreases st.order[f]
  {
    assert Closed(g, st, f);
    if HasIndirect(g, f) {
      KeptSelf(g, st, f);
      h := f;
    } else {
      var c :| Kept(g, st, f, c) && c in st.crosses;
      h := CrossesHasWitness(g, st, c);
      KeptCons(g, st, f, c, h);
    }
  }

  lemma {:induction false} CrossesPropagates(g: Graph, st: State, p: seq<Fn>)
    requires AllClosed(g, st) && KeptWalk(g, st, p) && p[0] in st.depth
    requires HasIndirect(g, p[|p| - 1])
    ensures p[0] in st.crosses
    decreases |p|
  {
    hide AllClosed;
    if |p| >= 2 {
      KeptTail(g, st, p);
      KeptEdgeFacts(g, st, p[0], p[1]);
      CrossesPropagates(g, st, p[1..]);
    } else {
      OwnFacts(g, st, p[0]);
    }
  }

  /** `+indirect` says exactly: a kept call walk leads to an unresolved indirect call. */
  lemma CrossesIsKeptReach(g: Graph, st: State, f: Fn)
    requires AllClosed(g, st) && f in st.depth
    ensures f in st.crosses <==> exists h :: KeptReaches(g, st, f, h) && HasIndirect(g, h)
  {
    if f in st.crosses {
      var h := CrossesHasWitness(g, st, f);
    }
    forall h | KeptReaches(g, st, f, h) && HasIndirect(g, h)
      ensures f in st.crosses
    {
      var p :| KeptWalk(g, st, p) && p[0] == f && p[|p| - 1] == h;
      CrossesPropagates(g, st, p);
    }
  }

  // ---- the recursive flag ------------------------------------------------

  lemma {:induction false} FlaggedReachesCycle(g: Graph, st: State, f: Fn)
    requires AllClosed(g, st) && f in st.recursive
    ensures ReachesCycle(g, f)
    decreases st.order[f]
  {
    assert Closed(g, st, f);
    var c :| Edge(g, f, c) && (!Before(st, c, f) || c in st.recursive);
    if !Before(st, c, f) {
      ReachesThenEdgeBackIsCycle(g, f, c);
      ReachesSelf(g, f);
    } else {
      FlaggedReachesCycle(g, st, c);
      var h :| Reaches(g, c, h) && OnCycle(g, h);
      EdgeThenReaches(g, f, c, h);
    }
  }

  /** The unflagged functions are closed under calls, and none of their calls is cut. */
  ghost predicate UnflaggedUncut(g: Graph, st: State) {
    forall f, c :: f in st.depth && f !in st.recursive && Edge(g, f, c) ==>
      Before(st, c, f) && c in st.depth && c !in st.recursive
  }

  lemma ClosedUncut(g: Graph, st: State)
    requires AllClosed(g, st)
    ensures UnflaggedUncut(g, st)
  {
    forall f, c | f in st.depth && f !in st.recursive && Edge(g, f, c)
      ensures Before(st, c, f) && c in st.depth && c !in st.recursive
    {
      assert Closed(g, st, f) && FlagEquations(g, st, f);
    }
  }

  /** From an unflagged function every call walk uses kept edges only, and closes
      functions in strictly decreasing order. */
  lemma {:induction false} UncutWalk(g: Graph, st: State, p: seq<Fn>)
    requires UnflaggedUncut(g, st) && Walk(g, p) && p[0] in st.depth && p[0] !in st.recursive
    ensures KeptWalk(g, st, p)
    ensures p[|p| - 1] in st.depth && p[|p| - 1] !in st.recursive
    ensures |p| >= 2 ==> Before(st, p[|p| - 1], p[0])
    decreases |p|
  {
    if |p| >= 2 {
      TailWalk(g, p);
      assert Edge(g, p[0], p[1]);
      UncutWalk(g, st, p[1..]);
      forall i | 0 <= i < |p| - 1
        ensures Kept(g, st, p[i], p[i + 1])
      {
        if i > 0 {
          assert Kept(g, st, p[1..][i - 1], p[1..][i - 1 + 1]);
        }
      }
    }
  }

  lemma UnflaggedWalk(g: Graph, st: State, p: seq<Fn>)
    requires AllClosed(g, st) && Walk(g, p) && p[0] in st.depth && p[0] !in st.recursive
    ensures KeptWalk(g, st, p)
    ensures p[|p| - 1] in st.depth && p[|p| - 1] !in st.recursive
    ensures |p| >= 2 ==> Before(st, p[|p| - 1], p[0])
  {
    ClosedUncut(g, st);
    UncutWalk(g, st, p);
  }

  /** A function is flagged `recursive` exactly when a cycle is reachable from it. */
  lemma RecursiveIsExact(g: Graph, st: State, f: Fn)
    requires AllClosed(g, st) && f in st.depth
    ensures f in st.recursive <==> ReachesCycle(g, f)
  {
    if f in st.recursive {
      FlaggedReachesCycle(g, st, f);
    } else if ReachesCycle(g, f) {
      var h :| Reaches(g, f, h) && OnCycle(g, h);
      var p :| WalkFromTo(g, p, f, h);
      UnflaggedWalk(g, st, p);
      var q :| WalkFromTo(g, q, h, h) && |q| >= 2;
      UnflaggedWalk(g, st, q);
    }
  }

  // ---- off the flagged functions -----------------------------------------

  /** Without the `recursive` flag, the depth is the weight of the heaviest call walk. */
  lemma UnflaggedDepthIsLongest(g: Graph, st: State, f: Fn)
    requires AllClosed(g, st) && f in st.depth && f !in st.recursive
    ensures exists p :: Walk(g, p) && p[0] == f && Weight(g, p) == st.depth[f]
    ensures forall p :: Walk(g, p) && p[0] == f ==> Weight(g, p) <= st.depth[f]
  {
    DepthIsRealPath(g, st, f);
    forall p | Walk(g, p) && p[0] == f
      ensures Weight(g, p) <= st.depth[f]
    {
      UnflaggedWalk(g, st, p);
      KeptWalksAreBounded(g, st, p);
    }
  }

  /** Without the `recursive` flag, `+indirect` is exact; with it, it is still sound. */
  lemma IndirectIsExact(g: Graph, st: State, f: Fn)
    requires AllClosed(g, st) && f in st.depth
    ensures f in st.crosses ==> ReachesIndirect(g, f)
    ensures f !in st.recursive ==> (f in st.crosses <==> ReachesIndirect(g, f))
  {
    if f in st.crosses {
      var h := CrossesHasWitness(g, st, f);
      KeptImpliesReaches(g, st, f, h);
    }
    if f !in st.recursive && ReachesIndirect(g, f) {
      var h :| Reaches(g, f, h) && HasIndirect(g, h);
      var p :| WalkFromTo(g, p, f, h);
      UnflaggedWalk(g, st, p);
      CrossesPropagates(g, st, p);
    }
  }

  /** A function with no known callee costs its own frame and carries only its own flag. */
  lemma LeafFacts(g: Graph, st: State, f: Fn)
    requires AllClosed(g, st) && f in st.depth && forall c :: !Edge(g, f, c)
    ensures st.depth[f] == Frame(g, f) && f !in st.recursive
    ensures f in st.crosses <==> HasIndirect(g, f)
  {
    hide CutsAreCycles, Reaches, Frame, HasIndirect;
    assert Closed(g, st, f) && DepthEquation(g, st, f) && FlagEquations(g, st, f);
  }

  // ---- the gate's own walk -----------------------------------------------

  /** On every call graph, each depth `walk_all` reports is spent along a simple call path. */
  lemma EveryDepthIsReal(g: Graph, f: Fn) returns (p: seq<Fn>)
    requires f in g.frames
    ensures Walk(g, p) && p[0] == f && Distinct(p)
    ensures f in WalkAll(g).depth && Weight(g, p) == WalkAll(g).depth[f]
  {
    hide WalkAll;
    WalkAllSettles(g);
    DepthIsRealPath(g, WalkAll(g), f);
    p := HopPath(WalkAll(g), f);
  }

  /** On every call graph, `recursive` is exactly the set of functions that reach a cycle. */
  lemma RecursiveSet(g: Graph, f: Fn)
    ensures f in WalkAll(g).recursive <==> f in g.frames && ReachesCycle(g, f)
  {
    hide WalkAll;
    WalkAllSettles(g);
    if f in g.frames {
      RecursiveIsExact(g, WalkAll(g), f);
    }
  }

  /** Of a function that reaches no cycle, the depth is the longest call path. */
  lemma LongestOffCycles(g: Graph, f: Fn, p: seq<Fn>)
    requires f in g.frames && !ReachesCycle(g, f)
    requires Walk(g, p) && p[0] == f
    ensures f in WalkAll(g).depth && Weight(g, p) <= WalkAll(g).depth[f]
  {
    hide WalkAll;
    WalkAllSettles(g);
    RecursiveIsExact(g, WalkAll(g), f);
    UnflaggedDepthIsLongest(g, WalkAll(g), f);
  }

  /** `+indirect` never lies, and off the cycles it misses nothing. */
  lemma IndirectSet(g: Graph, f: Fn)
    requires f in g.frames
    ensures f in WalkAll(g).crosses ==> ReachesIndirect(g, f)
    ensures !ReachesCycle(g, f) ==> (f in WalkAll(g).crosses <==> ReachesIndirect(g, f))
  {
    hide WalkAll;
    WalkAllSettles(g);
    RecursiveIsExact(g, WalkAll(g), f);
    IndirectIsExact(g, WalkAll(g), f);
  }
}
