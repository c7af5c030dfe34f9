/** What every iteration of the walker keeps, on every call graph, cyclic or not:
    the grey functions are exactly the chain of ancestors on the stack, every callee
    of an open function is closed, grey or still pending above it, and every closed
    function satisfies the equations of `Closed`. */
module WalkerInvariant {
  import opened Options
  import opened CallGraph
  import opened WalkerSpec

  /** c was closed before f. */
  predicate Before(st: State, c: Fn, f: Fn) {
    c in st.order && f in st.order && st.order[c] < st.order[f]
  }

  /** A call of f that was followed when f was closed; the other edges were cut. */
  predicate Kept(g: Graph, st: State, f: Fn, c: Fn) {
    Edge(g, f, c) && Before(st, c, f)
  }

  ghost predicate Recorded(st: State) {
    && st.depth.Keys == st.order.Keys == st.hop.Keys
    && st.recursive <= st.depth.Keys
    && st.crosses <= st.depth.Keys
    && (forall f :: f in st.order ==> st.order[f] < |st.order|)
    && (forall f, h :: f in st.order && h in st.order && f != h ==> st.order[f] != st.order[h])
  }

  ghost predicate DepthEquation(g: Graph, st: State, f: Fn)
    requires Recorded(st) && f in st.depth
  {
    && (forall c :: Kept(g, st, f, c) ==> st.depth[f] >= Frame(g, f) + st.depth[c])
    && (match st.hop[f]
        case None => st.depth[f] == Frame(g, f)
        case Some(h) => Kept(g, st, f, h) && st.depth[f] == Frame(g, f) + st.depth[h])
  }

  ghost predicate FlagEquations(g: Graph, st: State, f: Fn) {
    && (f in st.recursive <==> exists c :: Edge(g, f, c) && (!Before(st, c, f) || c in st.recursive))
    && (f in st.crosses <==> HasIndirect(g, f) || exists c :: Kept(g, st, f, c) && c in st.crosses)
  }

  /** Every cut edge closes a cycle. */
  ghost predicate CutsAreCycles(g: Graph, st: State, f: Fn) {
    forall c :: Edge(g, f, c) && !Before(st, c, f) ==> Reaches(g, c, f)
  }

  ghost predicate Closed(g: Graph, st: State, f: Fn)
    requires Recorded(st) && f in st.depth
  {
    DepthEquation(g, st, f) && FlagEquations(g, st, f) && CutsAreCycles(g, st, f)
  }

  ghost predicate AllClosed(g: Graph, st: State) {
    Recorded(st) && forall f :: f in st.depth ==> Closed(g, st, f)
  }

  /** The state between two walks: everything recorded is closed, and so are its callees. */
  ghost predicate Settled(g: Graph, st: State) {
    && AllClosed(g, st)
    && forall f, c :: f in st.depth && Edge(g, f, c) ==> c in st.depth
  }

  // ---- the stack ---------------------------------------------------------

  ghost predicate PendingAbove(stack: seq<Item>, i: int, c: Fn) {
    exists k :: i < k < |stack| && 0 <= k && stack[k] == Item(c, false)
  }

  ghost predicate Covered(g: Graph, m: Machine) {
    forall i, c :: 0 <= i < |m.stack| && m.stack[i].revisit && Edge(g, m.stack[i].fn, c) ==>
      c in m.st.depth || IsGrey(m.colour, c) || PendingAbove(m.stack, i, c)
  }

  ghost predicate GreyIsStack(m: Machine) {
    && (forall f :: IsGrey(m.colour, f) <==> Item(f, true) in m.stack)
    && (forall f :: IsGrey(m.colour, f) ==> f !in m.st.depth)
    && (forall i, j :: 0 <= i < j < |m.stack| && m.stack[i].revisit && m.stack[j].revisit ==>
          m.stack[i].fn != m.stack[j].fn)
  }

  /** The innermost open function. */
  function TopGrey(stack: seq<Item>): Option<Fn> {
    if stack == [] then None
    else if stack[|stack| - 1].revisit then Some(stack[|stack| - 1].fn)
    else TopGrey(stack[..|stack| - 1])
  }

  /** Every item is a callee of the open function below it. */
  ghost predicate Linked(g: Graph, stack: seq<Item>) {
    stack == [] ||
    var n := |stack| - 1;
    Linked(g, stack[..n]) &&
    match TopGrey(stack[..n]) case None => true case Some(p) => Edge(g, p, stack[n].fn)
  }

  ghost predicate CalleesSeen(g: Graph, m: Machine) {
    forall f, c :: f in m.st.depth && Edge(g, f, c) ==> c in m.st.depth || IsGrey(m.colour, c)
  }

  ghost predicate Inv(g: Graph, m: Machine) {
    && AllClosed(g, m.st)
    && CalleesSeen(g, m)
    && GreyIsStack(m)
    && Covered(g, m)
    && Linked(g, m.stack)
  }

  // ---- the ancestor chain ------------------------------------------------

  lemma {:induction false} GreyReachesTop(g: Graph, stack: seq<Item>, f: Fn)
    requires Linked(g, stack) && Item(f, true) in stack
    ensures TopGrey(stack).Some? && Reaches(g, f, TopGrey(stack).value)
  {
    var n := |stack| - 1;
    if stack[n] == Item(f, true) {
      ReachesSelf(g, f);
    } else {
      assert Item(f, true) in stack[..n];
      GreyReachesTop(g, stack[..n], f);
      if stack[n].revisit {
        var p := TopGrey(stack[..n]).value;
        ReachesEdge(g, p, stack[n].fn);
        ReachesTrans(g, f, p, stack[n].fn);
      }
    }
  }

  lemma {:induction false} LinkedAppend(g: Graph, stack: seq<Item>, items: seq<Item>, t: Fn)
    requires Linked(g, stack) && TopGrey(stack) == Some(t)
    requires forall it :: it in items ==> !it.revisit && Edge(g, t, it.fn)
    ensures Linked(g, stack + items) && TopGrey(stack + items) == Some(t)
  {
    if items == [] {
      assert stack + items == stack;
    } else {
      var k := |items| - 1;
      LinkedAppend(g, stack, items[..k], t);
      var whole := stack + items;
      assert whole[..|whole| - 1] == stack + items[..k];
      assert whole[|whole| - 1] == items[k];
    }
  }

  // ---- closing -----------------------------------------------------------

  /** A callee considered when f is closed. */
  predicate Followed(g: Graph, colour: map<Fn, Colour>, cs: seq<Fn>, c: Fn) {
    c in cs && c in g.frames && !IsGrey(colour, c)
  }

  lemma {:induction false} ScanDepth(g: Graph, st: State, colour: map<Fn, Colour>, f: Fn, cs: seq<Fn>)
    ensures var acc := Scan(g, st, colour, f, cs);
      && (forall c :: Followed(g, colour, cs, c) ==> DepthOf(st, c) <= acc.best)
      && (acc.hop.None? ==> acc.best == 0)
      && (acc.hop.Some? ==> Followed(g, colour, cs, acc.hop.value) && acc.best == DepthOf(st, acc.hop.value))
  {
    if cs != [] {
      var k := |cs| - 1;
      ScanDepth(g, st, colour, f, cs[..k]);
      assert forall c :: Followed(g, colour, cs, c) <==>
        Followed(g, colour, cs[..k], c) || (c == cs[k] && c in g.frames && !IsGrey(colour, c));
    }
  }

  lemma {:induction false} ScanFlags(g: Graph, st: State, colour: map<Fn, Colour>, f: Fn, cs: seq<Fn>)
    ensures var acc := Scan(g, st, colour, f, cs);
      && (acc.rec <==> exists c :: c in cs && c in g.frames && (IsGrey(colour, c) || c in st.recursive))
      && (acc.ind <==> HasIndirect(g, f) || exists c :: Followed(g, colour, cs, c) && c in st.crosses)
  {
    if cs != [] {
      var k := |cs| - 1;
      ScanFlags(g, st, colour, f, cs[..k]);
      assert forall c :: c in cs <==> c in cs[..k] || c == cs[k];
      assert forall c :: Followed(g, colour, cs, c) <==>
        Followed(g, colour, cs[..k], c) || (c == cs[k] && c in g.frames && !IsGrey(colour, c));
    }
  }

  /** The situation when (f, revisit) is popped. */
  ghost predicate ReadyToClose(g: Graph, m: Machine, f: Fn) {
    && AllClosed(g, m.st)
    && f !in m.st.depth
    && (forall c :: Edge(g, f, c) ==> (c in m.st.depth <==> !IsGrey(m.colour, c)))
    && (forall c :: Edge(g, f, c) && IsGrey(m.colour, c) ==> Reaches(g, c, f))
  }

  lemma PoppedIsReady(g: Graph, m: Machine)
    requires Inv(g, m) && m.stack != [] && m.stack[|m.stack| - 1].revisit
    ensures ReadyToClose(g, m, m.stack[|m.stack| - 1].fn)
  {
    var n := |m.stack| - 1;
    var f := m.stack[n].fn;
    assert m.stack[n] == Item(f, true) && Item(f, true) in m.stack;
    assert IsGrey(m.colour, f);
    forall c | Edge(g, f, c)
      ensures c in m.st.depth <==> !IsGrey(m.colour, c)
      ensures IsGrey(m.colour, c) ==> Reaches(g, c, f)
    {
      assert m.stack[n].revisit && !PendingAbove(m.stack, n, c);
      if IsGrey(m.colour, c) {
        GreyReachesTop(g, m.stack, c);
      }
    }
  }

  lemma Extended<V>(m: map<Fn, V>, f: Fn, v: V)
    requires f !in m
    ensures m[f := v].Keys == m.Keys + {f} && |m[f := v]| == |m| + 1
  {
    assert m[f := v].Keys == m.Keys + {f};
    assert |m.Keys + {f}| == |m.Keys| + 1;
  }

  lemma CloseRecorded(g: Graph, st: State, f: Fn, acc: Acc)
    requires Recorded(st) && f !in st.depth
    ensures Recorded(CloseWith(g, st, f, acc))
  {
    hide Recorded, Frame;
    RecordedKeys(st);
    Extended(st.order, f, |st.order|);
    Extended(st.depth, f, Frame(g, f) + acc.best);
    Extended(st.hop, f, acc.hop);
    OneMoreRecorded(st, CloseWith(g, st, f, acc), f);
  }

  lemma RecordedKeys(st: State)
    requires Recorded(st)
    ensures st.depth.Keys == st.order.Keys == st.hop.Keys
  {
  }

  lemma OneMoreRecorded(st: State, st': State, f: Fn)
    requires Recorded(st) && f !in st.order && st'.order == st.order[f := |st.order|] && |st'.order| == |st.order| + 1
    requires st'.depth.Keys == st'.order.Keys == st'.hop.Keys == st.depth.Keys + {f}
    requires st'.recursive <= st.recursive + {f} && st'.crosses <= st.crosses + {f}
    ensures Recorded(st')
  {
  }

  /** Closing f leaves the order among the others alone and puts f last. */
  lemma CloseBefore(g: Graph, st: State, f: Fn, acc: Acc, c: Fn, h: Fn)
    requires Recorded(st) && f !in st.depth
    ensures h in st.depth ==> (Before(CloseWith(g, st, f, acc), c, h) <==> Before(st, c, h))
    ensures Before(CloseWith(g, st, f, acc), c, f) <==> c in st.depth
  {
    hide Frame, Edge;
  }

  /** st' agrees with st about h and about everything closed before h. */
  ghost predicate SameAround(st: State, st': State, h: Fn) {
    && h in st.depth && h in st'.depth && st'.depth[h] == st.depth[h]
    && h in st.hop && h in st'.hop && st'.hop[h] == st.hop[h]
    && (h in st'.recursive <==> h in st.recursive) && (h in st'.crosses <==> h in st.crosses)
    && forall c ::
      && (Before(st', c, h) <==> Before(st, c, h))
      && (Before(st, c, h) ==>
            && c in st.depth && c in st'.depth && st'.depth[c] == st.depth[c]
            && (c in st'.recursive <==> c in st.recursive) && (c in st'.crosses <==> c in st.crosses))
  }

  lemma CloseIsSameAround(g: Graph, st: State, f: Fn, acc: Acc, h: Fn)
    requires Recorded(st) && f !in st.depth && h in st.depth
    ensures SameAround(st, CloseWith(g, st, f, acc), h)
  {
    hide Frame;
    forall c
      ensures Before(CloseWith(g, st, f, acc), c, h) <==> Before(st, c, h)
    {
      CloseBefore(g, st, f, acc, c, h);
    }
  }

  lemma CloseKeepsClosed(g: Graph, st: State, f: Fn, acc: Acc, h: Fn)
    requires Recorded(st) && f !in st.depth && Recorded(CloseWith(g, st, f, acc))
    requires h in st.depth && Closed(g, st, h)
    ensures Closed(g, CloseWith(g, st, f, acc), h)
  {
    hide Reaches, HasIndirect, Frame, Recorded, Edge, Before;
    CloseIsSameAround(g, st, f, acc, h);
    assert forall c :: Kept(g, CloseWith(g, st, f, acc), h, c) <==> Kept(g, st, h, c);
  }

  /** The summary `Scan` computes, in terms of the edges that closing f will keep. */
  ghost predicate Summarizes(g: Graph, st: State, f: Fn, acc: Acc) {
    && (forall c :: Edge(g, f, c) && c in st.depth ==> st.depth[c] <= acc.best)
    && (acc.hop.None? ==> acc.best == 0)
    && (acc.hop.Some? ==>
          var h := acc.hop.value; Edge(g, f, h) && h in st.depth && acc.best == st.depth[h])
    && (acc.rec <==> exists c :: Edge(g, f, c) && (c !in st.depth || c in st.recursive))
    && (acc.ind <==> HasIndirect(g, f) || exists c :: Edge(g, f, c) && c in st.depth && c in st.crosses)
  }

  lemma ScanSummarizes(g: Graph, m: Machine, f: Fn)
    requires ReadyToClose(g, m, f)
    ensures Summarizes(g, m.st, f, Scan(g, m.st, m.colour, f, Sorted(Callees(g, f))))
  {
    var st, cs := m.st, Sorted(Callees(g, f));
    ScanDepth(g, st, m.colour, f, cs);
    ScanFlags(g, st, m.colour, f, cs);
    assert forall c :: Edge(g, f, c) <==> c in cs && c in g.frames;
    assert forall c :: Followed(g, m.colour, cs, c) <==> Edge(g, f, c) && c in st.depth;
  }

  lemma CloseCloses(g: Graph, st: State, f: Fn, acc: Acc)
    requires Recorded(st) && f !in st.depth && Recorded(CloseWith(g, st, f, acc))
    requires Summarizes(g, st, f, acc)
    requires forall c :: Edge(g, f, c) && c !in st.depth ==> Reaches(g, c, f)
    ensures Closed(g, CloseWith(g, st, f, acc), f)
  {
    hide FlagEquations, Reaches, HasIndirect, Edge, Before, Recorded;
    var st' := CloseWith(g, st, f, acc);
    forall c
      ensures Before(st', c, f) <==> c in st.depth
    {
      CloseBefore(g, st, f, acc, c, f);
    }
    assert DepthEquation(g, st', f);
    CloseFlags(g, st, f, acc);
  }

  lemma CloseFlags(g: Graph, st: State, f: Fn, acc: Acc)
    requires Recorded(st) && f !in st.depth
    requires Summarizes(g, st, f, acc)
    requires forall c :: Before(CloseWith(g, st, f, acc), c, f) <==> c in st.depth
    ensures FlagEquations(g, CloseWith(g, st, f, acc), f)
  {
    hide Frame, Reaches, HasIndirect, Edge, Before;
    var st' := CloseWith(g, st, f, acc);
    assert forall c :: Edge(g, f, c) && c in st.depth ==> (c in st'.recursive <==> c in st.recursive);
    assert forall c :: Kept(g, st', f, c) <==> Edge(g, f, c) && c in st.depth;
    assert forall c :: c in st.depth ==> (c in st'.crosses <==> c in st.crosses);
  }

  lemma CloseAllClosed(g: Graph, st: State, f: Fn, acc: Acc)
    requires AllClosed(g, st) && f !in st.depth && Summarizes(g, st, f, acc)
    requires forall c :: Edge(g, f, c) && c !in st.depth ==> Reaches(g, c, f)
    ensures AllClosed(g, CloseWith(g, st, f, acc))
  {
    var st' := CloseWith(g, st, f, acc);
    CloseRecorded(g, st, f, acc);
    forall h | h in st'.depth
      ensures Closed(g, st', h)
    {
      if h == f {
        CloseCloses(g, st, f, acc);
      } else {
        CloseKeepsClosed(g, st, f, acc, h);
      }
    }
  }

  lemma StepCloseKeepsInv(g: Graph, m: Machine)
    requires Inv(g, m) && m.stack != [] && m.stack[|m.stack| - 1].revisit
    ensures Inv(g, Step(g, m))
  {
    var n := |m.stack| - 1;
    var f := m.stack[n].fn;
    PoppedIsReady(g, m);
    ScanSummarizes(g, m, f);
    CloseAllClosed(g, m.st, f, Scan(g, m.st, m.colour, f, Sorted(Callees(g, f))));
    StepCloseKeepsStack(g, m);
  }

  /** Popping keeps coverage when the popped item is closed or grey afterwards. */
  lemma PopKeepsCovered(g: Graph, m: Machine, m': Machine)
    requires m.stack != [] && m'.stack == m.stack[..|m.stack| - 1] && Covered(g, m)
    requires forall c :: c in m.st.depth || IsGrey(m.colour, c) ==> c in m'.st.depth || IsGrey(m'.colour, c)
    requires var f := m.stack[|m.stack| - 1].fn; f in m'.st.depth || IsGrey(m'.colour, f)
    ensures Covered(g, m')
  {
    var n := |m.stack| - 1;
    forall i, c | 0 <= i < n && m'.stack[i].revisit && Edge(g, m'.stack[i].fn, c)
      ensures c in m'.st.depth || IsGrey(m'.colour, c) || PendingAbove(m'.stack, i, c)
    {
      assert m.stack[i] == m'.stack[i];
      if PendingAbove(m.stack, i, c) {
        var k :| i < k < |m.stack| && 0 <= k && m.stack[k] == Item(c, false);
        if k < n {
          assert m'.stack[k] == Item(c, false);
        }
      }
    }
  }

  lemma StepCloseKeepsStack(g: Graph, m: Machine)
    requires Inv(g, m) && m.stack != [] && m.stack[|m.stack| - 1].revisit
    ensures var m' := Step(g, m);
      CalleesSeen(g, m') && GreyIsStack(m') && Covered(g, m') && Linked(g, m'.stack)
  {
    hide AllClosed, Scan, Sorted, Pushes, Frame;
    var n := |m.stack| - 1;
    var f, m' := m.stack[n].fn, Step(g, m);
    PoppedIsReady(g, m);
    assert m.stack == m'.stack + [Item(f, true)];
    forall h
      ensures IsGrey(m'.colour, h) <==> Item(h, true) in m'.stack
    {
      assert m.stack[n] == Item(f, true);
      assert Item(h, true) in m.stack <==> Item(h, true) in m'.stack || h == f;
    }
    PopKeepsCovered(g, m, m');
  }

  // ---- skipping and opening ----------------------------------------------

  lemma StepSkipKeepsInv(g: Graph, m: Machine)
    requires Inv(g, m) && m.stack != []
    requires var it := m.stack[|m.stack| - 1];
      !it.revisit && (it.fn in m.st.depth || IsGrey(m.colour, it.fn))
    ensures Inv(g, Step(g, m))
  {
    PopKeepsCovered(g, m, Step(g, m));
    SkipKeepsGrey(m, Step(g, m));
  }

  lemma SkipKeepsGrey(m: Machine, m': Machine)
    requires GreyIsStack(m) && m.stack != [] && !m.stack[|m.stack| - 1].revisit
    requires m' == m.(stack := m.stack[..|m.stack| - 1])
    ensures GreyIsStack(m')
  {
    assert m.stack == m'.stack + [m.stack[|m.stack| - 1]];
    assert forall h :: Item(h, true) in m.stack <==> Item(h, true) in m'.stack;
  }

  ghost predicate Opening(m: Machine) {
    m.stack != [] &&
    var it := m.stack[|m.stack| - 1];
    !it.revisit && it.fn !in m.st.depth && !IsGrey(m.colour, it.fn)
  }

  /** The stack after opening f, in parts. */
  ghost function Pushed(g: Graph, m: Machine, f: Fn): seq<Item> {
    Pushes(g, m.st, m.colour[f := Grey], Sorted(Callees(g, f)))
  }

  lemma OpenedDistinct(stack: seq<Item>, rest: seq<Item>, f: Fn, pushed: seq<Item>)
    requires forall i, j :: 0 <= i < j < |rest| && rest[i].revisit && rest[j].revisit ==> rest[i].fn != rest[j].fn
    requires Item(f, true) !in rest
    requires forall it :: it in pushed ==> !it.revisit
    requires stack == rest + [Item(f, true)] + pushed
    ensures forall i, j :: 0 <= i < j < |stack| && stack[i].revisit && stack[j].revisit ==> stack[i].fn != stack[j].fn
  {
    var n := |rest|;
    forall i | 0 <= i < |stack|
      ensures i < n ==> stack[i] == rest[i] && stack[i] in rest
      ensures i == n ==> stack[i] == Item(f, true)
      ensures i > n ==> !stack[i].revisit
    {
      if i > n {
        assert stack[i] == pushed[i - n - 1];
      }
    }
    forall i, j | 0 <= i < j < |stack| && stack[i].revisit && stack[j].revisit
      ensures stack[i].fn != stack[j].fn
    {
      assert j <= n && stack[i] in rest;
    }
  }

  lemma StepOpenKeepsGrey(g: Graph, m: Machine)
    requires GreyIsStack(m) && CalleesSeen(g, m) && Opening(m)
    ensures GreyIsStack(Step(g, m)) && CalleesSeen(g, Step(g, m))
  {
    var n := |m.stack| - 1;
    var f, m', rest := m.stack[n].fn, Step(g, m), m.stack[..n];
    assert m.stack == rest + [Item(f, false)];
    forall h
      ensures Item(h, true) in m'.stack <==> Item(h, true) in m.stack || h == f
    {
    }
    OpenedDistinct(m'.stack, rest, f, Pushed(g, m, f));
  }

  lemma StepOpenKeepsCovered(g: Graph, m: Machine)
    requires Covered(g, m) && Opening(m)
    ensures Covered(g, Step(g, m))
  {
    hide Edge;
    var n := |m.stack| - 1;
    var m' := Step(g, m);
    StackAfterOpening(g, m);
    hide Step;
    forall i, c | 0 <= i < |m'.stack| && m'.stack[i].revisit && Edge(g, m'.stack[i].fn, c)
      ensures c in m'.st.depth || IsGrey(m'.colour, c) || PendingAbove(m'.stack, i, c)
    {
      if i == n {
        NewlyPending(g, m, c);
      } else {
        assert m.stack[i] == m'.stack[i];
        if PendingAbove(m.stack, i, c) {
          var k :| i < k < |m.stack| && 0 <= k && m.stack[k] == Item(c, false);
          if k < n {
            assert m'.stack[k] == Item(c, false);
          }
        }
      }
    }
  }

  lemma StackAfterOpening(g: Graph, m: Machine)
    requires Opening(m)
    ensures var m', n := Step(g, m), |m.stack| - 1;
      && |m'.stack| > n && m'.stack[..n] == m.stack[..n] && m'.stack[n] == Item(m.stack[n].fn, true)
      && (forall i :: n < i < |m'.stack| ==> !m'.stack[i].revisit)
      && m'.st == m.st && m'.colour == m.colour[m.stack[n].fn := Grey]
      && (forall i :: 0 <= i < n ==> m'.stack[i] == m.stack[i])
  {
    hide Edge, Sorted;
    var n := |m.stack| - 1;
    var m', pushed := Step(g, m), Pushed(g, m, m.stack[n].fn);
    forall i | n < i < |m'.stack|
      ensures !m'.stack[i].revisit
    {
      assert m'.stack[i] == pushed[i - n - 1] && m'.stack[i] in pushed;
    }
  }

  lemma NewlyPending(g: Graph, m: Machine, c: Fn)
    requires Opening(m) && Edge(g, m.stack[|m.stack| - 1].fn, c)
    ensures var m' := Step(g, m);
      c in m'.st.depth || IsGrey(m'.colour, c) || PendingAbove(m'.stack, |m.stack| - 1, c)
  {
    hide Sorted;
    var n := |m.stack| - 1;
    var f, m' := m.stack[n].fn, Step(g, m);
    if Pushable(g, m.st, m'.colour, c) {
      var pushed := Pushed(g, m, f);
      assert Item(c, false) in pushed;
      var k :| 0 <= k < |pushed| && pushed[k] == Item(c, false);
      assert m'.stack[n + 1 + k] == Item(c, false);
    }
  }

  lemma StepOpenKeepsLinked(g: Graph, m: Machine)
    requires Linked(g, m.stack) && Opening(m)
    ensures Linked(g, Step(g, m).stack)
  {
    var n := |m.stack| - 1;
    var f := m.stack[n].fn;
    var base := m.stack[..n] + [Item(f, true)];
    assert base[..n] == m.stack[..n];
    LinkedAppend(g, base, Pushed(g, m, f), f);
  }

  lemma StepKeepsInv(g: Graph, m: Machine)
    requires Inv(g, m) && m.stack != []
    ensures Inv(g, Step(g, m))
  {
    var it := m.stack[|m.stack| - 1];
    if it.revisit {
      StepCloseKeepsInv(g, m);
    } else if it.fn in m.st.depth || IsGrey(m.colour, it.fn) {
      StepSkipKeepsInv(g, m);
    } else {
      StepOpenKeepsGrey(g, m);
      StepOpenKeepsCovered(g, m);
      StepOpenKeepsLinked(g, m);
    }
  }
}
