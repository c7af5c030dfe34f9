/** Where the walker's comments promise more than it does. Inside a cycle the first
    function closed has its edge to the others cut, so it inherits neither their
    `+indirect` flag nor the blocking tail they pay. */
module WalkerLimits {
  import opened Options
  import opened CallGraph
  import opened WalkerSpec
  import opened WalkerInvariant
  import opened WalkerTheorems
  import opened BlockingTail

  /** 0 and 1 call each other; 0 also calls 2, a scheduling point that makes an
      indirect call. */
  const LOOP := Graph(
    map[0 := 100, 1 := 200, 2 := 5000],
    map[0 := {1, 2}, 1 := {0}, 2 := {}],
    map[0 := 0, 1 := 0, 2 := 1])

  predicate Increasing(r: seq<Fn>) {
    forall i, j :: 0 <= i < j < |r| ==> r[i] < r[j]
  }

  lemma TailElements(r: seq<Fn>, x: Fn)
    requires r != [] && Increasing(r)
    ensures Increasing(r[1..])
    ensures x in r[1..] <==> x in r && x != r[0]
  {
    assert r == [r[0]] + r[1..];
    if x in r[1..] {
      var i :| 0 <= i < |r[1..]| && r[1..][i] == x;
      assert r[i + 1] == x;
    }
  }

  /** An increasing sequence is determined by its elements. */
  lemma {:induction false} IncreasingUnique(r: seq<Fn>, t: seq<Fn>)
    requires Increasing(r) && Increasing(t) && forall x :: x in r <==> x in t
    ensures r == t
  {
    if r == [] {
      assert forall i :: 0 <= i < |t| ==> t[i] in t;
    } else {
      assert r[0] in r && r[0] in t;
      assert t[0] in t;
      assert r[0] == t[0];
      forall x
        ensures x in r[1..] <==> x in t[1..]
      {
        TailElements(r, x);
        TailElements(t, x);
      }
      IncreasingUnique(r[1..], t[1..]);
      assert r == [r[0]] + r[1..] && t == [t[0]] + t[1..];
    }
  }

  lemma SortedIs(s: set<Fn>, r: seq<Fn>)
    requires Increasing(r) && forall x :: x in r <==> x in s
    ensures Sorted(s) == r
  {
    IncreasingUnique(Sorted(s), r);
  }

  lemma SortedLoop()
    ensures Sorted(Callees(LOOP, 0)) == [1, 2]
    ensures Sorted(Callees(LOOP, 1)) == [0]
  {
    hide Sorted;
    SortedIs({1, 2}, [1, 2]);
    SortedIs({0}, [0]);
  }

  lemma SortedFrames()
    ensures Sorted(LOOP.frames.Keys) == [0, 1, 2]
  {
    hide Sorted;
    assert LOOP.frames.Keys == {0, 1, 2};
    SortedIs({0, 1, 2}, [0, 1, 2]);
  }

  /** The first function the walk from 0 closes is 1, with its call of 0 cut. */
  const FIRST := State(map[1 := 200], map[1 := 0], map[1 := None], {1}, {})

  const M0 := Machine(EMPTY, map[], [Item(0, false)])
  const M1 := Machine(EMPTY, map[0 := Grey], [Item(0, true), Item(2, false), Item(1, false)])
  const M2 := Machine(EMPTY, map[0 := Grey, 1 := Grey], [Item(0, true), Item(2, false), Item(1, true)])
  const M3 := Machine(FIRST, map[0 := Grey, 1 := Black], [Item(0, true), Item(2, false)])

  lemma Pushes0()
    ensures Pushes(LOOP, EMPTY, map[0 := Grey], [1, 2]) == [Item(2, false), Item(1, false)]
  {
    var colour := map[0 := Grey];
    assert [1, 2][1..] == [2] && [2][1..] == [];
    assert Pushes(LOOP, EMPTY, colour, [2]) == [Item(2, false)];
  }

  lemma Open0()
    ensures Step(LOOP, M0) == M1
  {
    SortedLoop();
    Pushes0();
    hide Pushes, Sorted;
  }

  lemma Pushes1()
    ensures Pushes(LOOP, EMPTY, map[0 := Grey, 1 := Grey], [0]) == []
  {
    assert [0][1..] == [];
  }

  lemma Open1()
    ensures Step(LOOP, M1) == M2
  {
    SortedLoop();
    Pushes1();
    hide Pushes, Sorted;
    assert M1.stack[..2] == [Item(0, true), Item(2, false)];
  }

  lemma Scan1()
    ensures Scan(LOOP, EMPTY, M2.colour, 1, [0]) == Acc(0, None, true, false)
  {
    assert [0][..0] == [];
  }

  lemma Close1()
    ensures Step(LOOP, M2) == M3
  {
    SortedLoop();
    Scan1();
    hide Scan, Sorted;
    assert M2.stack[..2] == [Item(0, true), Item(2, false)];
    assert Close(LOOP, EMPTY, M2.colour, 1) == CloseWith(LOOP, EMPTY, 1, Acc(0, None, true, false));
  }

  lemma FirstClosed()
    ensures WalkFrom(LOOP, EMPTY, 0) == Run(LOOP, M3) && Inv(LOOP, M3)
  {
    Open0();
    Open1();
    Close1();
    EmptySettled(LOOP);
    InitialInv(LOOP, EMPTY, 0);
    StepKeepsInv(LOOP, M0);
    StepKeepsInv(LOOP, M1);
    StepKeepsInv(LOOP, M2);
  }

  ghost predicate MissedIn(st: State) {
    1 in st.depth && st.depth[1] == 200 && 1 in st.recursive && 1 !in st.crosses
  }

  lemma MissedBelow(st: State)
    requires Extends(FIRST, st)
    ensures MissedIn(st)
  {
    assert 1 in FIRST.depth;
  }

  lemma MissedStays(st: State, f: Fn)
    requires Settled(LOOP, st) && MissedIn(st)
    ensures Settled(LOOP, WalkIfNew(LOOP, st, f)) && MissedIn(WalkIfNew(LOOP, st, f))
  {
    WalkSettles(LOOP, st, f);
  }

  lemma FirstWalk()
    ensures var st := WalkFrom(LOOP, EMPTY, 0); Settled(LOOP, st) && MissedIn(st)
  {
    FirstClosed();
    hide Inv, Settled, WalkFrom, Run;
    RunArrives(LOOP, M3, FIRST, 1, {0, 1, 2});
    MissedBelow(WalkFrom(LOOP, EMPTY, 0));
  }

  lemma LoopWalk()
    ensures MissedIn(WalkAll(LOOP))
  {
    FirstWalk();
    var st := WalkFrom(LOOP, EMPTY, 0);
    MissedStays(st, 1);
    MissedStays(WalkIfNew(LOOP, st, 1), 2);
    WalkAllUnrolled();
  }

  lemma WalkAllUnrolled()
    ensures WalkAll(LOOP) == WalkIfNew(LOOP, WalkIfNew(LOOP, WalkFrom(LOOP, EMPTY, 0), 1), 2)
  {
    hide WalkFrom, Sorted;
    SortedFrames();
    assert [0, 1, 2][..2] == [0, 1] && [0, 1][..1] == [0] && [0][..0] == [];
    assert WalkEach(LOOP, EMPTY, [0]) == WalkFrom(LOOP, EMPTY, 0);
    assert WalkEach(LOOP, EMPTY, [0, 1]) == WalkIfNew(LOOP, WalkFrom(LOOP, EMPTY, 0), 1);
  }

  /** `+indirect` misses an indirect call that lies across a cut edge: 1 reaches the
      one of 2 and is not flagged. */
  lemma IndirectMissedInCycle()
    ensures 1 in LOOP.frames && ReachesIndirect(LOOP, 1) && 1 !in WalkAll(LOOP).crosses
  {
    hide WalkAll;
    LoopWalk();
    assert WalkFromTo(LOOP, [1, 0, 2], 1, 2);
    assert Reaches(LOOP, 1, 2) && HasIndirect(LOOP, 2);
  }

  /** The tail does not land on every path that can reach a scheduling point: 1 can
      block through 0, and its depth is its own frame alone. */
  lemma TailMissedInCycle()
    ensures Reaches(LOOP, 1, 2)
    ensures var st := Measure(LOOP, {2}); 1 in st.depth && st.depth[1] == Frame(LOOP, 1) < Tail(LOOP, 2)
  {
    hide Tail, Collapsed, WalkAll;
    LoopWalk();
    assert WalkFromTo(LOOP, [1, 0, 2], 1, 2);
    CollapseLoop();
  }

  lemma CollapseLoop()
    ensures Tail(LOOP, 2) == 5000 && Collapsed(LOOP, {2}) == LOOP
  {
    LoopTail();
    hide Tail;
    assert Tails(LOOP, {2}) == map[2 := 5000];
  }

  lemma LoopTail()
    ensures Tail(LOOP, 2) == 5000
  {
    hide WalkFrom, Extends;
    EmptySettled(LOOP);
    WalkSettles(LOOP, EMPTY, 2);
    LeafFacts(LOOP, WalkFrom(LOOP, EMPTY, 2), 2);
  }
}
