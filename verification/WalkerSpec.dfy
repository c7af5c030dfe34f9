/** The walker's transition system: an explicit-stack depth-first search that
    closes each function with the deepest of its callees, cuts back edges and
    propagates two flags. `WalkFrom` and `WalkAll` are what the class in
    Walker.dfy is proved to compute. */
module WalkerSpec {
  import opened Options
  import opened CallGraph

  datatype Colour = Grey | Black

  /** What survives a walk. `order[f]` is the position of f in the insertion order
      of the depth dictionary, that is, when f was closed. */
  datatype State = State(
    depth: map<Fn, nat>,
    order: map<Fn, nat>,
    hop: map<Fn, Option<Fn>>,
    recursive: set<Fn>,
    crosses: set<Fn>)

  const EMPTY := State(map[], map[], map[], {}, {})

  datatype Item = Item(fn: Fn, revisit: bool)

  datatype Machine = Machine(st: State, colour: map<Fn, Colour>, stack: seq<Item>)

  predicate IsGrey(colour: map<Fn, Colour>, f: Fn) {
    f in colour && colour[f] == Grey
  }

  // ---- closing a function ------------------------------------------------

  /** Accumulators of the loop over the callees of a function being closed. */
  datatype Acc = Acc(best: nat, hop: Option<Fn>, rec: bool, ind: bool)

  function DepthOf(st: State, f: Fn): nat {
    if f in st.depth then st.depth[f] else 0
  }

  function ScanOne(g: Graph, st: State, colour: map<Fn, Colour>, acc: Acc, c: Fn): Acc {
    if c !in g.frames then acc
    else if IsGrey(colour, c) then acc.(rec := true)
    else
      var d := DepthOf(st, c);
      var deeper := d > acc.best;
      Acc(if deeper then d else acc.best,
          if deeper then Some(c) else acc.hop,
          acc.rec || c in st.recursive,
          acc.ind || c in st.crosses)
  }

  function Scan(g: Graph, st: State, colour: map<Fn, Colour>, f: Fn, cs: seq<Fn>): Acc {
    if cs == [] then Acc(0, None, false, HasIndirect(g, f))
    else ScanOne(g, st, colour, Scan(g, st, colour, f, cs[..|cs| - 1]), cs[|cs| - 1])
  }

  function CloseWith(g: Graph, st: State, f: Fn, acc: Acc): State {
    State(st.depth[f := Frame(g, f) + acc.best],
          st.order[f := |st.order|],
          st.hop[f := acc.hop],
          if acc.rec then st.recursive + {f} else st.recursive,
          if acc.ind then st.crosses + {f} else st.crosses)
  }

  function Close(g: Graph, st: State, colour: map<Fn, Colour>, f: Fn): State {
    CloseWith(g, st, f, Scan(g, st, colour, f, Sorted(Callees(g, f))))
  }

  // ---- opening a function ------------------------------------------------

  predicate Pushable(g: Graph, st: State, colour: map<Fn, Colour>, c: Fn) {
    c in g.frames && c !in st.depth && !IsGrey(colour, c)
  }

  /** The callees to visit, pushed in reverse so that the first is popped first. */
  function Pushes(g: Graph, st: State, colour: map<Fn, Colour>, cs: seq<Fn>): (r: seq<Item>)
    ensures forall it :: it in r <==> !it.revisit && it.fn in cs && Pushable(g, st, colour, it.fn)
  {
    if cs == [] then []
    else
      Pushes(g, st, colour, cs[1..]) +
      if Pushable(g, st, colour, cs[0]) then [Item(cs[0], false)] else []
  }

  // ---- one iteration, and the whole walk ---------------------------------

  function Step(g: Graph, m: Machine): Machine
    requires m.stack != []
  {
    var n := |m.stack| - 1;
    var rest, f := m.stack[..n], m.stack[n].fn;
    if m.stack[n].revisit then
      Machine(Close(g, m.st, m.colour, f), m.colour[f := Black], rest)
    else if f in m.st.depth || IsGrey(m.colour, f) then
      m.(stack := rest)
    else
      var colour := m.colour[f := Grey];
      Machine(m.st, colour,
              rest + [Item(f, true)] + Pushes(g, m.st, colour, Sorted(Callees(g, f))))
  }

  ghost function Universe(g: Graph, m: Machine): set<Fn> {
    g.frames.Keys + set it | it in m.stack :: it.fn
  }

  /** Functions that may still be opened. */
  ghost function Unvisited(g: Graph, m: Machine): set<Fn> {
    set f | f in Universe(g, m) && f !in m.st.depth && !IsGrey(m.colour, f)
  }

  lemma StepShrinks(g: Graph, m: Machine)
    requires m.stack != []
    ensures Unvisited(g, Step(g, m)) <= Unvisited(g, m)
    ensures |Step(g, m).stack| < |m.stack| || Unvisited(g, Step(g, m)) < Unvisited(g, m)
  {
    var n := |m.stack| - 1;
    var it, m' := m.stack[n], Step(g, m);
    assert it in m.stack;
    forall f | f in Unvisited(g, m')
      ensures f in Unvisited(g, m)
    {
      if f !in g.frames {
        var x :| x in m'.stack && x.fn == f;
        if x in m.stack[..n] {
          assert x in m.stack;
        }
      }
    }
    if !it.revisit && it.fn !in m.st.depth && !IsGrey(m.colour, it.fn) {
      assert it.fn in Unvisited(g, m) && it.fn !in Unvisited(g, m');
    }
  }

  function Run(g: Graph, m: Machine): State
    decreases Unvisited(g, m), |m.stack|
  {
    if m.stack == [] then m.st
    else
      StepShrinks(g, m);
      Run(g, Step(g, m))
  }

  function WalkFrom(g: Graph, st: State, root: Fn): State {
    Run(g, Machine(st, map[], [Item(root, false)]))
  }

  function WalkIfNew(g: Graph, st: State, f: Fn): State {
    if f in st.depth then st else WalkFrom(g, st, f)
  }

  function WalkEach(g: Graph, st: State, fs: seq<Fn>): State {
    if fs == [] then st
    else WalkIfNew(g, WalkEach(g, st, fs[..|fs| - 1]), fs[|fs| - 1])
  }

  function WalkAll(g: Graph): State {
    WalkEach(g, EMPTY, Sorted(g.frames.Keys))
  }
}
