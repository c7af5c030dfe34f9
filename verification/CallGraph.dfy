/** The static call graph the depth gate reads out of a kernel ELF, and the
    notions its claims are about: call walks, their weight, reachability and cycles.

    Symbols are numbered in their sort order, so that iterating a set "sorted"
    is iterating it in increasing order. */
module CallGraph {

  type Fn = nat

  /** `frames[f]` is the entry cost of f, `calls[f]` the symbols it calls directly,
      `indirect[f]` its number of unresolved indirect call sites. A symbol missing
      from `frames` is unknown to the image; the maps may miss keys independently. */
  datatype Graph = Graph(frames: map<Fn, nat>, calls: map<Fn, set<Fn>>, indirect: map<Fn, nat>)

  function Callees(g: Graph, f: Fn): set<Fn> {
    if f in g.calls then g.calls[f] else {}
  }

  function Frame(g: Graph, f: Fn): nat {
    if f in g.frames then g.frames[f] else 0
  }

  predicate HasIndirect(g: Graph, f: Fn) {
    f in g.indirect && g.indirect[f] > 0
  }

  /** A call the walker can follow: f calls c and c is in the image. */
  predicate Edge(g: Graph, f: Fn, c: Fn) {
    c in Callees(g, f) && c in g.frames
  }

  /** A non-empty sequence of functions, each calling the next. */
  ghost predicate Walk(g: Graph, p: seq<Fn>) {
    p != [] && forall i :: 0 <= i < |p| - 1 ==> Edge(g, p[i], p[i + 1])
  }

  ghost predicate WalkFromTo(g: Graph, p: seq<Fn>, a: Fn, b: Fn) {
    Walk(g, p) && p[0] == a && p[|p| - 1] == b
  }

  ghost predicate Reaches(g: Graph, a: Fn, b: Fn) {
    exists p :: WalkFromTo(g, p, a, b)
  }

  /** f lies on a cycle of calls: some walk of at least one call leads back to it. */
  ghost predicate OnCycle(g: Graph, f: Fn) {
    exists p :: WalkFromTo(g, p, f, f) && |p| >= 2
  }

  ghost predicate ReachesCycle(g: Graph, f: Fn) {
    exists h :: Reaches(g, f, h) && OnCycle(g, h)
  }

  ghost predicate ReachesIndirect(g: Graph, f: Fn) {
    exists h :: Reaches(g, f, h) && HasIndirect(g, h)
  }

  /** Stack bytes spent along a sequence of frames. */
  function Weight(g: Graph, p: seq<Fn>): nat {
    if p == [] then 0 else Frame(g, p[0]) + Weight(g, p[1..])
  }

  ghost predicate Distinct<T>(s: seq<T>) {
    forall i, j :: 0 <= i < j < |s| ==> s[i] != s[j]
  }

  lemma ReachesSelf(g: Graph, a: Fn)
    ensures Reaches(g, a, a)
  {
    assert WalkFromTo(g, [a], a, a);
  }

  lemma ConsWalk(g: Graph, a: Fn, p: seq<Fn>)
    requires Walk(g, p) && Edge(g, a, p[0])
    ensures Walk(g, [a] + p)
  {
    var q := [a] + p;
    forall i | 0 <= i < |q| - 1
      ensures Edge(g, q[i], q[i + 1])
    {
      if i > 0 {
        assert q[i] == p[i - 1] && q[i + 1] == p[i - 1 + 1];
      }
    }
  }

  lemma TailWalk(g: Graph, p: seq<Fn>)
    requires Walk(g, p) && |p| >= 2
    ensures Walk(g, p[1..]) && Edge(g, p[0], p[1])
  {
    assert Edge(g, p[0], p[0 + 1]);
    var q := p[1..];
    forall i | 0 <= i < |q| - 1
      ensures Edge(g, q[i], q[i + 1])
    {
      assert Edge(g, p[i + 1], p[i + 1 + 1]);
    }
  }

  lemma JoinWalks(g: Graph, p: seq<Fn>, q: seq<Fn>)
    requires Walk(g, p) && Walk(g, q) && p[|p| - 1] == q[0]
    ensures Walk(g, p + q[1..])
    ensures (p + q[1..])[0] == p[0] && (p + q[1..])[|p + q[1..]| - 1] == q[|q| - 1]
  {
    var r := p + q[1..];
    forall i | 0 <= i < |r| - 1
      ensures Edge(g, r[i], r[i + 1])
    {
      if i < |p| - 1 {
        assert Edge(g, p[i], p[i + 1]);
      } else {
        var k := i - (|p| - 1);
        assert Edge(g, q[k], q[k + 1]);
      }
    }
  }

  lemma ReachesTrans(g: Graph, a: Fn, b: Fn, c: Fn)
    requires Reaches(g, a, b) && Reaches(g, b, c)
    ensures Reaches(g, a, c)
  {
    var p :| WalkFromTo(g, p, a, b);
    var q :| WalkFromTo(g, q, b, c);
    JoinWalks(g, p, q);
    assert WalkFromTo(g, p + q[1..], a, c);
  }

  lemma ReachesEdge(g: Graph, a: Fn, b: Fn)
    requires Edge(g, a, b)
    ensures Reaches(g, a, b)
  {
    ConsWalk(g, a, [b]);
    assert WalkFromTo(g, [a] + [b], a, b);
  }

  lemma EdgeThenReaches(g: Graph, a: Fn, b: Fn, c: Fn)
    requires Edge(g, a, b) && Reaches(g, b, c)
    ensures Reaches(g, a, c)
  {
    ReachesEdge(g, a, b);
    ReachesTrans(g, a, b, c);
  }

  lemma ReachesThenEdgeBackIsCycle(g: Graph, a: Fn, b: Fn)
    requires Edge(g, a, b) && Reaches(g, b, a)
    ensures OnCycle(g, a)
  {
    var p :| WalkFromTo(g, p, b, a);
    ConsWalk(g, a, p);
    assert WalkFromTo(g, [a] + p, a, a);
  }

  lemma WeightConcat(g: Graph, p: seq<Fn>, q: seq<Fn>)
    ensures Weight(g, p + q) == Weight(g, p) + Weight(g, q)
  {
    if p == [] {
      assert p + q == q;
    } else {
      assert (p + q)[1..] == p[1..] + q;
      WeightConcat(g, p[1..], q);
    }
  }

  ghost predicate IsLeast(s: set<Fn>, m: Fn) {
    m in s && forall x :: x in s ==> m <= x
  }

  /** The least element of a non-empty set of symbols. */
  function Least(s: set<Fn>): (m: Fn)
    requires s != {}
    ensures IsLeast(s, m)
  {
    LeastExists(s);
    var m :| m in s && forall x :: x in s ==> m <= x;
    m
  }

  lemma {:induction false} LeastExists(s: set<Fn>)
    requires s != {}
    ensures exists m :: IsLeast(s, m)
  {
    var a :| a in s;
    if forall x :: x in s ==> a <= x {
      assert IsLeast(s, a);
    } else {
      var t := set x | x in s && x < a;
      var b :| b in s && b < a;
      assert b in t && a !in t;
      LeastExists(t);
      var m :| IsLeast(t, m);
      assert forall x :: x in s ==> x in t || m <= x;
      assert IsLeast(s, m);
    }
  }

  /** `sorted(s)`: the elements of s, each once, in increasing order. */
  function Sorted(s: set<Fn>): (r: seq<Fn>)
    ensures forall x :: x in r <==> x in s
    ensures forall i, j :: 0 <= i < j < |r| ==> r[i] < r[j]
  {
    if s == {} then []
    else
      var m := Least(s);
      [m] + Sorted(s - {m})
  }
}
