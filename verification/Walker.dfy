/** The walker as the gate runs it: an object whose dictionaries and sets are filled
    in place by an explicit-stack loop. Every method is proved against WalkerSpec. */
module Walker {
  import opened Options
  import opened CallGraph
  import opened WalkerSpec
  import opened WalkerInvariant
  import opened WalkerTheorems

  class Walker {
    const g: Graph
    var depth: map<Fn, nat>
    var nextHop: map<Fn, Option<Fn>>
    var recursive: set<Fn>
    var crossesIndirect: set<Fn>
    /** Insertion order of `depth`. */
    ghost var order: map<Fn, nat>

    ghost function Abs(): State
      reads this
    {
      State(depth, order, nextHop, recursive, crossesIndirect)
    }

    constructor (g: Graph)
      ensures this.g == g && Abs() == EMPTY
    {
      this.g := g;
      depth, nextHop, recursive, crossesIndirect, order := map[], map[], {}, {}, map[];
    }

    /** The loop over the sorted callees of a function about to be closed. */
    method ScanCallees(fn: Fn, colour: map<Fn, Colour>)
      returns (best: nat, hop: Option<Fn>, rec: bool, ind: bool)
      ensures Acc(best, hop, rec, ind) == Scan(g, Abs(), colour, fn, Sorted(Callees(g, fn)))
    {
      best, hop, rec, ind := 0, None, false, HasIndirect(g, fn);
      var callees := Sorted(Callees(g, fn));
      ghost var st := Abs();
      for i := 0 to |callees|
        invariant Acc(best, hop, rec, ind) == Scan(g, st, colour, fn, callees[..i])
      {
        assert callees[..i + 1][..i] == callees[..i];
        var callee := callees[i];
        if callee in g.frames {
          if IsGrey(colour, callee) {
            rec := true;
          } else {
            var d := if callee in depth then depth[callee] else 0;
            if callee in recursive {
              rec := true;
            }
            if callee in crossesIndirect {
              ind := true;
            }
            if d > best {
              best, hop := d, Some(callee);
            }
          }
        }
        assert Acc(best, hop, rec, ind) ==
          ScanOne(g, st, colour, Scan(g, st, colour, fn, callees[..i]), callees[i]);
      }
      assert callees[..|callees|] == callees;
    }

    method CloseFunction(fn: Fn, colour: map<Fn, Colour>)
      modifies this
      ensures Abs() == Close(g, old(Abs()), colour, fn)
    {
      var best, hop, rec, ind := ScanCallees(fn, colour);
      Record(fn, best, hop, rec, ind);
    }

    method Record(fn: Fn, best: nat, hop: Option<Fn>, rec: bool, ind: bool)
      modifies this
      ensures Abs() == CloseWith(g, old(Abs()), fn, Acc(best, hop, rec, ind))
    {
      order := order[fn := |order|];
      depth := depth[fn := Frame(g, fn) + best];
      nextHop := nextHop[fn := hop];
      if rec {
        recursive := recursive + {fn};
      }
      if ind {
        crossesIndirect := crossesIndirect + {fn};
      }
    }

    method Walk(root: Fn) returns (d: nat)
      modifies this
      ensures Abs() == WalkFrom(g, old(Abs()), root)
      ensures d == DepthOf(Abs(), root)
    {
      var colour: map<Fn, Colour> := map[];
      var stack := [Item(root, false)];
      while stack != []
        invariant Run(g, Machine(Abs(), colour, stack)) == WalkFrom(g, old(Abs()), root)
        decreases Unvisited(g, Machine(Abs(), colour, stack)), |stack|
      {
        ghost var m := Machine(Abs(), colour, stack);
        StepShrinks(g, m);
        var top := stack[|stack| - 1];
        var fn := top.fn;
        stack := stack[..|stack| - 1];
        if top.revisit {
          CloseFunction(fn, colour);
          colour := colour[fn := Black];
        } else if fn in depth || IsGrey(colour, fn) {
        } else {
          colour := colour[fn := Grey];
          stack := stack + [Item(fn, true)];
          var pushed := PushCallees(fn, colour);
          stack := stack + pushed;
        }
        assert Machine(Abs(), colour, stack) == Step(g, m);
      }
      d := if root in depth then depth[root] else 0;
    }

    /** The items pushed when fn is opened, in reverse of the sorted order. */
    method PushCallees(fn: Fn, colour: map<Fn, Colour>) returns (pushed: seq<Item>)
      ensures pushed == Pushes(g, Abs(), colour, Sorted(Callees(g, fn)))
    {
      pushed := [];
      var callees := Sorted(Callees(g, fn));
      ghost var st := Abs();
      for i := |callees| downto 0
        invariant pushed == Pushes(g, st, colour, callees[i..])
      {
        assert callees[i..][1..] == callees[i + 1..];
        var callee := callees[i];
        if callee in g.frames && callee !in depth && !IsGrey(colour, callee) {
          pushed := pushed + [Item(callee, false)];
        }
      }
      assert callees[0..] == callees;
    }

    method WalkAll() returns (d: map<Fn, nat>)
      requires Abs() == EMPTY
      modifies this
      ensures Abs() == WalkerSpec.WalkAll(g) && d == depth
      ensures Settled(g, Abs()) && depth.Keys == g.frames.Keys
    {
      hide WalkEach, WalkFrom, Sorted, Settled;
      var fns := Sorted(g.frames.Keys);
      NoneWalked(fns);
      for i := 0 to |fns|
        invariant Abs() == WalkEach(g, EMPTY, fns[..i])
      {
        NextWalked(fns, i);
        if fns[i] !in depth {
          var _ := Walk(fns[i]);
        }
      }
      assert fns[..|fns|] == fns;
      WalkAllSettles(g);
      d := depth;
    }

    lemma NoneWalked(fns: seq<Fn>)
      ensures WalkEach(g, EMPTY, fns[..0]) == EMPTY
    {
    }

    lemma NextWalked(fns: seq<Fn>, i: int)
      requires 0 <= i < |fns|
      ensures WalkEach(g, EMPTY, fns[..i + 1]) == WalkIfNew(g, WalkEach(g, EMPTY, fns[..i]), fns[i])
    {
      hide WalkIfNew;
      assert fns[..i + 1][..i] == fns[..i];
    }

    /** The printed chain: the first `limit` functions of the path behind the depth. */
    method Path(root: Fn, limit: nat) returns (out: seq<Fn>)
      requires HopsDown(Abs())
      ensures root in depth ==>
        out <= HopPath(Abs(), root) && (|out| == limit || out == HopPath(Abs(), root))
      ensures root !in depth ==> out == [root][..if limit == 0 then 0 else 1]
    {
      out := [];
      var fn := Some(root);
      ghost var st := Abs();
      while fn.Some? && |out| < limit
        invariant |out| <= limit
        invariant root !in depth ==> (out == [] && fn == Some(root)) || (out == [root] && fn == None)
        invariant root in depth && fn.Some? ==>
          fn.value in depth && out + HopPath(st, fn.value) == HopPath(st, root)
        invariant root in depth && fn.None? ==> out == HopPath(st, root)
        decreases limit - |out|
      {
        var f := fn.value;
        assert root in depth && nextHop[f].Some? ==>
          out + HopPath(st, f) == out + [f] + HopPath(st, nextHop[f].value);
        out := out + [f];
        fn := if f in nextHop then nextHop[f] else None;
      }
    }
  }
}
