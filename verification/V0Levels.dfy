/** How deep the demangler nests on a tree's symbol. Which nodes are printed in full and
    which as a back reference is decided by what was printed before, and so are the levels:
    the build's disambiguators do not enter. */
module V0Levels {
  import opened V0Parser
  import opened V0Syntax
  import opened V0Match
  import opened V0Mangler

  /** The levels of each node where it was first printed. */
  type Seen = map<Node, nat>

  datatype Cost = Cost(levels: nat, seen: Seen)

  function LevelsTree(t: Tree, seen: Seen): Cost
    decreases t, 1
  {
    if NTree(t) in seen then Cost(1 + seen[NTree(t)], seen)
    else
      var c := LevelsNode(t, seen);
      Cost(c.levels, c.seen[NTree(t) := c.levels])
  }

  function LevelsNode(t: Tree, seen: Seen): Cost
    decreases t, 0
  {
    match t
    case Crate(_, _) => Cost(1, seen)
    case Inherent(_, home, self) =>
      var c1 := LevelsTree(home, seen);
      var c2 := LevelsTy(self, c1.seen);
      Cost(1 + Max(c1.levels, c2.levels), c2.seen)
    case TraitImpl(_, home, self, tr) =>
      var c1 := LevelsTree(home, seen);
      var c2 := LevelsTy(self, c1.seen);
      var c3 := LevelsTree(tr, c2.seen);
      Cost(1 + Max(c1.levels, Max(c2.levels, c3.levels)), c3.seen)
    case TraitItem(self, tr) =>
      var c2 := LevelsTy(self, seen);
      var c3 := LevelsTree(tr, c2.seen);
      Cost(1 + Max(c2.levels, c3.levels), c3.seen)
    case Nested(_, parent, _, _) =>
      var c := LevelsTree(parent, seen);
      Cost(1 + c.levels, c.seen)
    case Generic(base, args) =>
      var c1 := LevelsTree(base, seen);
      var c2 := LevelsArgs(args, c1.seen);
      Cost(1 + Max(c1.levels, c2.levels), c2.seen)
  }

  function LevelsArg(a: Arg, seen: Seen): Cost
    decreases a, 0
  {
    match a
    case LifetimeArg(_) => Cost(0, seen)
    case ConstArg(c) => LevelsVal(c, seen)
    case TypeArg(t) => LevelsTy(t, seen)
  }

  function LevelsArgs(l: List<Arg>, seen: Seen): Cost
    decreases l, 0
  {
    match l
    case Nil => Cost(0, seen)
    case Cons(a, rest) =>
      var c1 := LevelsArg(a, seen);
      var c2 := LevelsArgs(rest, c1.seen);
      Cost(Max(c1.levels, c2.levels), c2.seen)
  }

  function LevelsTy(t: Ty, seen: Seen): Cost
    decreases t, 1
  {
    if t.Basic? then Cost(1, seen)
    else if t.Named? then
      var c := LevelsTree(t.path, seen);
      Cost(1 + c.levels, c.seen)
    else if NTy(t) in seen then Cost(1 + seen[NTy(t)], seen)
    else
      var c := LevelsTyNode(t, seen);
      Cost(c.levels, c.seen[NTy(t) := c.levels])
  }

  function LevelsTyNode(t: Ty, seen: Seen): Cost
    requires !t.Basic? && !t.Named?
    decreases t, 0
  {
    match t
    case Array(e, len) =>
      var c1 := LevelsTy(e, seen);
      var c2 := LevelsVal(len, c1.seen);
      Cost(1 + Max(c1.levels, c2.levels), c2.seen)
    case Slice(e) =>
      var c := LevelsTy(e, seen);
      Cost(1 + c.levels, c.seen)
    case Tuple(es) =>
      var c := LevelsTys(es, seen);
      Cost(1 + c.levels, c.seen)
    case Ref(_, _, e) =>
      var c := LevelsTy(e, seen);
      Cost(1 + c.levels, c.seen)
    case Ptr(_, e) =>
      var c := LevelsTy(e, seen);
      Cost(1 + c.levels, c.seen)
    case FnPtr(_, _, _, ps, ret) =>
      var c1 := LevelsTys(ps, seen);
      var c2 := LevelsTy(ret, c1.seen);
      Cost(1 + Max(c1.levels, c2.levels), c2.seen)
    case Dyn(_, bounds, _) =>
      var c := LevelsBounds(bounds, seen);
      Cost(1 + c.levels, c.seen)
  }

  function LevelsTys(l: List<Ty>, seen: Seen): Cost
    decreases l, 0
  {
    match l
    case Nil => Cost(0, seen)
    case Cons(t, rest) =>
      var c1 := LevelsTy(t, seen);
      var c2 := LevelsTys(rest, c1.seen);
      Cost(Max(c1.levels, c2.levels), c2.seen)
  }

  function LevelsBounds(l: List<Bound>, seen: Seen): Cost
    decreases l, 0
  {
    match l
    case Nil => Cost(0, seen)
    case Cons(t, rest) =>
      var c1 := LevelsTree(t.path, seen);
      var c2 := LevelsBindings(t.bindings, c1.seen);
      var c3 := LevelsBounds(rest, c2.seen);
      Cost(Max(Max(c1.levels, c2.levels), c3.levels), c3.seen)
  }

  function LevelsBindings(l: List<Binding>, seen: Seen): Cost
    decreases l, 0
  {
    match l
    case Nil => Cost(0, seen)
    case Cons(x, rest) =>
      var c1 := LevelsTy(x.ty, seen);
      var c2 := LevelsBindings(rest, c1.seen);
      Cost(Max(c1.levels, c2.levels), c2.seen)
  }

  function LevelsVal(c: Val, seen: Seen): Cost
    decreases c, 1
  {
    match c
    case Hole => Cost(0, seen)
    case Value(ty, _, _) =>
      if NVal(c) in seen then Cost(seen[NVal(c)], seen)
      else
        var l := LevelsTy(ty, seen);
        Cost(l.levels, l.seen[NVal(c) := l.levels])
  }

  /** The levels of a tree's symbol, in every build. */
  function Levels(t: Tree): nat {
    LevelsTree(t, map[]).levels
  }

  // ---- at most twice the height ------------------------------------------

  /** One level to spare for a reference to it. */
  function Room(k: Node): int {
    match k
    case NTree(t) => 2 * Height(t) - 1
    case NTy(t) => 2 * HeightTy(t) - 1
    case NVal(c) => 2 * HeightVal(c)
  }

  ghost predicate Fits(seen: Seen) {
    forall k :: k in seen ==> seen[k] <= Room(k)
  }

  /** No more than h levels, and nothing seen on the way has more than its room. */
  ghost predicate Within(c: Cost, h: int) {
    c.levels <= h && Fits(c.seen)
  }

  lemma FitsAdds(seen: Seen, k: Node, levels: nat)
    requires Fits(seen) && levels <= Room(k)
    ensures Fits(seen[k := levels])
  {
    hide Room;
  }

  lemma FitsEntry(seen: Seen, k: Node)
    requires Fits(seen) && k in seen
    ensures seen[k] <= Room(k)
  {
    hide Room;
  }

  lemma {:induction false} TreeWithin(t: Tree, seen: Seen)
    requires Fits(seen)
    ensures Within(LevelsTree(t, seen), 2 * Height(t))
    decreases t, 1
  {
    hide Fits, Height;
    var k := NTree(t);
    if k in seen {
      FitsEntry(seen, k);
    } else {
      hide LevelsNode;
      NodeWithin(t, seen);
      var c := LevelsNode(t, seen);
      FitsAdds(c.seen, k, c.levels);
    }
  }

  lemma {:induction false} NodeWithin(t: Tree, seen: Seen)
    requires Fits(seen)
    ensures Within(LevelsNode(t, seen), 2 * Height(t) - 1)
    decreases t, 0
  {
    hide Fits, LevelsTree, LevelsTy, LevelsArgs, HeightTy, HeightArgs;
    match t
    case Crate(_, _) =>
    case Inherent(_, home, self) =>
      TreeWithin(home, seen);
      TyWithin(self, LevelsTree(home, seen).seen);
    case TraitImpl(_, home, self, tr) =>
      TreeWithin(home, seen);
      var c1 := LevelsTree(home, seen);
      TyWithin(self, c1.seen);
      TreeWithin(tr, LevelsTy(self, c1.seen).seen);
    case TraitItem(self, tr) =>
      TyWithin(self, seen);
      TreeWithin(tr, LevelsTy(self, seen).seen);
    case Nested(_, parent, _, _) =>
      TreeWithin(parent, seen);
    case Generic(base, args) =>
      TreeWithin(base, seen);
      ArgsWithin(args, LevelsTree(base, seen).seen);
  }

  lemma {:induction false} ArgsWithin(l: List<Arg>, seen: Seen)
    requires Fits(seen)
    ensures Within(LevelsArgs(l, seen), 2 * HeightArgs(l))
    decreases l, 0
  {
    hide Fits, LevelsTy, LevelsVal, HeightTy, HeightVal;
    if l.Cons? {
      match l.head {
        case LifetimeArg(_) =>
        case ConstArg(c) => ValWithin(c, seen);
        case TypeArg(t) => TyWithin(t, seen);
      }
      ArgsWithin(l.tail, LevelsArg(l.head, seen).seen);
    }
  }

  lemma {:induction false} TyWithin(t: Ty, seen: Seen)
    requires Fits(seen)
    ensures Within(LevelsTy(t, seen), 2 * HeightTy(t))
    decreases t, 1
  {
    hide Fits, LevelsTyNode, LevelsTree, Height;
    var k := NTy(t);
    if t.Basic? {
    } else if t.Named? {
      TreeWithin(t.path, seen);
    } else if k in seen {
      FitsEntry(seen, k);
    } else {
      TyNodeWithin(t, seen);
      var c := LevelsTyNode(t, seen);
      FitsAdds(c.seen, k, c.levels);
    }
  }

  lemma {:induction false} TyNodeWithin(t: Ty, seen: Seen)
    requires Fits(seen) && !t.Basic? && !t.Named?
    ensures Within(LevelsTyNode(t, seen), 2 * HeightTy(t) - 1)
    decreases t, 0
  {
    hide Fits, LevelsTy, LevelsTys, LevelsVal, LevelsBounds, HeightTys, HeightVal, HeightBounds;
    match t
    case Array(e, len) =>
      TyWithin(e, seen);
      ValWithin(len, LevelsTy(e, seen).seen);
    case Slice(e) => TyWithin(e, seen);
    case Tuple(es) => TysWithin(es, seen);
    case Ref(_, _, e) => TyWithin(e, seen);
    case Ptr(_, e) => TyWithin(e, seen);
    case FnPtr(_, _, _, ps, ret) =>
      TysWithin(ps, seen);
      TyWithin(ret, LevelsTys(ps, seen).seen);
    case Dyn(_, bounds, _) => BoundsWithin(bounds, seen);
  }

  lemma {:induction false} TysWithin(l: List<Ty>, seen: Seen)
    requires Fits(seen)
    ensures Within(LevelsTys(l, seen), 2 * HeightTys(l))
    decreases l, 0
  {
    hide Fits, LevelsTy, HeightTy;
    if l.Cons? {
      TyWithin(l.head, seen);
      TysWithin(l.tail, LevelsTy(l.head, seen).seen);
    }
  }

  lemma {:induction false} BoundsWithin(l: List<Bound>, seen: Seen)
    requires Fits(seen)
    ensures Within(LevelsBounds(l, seen), 2 * HeightBounds(l))
    decreases l, 0
  {
    hide Fits, LevelsTree, LevelsBindings, Height, HeightBindings;
    if l.Cons? {
      TreeWithin(l.head.path, seen);
      var c1 := LevelsTree(l.head.path, seen);
      BindingsWithin(l.head.bindings, c1.seen);
      BoundsWithin(l.tail, LevelsBindings(l.head.bindings, c1.seen).seen);
    }
  }

  lemma {:induction false} BindingsWithin(l: List<Binding>, seen: Seen)
    requires Fits(seen)
    ensures Within(LevelsBindings(l, seen), 2 * HeightBindings(l))
    decreases l, 0
  {
    hide Fits, LevelsTy, HeightTy;
    if l.Cons? {
      TyWithin(l.head.ty, seen);
      BindingsWithin(l.tail, LevelsTy(l.head.ty, seen).seen);
    }
  }

  lemma {:induction false} ValWithin(c: Val, seen: Seen)
    requires Fits(seen)
    ensures Within(LevelsVal(c, seen), 2 * HeightVal(c))
    decreases c, 1
  {
    hide Fits, LevelsTy, HeightTy;
    var k := NVal(c);
    if c.Value? {
      if k in seen {
        FitsEntry(seen, k);
      } else {
        TyWithin(c.ty, seen);
        var l := LevelsTy(c.ty, seen);
        FitsAdds(l.seen, k, l.levels);
      }
    }
  }
}
