/** Which symbols the depth guard does not stop: exactly those whose parse opens a
    constant from which back references lead into a cycle. */
module V0Termination {
  import opened Text
  import opened V0Parser

  /** The constant that a back reference at p stands for. */
  predicate IsConstRef(s: string, p: nat) {
    At(s, p, 'B') && Backref(s, p + 1).Ok?
  }

  function Next(s: string, p: nat): (q: nat)
    requires IsConstRef(s, p)
    ensures q < |s|
  {
    Backref(s, p + 1).value
  }

  /** The position k references on from p, if the chain is that long. */
  function Follow(s: string, p: nat, k: nat): (q: int)
    ensures q >= -1
  {
    if k == 0 then p
    else
      var q := Follow(s, p, k - 1);
      if q >= 0 && IsConstRef(s, q) then Next(s, q) else -1
  }

  /** p lies on a cycle of constant back references. */
  ghost predicate OnConstCycle(s: string, p: nat) {
    exists k: nat :: k > 0 && Follow(s, p, k) == p
  }

  predicate ChainEnds(s: string, p: nat, fuel: nat)
    decreases fuel
  {
    !IsConstRef(s, p) || (fuel > 0 && ChainEnds(s, Next(s, p), fuel - 1))
  }

  // ---- a long chain repeats a position -----------------------------------

  lemma {:induction false} FollowFirst(s: string, p: nat, k: nat)
    requires IsConstRef(s, p)
    ensures Follow(s, p, k + 1) == Follow(s, Next(s, p), k)
  {
    hide IsConstRef, Next;
    if k > 0 {
      FollowFirst(s, p, k - 1);
    }
  }

  lemma {:induction false} LongChain(s: string, p: nat, fuel: nat, k: nat)
    requires !ChainEnds(s, p, fuel) && k <= fuel
    ensures Follow(s, p, k) >= 0 && IsConstRef(s, Follow(s, p, k))
    decreases k
  {
    hide IsConstRef, Next;
    if k > 0 {
      LongChain(s, Next(s, p), fuel - 1, k - 1);
      FollowFirst(s, p, k - 1);
    }
  }

  lemma {:induction false} FollowAdds(s: string, p: nat, i: nat, k: nat)
    requires Follow(s, p, i) >= 0
    ensures Follow(s, p, i + k) == Follow(s, Follow(s, p, i), k)
  {
    hide IsConstRef, Next;
    if k > 0 {
      FollowAdds(s, p, i, k - 1);
      assert i + k - 1 == i + (k - 1);
    }
  }

  function Below(n: nat): (r: set<int>)
    ensures |r| == n && forall x :: x in r <==> 0 <= x < n
  {
    if n == 0 then {} else Below(n - 1) + {n - 1}
  }

  function Visited(s: string, p: nat, n: nat): set<int> {
    set i | 0 <= i < n :: Follow(s, p, i)
  }

  lemma {:induction false} VisitedSize(s: string, p: nat, n: nat)
    requires forall i, j :: 0 <= i < j < n ==> Follow(s, p, i) != Follow(s, p, j)
    ensures |Visited(s, p, n)| == n
  {
    hide Follow;
    if n > 0 {
      VisitedSize(s, p, n - 1);
      assert Visited(s, p, n) == Visited(s, p, n - 1) + {Follow(s, p, n - 1)};
      assert Follow(s, p, n - 1) !in Visited(s, p, n - 1);
    }
  }

  lemma SubsetSize(a: set<int>, b: set<int>)
    requires a <= b
    ensures |a| <= |b|
  {
    assert b == a + (b - a);
  }

  lemma Repeats(s: string, p: nat, n: nat) returns (i: nat, j: nat)
    requires forall k: nat :: k <= n ==> 0 <= Follow(s, p, k) < n
    ensures i < j <= n && Follow(s, p, i) == Follow(s, p, j)
  {
    hide Follow;
    if forall i, j :: 0 <= i < j < n + 1 ==> Follow(s, p, i) != Follow(s, p, j) {
      VisitedSize(s, p, n + 1);
      assert Visited(s, p, n + 1) <= Below(n);
      SubsetSize(Visited(s, p, n + 1), Below(n));
      assert false;
    }
    i, j :| 0 <= i < j < n + 1 && Follow(s, p, i) == Follow(s, p, j);
  }

  /** A chain of more references than the string has positions enters a cycle. */
  lemma LongChainCycles(s: string, p: nat) returns (i: nat)
    requires !ChainEnds(s, p, |s|)
    ensures Follow(s, p, i) >= 0 && OnConstCycle(s, Follow(s, p, i))
  {
    hide Follow, ChainEnds;
    forall k: nat | k <= |s|
      ensures 0 <= Follow(s, p, k) < |s|
    {
      LongChain(s, p, |s|, k);
    }
    var j;
    i, j := Repeats(s, p, |s|);
    FollowAdds(s, p, i, j - i);
    var k := j - i;
    assert k > 0 && Follow(s, Follow(s, p, i), k) == Follow(s, p, i);
  }

  // ---- a chain that enters a cycle goes on for ever ----------------------

  /** A chain that reaches k references has one at every position before. */
  lemma {:induction false} Continues(s: string, c: nat, m: nat, k: nat)
    requires m < k && Follow(s, c, k) >= 0
    ensures Follow(s, c, m) >= 0 && IsConstRef(s, Follow(s, c, m))
    decreases k - m
  {
    hide IsConstRef, Next;
    if m + 1 < k {
      Continues(s, c, m + 1, k);
    }
    assert Follow(s, c, m + 1) >= 0;
  }

  lemma {:induction false} CycleGoesOn(s: string, c: nat, k: nat, m: nat)
    requires k > 0 && Follow(s, c, k) == c
    ensures Follow(s, c, m) >= 0
    decreases m
  {
    hide Follow, IsConstRef;
    if m < k {
      Continues(s, c, m, k);
    } else {
      CycleGoesOn(s, c, k, m - k);
      FollowAdds(s, c, k, m - k);
    }
  }

  lemma IntoCycleGoesOn(s: string, p: nat, i: nat, m: nat)
    requires Follow(s, p, i) >= 0 && OnConstCycle(s, Follow(s, p, i))
    ensures Follow(s, p, m) >= 0
  {
    hide Follow, IsConstRef;
    if m < i {
      Continues(s, p, m, i);
    } else {
      var c := Follow(s, p, i);
      var k: nat :| k > 0 && Follow(s, c, k) == c;
      CycleGoesOn(s, c, k, m - i);
      FollowAdds(s, p, i, m - i);
    }
  }

  lemma {:induction false} LongChainRunsOut(s: string, p: nat, fuel: nat)
    requires Follow(s, p, fuel + 1) >= 0
    ensures !ChainEnds(s, p, fuel)
    decreases fuel
  {
    hide IsConstRef, Next, Follow;
    Continues(s, p, 0, fuel + 1);
    assert Follow(s, p, 0) == p by { FollowZero(s, p); }
    FollowFirst(s, p, fuel);
    if fuel > 0 {
      LongChainRunsOut(s, Next(s, p), fuel - 1);
    }
  }

  lemma FollowZero(s: string, c: nat)
    ensures Follow(s, c, 0) == c
  {
  }

  /** The chain from p does not end exactly when it leads into a cycle. */
  lemma ChainCyclesIff(s: string, p: nat)
    ensures !ChainEnds(s, p, |s|) <==>
      exists i: nat :: Follow(s, p, i) >= 0 && OnConstCycle(s, Follow(s, p, i))
  {
    hide ChainEnds, Follow, OnConstCycle;
    if !ChainEnds(s, p, |s|) {
      var i := LongChainCycles(s, p);
    }
    if i: nat :| Follow(s, p, i) >= 0 && OnConstCycle(s, Follow(s, p, i)) {
      IntoCycleNeverEnds(s, p, i);
    }
  }

  lemma IntoCycleNeverEnds(s: string, p: nat, i: nat)
    requires Follow(s, p, i) >= 0 && OnConstCycle(s, Follow(s, p, i))
    ensures !ChainEnds(s, p, |s|)
  {
    hide ChainEnds, Follow, OnConstCycle;
    IntoCycleGoesOn(s, p, i, |s| + 1);
    LongChainRunsOut(s, p, |s|);
  }

  /** A constant whose chain does not end is not parsed to an end, however many
      references are followed. */
  lemma CycleIsEndless(s: string, p: nat, d: nat, b: nat, fuel: nat)
    requires p <= |s| && d <= MAX_DEPTH && !ChainEnds(s, p, |s|)
    ensures Const(s, p, d, b, fuel) == Endless
  {
    hide Const, Follow, ChainEnds, OnConstCycle;
    var i := LongChainCycles(s, p);
    IntoCycleGoesOn(s, p, i, fuel + 1);
    LongChainRunsOut(s, p, fuel);
    OutOfFuel(s, p, d, b, fuel);
  }

  lemma {:induction false} OutOfFuel(s: string, p: nat, d: nat, b: nat, fuel: nat)
    requires p <= |s| && d <= MAX_DEPTH && !ChainEnds(s, p, fuel)
    ensures Const(s, p, d, b, fuel) == Endless
    decreases fuel
  {
    hide Type, ConstData, Backref;
    if fuel > 0 {
      OutOfFuel(s, Next(s, p), d, b, fuel - 1);
    }
  }

  // ---- the constants a parse opens ---------------------------------------

  /** Some of these constants starts a chain that does not end. */
  ghost predicate Stuck(s: string, cs: set<nat>) {
    exists c :: c in cs && !ChainEnds(s, c, |s|)
  }

  lemma StuckUnion(s: string, a: set<nat>, b: set<nat>)
    ensures Stuck(s, a + b) <==> Stuck(s, a) || Stuck(s, b)
  {
    hide ChainEnds;
    if c :| c in a && !ChainEnds(s, c, |s|) {
      assert c in a + b;
    }
    if c :| c in b && !ChainEnds(s, c, |s|) {
      assert c in a + b;
    }
  }

  lemma StuckNone(s: string)
    ensures !Stuck(s, {})
  {
  }

  lemma StuckOne(s: string, p: nat)
    ensures Stuck(s, {p}) <==> !ChainEnds(s, p, |s|)
  {
    hide ChainEnds;
    if !ChainEnds(s, p, |s|) {
      assert p in {p};
    }
  }

  /** The positions of the constants opened by each part of the grammar: those of its
      pieces in turn, as long as the pieces before were read. */
  ghost function OpensPath(s: string, p: nat, d: nat, b: nat, v: bool): set<nat>
    requires p <= |s| && d <= MAX_DEPTH
    decreases MAX_DEPTH - d, 0, 0
  {
    if d + 1 > MAX_DEPTH then {} else OpensPathBody(s, p, d + 1, b, v)
  }

  ghost function OpensPathBody(s: string, p: nat, d: nat, b: nat, v: bool): set<nat>
    requires p <= |s| && d <= MAX_DEPTH
    decreases MAX_DEPTH - d, 9, 0
  {
    if p == |s| then {}
    else if s[p] == 'M' then
      var r := ImplPath(s, p + 1, d, b);
      OpensImpl(s, p + 1, d, b) + if r.Ok? then OpensType(s, r.pos, d, b) else {}
    else if s[p] == 'X' then
      var r := ImplPath(s, p + 1, d, b);
      OpensImpl(s, p + 1, d, b) + if r.Ok? then OpensQualified(s, r.pos, d, b) else {}
    else if s[p] == 'Y' then OpensQualified(s, p + 1, d, b)
    else if s[p] == 'N' && p + 1 < |s| then OpensPath(s, p + 2, d, b, v)
    else if s[p] == 'I' then
      var r := Path(s, p + 1, d, b, v);
      OpensPath(s, p + 1, d, b, v) + if r.Ok? then OpensArgs(s, r.pos, d, b) else {}
    else if s[p] == 'B' then
      var r := Backref(s, p + 1);
      if r.Ok? then OpensPath(s, r.value, d, b, v) else {}
    else {}
  }

  ghost function OpensImpl(s: string, p: nat, d: nat, b: nat): set<nat>
    requires p <= |s| && d <= MAX_DEPTH
    decreases MAX_DEPTH - d, 1, 0
  {
    var r := Disambiguator(s, p);
    if r.Ok? then OpensPath(s, r.pos, d, b, false) else {}
  }

  ghost function OpensQualified(s: string, p: nat, d: nat, b: nat): set<nat>
    requires p <= |s| && d <= MAX_DEPTH
    decreases MAX_DEPTH - d, 1, 0
  {
    var r := Type(s, p, d, b);
    OpensType(s, p, d, b) + if r.Ok? then OpensPath(s, r.pos, d, b, false) else {}
  }

  ghost function OpensArg(s: string, p: nat, d: nat, b: nat): set<nat>
    requires p <= |s| && d <= MAX_DEPTH
    decreases MAX_DEPTH - d, 2, 0
  {
    if At(s, p, 'L') then {}
    else if At(s, p, 'K') then OpensConst(s, p + 1, d, b)
    else OpensType(s, p, d, b)
  }

  ghost function OpensArgs(s: string, p: nat, d: nat, b: nat): set<nat>
    requires p <= |s| && d <= MAX_DEPTH
    decreases MAX_DEPTH - d, 3, |s| - p
  {
    if At(s, p, 'E') then {}
    else
      var r := GenericArg(s, p, d, b);
      OpensArg(s, p, d, b) + if r.Ok? then OpensArgs(s, r.pos, d, b) else {}
  }

  ghost function OpensType(s: string, p: nat, d: nat, b: nat): set<nat>
    requires p <= |s| && d <= MAX_DEPTH
    decreases MAX_DEPTH - d, 0, 0
  {
    if d + 1 > MAX_DEPTH then {} else OpensTypeBody(s, p, d + 1, b)
  }

  ghost function OpensTypeBody(s: string, p: nat, d: nat, b: nat): set<nat>
    requires p <= |s| && d <= MAX_DEPTH
    decreases MAX_DEPTH - d, 9, 0
  {
    if p == |s| || s[p] in BASIC_TYPES then {}
    else if s[p] == 'A' then
      var r := Type(s, p + 1, d, b);
      OpensType(s, p + 1, d, b) + if r.Ok? then OpensConst(s, r.pos, d, b) else {}
    else if s[p] == 'S' || s[p] == 'P' || s[p] == 'O' then OpensType(s, p + 1, d, b)
    else if s[p] == 'T' then OpensTypes(s, p + 1, d, b)
    else if s[p] == 'R' || s[p] == 'Q' then OpensRef(s, p + 1, d, b)
    else if s[p] == 'F' then OpensFn(s, p + 1, d, b)
    else if s[p] == 'D' then OpensDyn(s, p + 1, d, b)
    else if s[p] == 'B' then
      var r := Backref(s, p + 1);
      if r.Ok? then OpensType(s, r.value, d, b) else {}
    else OpensPath(s, p, d, b, false)
  }

  ghost function OpensRef(s: string, p: nat, d: nat, b: nat): set<nat>
    requires p <= |s| && d <= MAX_DEPTH
    decreases MAX_DEPTH - d, 1, 0
  {
    if At(s, p, 'L') then
      var r := Lifetime(s, p + 1, b);
      if r.Ok? then OpensType(s, r.pos, d, b) else {}
    else OpensType(s, p, d, b)
  }

  ghost function OpensTypes(s: string, p: nat, d: nat, b: nat): set<nat>
    requires p <= |s| && d <= MAX_DEPTH
    decreases MAX_DEPTH - d, 1, |s| - p
  {
    if At(s, p, 'E') then {}
    else
      var r := Type(s, p, d, b);
      OpensType(s, p, d, b) + if r.Ok? then OpensTypes(s, r.pos, d, b) else {}
  }

  ghost function OpensFn(s: string, p: nat, d: nat, b: nat): set<nat>
    requires p <= |s| && d <= MAX_DEPTH
    decreases MAX_DEPTH - d, 2, 0
  {
    var r := Binder(s, p, b);
    if !r.Ok? then {}
    else
      var r2 := Abi(s, if At(s, r.pos, 'U') then r.pos + 1 else r.pos);
      if !r2.Ok? then {}
      else
        var r3 := Types(s, r2.pos, d, r.value);
        OpensTypes(s, r2.pos, d, r.value) + if r3.Ok? then OpensType(s, r3.pos, d, r.value) else {}
  }

  ghost function OpensDyn(s: string, p: nat, d: nat, b: nat): set<nat>
    requires p <= |s| && d <= MAX_DEPTH
    decreases MAX_DEPTH - d, 5, 0
  {
    var r := Binder(s, p, b);
    if r.Ok? then OpensTraits(s, r.pos, d, r.value) else {}
  }

  ghost function OpensTraits(s: string, p: nat, d: nat, b: nat): set<nat>
    requires p <= |s| && d <= MAX_DEPTH
    decreases MAX_DEPTH - d, 4, |s| - p
  {
    if At(s, p, 'E') then {}
    else
      var r := DynTrait(s, p, d, b);
      OpensTrait(s, p, d, b) + if r.Ok? then OpensTraits(s, r.pos, d, b) else {}
  }

  ghost function OpensTrait(s: string, p: nat, d: nat, b: nat): set<nat>
    requires p <= |s| && d <= MAX_DEPTH
    decreases MAX_DEPTH - d, 3, 0
  {
    var r := Path(s, p, d, b, false);
    OpensPath(s, p, d, b, false) + if r.Ok? then OpensBindings(s, r.pos, d, b) else {}
  }

  ghost function OpensBindings(s: string, p: nat, d: nat, b: nat): set<nat>
    requires p <= |s| && d <= MAX_DEPTH
    decreases MAX_DEPTH - d, 1, |s| - p
  {
    if !At(s, p, 'p') then {}
    else
      var r := Ident(s, p + 1);
      if !r.Ok? then {}
      else
        var r2 := Type(s, r.pos, d, b);
        OpensType(s, r.pos, d, b) + if r2.Ok? then OpensBindings(s, r2.pos, d, b) else {}
  }

  /** A constant opens itself, and what the type at the end of its chain opens. */
  ghost function OpensConst(s: string, p: nat, d: nat, b: nat): set<nat>
    requires p <= |s| && d <= MAX_DEPTH
    decreases MAX_DEPTH - d, 1, |s| + 1
  {
    {p} + OpensBehind(s, p, d, b, |s|)
  }

  ghost function OpensBehind(s: string, p: nat, d: nat, b: nat, fuel: nat): set<nat>
    requires p <= |s| && d <= MAX_DEPTH
    decreases MAX_DEPTH - d, 1, fuel
  {
    if IsConstRef(s, p) then
      if fuel == 0 then {} else OpensBehind(s, Next(s, p), d, b, fuel - 1)
    else if At(s, p, 'B') || At(s, p, 'p') then {}
    else OpensType(s, p, d, b)
  }

  // ---- each part ends unless it opens a stuck constant --------------------

  lemma {:induction false} PathEnds(s: string, p: nat, d: nat, b: nat, v: bool)
    requires p <= |s| && d <= MAX_DEPTH
    ensures Path(s, p, d, b, v).Endless? <==> Stuck(s, OpensPath(s, p, d, b, v))
    decreases MAX_DEPTH - d, 0, 0
  {
    hide Stuck, PathBody, OpensPathBody;
    StuckNone(s);
    if d < MAX_DEPTH {
      PathBodyEnds(s, p, d + 1, b, v);
    }
  }

  lemma PathBodyEnds(s: string, p: nat, d: nat, b: nat, v: bool)
    requires p <= |s| && d <= MAX_DEPTH
    ensures PathBody(s, p, d, b, v).Endless? <==> Stuck(s, OpensPathBody(s, p, d, b, v))
    decreases MAX_DEPTH - d, 9, 0
  {
    hide Stuck, Path, Type, GenericArgs, ImplPath, QualifiedPath, Ident, Disambiguator, Backref, NestedText, GenericText, OpensPath, OpensType, OpensArgs, OpensImpl, OpensQualified;
    StuckNone(s);
    if p == |s| {
    } else if s[p] == 'M' {
      ImplEnds(s, p + 1, d, b);
      var r := ImplPath(s, p + 1, d, b);
      if r.Ok? {
        TypeEnds(s, r.pos, d, b);
      }
      StuckUnion(s, OpensImpl(s, p + 1, d, b), if r.Ok? then OpensType(s, r.pos, d, b) else {});
    } else if s[p] == 'X' {
      ImplEnds(s, p + 1, d, b);
      var r := ImplPath(s, p + 1, d, b);
      if r.Ok? {
        QualifiedEnds(s, r.pos, d, b);
      }
      StuckUnion(s, OpensImpl(s, p + 1, d, b), if r.Ok? then OpensQualified(s, r.pos, d, b) else {});
    } else if s[p] == 'Y' {
      QualifiedEnds(s, p + 1, d, b);
    } else if s[p] == 'N' && p + 1 < |s| {
      PathEnds(s, p + 2, d, b, v);
    } else if s[p] == 'I' {
      PathEnds(s, p + 1, d, b, v);
      var r := Path(s, p + 1, d, b, v);
      if r.Ok? {
        ArgsEnd(s, r.pos, d, b);
      }
      StuckUnion(s, OpensPath(s, p + 1, d, b, v), if r.Ok? then OpensArgs(s, r.pos, d, b) else {});
    } else if s[p] == 'B' {
      var r := Backref(s, p + 1);
      if r.Ok? {
        PathEnds(s, r.value, d, b, v);
      }
    }
  }

  lemma ImplEnds(s: string, p: nat, d: nat, b: nat)
    requires p <= |s| && d <= MAX_DEPTH
    ensures ImplPath(s, p, d, b).Endless? <==> Stuck(s, OpensImpl(s, p, d, b))
    decreases MAX_DEPTH - d, 1, 0
  {
    hide Stuck, Path, Disambiguator, OpensPath;
    StuckNone(s);
    var r := Disambiguator(s, p);
    if r.Ok? {
      PathEnds(s, r.pos, d, b, false);
    }
  }

  lemma QualifiedEnds(s: string, p: nat, d: nat, b: nat)
    requires p <= |s| && d <= MAX_DEPTH
    ensures QualifiedPath(s, p, d, b).Endless? <==> Stuck(s, OpensQualified(s, p, d, b))
    decreases MAX_DEPTH - d, 1, 0
  {
    hide Stuck, Path, Type, OpensPath, OpensType;
    StuckNone(s);
    TypeEnds(s, p, d, b);
    var r := Type(s, p, d, b);
    if r.Ok? {
      PathEnds(s, r.pos, d, b, false);
    }
    StuckUnion(s, OpensType(s, p, d, b), if r.Ok? then OpensPath(s, r.pos, d, b, false) else {});
  }

  lemma ArgEnds(s: string, p: nat, d: nat, b: nat)
    requires p <= |s| && d <= MAX_DEPTH
    ensures GenericArg(s, p, d, b).Endless? <==> Stuck(s, OpensArg(s, p, d, b))
    decreases MAX_DEPTH - d, 2, 0
  {
    hide Stuck, Type, Const, Lifetime, OpensType, OpensConst;
    StuckNone(s);
    if At(s, p, 'L') {
    } else if At(s, p, 'K') {
      OpenedEnds(s, p + 1, d, b);
    } else {
      TypeEnds(s, p, d, b);
    }
  }

  lemma {:induction false} ArgsEnd(s: string, p: nat, d: nat, b: nat)
    requires p <= |s| && d <= MAX_DEPTH
    ensures GenericArgs(s, p, d, b).Endless? <==> Stuck(s, OpensArgs(s, p, d, b))
    decreases MAX_DEPTH - d, 3, |s| - p
  {
    hide Stuck, GenericArg, OpensArg;
    StuckNone(s);
    if !At(s, p, 'E') {
      ArgEnds(s, p, d, b);
      var r := GenericArg(s, p, d, b);
      if r.Ok? {
        ArgsEnd(s, r.pos, d, b);
      }
      StuckUnion(s, OpensArg(s, p, d, b), if r.Ok? then OpensArgs(s, r.pos, d, b) else {});
    }
  }

  lemma {:induction false} TypeEnds(s: string, p: nat, d: nat, b: nat)
    requires p <= |s| && d <= MAX_DEPTH
    ensures Type(s, p, d, b).Endless? <==> Stuck(s, OpensType(s, p, d, b))
    decreases MAX_DEPTH - d, 0, 0
  {
    hide Stuck, TypeBody, OpensTypeBody;
    StuckNone(s);
    if d < MAX_DEPTH {
      TypeBodyEnds(s, p, d + 1, b);
    }
  }

  lemma TypeBodyEnds(s: string, p: nat, d: nat, b: nat)
    requires p <= |s| && d <= MAX_DEPTH
    ensures TypeBody(s, p, d, b).Endless? <==> Stuck(s, OpensTypeBody(s, p, d, b))
    decreases MAX_DEPTH - d, 9, 0
  {
    hide Stuck, Path, Type, Types, Const, FnSig, DynBounds, RefType, Backref, TupleText, OpensPath, OpensType, OpensTypes, OpensConst, OpensFn, OpensDyn, OpensRef;
    StuckNone(s);
    if p == |s| || s[p] in BASIC_TYPES {
    } else if s[p] == 'A' {
      TypeEnds(s, p + 1, d, b);
      var r := Type(s, p + 1, d, b);
      if r.Ok? {
        OpenedEnds(s, r.pos, d, b);
      }
      StuckUnion(s, OpensType(s, p + 1, d, b), if r.Ok? then OpensConst(s, r.pos, d, b) else {});
    } else if s[p] == 'S' || s[p] == 'P' || s[p] == 'O' {
      TypeEnds(s, p + 1, d, b);
    } else if s[p] == 'T' {
      TypesEnd(s, p + 1, d, b);
    } else if s[p] == 'R' || s[p] == 'Q' {
      RefTypeEnds(s, p + 1, d, b, s[p] == 'Q');
    } else if s[p] == 'F' {
      FnEnds(s, p + 1, d, b);
    } else if s[p] == 'D' {
      DynEnds(s, p + 1, d, b);
    } else if s[p] == 'B' {
      var r := Backref(s, p + 1);
      if r.Ok? {
        TypeEnds(s, r.value, d, b);
      }
    } else {
      PathEnds(s, p, d, b, false);
    }
  }

  lemma RefTypeEnds(s: string, p: nat, d: nat, b: nat, mutable: bool)
    requires p <= |s| && d <= MAX_DEPTH
    ensures RefType(s, p, d, b, mutable).Endless? <==> Stuck(s, OpensRef(s, p, d, b))
    decreases MAX_DEPTH - d, 1, 0
  {
    hide Stuck, Type, Lifetime, OpensType;
    StuckNone(s);
    if At(s, p, 'L') {
      var r := Lifetime(s, p + 1, b);
      if r.Ok? {
        TypeEnds(s, r.pos, d, b);
      }
    } else {
      TypeEnds(s, p, d, b);
    }
  }

  lemma {:induction false} TypesEnd(s: string, p: nat, d: nat, b: nat)
    requires p <= |s| && d <= MAX_DEPTH
    ensures Types(s, p, d, b).Endless? <==> Stuck(s, OpensTypes(s, p, d, b))
    decreases MAX_DEPTH - d, 1, |s| - p
  {
    hide Stuck, Type, OpensType;
    StuckNone(s);
    if !At(s, p, 'E') {
      TypeEnds(s, p, d, b);
      var r := Type(s, p, d, b);
      if r.Ok? {
        TypesEnd(s, r.pos, d, b);
      }
      StuckUnion(s, OpensType(s, p, d, b), if r.Ok? then OpensTypes(s, r.pos, d, b) else {});
    }
  }

  lemma FnEnds(s: string, p: nat, d: nat, b: nat)
    requires p <= |s| && d <= MAX_DEPTH
    ensures FnSig(s, p, d, b).Endless? <==> Stuck(s, OpensFn(s, p, d, b))
    decreases MAX_DEPTH - d, 2, 0
  {
    hide Stuck, Type, Types, Binder, Abi, FnText, OpensType, OpensTypes;
    StuckNone(s);
    var r := Binder(s, p, b);
    if r.Ok? {
      var r2 := Abi(s, if At(s, r.pos, 'U') then r.pos + 1 else r.pos);
      if r2.Ok? {
        TypesEnd(s, r2.pos, d, r.value);
        var r3 := Types(s, r2.pos, d, r.value);
        if r3.Ok? {
          TypeEnds(s, r3.pos, d, r.value);
        }
        StuckUnion(s, OpensTypes(s, r2.pos, d, r.value), if r3.Ok? then OpensType(s, r3.pos, d, r.value) else {});
      }
    }
  }

  lemma DynEnds(s: string, p: nat, d: nat, b: nat)
    requires p <= |s| && d <= MAX_DEPTH
    ensures DynBounds(s, p, d, b).Endless? <==> Stuck(s, OpensDyn(s, p, d, b))
    decreases MAX_DEPTH - d, 5, 0
  {
    hide Stuck, DynTraits, Binder, Base62, Join, LifetimeText, OpensTraits;
    StuckNone(s);
    var r := Binder(s, p, b);
    if r.Ok? {
      TraitsEnd(s, r.pos, d, r.value);
    }
  }

  lemma {:induction false} TraitsEnd(s: string, p: nat, d: nat, b: nat)
    requires p <= |s| && d <= MAX_DEPTH
    ensures DynTraits(s, p, d, b).Endless? <==> Stuck(s, OpensTraits(s, p, d, b))
    decreases MAX_DEPTH - d, 4, |s| - p
  {
    hide Stuck, DynTrait, OpensTrait;
    StuckNone(s);
    if !At(s, p, 'E') {
      TraitEnds(s, p, d, b);
      var r := DynTrait(s, p, d, b);
      if r.Ok? {
        TraitsEnd(s, r.pos, d, b);
      }
      StuckUnion(s, OpensTrait(s, p, d, b), if r.Ok? then OpensTraits(s, r.pos, d, b) else {});
    }
  }

  lemma TraitEnds(s: string, p: nat, d: nat, b: nat)
    requires p <= |s| && d <= MAX_DEPTH
    ensures DynTrait(s, p, d, b).Endless? <==> Stuck(s, OpensTrait(s, p, d, b))
    decreases MAX_DEPTH - d, 3, 0
  {
    hide Stuck, Path, Bindings, TraitText, OpensPath, OpensBindings;
    StuckNone(s);
    PathEnds(s, p, d, b, false);
    var r := Path(s, p, d, b, false);
    if r.Ok? {
      BindingsEnd(s, r.pos, d, b);
    }
    StuckUnion(s, OpensPath(s, p, d, b, false), if r.Ok? then OpensBindings(s, r.pos, d, b) else {});
  }

  lemma {:induction false} BindingsEnd(s: string, p: nat, d: nat, b: nat)
    requires p <= |s| && d <= MAX_DEPTH
    ensures Bindings(s, p, d, b).Endless? <==> Stuck(s, OpensBindings(s, p, d, b))
    decreases MAX_DEPTH - d, 1, |s| - p
  {
    hide Stuck, Type, Ident, OpensType;
    StuckNone(s);
    if At(s, p, 'p') {
      var r := Ident(s, p + 1);
      if r.Ok? {
        TypeEnds(s, r.pos, d, b);
        var r2 := Type(s, r.pos, d, b);
        if r2.Ok? {
          BindingsEnd(s, r2.pos, d, b);
        }
        StuckUnion(s, OpensType(s, r.pos, d, b), if r2.Ok? then OpensBindings(s, r2.pos, d, b) else {});
      }
    }
  }

  lemma OpenedEnds(s: string, p: nat, d: nat, b: nat)
    requires p <= |s| && d <= MAX_DEPTH
    ensures Const(s, p, d, b, |s|).Endless? <==> Stuck(s, OpensConst(s, p, d, b))
    decreases MAX_DEPTH - d, 1, |s| + 1
  {
    hide Stuck, Const, OpensBehind, ChainEnds;
    ConstEnds(s, p, d, b, |s|);
    StuckOne(s, p);
    StuckUnion(s, {p}, OpensBehind(s, p, d, b, |s|));
  }

  lemma {:induction false} ConstEnds(s: string, p: nat, d: nat, b: nat, fuel: nat)
    requires p <= |s| && d <= MAX_DEPTH
    ensures Const(s, p, d, b, fuel).Endless? <==> !ChainEnds(s, p, fuel) || Stuck(s, OpensBehind(s, p, d, b, fuel))
    decreases MAX_DEPTH - d, 1, fuel
  {
    hide Stuck, Type, ConstData, Backref, OpensType;
    StuckNone(s);
    if IsConstRef(s, p) {
      if fuel > 0 {
        ConstEnds(s, Next(s, p), d, b, fuel - 1);
      }
    } else if !At(s, p, 'B') && !At(s, p, 'p') {
      TypeEnds(s, p, d, b);
    }
  }

  // ---- the theorem -------------------------------------------------------

  /** The constants the parse of a symbol opens. */
  ghost function Opens(s: string): set<nat> {
    OpensPath(s, DigitsEnd(s, 0), 0, 0, true)
  }

  /** With the depth guard the parse of a symbol ends, unless it opens a constant whose
      back references lead into a cycle; and then it does not. */
  lemma EndlessIff(s: string)
    ensures Demangle(s).Endless? <==>
      exists c: nat, i: nat :: c in Opens(s) && Follow(s, c, i) >= 0 && OnConstCycle(s, Follow(s, c, i))
  {
    hide Path, ChainEnds, OpensPath, Follow, OnConstCycle;
    PathEnds(s, DigitsEnd(s, 0), 0, 0, true);
    if Stuck(s, Opens(s)) {
      var c :| c in Opens(s) && !ChainEnds(s, c, |s|);
      ChainCyclesIff(s, c);
    }
    if c: nat, i: nat :| c in Opens(s) && Follow(s, c, i) >= 0 && OnConstCycle(s, Follow(s, c, i)) {
      IntoCycleNeverEnds(s, c, i);
      assert Stuck(s, Opens(s));
    }
  }

  /** A crate with one generic argument, a constant that refers to itself. */
  const LOOPING: string := "IC1aKB4_E"

  lemma LoopingIsEndless()
    ensures Demangle(LOOPING) == Endless
  {
    hide Const, ChainEnds, Follow;
    SelfReference();
    CycleIsEndless(LOOPING, 5, 1, 0, 9);
    LoopingOpens();
  }

  lemma SelfReference()
    ensures !ChainEnds(LOOPING, 5, 9)
  {
    hide ChainEnds;
    var s := LOOPING;
    assert s[6..7] == "4" && Underscore(s, 6) == 7;
    assert "4"[..0] == "" && Value62("4") == 4;
    assert Base62(s, 6) == Ok(5, 8);
    assert IsConstRef(s, 5) && Next(s, 5) == 5;
    assert Follow(s, 5, 0) == 5 && Follow(s, 5, 1) == 5;
    assert OnConstCycle(s, 5);
    ChainCyclesIff(s, 5);
  }

  lemma LoopingOpens()
    requires Const(LOOPING, 5, 1, 0, 9) == Endless
    ensures Demangle(LOOPING) == Endless
  {
    hide Const;
    var s := LOOPING;
    assert DigitsEnd(s, 0) == 0;
    assert s[2..3] == "1" && DigitsEnd(s, 2) == 3 && "1"[..0] == "" && DecValue("1") == 1;
    assert s[3..4] == "a" && NameOfLength(s, 3, 1, false) == Ok("a", 4);
    assert Ident(s, 2) == Ok("a", 4);
    assert Path(s, 1, 1, 0, true) == Ok("a", 4);
    assert GenericArgs(s, 4, 1, 0) == Endless;
  }
}
