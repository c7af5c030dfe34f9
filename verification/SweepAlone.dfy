/** What a sweep removes if nothing else happens from here on, and when that is a build in
    use: exactly, for every number of builds to keep. */
module SweepAlone {
  import opened Sweep
  import opened Interleaving

  // ---- what it takes -----------------------------------------------------

  lemma {:induction false} UnreferencedConcat(a: seq<string>, b: seq<string>, mtimes: map<string, int>, used: set<string>)
    ensures Unreferenced(a + b, mtimes, used) == Unreferenced(a, mtimes, used) + Unreferenced(b, mtimes, used)
  {
    if b == [] {
      assert a + b == a;
    } else {
      var n := |b| - 1;
      assert (a + b)[..|a + b| - 1] == a + b[..n];
      UnreferencedConcat(a, b[..n], mtimes, used);
    }
  }

  /** All that a sweep with a list would find. */
  ghost function WouldFind(w: World, p: Phase): seq<Unused>
    requires p.Checking?
  {
    p.found + Unreferenced(p.todo, w.disk, p.live + w.building)
  }

  /** b is among what the sweep would remove. */
  ghost predicate Takes(w: World, p: Phase, b: string) {
    match p
    case Listing(live, keep) =>
      exists names :: Lists(names, w.disk) && b in Names(Collected(Unreferenced(names, w.disk, live + w.building), keep))
    case Checking(_, _, _, keep) => b in Names(Collected(WouldFind(w, p), keep))
    case Collecting(victims) => b in victims
    case _ => false
  }

  // ---- the sweep by itself -----------------------------------------------

  ghost predicate Alone(ws: seq<World>, acts: seq<Act>, w: World, t: nat) {
    Follows(ws, acts) && ws[0] == w && forall i :: 0 <= i < |acts| ==> Sweeps(acts[i]) && acts[i].t == t
  }

  /** The sweep goes on by itself until it removes a build in use. */
  ghost predicate RemovesUsed(ws: seq<World>, acts: seq<Act>, w: World, t: nat) {
    Alone(ws, acts, w, t) && acts != [] && acts[|acts| - 1].Remove? &&
    var v := ws[|acts| - 1];
    InUse(v, v.threads[t].victims[0])
  }

  lemma UnreferencedFirst(found: seq<Unused>, todo: seq<string>, mtimes: map<string, int>, used: set<string>)
    requires todo != []
    ensures var b := todo[0];
      var one := if b in used then [] else [(if b in mtimes then mtimes[b] else 0, b)];
      found + Unreferenced(todo, mtimes, used) == found + one + Unreferenced(todo[1..], mtimes, used)
  {
    var b := todo[0];
    assert [b][..0] == [] && Unreferenced([b], mtimes, used) == if b in used then [] else [(if b in mtimes then mtimes[b] else 0, b)];
    hide Unreferenced;
    assert todo == [b] + todo[1..];
    UnreferencedConcat([b], todo[1..], mtimes, used);
  }

  lemma CheckFinds(w: World, t: nat)
    requires Can(w, Check(t))
    ensures var v := Do(w, Check(t));
      v.threads[t].Checking? && WouldFind(v, v.threads[t]) == WouldFind(w, w.threads[t])
  {
    hide Unreferenced;
    var p := w.threads[t];
    UnreferencedFirst(p.found, p.todo, w.disk, p.live + w.building);
    assert p.found + [] == p.found;
  }

  /** A step of the sweep adds nothing to what it takes. */
  lemma TakesBack(w: World, a: Act, b: string)
    requires Can(w, a) && Sweeps(a)
    ensures var v := Do(w, a); a.t in v.threads && Takes(v, v.threads[a.t], b) ==> Takes(w, w.threads[a.t], b)
  {
    hide Unreferenced, Collected, Names;
    var v, p := Do(w, a), w.threads[a.t];
    match a
    case ListDisk(t, names) =>
      assert WouldFind(v, v.threads[t]) == Unreferenced(names, w.disk, p.live + w.building);
    case Check(t) => CheckFinds(w, t);
    case Choose(t) =>
      NoneListed(w.disk, p.live + w.building);
      assert WouldFind(w, p) == p.found;
    case Remove(t) => assert forall c :: c in p.victims[1..] ==> c in p.victims;
    case EndSweep(_) =>
  }

  lemma NoneListed(mtimes: map<string, int>, used: set<string>)
    ensures Unreferenced([], mtimes, used) == []
  {
  }

  lemma SweepUsesNothing(w: World, a: Act, b: string)
    requires Can(w, a) && Sweeps(a)
    ensures InUse(Do(w, a), b) <==> InUse(w, b)
  {
    hide Collected, Names;
    var v, t := Do(w, a), a.t;
    assert forall u :: u != t ==> (u in v.threads <==> u in w.threads) && (u in w.threads ==> v.threads[u] == w.threads[u]);
    assert !Starting(w.threads[t], b) && (t in v.threads ==> !Starting(v.threads[t], b));
    if InUse(w, b) && b !in Live(w) {
      var u :| u in w.threads && Starting(w.threads[u], b);
      assert u in v.threads && Starting(v.threads[u], b);
    }
    if InUse(v, b) && b !in Live(v) {
      var u :| u in v.threads && Starting(v.threads[u], b);
      assert u in w.threads && Starting(w.threads[u], b);
    }
  }

  lemma {:induction false} AloneBack(ws: seq<World>, acts: seq<Act>, w: World, t: nat, i: nat, b: string)
    requires Alone(ws, acts, w, t) && i <= |acts| && t in ws[i].threads && Takes(ws[i], ws[i].threads[t], b)
    ensures t in w.threads && Takes(w, w.threads[t], b) && (InUse(ws[i], b) <==> InUse(w, b))
    decreases i
  {
    hide Takes, InUse, Can, Do;
    if i > 0 {
      var v, a := ws[i - 1], acts[i - 1];
      assert ws[i - 1 + 1] == Do(v, a);
      ActsInFlight(v, a);
      TakesBack(v, a, b);
      SweepUsesNothing(v, a, b);
      AloneBack(ws, acts, w, t, i - 1, b);
    }
  }

  lemma ActsInFlight(w: World, a: Act)
    requires Can(w, a) && Sweeps(a)
    ensures a.t in w.threads
  {
  }

  // ---- and it does take it -----------------------------------------------

  /** How many steps are left, at the least, before b is removed. */
  ghost function StepsLeft(p: Phase): (nat, nat) {
    match p
    case Listing(_, _) => (2, 0)
    case Checking(_, todo, _, _) => (1, |todo|)
    case Collecting(victims) => (0, |victims|)
    case _ => (0, 0)
  }

  lemma Prepends(ws: seq<World>, acts: seq<Act>, w: World, a: Act, t: nat)
    requires Can(w, a) && Sweeps(a) && a.t == t && Alone(ws, acts, Do(w, a), t)
    ensures Alone([w] + ws, [a] + acts, w, t)
  {
    hide Can, Do;
    var ws', acts' := [w] + ws, [a] + acts;
    forall i | 0 <= i < |acts'|
      ensures Can(ws'[i], acts'[i]) && ws'[i + 1] == Do(ws'[i], acts'[i])
    {
      if i > 0 {
        assert ws'[i] == ws[i - 1] && ws'[i + 1] == ws[i - 1 + 1] && acts'[i] == acts[i - 1];
      }
    }
    assert forall i :: 0 < i < |acts'| ==> acts'[i] == acts[i - 1];
  }

  /** The next step on the way to removing b, when b is not up yet. */
  lemma NextStep(w: World, t: nat, b: string) returns (a: Act)
    requires t in w.threads && Sweeper(w.threads[t]) && Takes(w, w.threads[t], b)
    requires w.threads[t].Collecting? ==> w.threads[t].victims[0] != b
    ensures Can(w, a) && Sweeps(a) && a.t == t
    ensures var v := Do(w, a); t in v.threads && Sweeper(v.threads[t]) && Takes(v, v.threads[t], b)
    ensures var v := Do(w, a);
      StepsLeft(v.threads[t]).0 < StepsLeft(w.threads[t]).0 ||
      (StepsLeft(v.threads[t]).0 == StepsLeft(w.threads[t]).0 && StepsLeft(v.threads[t]).1 < StepsLeft(w.threads[t]).1)
  {
    hide Unreferenced, Collected, Names;
    var p := w.threads[t];
    if p.Listing? {
      var names :| Lists(names, w.disk) && b in Names(Collected(Unreferenced(names, w.disk, p.live + w.building), p.keep));
      a := ListDisk(t, names);
      assert WouldFind(Do(w, a), Do(w, a).threads[t]) == Unreferenced(names, w.disk, p.live + w.building);
    } else if p.Collecting? {
      a := Remove(t);
      assert p.victims == [p.victims[0]] + p.victims[1..];
    } else if p.todo == [] {
      a := Choose(t);
      NoneListed(w.disk, p.live + w.building);
      assert WouldFind(w, p) == p.found;
    } else {
      a := Check(t);
      CheckFinds(w, t);
    }
  }

  lemma {:induction false} GoesOn(w: World, t: nat, b: string) returns (ws: seq<World>, acts: seq<Act>)
    requires t in w.threads && Sweeper(w.threads[t]) && Takes(w, w.threads[t], b) && InUse(w, b)
    ensures RemovesUsed(ws, acts, w, t)
    decreases StepsLeft(w.threads[t]).0, StepsLeft(w.threads[t]).1
  {
    var p := w.threads[t];
    if p.Collecting? && p.victims[0] == b {
      ws, acts := [w, Do(w, Remove(t))], [Remove(t)];
    } else {
      hide Takes, InUse, Can, Do;
      var a := NextStep(w, t, b);
      SweepUsesNothing(w, a, b);
      ws, acts := GoesOn(Do(w, a), t, b);
      Prepends(ws, acts, w, a, t);
      var n := |acts|;
      assert ([a] + acts)[n] == acts[n - 1] && ([w] + ws)[n] == ws[n - 1];
      ws, acts := [w] + ws, [a] + acts;
    }
  }

  /** From any world, a sweep in flight that goes on by itself removes a build in use exactly
      when what it would take holds one. */
  lemma RemovesUsedIff(w: World, t: nat)
    requires t in w.threads && Sweeper(w.threads[t])
    ensures (exists ws, acts :: RemovesUsed(ws, acts, w, t)) <==> exists b :: Takes(w, w.threads[t], b) && InUse(w, b)
  {
    hide InUse, Can, Do;
    if ws, acts :| RemovesUsed(ws, acts, w, t) {
      var n := |acts| - 1;
      var v := ws[n];
      var b := RemovesFirst(v, acts[n]);
      AloneBack(ws, acts, w, t, n, b);
    }
    if b :| Takes(w, w.threads[t], b) && InUse(w, b) {
      var ws, acts := GoesOn(w, t, b);
    }
  }

  lemma RemovesFirst(w: World, a: Act) returns (b: string)
    requires Can(w, a) && a.Remove?
    ensures a.t in w.threads && w.threads[a.t].Collecting? && w.threads[a.t].victims != []
    ensures b == w.threads[a.t].victims[0] && Takes(w, w.threads[a.t], b)
  {
    b := w.threads[a.t].victims[0];
  }

  // ---- how that compares with what it could take -------------------------

  lemma NamesHave(found: seq<Unused>, b: string)
    ensures b in Names(found) <==> exists x :: x in found && x.1 == b
  {
    hide Names;
    var names := Names(found);
    if b in names {
      var i :| 0 <= i < |names| && names[i] == b;
      assert found[i] in found;
    }
    if x :| x in found && x.1 == b {
      var i :| 0 <= i < |found| && found[i] == x;
      assert names[i] == b;
    }
  }

  lemma CollectedNames(found: seq<Unused>, keep: int, b: string)
    ensures b in Names(Collected(found, keep)) ==> exists x :: x in found && x.1 == b
    ensures keep == 0 ==> (b in Names(Collected(found, keep)) <==> exists x :: x in found && x.1 == b)
  {
    hide Names, NewestFirst;
    NamesHave(Collected(found, keep), b);
    forall x | x in Collected(found, keep)
      ensures x in found
    {
      CollectedIsCandidate(found, keep, x);
    }
    if keep == 0 {
      NewestFirstFacts(found);
      assert Collected(found, 0) == NewestFirst(found);
      forall x | x in found
        ensures x in Collected(found, 0)
      {
        assert x in multiset(found);
        assert x in multiset(NewestFirst(found));
      }
    }
  }

  lemma ListedNames(listing: seq<string>, mtimes: map<string, int>, used: set<string>, b: string)
    ensures (exists x :: x in Unreferenced(listing, mtimes, used) && x.1 == b) <==> b in listing && b !in used
  {
    hide Unreferenced;
    var x := (if b in mtimes then mtimes[b] else 0, b);
    UnreferencedMeans(listing, mtimes, used, x);
    if y :| y in Unreferenced(listing, mtimes, used) && y.1 == b {
      UnreferencedMeans(listing, mtimes, used, y);
    }
  }

  lemma CheckingNames(w: World, p: Phase, b: string)
    requires p.Checking?
    ensures (exists x :: x in WouldFind(w, p) && x.1 == b) <==> CouldTake(w, p, b)
  {
    hide Unreferenced;
    var rest := Unreferenced(p.todo, w.disk, p.live + w.building);
    ListedNames(p.todo, w.disk, p.live + w.building, b);
    assert forall x :: x in WouldFind(w, p) <==> x in p.found || x in rest;
  }

  /** The directories can be listed. */
  lemma SomeListing(disk: map<string, int>) returns (names: seq<string>)
    ensures Lists(names, disk)
    decreases |disk|
  {
    if disk == map[] {
      names := [];
    } else {
      var b :| b in disk;
      var rest := disk - {b};
      assert disk.Keys == rest.Keys + {b};
      names := SomeListing(rest);
      names := names + [b];
    }
  }

  /** What a sweep by itself takes is within its reach; and if it is to keep nothing, it is
      all there is in reach. */
  lemma TakesWithinReach(w: World, p: Phase, b: string)
    ensures Takes(w, p, b) ==> CouldTake(w, p, b)
    ensures ((p.Listing? || p.Checking?) && p.keep == 0) || p.Collecting? ==> (Takes(w, p, b) <==> CouldTake(w, p, b))
  {
    hide Unreferenced, Collected, Names;
    match p
    case Listing(live, keep) =>
      var names := SomeListing(w.disk);
      forall l | Lists(l, w.disk)
        ensures b in Names(Collected(Unreferenced(l, w.disk, live + w.building), keep)) ==> CouldTake(w, p, b)
        ensures keep == 0 ==>
          (b in Names(Collected(Unreferenced(l, w.disk, live + w.building), keep)) <==> CouldTake(w, p, b))
      {
        CollectedNames(Unreferenced(l, w.disk, live + w.building), keep, b);
        ListedNames(l, w.disk, live + w.building, b);
      }
    case Checking(_, _, _, keep) =>
      CollectedNames(WouldFind(w, p), keep, b);
      CheckingNames(w, p, b);
    case _ =>
  }

  // ---- the order of the listing does not matter --------------------------

  lemma {:induction false} LexAntisymmetric(a: string, b: string)
    requires LexLeq(a, b) && LexLeq(b, a)
    ensures a == b
  {
    if a != "" && b != "" {
      LexAntisymmetric(a[1..], b[1..]);
      assert a == [a[0]] + a[1..] && b == [b[0]] + b[1..];
    }
  }

  lemma LeqAntisymmetric(x: Unused, y: Unused)
    requires Leq(x, y) && Leq(y, x)
    ensures x == y
  {
    LexAntisymmetric(x.1, y.1);
  }

  lemma {:induction false} LexReflexive(a: string)
    ensures LexLeq(a, a)
  {
    if a != "" {
      LexReflexive(a[1..]);
    }
  }

  lemma {:induction false} NewestUnique(s: seq<Unused>, r: seq<Unused>)
    requires Newest(s) && Newest(r) && multiset(s) == multiset(r)
    ensures s == r
  {
    hide Leq;
    assert |s| == |multiset(s)| == |multiset(r)| == |r|;
    if s != [] {
      FirstIsTop(s, r[0]);
      FirstIsTop(r, s[0]);
      LeqAntisymmetric(s[0], r[0]);
      SameRest(s, r);
      NewestUnique(s[1..], r[1..]);
    }
  }

  lemma SameRest(s: seq<Unused>, r: seq<Unused>)
    requires s != [] && r != [] && s[0] == r[0] && multiset(s) == multiset(r)
    ensures multiset(s[1..]) == multiset(r[1..])
  {
    assert s == [s[0]] + s[1..] && r == [r[0]] + r[1..];
    assert multiset(s[1..]) == multiset(s) - multiset{s[0]};
    assert multiset(r[1..]) == multiset(r) - multiset{r[0]};
  }

  lemma FirstIsTop(s: seq<Unused>, x: Unused)
    requires Newest(s) && s != [] && x in multiset(s)
    ensures Leq(x, s[0])
  {
    var i :| 0 <= i < |s| && s[i] == x;
    LexReflexive(x.1);
  }

  /** How often a candidate is found. */
  lemma {:induction false} FoundAsListed(a: seq<string>, mtimes: map<string, int>, used: set<string>, x: Unused)
    ensures multiset(Unreferenced(a, mtimes, used))[x] ==
      if x.1 in used || x.0 != (if x.1 in mtimes then mtimes[x.1] else 0) then 0 else multiset(a)[x.1]
  {
    if a != [] {
      var n := |a| - 1;
      FoundAsListed(a[..n], mtimes, used, x);
      assert a == a[..n] + [a[n]];
    }
  }

  lemma SameUnreferenced(a: seq<string>, b: seq<string>, mtimes: map<string, int>, used: set<string>)
    requires multiset(a) == multiset(b)
    ensures multiset(Unreferenced(a, mtimes, used)) == multiset(Unreferenced(b, mtimes, used))
  {
    hide Unreferenced;
    forall x: Unused
      ensures multiset(Unreferenced(a, mtimes, used))[x] == multiset(Unreferenced(b, mtimes, used))[x]
    {
      FoundAsListed(a, mtimes, used, x);
      FoundAsListed(b, mtimes, used, x);
    }
  }

  lemma {:induction false} SameListing(a: seq<string>, b: seq<string>)
    requires forall x :: x in a <==> x in b
    requires forall i, j :: 0 <= i < j < |a| ==> a[i] != a[j]
    requires forall i, j :: 0 <= i < j < |b| ==> b[i] != b[j]
    ensures multiset(a) == multiset(b)
  {
    forall x
      ensures multiset(a)[x] == multiset(b)[x]
    {
      Once(a, x);
      Once(b, x);
    }
  }

  lemma {:induction false} Once(a: seq<string>, x: string)
    requires forall i, j :: 0 <= i < j < |a| ==> a[i] != a[j]
    ensures multiset(a)[x] == if x in a then 1 else 0
  {
    if a != [] {
      var n := |a| - 1;
      Once(a[..n], x);
      assert a == a[..n] + [a[n]];
    }
  }

  /** In whatever order the directories are listed, the same are collected. */
  lemma ListingOrderIsNothing(a: seq<string>, b: seq<string>, disk: map<string, int>, used: set<string>, keep: int)
    requires Lists(a, disk) && Lists(b, disk)
    ensures Collected(Unreferenced(a, disk, used), keep) == Collected(Unreferenced(b, disk, used), keep)
  {
    hide Unreferenced, NewestFirst;
    SameListing(a, b);
    SameUnreferenced(a, b, disk, used);
    NewestFirstFacts(Unreferenced(a, disk, used));
    NewestFirstFacts(Unreferenced(b, disk, used));
    NewestUnique(NewestFirst(Unreferenced(a, disk, used)), NewestFirst(Unreferenced(b, disk, used)));
  }
}
