/** Starts, stops and sweeps running at once: each action is one critical section, and a
    run is any interleaving of them. */
module Interleaving {
  import opened Registry
  import opened Sweep

  /** How far a start or a sweep has come. */
  datatype Phase =
    | Building(build: string)
    | Built(build: string)
    | Holding(build: string, id: string)
    | Listing(live: set<string>, keep: int)
    | Checking(live: set<string>, todo: seq<string>, found: seq<Unused>, keep: int)
    | Collecting(victims: seq<string>)

  /** The registry, the ids being built, the build directories with their times, every build
      id there has been, and the calls in flight. */
  datatype World = World(
    sessions: map<string, string>, reserved: set<string>, building: set<string>,
    disk: map<string, int>, ever: set<string>, threads: map<nat, Phase>)

  /** The server comes up: nothing runs, and the disk holds what earlier servers left. */
  function Initial(disk: map<string, int>): World {
    World(map[], {}, {}, disk, disk.Keys, map[])
  }

  datatype Act =
    | BeginBuild(t: nat, build: string, mtime: int)
    | EndBuild(t: nat, ok: bool)
    | GiveUp(t: nat)                     // the build left no kernel behind
    | Reserve(t: nat, id: string)
    | Register(t: nat)
    | Abandon(t: nat)                    // the instance did not come up
    | Stop(id: string)
    | Snapshot(t: nat, keep: int)
    | ListDisk(t: nat, names: seq<string>)
    | Check(t: nat)
    | Choose(t: nat)
    | Remove(t: nat)
    | EndSweep(t: nat)

  /** The directories there are, each once, in some order. */
  ghost predicate Lists(names: seq<string>, disk: map<string, int>) {
    && (forall b :: b in names <==> b in disk)
    && forall i, j :: 0 <= i < j < |names| ==> names[i] != names[j]
  }

  ghost predicate Can(w: World, a: Act) {
    match a
    case BeginBuild(t, _, _) => t !in w.threads
    case EndBuild(t, _) => t in w.threads && w.threads[t].Building?
    case GiveUp(t) => t in w.threads && w.threads[t].Built?
    case Reserve(t, id) =>
      t in w.threads && w.threads[t].Built? && FirstFree(w.sessions.Keys + w.reserved, w.threads[t].build, id)
    case Register(t) => t in w.threads && w.threads[t].Holding?
    case Abandon(t) => t in w.threads && w.threads[t].Holding?
    case Stop(id) => id in w.sessions
    case Snapshot(t, _) => t !in w.threads
    case ListDisk(t, names) => t in w.threads && w.threads[t].Listing? && Lists(names, w.disk)
    case Check(t) => t in w.threads && w.threads[t].Checking? && w.threads[t].todo != []
    case Choose(t) => t in w.threads && w.threads[t].Checking? && w.threads[t].todo == []
    case Remove(t) => t in w.threads && w.threads[t].Collecting? && w.threads[t].victims != []
    case EndSweep(t) => t in w.threads && w.threads[t].Collecting? && w.threads[t].victims == []
  }

  function Names(found: seq<Unused>): (r: seq<string>)
    ensures |r| == |found| && forall i :: 0 <= i < |r| ==> r[i] == found[i].1
  {
    if found == [] then [] else [found[0].1] + Names(found[1..])
  }

  ghost function Do(w: World, a: Act): World
    requires Can(w, a)
  {
    match a
    case BeginBuild(t, b, m) =>
      w.(building := w.building + {b}, disk := w.disk[b := m], ever := w.ever + {b}, threads := w.threads[t := Building(b)])
    case EndBuild(t, ok) =>
      var b := w.threads[t].build;
      w.(building := w.building - {b}, threads := if ok then w.threads[t := Built(b)] else w.threads - {t})
    case GiveUp(t) => w.(threads := w.threads - {t})
    case Reserve(t, id) =>
      w.(reserved := w.reserved + {id}, threads := w.threads[t := Holding(w.threads[t].build, id)])
    case Register(t) =>
      var p := w.threads[t];
      w.(sessions := w.sessions[p.id := p.build], reserved := w.reserved - {p.id}, threads := w.threads - {t})
    case Abandon(t) => w.(reserved := w.reserved - {w.threads[t].id}, threads := w.threads - {t})
    case Stop(id) => w.(sessions := w.sessions - {id})
    case Snapshot(t, keep) => w.(threads := w.threads[t := Listing(Live(w), keep)])
    case ListDisk(t, names) => w.(threads := w.threads[t := Checking(w.threads[t].live, names, [], w.threads[t].keep)])
    case Check(t) =>
      var p := w.threads[t];
      var b := p.todo[0];
      var found := if b in p.live || b in w.building then p.found
                   else p.found + [(if b in w.disk then w.disk[b] else 0, b)];
      w.(threads := w.threads[t := p.(todo := p.todo[1..], found := found)])
    case Choose(t) =>
      var p := w.threads[t];
      w.(threads := w.threads[t := Collecting(Names(Collected(p.found, p.keep)))])
    case Remove(t) =>
      var v := w.threads[t].victims;
      w.(disk := w.disk - {v[0]}, threads := w.threads[t := Collecting(v[1..])])
    case EndSweep(t) => w.(threads := w.threads - {t})
  }

  ghost function Live(w: World): set<string> {
    w.sessions.Values
  }

  // ---- runs --------------------------------------------------------------

  /** Each world comes from the one before by an action that is possible there. */
  ghost predicate Follows(ws: seq<World>, acts: seq<Act>) {
    && |ws| == |acts| + 1
    && forall i :: 0 <= i < |acts| ==> Can(ws[i], acts[i]) && ws[i + 1] == Do(ws[i], acts[i])
  }

  ghost predicate IsRun(ws: seq<World>, acts: seq<Act>) {
    Follows(ws, acts) && ws[0] == Initial(ws[0].disk)
  }

  // ---- ids ---------------------------------------------------------------

  ghost predicate Holds(w: World, t: nat, id: string) {
    t in w.threads && w.threads[t].Holding? && w.threads[t].id == id
  }

  /** Registered and reserved ids are apart, and each reserved id is held by one start. */
  ghost predicate Ids(w: World) {
    && w.sessions.Keys !! w.reserved
    && (forall t, id :: Holds(w, t, id) ==> id in w.reserved)
    && (forall t, u, id :: Holds(w, t, id) && Holds(w, u, id) ==> t == u)
    && (forall id :: id in w.reserved ==> exists t :: Holds(w, t, id))
  }

  /** An action that neither takes nor gives up an id leaves who holds what alone. */
  lemma SameHolders(w: World, v: World)
    requires Ids(w) && v.reserved == w.reserved && v.sessions.Keys <= w.sessions.Keys
    requires forall t, id :: Holds(w, t, id) <==> Holds(v, t, id)
    ensures Ids(v)
  {
    forall id | id in v.reserved
      ensures exists t :: Holds(v, t, id)
    {
      var t :| Holds(w, t, id);
      assert Holds(v, t, id);
    }
  }

  lemma FreeIsFree(taken: set<string>, build: string, id: string)
    requires FirstFree(taken, build, id)
    ensures id !in taken
  {
    var n: nat :| FreeAt(taken, build, id, n);
  }

  lemma ReserveKeepsIds(w: World, t: nat, id: string)
    requires Ids(w) && Can(w, Reserve(t, id))
    ensures Ids(Do(w, Reserve(t, id)))
  {
    FreeIsFree(w.sessions.Keys + w.reserved, w.threads[t].build, id);
    var v := Do(w, Reserve(t, id));
    assert forall u, x :: Holds(v, u, x) <==> Holds(w, u, x) || (u == t && x == id);
    forall x | x in v.reserved
      ensures exists u :: Holds(v, u, x)
    {
      if x == id {
        assert Holds(v, t, id);
      } else {
        var u :| Holds(w, u, x);
        assert Holds(v, u, x);
      }
    }
  }

  /** Registering or abandoning gives the id back. */
  lemma GivingBackKeepsIds(w: World, v: World, t: nat)
    requires Ids(w) && t in w.threads && w.threads[t].Holding?
    requires v.reserved == w.reserved - {w.threads[t].id} && v.threads == w.threads - {t}
    requires v.sessions.Keys <= w.sessions.Keys + {w.threads[t].id}
    ensures Ids(v) && w.threads[t].id !in w.sessions
  {
    var id := w.threads[t].id;
    assert Holds(w, t, id);
    assert forall u, x :: Holds(v, u, x) <==> Holds(w, u, x) && u != t;
    forall x | x in v.reserved
      ensures exists u :: Holds(v, u, x)
    {
      var u :| Holds(w, u, x);
      assert Holds(v, u, x);
    }
  }

  lemma StepKeepsIds(w: World, a: Act)
    requires Ids(w) && Can(w, a)
    ensures Ids(Do(w, a))
  {
    hide Ids, Names, Collected, FirstFree;
    var v := Do(w, a);
    match a {
      case Reserve(t, id) => ReserveKeepsIds(w, t, id);
      case Register(t) => GivingBackKeepsIds(w, v, t);
      case Abandon(t) => GivingBackKeepsIds(w, v, t);
      case _ => SameHolders(w, v);
    }
  }

  lemma {:induction false} RunKeepsIds(ws: seq<World>, acts: seq<Act>, i: nat)
    requires IsRun(ws, acts) && i < |ws|
    ensures Ids(ws[i])
    decreases i
  {
    if i > 0 {
      hide Ids, Do;
      RunKeepsIds(ws, acts, i - 1);
      assert ws[i - 1 + 1] == Do(ws[i - 1], acts[i - 1]);
      StepKeepsIds(ws[i - 1], acts[i - 1]);
    }
  }

  /** In every interleaving: registered and reserved ids stay apart, no two starts in flight
      hold one id, and a registration never takes the place of a running instance. */
  lemma IdsNeverCollide(ws: seq<World>, acts: seq<Act>, i: nat)
    requires IsRun(ws, acts) && i < |acts|
    ensures ws[i].sessions.Keys !! ws[i].reserved
    ensures forall t, u, id :: Holds(ws[i], t, id) && Holds(ws[i], u, id) ==> t == u
    ensures acts[i].Register? ==>
      ws[i].threads[acts[i].t].id !in ws[i].sessions &&
      forall id :: id in ws[i].sessions ==> id in ws[i + 1].sessions && ws[i + 1].sessions[id] == ws[i].sessions[id]
  {
    hide FirstFree;
    RunKeepsIds(ws, acts, i);
    if acts[i].Register? {
      assert Holds(ws[i], acts[i].t, ws[i].threads[acts[i].t].id);
    }
  }

  // ---- namespaces --------------------------------------------------------

  ghost predicate Sweeper(p: Phase) {
    p.Listing? || p.Checking? || p.Collecting?
  }

  ghost predicate Starting(p: Phase, b: string) {
    (p.Building? || p.Built? || p.Holding?) && p.build == b
  }

  /** b has a running instance or a start on the way. */
  ghost predicate InUse(w: World, b: string) {
    b in Live(w) || exists t :: t in w.threads && Starting(w.threads[t], b)
  }

  /** The same, thread t aside. */
  ghost predicate UsedBesides(w: World, t: nat, b: string) {
    b in Live(w) || exists u :: u in w.threads && u != t && Starting(w.threads[u], b)
  }

  /** A sweep holds b for unused, or has decided to remove it. */
  ghost predicate Chosen(p: Phase, b: string) {
    match p
    case Checking(_, _, found, _) => exists x :: x in found && x.1 == b
    case Collecting(victims) => b in victims
    case _ => false
  }

  /** A sweep that has come this far may still take b: it will come upon b and not know it
      to be live or unfinished, or it has chosen it. */
  ghost predicate CouldTake(w: World, p: Phase, b: string) {
    match p
    case Listing(live, _) => b in w.disk && b !in live && b !in w.building
    case Checking(live, todo, _, _) => (b in todo && b !in live && b !in w.building) || Chosen(p, b)
    case Collecting(_) => Chosen(p, b)
    case _ => false
  }

  /** No sweep may take what is in use. */
  ghost predicate Spared(w: World) {
    forall t, b :: t in w.threads && CouldTake(w, w.threads[t], b) ==> !InUse(w, b)
  }

  /** What keeps it so. A build may begin unless a sweep has chosen its id; it may end, if it
      then stays in use, unless a sweep could take it without its being unfinished; and a
      sweep may begin unless a directory in use is neither live nor unfinished. */
  ghost predicate Calm(w: World, a: Act)
    requires Can(w, a)
  {
    match a
    case BeginBuild(_, b, _) => forall u :: u in w.threads ==> !Chosen(w.threads[u], b)
    case EndBuild(t, ok) =>
      var b := w.threads[t].build;
      ok || UsedBesides(w, t, b) ==>
        forall u :: u in w.threads ==> !CouldTake(w.(building := w.building - {b}), w.threads[u], b)
    case Snapshot(_, _) => forall b :: b in w.disk && InUse(w, b) ==> b in Live(w) || b in w.building
    case _ => true
  }

  /** Thread t moved, or came, or went; everyone else stands still. */
  ghost predicate OnlyMoves(w: World, v: World, t: nat) {
    v.threads == w.threads - {t} || (t in v.threads && v.threads == w.threads[t := v.threads[t]])
  }

  /** An action that puts nothing to use and lets no sweep take more. */
  lemma LessToTake(w: World, v: World, t: nat)
    requires Spared(w) && OnlyMoves(w, v, t) && v.building == w.building && v.disk.Keys <= w.disk.Keys
    requires forall b :: InUse(v, b) ==> InUse(w, b)
    requires forall b :: t in v.threads && CouldTake(w, v.threads[t], b) ==> t in w.threads && CouldTake(w, w.threads[t], b)
    ensures Spared(v)
  {
    hide InUse;
    forall u, b | u in v.threads && CouldTake(v, v.threads[u], b)
      ensures !InUse(v, b)
    {
      assert CouldTake(w, v.threads[u], b);
      if u != t {
        assert u in w.threads && w.threads[u] == v.threads[u];
      }
    }
  }

  /** Only what thread t starts can come into use. */
  lemma NoNewUse(w: World, v: World, t: nat)
    requires OnlyMoves(w, v, t) && Live(v) <= Live(w)
    requires forall b :: t in v.threads && Starting(v.threads[t], b) ==> InUse(w, b)
    ensures forall b :: InUse(v, b) ==> InUse(w, b)
  {
    forall b | InUse(v, b)
      ensures InUse(w, b)
    {
      UseStays(w, v, t, b);
    }
  }

  lemma UseStays(w: World, v: World, t: nat, b: string)
    requires OnlyMoves(w, v, t) && Live(v) <= Live(w) && InUse(v, b)
    requires t in v.threads && Starting(v.threads[t], b) ==> InUse(w, b)
    ensures InUse(w, b)
  {
    if b !in Live(v) {
      var u :| u in v.threads && Starting(v.threads[u], b);
      if u != t {
        assert u in w.threads && w.threads[u] == v.threads[u];
      }
    }
  }

  lemma BeginIff(w: World, t: nat, b: string, m: int)
    requires Spared(w) && Can(w, BeginBuild(t, b, m))
    ensures Spared(Do(w, BeginBuild(t, b, m))) <==> Calm(w, BeginBuild(t, b, m))
  {
    hide Chosen;
    var v := Do(w, BeginBuild(t, b, m));
    assert v.threads[t] == Building(b) && InUse(v, b);
    assert forall u :: u in w.threads ==> v.threads[u] == w.threads[u];
    if Spared(v) {
      forall u | u in w.threads
        ensures !Chosen(w.threads[u], b)
      {
        ChosenIsTaken(v, v.threads[u], b);
      }
    }
    if Calm(w, BeginBuild(t, b, m)) {
      forall u, c | u in v.threads && CouldTake(v, v.threads[u], c)
        ensures !InUse(v, c)
      {
        assert u != t && CouldTake(w, w.threads[u], c) && c != b;
        if InUse(v, c) {
          UseStays(w, v, t, c);
        }
      }
    }
  }

  lemma ChosenIsTaken(w: World, p: Phase, b: string)
    ensures Chosen(p, b) ==> CouldTake(w, p, b)
  {
  }

  lemma EndIff(w: World, t: nat, ok: bool)
    requires Spared(w) && Can(w, EndBuild(t, ok))
    ensures Spared(Do(w, EndBuild(t, ok))) <==> Calm(w, EndBuild(t, ok))
  {
    hide Chosen;
    var v, b := Do(w, EndBuild(t, ok)), w.threads[t].build;
    assert w.threads[t] == Building(b);
    EndUse(w, t, ok);
    hide InUse, UsedBesides;
    assert forall u :: u in w.threads && u != t ==> u in v.threads && v.threads[u] == w.threads[u];
    assert forall p, c :: CouldTake(v, p, c) == CouldTake(w.(building := w.building - {b}), p, c);
    assert forall p, c :: c != b ==> CouldTake(v, p, c) == CouldTake(w, p, c);
    if Spared(v) && (ok || UsedBesides(w, t, b)) {
      forall u | u in w.threads
        ensures !CouldTake(w.(building := w.building - {b}), w.threads[u], b)
      {
        if u != t {
          assert u in v.threads && (CouldTake(v, v.threads[u], b) ==> !InUse(v, b));
        }
      }
    }
    if Calm(w, EndBuild(t, ok)) {
      forall u, c | u in v.threads && CouldTake(v, v.threads[u], c)
        ensures !InUse(v, c)
      {
        assert u != t;
        assert c != b ==> CouldTake(w, w.threads[u], c);
      }
    }
  }

  lemma EndUse(w: World, t: nat, ok: bool)
    requires Can(w, EndBuild(t, ok))
    ensures var v, b := Do(w, EndBuild(t, ok)), w.threads[t].build;
      && (InUse(v, b) <==> ok || UsedBesides(w, t, b))
      && forall c :: c != b && InUse(v, c) ==> InUse(w, c)
  {
    var v, b := Do(w, EndBuild(t, ok)), w.threads[t].build;
    if ok {
      assert Starting(v.threads[t], b);
    }
    if UsedBesides(w, t, b) && b !in Live(w) {
      var u :| u in w.threads && u != t && Starting(w.threads[u], b);
      assert u in v.threads && Starting(v.threads[u], b);
    }
    if InUse(v, b) && b !in Live(v) {
      var u :| u in v.threads && Starting(v.threads[u], b);
      assert u != t ==> u in w.threads && Starting(w.threads[u], b);
    }
    forall c | c != b && InUse(v, c)
      ensures InUse(w, c)
    {
      if c !in Live(v) {
        var u :| u in v.threads && Starting(v.threads[u], c);
        assert u in w.threads && Starting(w.threads[u], c);
      }
    }
  }

  lemma SnapshotIff(w: World, t: nat, keep: int)
    requires Spared(w) && Can(w, Snapshot(t, keep))
    ensures Spared(Do(w, Snapshot(t, keep))) <==> Calm(w, Snapshot(t, keep))
  {
    var v := Do(w, Snapshot(t, keep));
    NoNewUse(w, v, t);
    NoNewUse(v, w, t);
    hide InUse;
    assert v.threads[t] == Listing(Live(w), keep);
    assert forall u :: u in w.threads ==> v.threads[u] == w.threads[u];
    assert forall p, b :: CouldTake(v, p, b) == CouldTake(w, p, b);
    if Spared(v) {
      forall b | b in w.disk && InUse(w, b)
        ensures b in Live(w) || b in w.building
      {
        assert CouldTake(v, v.threads[t], b) ==> !InUse(v, b);
      }
    }
    if Calm(w, Snapshot(t, keep)) {
      forall u, b | u in v.threads && CouldTake(v, v.threads[u], b)
        ensures !InUse(v, b)
      {
        if u != t {
          assert CouldTake(w, w.threads[u], b);
        }
      }
    }
  }

  /** Moves of a start out of its build, and stops. */
  lemma StartKeeps(w: World, a: Act)
    requires Spared(w) && Can(w, a) && (a.GiveUp? || a.Reserve? || a.Abandon?)
    ensures Spared(Do(w, a))
  {
    hide FirstFree;
    var v, p := Do(w, a), w.threads[a.t];
    assert Starting(p, p.build) && InUse(w, p.build);
    NoNewUse(w, v, a.t);
    LessToTake(w, v, a.t);
  }

  lemma RegisterKeeps(w: World, t: nat)
    requires Spared(w) && Can(w, Register(t))
    ensures Spared(Do(w, Register(t)))
  {
    var v, p := Do(w, Register(t)), w.threads[t];
    assert Starting(p, p.build) && InUse(w, p.build);
    assert Live(v) <= Live(w) + {p.build};
    forall b | InUse(v, b)
      ensures InUse(w, b)
    {
      if b !in Live(v) {
        var u :| u in v.threads && Starting(v.threads[u], b);
        assert u in w.threads && w.threads[u] == v.threads[u];
      }
    }
    LessToTake(w, v, t);
  }

  lemma StopKeeps(w: World, id: string)
    requires Spared(w) && Can(w, Stop(id))
    ensures Spared(Do(w, Stop(id)))
  {
    var v := Do(w, Stop(id));
    assert Live(v) <= Live(w);
    forall u, b | u in v.threads && CouldTake(v, v.threads[u], b)
      ensures !InUse(v, b)
    {
      assert CouldTake(w, w.threads[u], b);
      assert InUse(v, b) ==> InUse(w, b);
    }
  }

  /** What a sweep does itself. */
  ghost predicate Sweeps(a: Act) {
    a.ListDisk? || a.Check? || a.Choose? || a.Remove? || a.EndSweep?
  }

  /** A sweep never comes to be able to take more than before. */
  lemma SweepNarrows(w: World, a: Act, b: string)
    requires Can(w, a) && Sweeps(a)
    ensures var v := Do(w, a); a.t in v.threads && CouldTake(w, v.threads[a.t], b) ==> CouldTake(w, w.threads[a.t], b)
  {
    hide Collected, Names;
    var v, p := Do(w, a), w.threads[a.t];
    if a.Check? {
      assert p.todo[0] in p.todo && forall c :: c in p.todo[1..] ==> c in p.todo;
    } else if a.Choose? {
      var got, victims := Collected(p.found, p.keep), v.threads[a.t].victims;
      if b in victims {
        var i :| 0 <= i < |victims| && victims[i] == b;
        CollectedIsCandidate(p.found, p.keep, got[i]);
      }
    } else if a.Remove? {
      assert forall c :: c in p.victims[1..] ==> c in p.victims;
    }
  }

  lemma SweepKeeps(w: World, a: Act)
    requires Spared(w) && Can(w, a) && Sweeps(a)
    ensures Spared(Do(w, a))
  {
    hide CouldTake, Collected, Names;
    var v := Do(w, a);
    NoNewUse(w, v, a.t);
    forall b | a.t in v.threads && CouldTake(w, v.threads[a.t], b)
      ensures CouldTake(w, w.threads[a.t], b)
    {
      SweepNarrows(w, a, b);
    }
    LessToTake(w, v, a.t);
  }

  /** Each critical section leaves what is in use out of every sweep's reach exactly when it
      is calm. */
  lemma StepSparesIff(w: World, a: Act)
    requires Spared(w) && Can(w, a)
    ensures Spared(Do(w, a)) <==> Calm(w, a)
  {
    hide Spared, FirstFree, Collected, Names;
    match a {
      case BeginBuild(t, b, m) => BeginIff(w, t, b, m);
      case EndBuild(t, ok) => EndIff(w, t, ok);
      case Snapshot(t, keep) => SnapshotIff(w, t, keep);
      case Register(t) => RegisterKeeps(w, t);
      case Stop(id) => StopKeeps(w, id);
      case GiveUp(_) => StartKeeps(w, a);
      case Reserve(_, _) => StartKeeps(w, a);
      case Abandon(_) => StartKeeps(w, a);
      case _ => SweepKeeps(w, a);
    }
  }

  ghost predicate CalmTo(ws: seq<World>, acts: seq<Act>, i: nat)
    requires Follows(ws, acts) && i <= |acts|
  {
    forall k :: 0 <= k < i ==> Calm(ws[k], acts[k])
  }

  /** Over every run from every initial disk: nothing in use is ever within a sweep's reach,
      up to some point, exactly when every step up to there is calm. */
  lemma {:induction false} RunSparesIff(ws: seq<World>, acts: seq<Act>, i: nat)
    requires IsRun(ws, acts) && i < |ws|
    ensures (forall k :: 0 <= k <= i ==> Spared(ws[k])) <==> CalmTo(ws, acts, i)
    decreases i
  {
    if i == 0 {
      assert Spared(ws[0]);
    } else {
      hide Spared, Do, Calm, Can;
      RunSparesIff(ws, acts, i - 1);
      assert ws[i - 1 + 1] == Do(ws[i - 1], acts[i - 1]);
      if Spared(ws[i - 1]) {
        StepSparesIff(ws[i - 1], acts[i - 1]);
      }
    }
  }

  /** In every calm interleaving a sweep removes only what no instance runs from, no build
      is writing and no start is about to use. */
  lemma SweepSparesUsed(ws: seq<World>, acts: seq<Act>, i: nat)
    requires IsRun(ws, acts) && i < |acts| && acts[i].Remove? && CalmTo(ws, acts, i)
    ensures !InUse(ws[i], ws[i].threads[acts[i].t].victims[0])
  {
    hide InUse, Calm, CalmTo;
    RunSparesIff(ws, acts, i);
    var w, t := ws[i], acts[i].t;
    assert Spared(w) && CouldTake(w, w.threads[t], w.threads[t].victims[0]);
  }

  // ---- new ids -----------------------------------------------------------

  /** Every directory, and every id a sweep has listed, has been a build id. */
  ghost predicate Known(w: World) {
    && w.disk.Keys <= w.ever
    && forall t :: t in w.threads ==> KnownTo(w, w.threads[t])
  }

  ghost predicate KnownTo(w: World, p: Phase) {
    match p
    case Checking(_, todo, found, _) => (forall b :: b in todo ==> b in w.ever) && forall x :: x in found ==> x.1 in w.ever
    case Collecting(victims) => forall b :: b in victims ==> b in w.ever
    case _ => true
  }

  lemma StepKeepsKnown(w: World, a: Act)
    requires Known(w) && Can(w, a)
    ensures Known(Do(w, a))
  {
    hide FirstFree, Collected, Names;
    var v := Do(w, a);
    if a.Choose? {
      var p, victims := w.threads[a.t], v.threads[a.t].victims;
      forall b | b in victims
        ensures b in w.ever
      {
        var i :| 0 <= i < |victims| && victims[i] == b;
        CollectedIsCandidate(p.found, p.keep, Collected(p.found, p.keep)[i]);
      }
    }
    forall u | u in v.threads
      ensures KnownTo(v, v.threads[u])
    {
      assert u in w.threads ==> KnownTo(w, w.threads[u]);
    }
  }

  lemma {:induction false} RunKeepsKnown(ws: seq<World>, acts: seq<Act>, i: nat)
    requires IsRun(ws, acts) && i < |ws|
    ensures Known(ws[i])
    decreases i
  {
    if i > 0 {
      hide Known, Do, Can;
      RunKeepsKnown(ws, acts, i - 1);
      assert ws[i - 1 + 1] == Do(ws[i - 1], acts[i - 1]);
      StepKeepsKnown(ws[i - 1], acts[i - 1]);
    }
  }

  /** A build id that was never used before may be built at any time. */
  lemma NewIdIsCalm(ws: seq<World>, acts: seq<Act>, i: nat)
    requires IsRun(ws, acts) && i < |acts| && acts[i].BeginBuild? && acts[i].build !in ws[i].ever
    ensures Calm(ws[i], acts[i])
  {
    RunKeepsKnown(ws, acts, i);
    forall u | u in ws[i].threads
      ensures !Chosen(ws[i].threads[u], acts[i].build)
    {
      assert KnownTo(ws[i], ws[i].threads[u]);
    }
  }

  // ---- a run that is not calm --------------------------------------------

  lemma OneMore(ws: seq<World>, acts: seq<Act>, a: Act, v: World)
    requires IsRun(ws, acts) && Can(ws[|acts|], a) && Do(ws[|acts|], a) == v
    ensures IsRun(ws + [v], acts + [a]) && |ws| == |acts| + 1
  {
    hide Can, Do;
    var ws', acts' := ws + [v], acts + [a];
    forall i | 0 <= i < |acts'|
      ensures Can(ws'[i], acts'[i]) && ws'[i + 1] == Do(ws'[i], acts'[i])
    {
      if i < |acts| {
        assert ws'[i] == ws[i] && ws'[i + 1] == ws[i + 1] && acts'[i] == acts[i];
      }
    }
  }

  /** A world in which b is built, and two calls are in flight. */
  function Pair(disk: map<string, int>, start: Phase, sweep: Phase): World {
    World(map[], if start.Holding? then {start.id} else {}, {}, disk, {"b"}, map[0 := start, 1 := sweep])
  }

  lemma BuildsUp() returns (ws: seq<World>, acts: seq<Act>)
    ensures IsRun(ws, acts) && |ws| == |acts| + 1
    ensures ws[|acts|] == Pair(map["b" := 5], Built("b"), Listing({}, 0))
  {
    hide FirstFree;
    var w1 := World(map[], {}, {"b"}, map["b" := 5], {"b"}, map[0 := Building("b")]);
    var w2 := World(map[], {}, {}, map["b" := 5], {"b"}, map[0 := Built("b")]);
    ws, acts := [Initial(map[])], [];
    OneMore(ws, acts, BeginBuild(0, "b", 5), w1);
    ws, acts := ws + [w1], acts + [BeginBuild(0, "b", 5)];
    OneMore(ws, acts, EndBuild(0, true), w2);
    ws, acts := ws + [w2], acts + [EndBuild(0, true)];
    var w3 := Pair(map["b" := 5], Built("b"), Listing({}, 0));
    assert Live(w2) == {};
    OneMore(ws, acts, Snapshot(1, 0), w3);
    ws, acts := ws + [w3], acts + [Snapshot(1, 0)];
  }

  lemma Picks() returns (ws: seq<World>, acts: seq<Act>)
    ensures IsRun(ws, acts) && |ws| == |acts| + 1
    ensures ws[|acts|] == Pair(map["b" := 5], Built("b"), Collecting(["b"]))
  {
    hide FirstFree, IsRun, Can, Do;
    ws, acts := BuildsUp();
    var w := Pair(map["b" := 5], Built("b"), Checking({}, ["b"], [], 0));
    ListsOne();
    OneMore(ws, acts, ListDisk(1, ["b"]), w);
    ws, acts := ws + [w], acts + [ListDisk(1, ["b"])];
    w := Pair(map["b" := 5], Built("b"), Checking({}, [], [(5, "b")], 0));
    ChecksOne();
    OneMore(ws, acts, Check(1), w);
    ws, acts := ws + [w], acts + [Check(1)];
    w := Pair(map["b" := 5], Built("b"), Collecting(["b"]));
    ChoosesOne();
    OneMore(ws, acts, Choose(1), w);
    ws, acts := ws + [w], acts + [Choose(1)];
  }

  lemma ListsOne()
    ensures var w := Pair(map["b" := 5], Built("b"), Listing({}, 0));
      Can(w, ListDisk(1, ["b"])) && Do(w, ListDisk(1, ["b"])) == Pair(map["b" := 5], Built("b"), Checking({}, ["b"], [], 0))
  {
  }

  lemma ChecksOne()
    ensures var w := Pair(map["b" := 5], Built("b"), Checking({}, ["b"], [], 0));
      Can(w, Check(1)) && Do(w, Check(1)) == Pair(map["b" := 5], Built("b"), Checking({}, [], [(5, "b")], 0))
  {
    var none: seq<Unused> := [];
    assert ["b"][1..] == [] && none + [(5, "b")] == [(5, "b")];
    var w := Pair(map["b" := 5], Built("b"), Checking({}, ["b"], [], 0));
    assert Do(w, Check(1)).threads[1] == Checking({}, [], [(5, "b")], 0);
  }

  lemma ChoosesOne()
    ensures var w := Pair(map["b" := 5], Built("b"), Checking({}, [], [(5, "b")], 0));
      Can(w, Choose(1)) && Do(w, Choose(1)) == Pair(map["b" := 5], Built("b"), Collecting(["b"]))
  {
    var one: seq<Unused> := [(5, "b")];
    assert Names(Collected(one, 0)) == ["b"] by {
      assert one[1..] == [] && NewestFirst(one) == one;
    }
  }

  lemma TakesAway() returns (ws: seq<World>, acts: seq<Act>)
    ensures IsRun(ws, acts) && |ws| == |acts| + 1 && ws[|acts|] == Pair(map[], Built("b"), Collecting([]))
  {
    hide FirstFree, IsRun;
    ws, acts := Picks();
    var w := Pair(map[], Built("b"), Collecting([]));
    assert ["b"][1..] == [];
    OneMore(ws, acts, Remove(1), w);
    ws, acts := ws + [w], acts + [Remove(1)];
  }

  /** Without calm it may not: a start between its build and its registration is invisible
      to a sweep, which takes the directory from under it. */
  lemma LimboIsCollected() returns (ws: seq<World>, acts: seq<Act>)
    ensures IsRun(ws, acts) && |ws| == |acts| + 1 && ws[|acts|].sessions == map["b" := "b"] && "b" !in ws[|acts|].disk
  {
    assert FirstFree({}, "b", "b") by { assert FreeAt({}, "b", "b", 1); }
    hide FirstFree, IsRun;
    ws, acts := TakesAway();
    assert ws[|acts|].sessions.Keys + ws[|acts|].reserved == {};
    var w := Pair(map[], Holding("b", "b"), Collecting([]));
    OneMore(ws, acts, Reserve(0, "b"), w);
    ws, acts := ws + [w], acts + [Reserve(0, "b")];
    w := World(map["b" := "b"], {}, {}, map[], {"b"}, map[1 := Collecting([])]);
    OneMore(ws, acts, Register(0), w);
    ws, acts := ws + [w], acts + [Register(0)];
  }
}
