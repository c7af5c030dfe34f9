/** The dependency closure of an ELF root over the files of an image. */
module Closure {
  import opened Options
  import opened GuestPath
  import opened Resolver
  import Image

  const MAX_OBJECTS: nat := 4096
  const DEFAULT_DIRS: seq<string> := ["/lib64", "/usr/lib64"]

  /** What inspection reads off an ELF file. */
  datatype Elf = Elf(identity: string, needed: seq<string>, interpreter: string, rpath: Option<string>, runpath: Option<string>)

  datatype File = Host(path: string) | Extracted(number: nat)

  /** An image, and what inspection says of its inodes and of the host's files. */
  datatype World = World(disk: Disk, guests: map<nat, Elf>, hosts: map<string, Elf>)

  function Inspect(w: World, f: File): Option<Elf> {
    match f
    case Host(p) => if p in w.hosts then Some(w.hosts[p]) else None
    case Extracted(n) => if n in w.guests then Some(w.guests[n]) else None
  }

  /** An object to visit: its label, its file, its guest path and the inherited RPATH. */
  datatype State = State(tag: string, file: File, guest: Option<string>, inherited: seq<string>)

  type Key = (string, seq<string>)

  function KeyOf(s: State): Key {
    (s.tag, s.inherited)
  }

  // ---- search directories ------------------------------------------------

  predicate Occurs(pat: string, s: string) {
    |pat| <= |s| && (s[..|pat|] == pat || (s != "" && Occurs(pat, s[1..])))
  }

  function Replace(s: string, pat: string, sub: string): string
    requires pat != ""
    decreases |s|
  {
    if |s| < |pat| then s
    else if s[..|pat|] == pat then sub + Replace(s[|pat|..], pat, sub)
    else [s[0]] + Replace(s[1..], pat, sub)
  }

  /** Up to the last slash. */
  function Parent(path: string): string {
    if path == "" then ""
    else if path[|path| - 1] == '/' then path[..|path| - 1]
    else if '/' in path then Parent(path[..|path| - 1])
    else path
  }

  const BRACED: string := "${ORIGIN}"
  const BARE: string := "$ORIGIN"

  function Directories(value: Option<string>, guest: Option<string>): Option<seq<string>> {
    if value == None then Some([])
    else if (Occurs(BARE, value.value) || Occurs(BRACED, value.value)) && guest == None then None
    else
      var v := value.value;
      var paths := SplitOn(
        if guest == None || !(Occurs(BARE, v) || Occurs(BRACED, v)) then v
        else Replace(Replace(v, BRACED, Parent(guest.value)), BARE, Parent(guest.value)), ':');
      if forall p :: p in paths ==> SafePath(p) && p[0] == '/' then Some(paths) else None
  }

  /** First occurrences, in order. */
  function Dedup(dirs: seq<string>): seq<string> {
    if dirs == [] then []
    else
      var r := Dedup(dirs[..|dirs| - 1]);
      if dirs[|dirs| - 1] in r then r else r + [dirs[|dirs| - 1]]
  }

  /** The RPATH an object hands down, and the directories it searches itself. */
  datatype Paths = NoPaths | Paths(inherited: seq<string>, search: seq<string>)

  function PathsOf(elf: Elf, s: State): Paths {
    var own := if elf.runpath == None then Directories(elf.rpath, s.guest) else Some([]);
    if own == None then NoPaths
    else
      var inherited := Dedup(own.value + s.inherited);
      if elf.runpath == None then Paths(inherited, inherited + DEFAULT_DIRS)
      else
        var run := Directories(elf.runpath, s.guest);
        if run == None then NoPaths else Paths(inherited, run.value + DEFAULT_DIRS)
  }

  // ---- one dependency ----------------------------------------------------

  function Under(dirs: seq<string>, name: string): (r: seq<string>)
    ensures |r| == |dirs| && forall i :: 0 <= i < |dirs| ==> r[i] == dirs[i] + "/" + name
  {
    if dirs == [] then [] else [dirs[0] + "/" + name] + Under(dirs[1..], name)
  }

  /** Where a needed name may be found; None if the name is not supported. */
  function Candidates(name: string, search: seq<string>): Option<seq<string>> {
    if !SafePath(name) then None
    else if '/' in name then if name[0] == '/' then Some([name]) else None
    else Some(Under(search, name))
  }

  function FirstOf(disk: Disk, candidates: seq<string>): Outcome {
    if candidates == [] then Missing
    else
      var r := Image.FileOf(disk, candidates[0]);
      if r == Missing then FirstOf(disk, candidates[1..]) else r
  }

  /** The first candidate that is not missing decides. */
  lemma {:induction false} FirstIsFirst(disk: Disk, candidates: seq<string>)
    ensures FirstOf(disk, candidates) == Missing <==>
      forall i :: 0 <= i < |candidates| ==> Image.FileOf(disk, candidates[i]) == Missing
    ensures FirstOf(disk, candidates) != Missing ==>
      exists k :: 0 <= k < |candidates| && Image.FileOf(disk, candidates[k]) == FirstOf(disk, candidates) &&
        forall i :: 0 <= i < k ==> Image.FileOf(disk, candidates[i]) == Missing
  {
    hide Image.FileOf;
    if candidates != [] && Image.FileOf(disk, candidates[0]) == Missing {
      var rest := candidates[1..];
      FirstIsFirst(disk, rest);
      assert forall i :: 0 <= i < |rest| ==> rest[i] == candidates[i + 1];
      if FirstOf(disk, rest) == Missing {
        assert forall i :: 0 < i < |candidates| ==> candidates[i] == rest[i - 1];
      } else {
        var k :| 0 <= k < |rest| && Image.FileOf(disk, rest[k]) == FirstOf(disk, rest) &&
          forall i :: 0 <= i < k ==> Image.FileOf(disk, rest[i]) == Missing;
        assert Image.FileOf(disk, candidates[k + 1]) == FirstOf(disk, candidates);
        assert forall i :: 0 < i < k + 1 ==> candidates[i] == rest[i - 1];
      }
    }
  }

  function Dependency(w: World, name: string, p: Paths): Option<State>
    requires p.Paths?
  {
    var c := Candidates(name, p.search);
    if c == None then None
    else
      var r := FirstOf(w.disk, c.value);
      if !r.Resolved? then None
      else Some(State(PathOf(r.parts), Extracted(r.inode.number), Some(PathOf(r.parts)), p.inherited))
  }

  function Dependencies(w: World, names: seq<string>, p: Paths): (r: Option<seq<State>>)
    requires p.Paths?
    ensures r.Some? ==> |r.value| == |names| && forall i :: 0 <= i < |names| ==> Dependency(w, names[i], p) == Some(r.value[i])
    ensures r.None? ==> exists i :: 0 <= i < |names| && Dependency(w, names[i], p) == None
  {
    if names == [] then Some([])
    else
      var n := |names| - 1;
      var before := Dependencies(w, names[..n], p);
      if before == None then None
      else
        var d := Dependency(w, names[n], p);
        if d == None then None else Some(before.value + [d.value])
  }

  function EdgeNames(elf: Elf): Option<seq<string>> {
    if elf.interpreter == "" then Some(elf.needed)
    else if elf.interpreter[0] != '/' then None
    else Some([elf.interpreter] + elf.needed)
  }

  /** The objects s depends on; None if it or one of them is not in order. */
  function Next(w: World, expected: string, s: State): Option<seq<State>> {
    var elf := Inspect(w, s.file);
    if elf == None || elf.value.identity != expected then None
    else
      var p := PathsOf(elf.value, s);
      var names := EdgeNames(elf.value);
      if p == NoPaths || names == None then None else Dependencies(w, names.value, p)
  }

  // ---- reachability ------------------------------------------------------

  ghost predicate Step(w: World, expected: string, a: State, b: State) {
    var n := Next(w, expected, a);
    n.Some? && b in n.value
  }

  ghost predicate Walk(w: World, expected: string, walk: seq<State>) {
    walk != [] && forall i :: 0 <= i < |walk| - 1 ==> Step(w, expected, walk[i], walk[i + 1])
  }

  ghost predicate Reaches(w: World, expected: string, a: State, b: State) {
    exists walk :: Walk(w, expected, walk) && walk[0] == a && walk[|walk| - 1] == b
  }

  lemma ReachesSelf(w: World, expected: string, a: State)
    ensures Reaches(w, expected, a, a)
  {
    assert Walk(w, expected, [a]) && [a][0] == a;
  }

  lemma ReachesOn(w: World, expected: string, a: State, b: State, c: State)
    requires Reaches(w, expected, a, b) && Step(w, expected, b, c)
    ensures Reaches(w, expected, a, c)
  {
    hide Step;
    var walk :| Walk(w, expected, walk) && walk[0] == a && walk[|walk| - 1] == b;
    var longer := walk + [c];
    assert forall i :: 0 <= i < |longer| - 1 ==> Step(w, expected, longer[i], longer[i + 1]);
    assert Walk(w, expected, longer) && longer[0] == a && longer[|longer| - 1] == c;
  }

  // ---- the worklist ------------------------------------------------------

  ghost predicate OnePerKey(seen: set<State>) {
    forall a, b :: a in seen && b in seen && KeyOf(a) == KeyOf(b) ==> a == b
  }

  ghost predicate Keys(seen: set<State>, visited: set<Key>) {
    forall k :: k in visited <==> exists s :: s in seen && KeyOf(s) == k
  }

  /** Every dependency of a visited object has been visited or is waiting. */
  ghost predicate Tracked(w: World, expected: string, seen: set<State>, visited: set<Key>, pending: seq<State>) {
    forall s :: s in seen ==>
      Next(w, expected, s).Some? &&
      forall n :: n in Next(w, expected, s).value ==> KeyOf(n) in visited || n in pending
  }

  ghost predicate AllReached(w: World, expected: string, root: State, states: set<State>) {
    forall s :: s in states ==> Reaches(w, expected, root, s)
  }

  ghost predicate Waiting(w: World, expected: string, root: State, pending: seq<State>) {
    forall s :: s in pending ==> Reaches(w, expected, root, s)
  }

  /** Success: a set of reached objects, one to a key, all in order, closed under
      dependency up to keys. */
  ghost predicate Closed(w: World, expected: string, root: State, seen: set<State>) {
    && root in seen && OnePerKey(seen) && AllReached(w, expected, root, seen)
    && (forall s :: s in seen ==> Next(w, expected, s).Some?)
    && (forall s, n :: s in seen && Step(w, expected, s, n) ==> exists t :: t in seen && KeyOf(t) == KeyOf(n))
  }

  /** Failure: of the objects the search comes to under a key not seen before, the root
      first, one is not in order or is one too many. */
  ghost predicate Faulty(w: World, expected: string, root: State, seen: set<State>) {
    && OnePerKey(seen) && AllReached(w, expected, root, seen) && (root in seen || seen == {})
    && (forall s :: s in seen ==> Next(w, expected, s).Some?)
    && exists s :: FaultyAt(w, expected, root, seen, s)
  }

  ghost predicate FaultyAt(w: World, expected: string, root: State, seen: set<State>, s: State) {
    && (s == root || root in seen) && Reaches(w, expected, root, s)
    && (forall t :: t in seen ==> KeyOf(t) != KeyOf(s))
    && (Next(w, expected, s).None? || |seen| == MAX_OBJECTS)
  }

  /** The candidates in order, until one is not missing. */
  method FindFirst(img: Image.Image, candidates: seq<string>) returns (r: Outcome)
    requires img.Valid()
    modifies img
    ensures img.Valid() && r == FirstOf(img.disk, candidates)
  {
    hide Image.FileOf, Resolver.StatOf;
    var rest := candidates;
    while rest != []
      invariant img.Valid() && FirstOf(img.disk, candidates) == FirstOf(img.disk, rest)
    {
      r := img.File(rest[0]);
      if r != Missing {
        return r;
      }
      rest := rest[1..];
    }
    return Missing;
  }

  /** Inspect one object and find everything it depends on. */
  method Visit(img: Image.Image, w: World, expected: string, s: State) returns (next: Option<seq<State>>)
    requires img.Valid() && img.disk == w.disk
    modifies img
    ensures img.Valid() && next == Next(w, expected, s)
  {
    hide FirstOf, Candidates, PathsOf, PathOf, Resolver.StatOf;
    var elf := Inspect(w, s.file);
    if elf == None || elf.value.identity != expected {
      return None;
    }
    var p := PathsOf(elf.value, s);
    var names := EdgeNames(elf.value);
    if p == NoPaths || names == None {
      return None;
    }
    var found: seq<State> := [];
    for i := 0 to |names.value|
      invariant img.Valid() && Dependencies(w, names.value[..i], p) == Some(found)
    {
      assert names.value[..i + 1][..i] == names.value[..i];
      var c := Candidates(names.value[i], p.search);
      if c == None {
        OneMissing(w, names.value, p, i);
        return None;
      }
      var r := FindFirst(img, c.value);
      if !r.Resolved? {
        OneMissing(w, names.value, p, i);
        return None;
      }
      found := found + [State(PathOf(r.parts), Extracted(r.inode.number), Some(PathOf(r.parts)), p.inherited)];
    }
    assert names.value[..|names.value|] == names.value;
    return Some(found);
  }

  lemma OneMissing(w: World, names: seq<string>, p: Paths, i: int)
    requires p.Paths? && 0 <= i < |names| && Dependency(w, names[i], p) == None
    ensures Dependencies(w, names, p) == None
  {
    hide Dependency;
  }

  /** One root: visit objects breadth first, once per label and inherited RPATH. */
  method CheckRoot(img: Image.Image, w: World, expected: string, root: State) returns (ok: bool, ghost seen: set<State>)
    requires img.Valid() && img.disk == w.disk
    modifies img
    ensures img.Valid()
    ensures ok ==> Closed(w, expected, root, seen)
    ensures !ok ==> Faulty(w, expected, root, seen)
  {
    hide Next, Reaches, Step, Resolver.StatOf;
    var pending := [root];
    var visited: set<Key> := {};
    seen := {};
    ReachesSelf(w, expected, root);
    while pending != []
      invariant img.Valid()
      invariant OnePerKey(seen) && Keys(seen, visited) && |seen| == |visited| <= MAX_OBJECTS
      invariant AllReached(w, expected, root, seen) && Waiting(w, expected, root, pending)
      invariant Tracked(w, expected, seen, visited, pending)
      invariant root in seen || (seen == {} && pending == [root])
      decreases MAX_OBJECTS - |visited|, |pending|
    {
      var s := pending[0];
      assert s in pending;
      var key := KeyOf(s);
      if key in visited {
        DropsVisited(w, expected, seen, visited, pending);
        pending := pending[1..];
        continue;
      }
      if |visited| >= MAX_OBJECTS {
        assert FaultyAt(w, expected, root, seen, s);
        return false, seen;
      }
      var next := Visit(img, w, expected, s);
      if next == None {
        assert FaultyAt(w, expected, root, seen, s);
        return false, seen;
      }
      Visits(w, expected, seen, visited, pending, next.value);
      NewReached(w, expected, root, s, next.value, pending);
      visited := visited + {key};
      seen := seen + {s};
      pending := pending[1..] + next.value;
    }
    Finished(w, expected, root, seen, visited);
    ok := true;
  }

  lemma DropsVisited(w: World, expected: string, seen: set<State>, visited: set<Key>, pending: seq<State>)
    requires Tracked(w, expected, seen, visited, pending) && pending != [] && KeyOf(pending[0]) in visited
    ensures Tracked(w, expected, seen, visited, pending[1..])
    ensures forall s :: s in pending[1..] ==> s in pending
  {
    hide Next;
    assert forall n :: n in pending ==> n == pending[0] || n in pending[1..];
  }

  lemma Visits(w: World, expected: string, seen: set<State>, visited: set<Key>, pending: seq<State>, next: seq<State>)
    requires OnePerKey(seen) && Keys(seen, visited) && Tracked(w, expected, seen, visited, pending) && pending != []
    requires KeyOf(pending[0]) !in visited && Next(w, expected, pending[0]) == Some(next)
    ensures var s := pending[0];
      var seen', visited', pending' := seen + {s}, visited + {KeyOf(s)}, pending[1..] + next;
      s !in seen && OnePerKey(seen') && Keys(seen', visited') && Tracked(w, expected, seen', visited', pending')
  {
    hide Next;
    var s := pending[0];
    assert forall n :: n in pending ==> n == s || n in pending[1..];
    assert forall t :: t in seen ==> KeyOf(t) in visited;
  }

  lemma NewReached(w: World, expected: string, root: State, s: State, next: seq<State>, pending: seq<State>)
    requires Reaches(w, expected, root, s) && Next(w, expected, s) == Some(next) && Waiting(w, expected, root, pending)
    requires pending != []
    ensures Waiting(w, expected, root, pending[1..] + next)
  {
    hide Next, Reaches;
    forall n | n in pending[1..] + next
      ensures Reaches(w, expected, root, n)
    {
      if n in next {
        ReachesOn(w, expected, root, s, n);
      } else {
        assert n in pending;
      }
    }
  }

  lemma Finished(w: World, expected: string, root: State, seen: set<State>, visited: set<Key>)
    requires OnePerKey(seen) && Keys(seen, visited) && AllReached(w, expected, root, seen) && root in seen
    requires Tracked(w, expected, seen, visited, [])
    ensures Closed(w, expected, root, seen)
  {
    hide Next, Reaches, AllReached;
    forall s, n | s in seen && Step(w, expected, s, n)
      ensures exists t :: t in seen && KeyOf(t) == KeyOf(n)
    {
      assert KeyOf(n) in visited;
    }
  }

  // ---- what success means ------------------------------------------------

  /** A guest object is fixed by its label: the file is the one of that canonical path. */
  ghost predicate GuestState(w: World, s: State) {
    s.tag in w.disk && s.file == Extracted(w.disk[s.tag].number) && s.guest == Some(s.tag)
  }

  lemma StepIsGuest(w: World, expected: string, a: State, b: State)
    requires Step(w, expected, a, b)
    ensures GuestState(w, b)
  {
    hide Candidates, PathsOf, SafePath, FirstOf, Image.FileOf, PathOf;
    var names := EdgeNames(Inspect(w, a.file).value).value;
    var p := PathsOf(Inspect(w, a.file).value, a);
    var next := Next(w, expected, a).value;
    var i :| 0 <= i < |next| && next[i] == b;
    var c := Candidates(names[i], p.search).value;
    FirstIsFirst(w.disk, c);
    var k :| 0 <= k < |c| && Image.FileOf(w.disk, c[k]) == FirstOf(w.disk, c);
    Image.FileIsRight(w.disk, c[k]);
  }

  /** A reached guest object standing under the root's own key. */
  ghost predicate Clash(w: World, expected: string, root: State) {
    exists s :: Reaches(w, expected, root, s) && KeyOf(s) == KeyOf(root) && s != root
  }

  lemma {:induction false} WalkStaysIn(w: World, expected: string, root: State, seen: set<State>, walk: seq<State>)
    requires Closed(w, expected, root, seen) && root.guest == None && !Clash(w, expected, root)
    requires Walk(w, expected, walk) && walk[0] == root
    ensures walk[|walk| - 1] in seen
    decreases |walk|
  {
    hide Next, Step;
    if |walk| > 1 {
      var n := |walk| - 1;
      var before := walk[..n];
      assert forall i :: 0 <= i < |before| - 1 ==> Step(w, expected, before[i], before[i + 1]);
      assert Walk(w, expected, before) && before[0] == root;
      WalkStaysIn(w, expected, root, seen, before);
      var a, b := walk[n - 1], walk[n];
      assert Step(w, expected, walk[n - 1], walk[n - 1 + 1]);
      assert before[|before| - 1] == a;
      var t :| t in seen && KeyOf(t) == KeyOf(b);
      SameState(w, expected, root, seen, t, b, walk);
    }
  }

  lemma SameState(w: World, expected: string, root: State, seen: set<State>, t: State, b: State, walk: seq<State>)
    requires Closed(w, expected, root, seen) && root.guest == None && !Clash(w, expected, root)
    requires Walk(w, expected, walk) && |walk| > 1 && walk[0] == root && walk[|walk| - 1] == b
    requires t in seen && KeyOf(t) == KeyOf(b)
    ensures t == b
  {
    hide Next, Step;
    var n := |walk| - 1;
    assert Step(w, expected, walk[n - 1], walk[n - 1 + 1]);
    StepIsGuest(w, expected, walk[n - 1], b);
    assert Reaches(w, expected, root, b);
    if t == root {
      assert b == root;
    } else {
      ReachedIsGuest(w, expected, root, t);
    }
  }

  lemma ReachedIsGuest(w: World, expected: string, root: State, t: State)
    requires Reaches(w, expected, root, t) && t != root
    ensures GuestState(w, t)
  {
    hide Next, Step;
    var walk :| Walk(w, expected, walk) && walk[0] == root && walk[|walk| - 1] == t;
    var n := |walk| - 1;
    assert Step(w, expected, walk[n - 1], walk[n - 1 + 1]);
    StepIsGuest(w, expected, walk[n - 1], t);
  }

  /** A successful check has visited everything the root reaches exactly when no reached
      guest object carries the root's own label and inherited RPATH. */
  lemma VisitsAllIff(w: World, expected: string, root: State, seen: set<State>)
    requires Closed(w, expected, root, seen) && root.guest == None
    ensures (forall s :: Reaches(w, expected, root, s) ==> s in seen) <==> !Clash(w, expected, root)
  {
    hide Next, Step;
    if !Clash(w, expected, root) {
      forall s | Reaches(w, expected, root, s)
        ensures s in seen
      {
        var walk :| Walk(w, expected, walk) && walk[0] == root && walk[|walk| - 1] == s;
        WalkStaysIn(w, expected, root, seen, walk);
      }
    }
  }

  /** No clash can arise when the root's host path is not also a path of the image. */
  lemma ForeignRootNeverClashes(w: World, expected: string, root: State)
    requires root.guest == None && root.tag !in w.disk
    ensures !Clash(w, expected, root)
  {
    hide Next, Reaches;
    forall s | Reaches(w, expected, root, s) && s != root
      ensures KeyOf(s) != KeyOf(root)
    {
      ReachedIsGuest(w, expected, root, s);
    }
  }

  /** So a passed check vouches for the whole reachable graph: every object has the root's
      ABI and every dependency was found. */
  lemma PassVouchesForAll(w: World, expected: string, root: State, seen: set<State>, s: State)
    requires Closed(w, expected, root, seen) && root.guest == None && root.tag !in w.disk
    requires Reaches(w, expected, root, s)
    ensures s in seen && Next(w, expected, s).Some?
    ensures Inspect(w, s.file).Some? && Inspect(w, s.file).value.identity == expected
  {
    hide Reaches, Step, PathsOf, EdgeNames, Dependencies;
    ForeignRootNeverClashes(w, expected, root);
    VisitsAllIff(w, expected, root, seen);
  }

  /** The clash is real: a host root /x that needs the guest's /x passes, and the guest's
      file, of another ABI, is never looked at. The search cannot end in any other way. */
  lemma RootShadowsGuest()
    ensures var w := World(map["/" := Inode(2, Directory, 0), "/x" := Inode(7, Regular, 0)],
                           map[7 := Elf("other", [], "", None, None)],
                           map["/x" := Elf("abi", ["/x"], "", None, None)]);
      var root := State("/x", Host("/x"), None, []);
      var guest := State("/x", Extracted(7), Some("/x"), []);
      && Closed(w, "abi", root, {root}) && Reaches(w, "abi", root, guest) && Next(w, "abi", guest) == None
      && forall seen :: !Faulty(w, "abi", root, seen)
  {
    hide Closed, Reaches, Next, Faulty;
    var w := World(map["/" := Inode(2, Directory, 0), "/x" := Inode(7, Regular, 0)],
                   map[7 := Elf("other", [], "", None, None)],
                   map["/x" := Elf("abi", ["/x"], "", None, None)]);
    var root := State("/x", Host("/x"), None, []);
    var guest := State("/x", Extracted(7), Some("/x"), []);
    ShadowNext(w, root);
    LoneClosed(w, "abi", root, guest);
    WrongAbi(w, guest);
    forall seen
      ensures !Faulty(w, "abi", root, seen)
    {
      LoneNotFaulty(w, "abi", root, guest, seen);
    }
  }

  /** From a root whose one dependency leads nowhere there are only the two. */
  lemma {:induction false} LoneReach(w: World, expected: string, root: State, guest: State, walk: seq<State>)
    requires Next(w, expected, root) == Some([guest]) && Next(w, expected, guest) == None
    requires Walk(w, expected, walk) && walk[0] == root
    ensures walk[|walk| - 1] == root || walk[|walk| - 1] == guest
    decreases |walk|
  {
    hide Next;
    if |walk| > 1 {
      var n := |walk| - 1;
      var before := walk[..n];
      assert forall i :: 0 <= i < |before| - 1 ==> Step(w, expected, walk[i], walk[i + 1]);
      LoneReach(w, expected, root, guest, before);
      assert Step(w, expected, walk[n - 1], walk[n - 1 + 1]);
      assert before[|before| - 1] == walk[n - 1];
    }
  }

  lemma LoneNotFaulty(w: World, expected: string, root: State, guest: State, seen: set<State>)
    requires Next(w, expected, root) == Some([guest]) && Next(w, expected, guest) == None && KeyOf(guest) == KeyOf(root)
    ensures !Faulty(w, expected, root, seen)
  {
    hide Next, Step;
    forall s
      ensures !FaultyAt(w, expected, root, seen, s) || !(root in seen || seen == {})
    {
      if Reaches(w, expected, root, s) {
        var walk :| Walk(w, expected, walk) && walk[0] == root && walk[|walk| - 1] == s;
        LoneReach(w, expected, root, guest, walk);
      }
    }
  }

  lemma WrongAbi(w: World, s: State)
    requires Inspect(w, s.file).Some? && Inspect(w, s.file).value.identity == "other"
    ensures Next(w, "abi", s) == None
  {
    hide PathsOf, Dependencies, EdgeNames;
    assert "other"[0] != "abi"[0];
  }

  /** A root whose one dependency stands under its own key. */
  lemma LoneClosed(w: World, expected: string, root: State, guest: State)
    requires Next(w, expected, root) == Some([guest]) && KeyOf(guest) == KeyOf(root)
    ensures Closed(w, expected, root, {root}) && Reaches(w, expected, root, guest)
  {
    hide Next, Reaches;
    ReachesSelf(w, expected, root);
    assert Step(w, expected, root, guest);
    ReachesOn(w, expected, root, root, guest);
    forall n | Step(w, expected, root, n)
      ensures KeyOf(n) == KeyOf(root)
    {
      assert n in [guest];
    }
  }

  lemma ShadowFile(disk: Disk)
    requires disk == map["/" := Inode(2, Directory, 0), "/x" := Inode(7, Regular, 0)]
    ensures Image.FileOf(disk, "/x") == Resolved(["x"], Inode(7, Regular, 0))
  {
    SplitThen("", "x");
    SplitWord("x");
    assert "" + "/" + "x" == "/x" && Split("/x") == ["", "x"];
    assert PathOf(["x"]) == "/x" && [] + ["x"] == ["x"];
    assert ["", "x"][1..] == ["x"] && ["x"][1..] == [];
    assert Flat(disk, [], disk["/"], ["x"], 0) == Resolved(["x"], disk["/x"]);
  }

  lemma ShadowNext(w: World, root: State)
    requires w.disk == map["/" := Inode(2, Directory, 0), "/x" := Inode(7, Regular, 0)]
    requires w.hosts == map["/x" := Elf("abi", ["/x"], "", None, None)]
    requires root == State("/x", Host("/x"), None, [])
    ensures Next(w, "abi", root) == Some([State("/x", Extracted(7), Some("/x"), [])])
  {
    hide Image.FileOf;
    ShadowFile(w.disk);
    assert PathOf(["x"]) == "/x";
    var elf := w.hosts["/x"];
    assert Dedup([]) == [];
    var p := PathsOf(elf, root);
    assert p.inherited == [];
    assert FirstOf(w.disk, ["/x"]) == Resolved(["x"], Inode(7, Regular, 0));
    assert Candidates("/x", p.search) == Some(["/x"]);
    OneDependency(w, "/x", p);
  }

  lemma OneDependency(w: World, name: string, p: Paths)
    requires p.Paths? && Dependency(w, name, p).Some?
    ensures Dependencies(w, [name], p) == Some([Dependency(w, name, p).value])
  {
    hide Dependency;
    var names := [name];
    var r := Dependencies(w, names, p);
    assert names[0] == name;
    assert r.Some?;
    assert Dependency(w, names[0], p) == Some(r.value[0]);
    assert r.value == [r.value[0]];
  }
}
