/** Resolving a guest path inside a disk image: the deque walk and a recursive walk in the
    manner of section 4.13 of POSIX.1-2017 Base Definitions, except that dot-dot at the
    root is refused. */
module Resolver {
  import opened GuestPath

  const MAX_LINKS: nat := 40

  datatype Kind = Directory | Regular | Symlink(target: string) | Special

  datatype Inode = Inode(number: nat, kind: Kind, size: nat)

  /** What the image answers when asked about a path; absent paths are missing. */
  type Disk = map<string, Inode>

  datatype Stat = Found(inode: Inode) | Absent | Refused

  function StatOf(disk: Disk, path: string): Stat {
    if !SafePath(path) then Refused
    else if path in disk then Found(disk[path])
    else Absent
  }

  datatype Outcome = Resolved(parts: seq<string>, inode: Inode) | Missing | Failed

  predicate Skipped(c: string) {
    c == "" || c == "."
  }

  /** The components a link leads to, and where they start. */
  function From(target: string, parts: seq<string>): seq<string> {
    if target != "" && target[0] == '/' then [] else parts
  }

  /** The deque walk: one component at a time, a link's components pushed in front. */
  function Flat(disk: Disk, parts: seq<string>, inode: Inode, pending: seq<string>, links: nat): Outcome
    requires links <= MAX_LINKS
    decreases MAX_LINKS - links, |pending|
  {
    if pending == [] then Resolved(parts, inode)
    else
      var c, rest := pending[0], pending[1..];
      if Skipped(c) then Flat(disk, parts, inode, rest, links)
      else if c == ".." then
        if parts == [] then Failed
        else
          var up := parts[..|parts| - 1];
          match StatOf(disk, PathOf(up))
          case Refused => Failed
          case Absent => Missing
          case Found(i) => Flat(disk, up, i, rest, links)
      else
        match StatOf(disk, PathOf(parts + [c]))
        case Refused => Failed
        case Absent => Missing
        case Found(i) =>
          if i.kind.Symlink? then
            if links + 1 > MAX_LINKS || !SafePath(i.kind.target) then Failed
            else Flat(disk, From(i.kind.target, parts), i, Split(i.kind.target) + rest, links + 1)
          else if rest != [] && !i.kind.Directory? then Failed
          else Flat(disk, parts + [c], i, rest, links)
  }

  function Resolve(disk: Disk, path: string): Outcome {
    if !SafePath(path) || path[0] != '/' then Failed
    else
      match StatOf(disk, "/")
      case Refused => Failed
      case Absent => Missing
      case Found(root) => Flat(disk, [], root, Split(path), 0)
  }

  // ---- the recursive walk ------------------------------------------------

  datatype Walked = At(parts: seq<string>, links: nat) | Nowhere | Refusal

  predicate IsDir(disk: Disk, parts: seq<string>) {
    PathOf(parts) in disk && disk[PathOf(parts)].kind.Directory?
  }

  /** A place from which the walk may go on. */
  predicate MayGoOn(disk: Disk, parts: seq<string>) {
    parts == [] || IsDir(disk, parts)
  }

  /** Walk the components from a directory. A link is resolved to its end before the rest
      is walked from there. */
  function Nested(disk: Disk, parts: seq<string>, comps: seq<string>, links: nat): (r: Walked)
    requires links <= MAX_LINKS
    ensures r.At? ==> links <= r.links <= MAX_LINKS
    decreases MAX_LINKS - links, |comps|
  {
    if comps == [] then At(parts, links)
    else
      var c, rest := comps[0], comps[1..];
      if Skipped(c) then Nested(disk, parts, rest, links)
      else if c == ".." then
        if parts == [] then Refusal else Nested(disk, parts[..|parts| - 1], rest, links)
      else
        match StatOf(disk, PathOf(parts + [c]))
        case Refused => Refusal
        case Absent => Nowhere
        case Found(i) =>
          if i.kind.Symlink? then
            if links == MAX_LINKS || !SafePath(i.kind.target) then Refusal
            else
              var end := Nested(disk, From(i.kind.target, parts), Split(i.kind.target), links + 1);
              if !end.At? || rest == [] then end
              else if !MayGoOn(disk, end.parts) then Refusal
              else Nested(disk, end.parts, rest, end.links)
          else if rest == [] then At(parts + [c], links)
          else if !i.kind.Directory? then Refusal
          else Nested(disk, parts + [c], rest, links)
  }

  /** Only components that lead nowhere. */
  predicate AllSkipped(comps: seq<string>) {
    forall c :: c in comps ==> Skipped(c)
  }

  /** The last component that leads somewhere is a link, and its target leads nowhere or
      ends on such a link itself. */
  predicate EndsOnLink(disk: Disk, parts: seq<string>, comps: seq<string>, links: nat)
    requires links <= MAX_LINKS
    decreases MAX_LINKS - links, |comps|
  {
    if comps == [] then false
    else
      var c, rest := comps[0], comps[1..];
      if Skipped(c) then EndsOnLink(disk, parts, rest, links)
      else if c == ".." then parts != [] && EndsOnLink(disk, parts[..|parts| - 1], rest, links)
      else
        var s := StatOf(disk, PathOf(parts + [c]));
        if !s.Found? then false
        else if !s.inode.kind.Symlink? then EndsOnLink(disk, parts + [c], rest, links)
        else links < MAX_LINKS && EndsThrough(disk, parts, s.inode.kind.target, rest, links)
  }

  /** The same, at a link with `rest` behind it. */
  predicate EndsThrough(disk: Disk, parts: seq<string>, target: string, rest: seq<string>, links: nat)
    requires links < MAX_LINKS
    decreases MAX_LINKS - links, |rest|
  {
    if AllSkipped(rest) then
      AllSkipped(Split(target)) || EndsOnLink(disk, From(target, parts), Split(target), links + 1)
    else
      var end := Nested(disk, From(target, parts), Split(target), links + 1);
      end.At? && EndsOnLink(disk, end.parts, rest, end.links)
  }

  // ---- places ------------------------------------------------------------

  predicate Plain(parts: seq<string>) {
    forall p :: p in parts ==> '/' !in p && !Skipped(p) && p != ".."
  }

  /** Every proper prefix is a directory the image answers for, and the path itself is
      answered and not a link. */
  ghost predicate Canonical(disk: Disk, parts: seq<string>) {
    && Plain(parts) && "/" in disk && SafePath(PathOf(parts))
    && (forall k :: 0 < k < |parts| ==> SafePath(PathOf(parts[..k])) && IsDir(disk, parts[..k]))
    && (parts != [] ==> PathOf(parts) in disk && !disk[PathOf(parts)].kind.Symlink?)
  }

  ghost predicate Place(disk: Disk, parts: seq<string>) {
    Canonical(disk, parts) && MayGoOn(disk, parts)
  }

  lemma RootPlace(disk: Disk)
    requires "/" in disk
    ensures Place(disk, [])
  {
    assert PathOf([]) == "/";
  }

  lemma UpPlace(disk: Disk, parts: seq<string>)
    requires Place(disk, parts) && parts != []
    ensures Place(disk, parts[..|parts| - 1])
    ensures StatOf(disk, PathOf(parts[..|parts| - 1])).Found?
  {
    hide SafePath, Join;
    var n := |parts| - 1;
    var up := parts[..n];
    if up == [] {
      RootPlace(disk);
      RootSafe();
      assert PathOf([]) == "/";
    } else {
      assert forall k :: 0 < k < n ==> up[..k] == parts[..k];
      assert IsDir(disk, parts[..n]);
    }
  }

  lemma RootSafe()
    ensures SafePath("/") && PathOf([]) == "/"
  {
  }

  lemma DownPlace(disk: Disk, parts: seq<string>, c: string)
    requires Place(disk, parts) && '/' !in c && !Skipped(c) && c != ".."
    requires StatOf(disk, PathOf(parts + [c])).Found? && !disk[PathOf(parts + [c])].kind.Symlink?
    ensures Canonical(disk, parts + [c])
    ensures disk[PathOf(parts + [c])].kind.Directory? ==> Place(disk, parts + [c])
  {
    hide SafePath, Join, PathOf;
    var down := parts + [c];
    forall k | 0 < k < |down|
      ensures SafePath(PathOf(down[..k])) && IsDir(disk, down[..k])
    {
      if k < |parts| {
        assert down[..k] == parts[..k];
      } else {
        assert down[..k] == parts;
      }
    }
  }

  // ---- the two walks agree -----------------------------------------------

  /** After a place has been reached with `rest` to go, the deque walk goes on like this. */
  ghost function Onward(disk: Disk, w: Walked, inode: Inode, rest: seq<string>): Outcome
    requires w.At? ==> w.links <= MAX_LINKS
  {
    match w
    case Nowhere => Missing
    case Refusal => Failed
    case At(q, l) => if rest != [] && !MayGoOn(disk, q) then Failed else Flat(disk, q, inode, rest, l)
  }

  /** The inode last looked at when a walk comes to q: a link's, or q's own. */
  ghost predicate LinkOrOwn(disk: Disk, onLink: bool, last: Inode, q: seq<string>) {
    if onLink then last.kind.Symlink? else PathOf(q) in disk && last == disk[PathOf(q)]
  }

  /** The inode a walk of `a` from `parts` leaves behind, having had `inode` before. */
  ghost predicate Leaves(disk: Disk, parts: seq<string>, inode: Inode, a: seq<string>, links: nat, last: Inode, q: seq<string>)
    requires links <= MAX_LINKS
  {
    if AllSkipped(a) then last == inode && q == parts
    else LinkOrOwn(disk, EndsOnLink(disk, parts, a, links), last, q)
  }

  /** The deque walk of a + b is the recursive walk of a followed by the deque walk of b. */
  lemma {:induction false} Splice(disk: Disk, parts: seq<string>, inode: Inode, a: seq<string>, b: seq<string>, links: nat)
    returns (last: Inode)
    requires links <= MAX_LINKS && Place(disk, parts) && SlashFree(a)
    ensures Flat(disk, parts, inode, a + b, links) == Onward(disk, Nested(disk, parts, a, links), last, b)
    ensures var w := Nested(disk, parts, a, links);
      w.At? ==> Canonical(disk, w.parts) && Leaves(disk, parts, inode, a, links, last, w.parts)
    decreases MAX_LINKS - links, |a|
  {
    hide Canonical, SafePath, PathOf, Split, IsDir, Place, StatOf;
    if a == [] {
      assert a + b == b;
      PlaceIs(disk, parts);
      return inode;
    }
    var c, rest := a[0], a[1..];
    assert (a + b)[0] == c && (a + b)[1..] == rest + b;
    assert c in a && forall p :: p in rest ==> p in a;
    if Skipped(c) {
      last := Splice(disk, parts, inode, rest, b, links);
    } else if c == ".." {
      if parts == [] {
        return inode;
      }
      UpPlace(disk, parts);
      var up := parts[..|parts| - 1];
      FoundIn(disk, PathOf(up));
      last := Splice(disk, up, StatOf(disk, PathOf(up)).inode, rest, b, links);
      NoneOnLink(disk, up, rest, links);
    } else {
      last := SpliceName(disk, parts, inode, c, rest, b, links);
      assert a == [c] + rest && [c] + rest + b == a + b;
    }
  }

  lemma PlaceIs(disk: Disk, parts: seq<string>)
    requires Place(disk, parts)
    ensures Canonical(disk, parts) && MayGoOn(disk, parts)
  {
  }

  lemma {:induction false} SpliceName(disk: Disk, parts: seq<string>, inode: Inode, c: string, rest: seq<string>, b: seq<string>, links: nat)
    returns (last: Inode)
    requires links <= MAX_LINKS && Place(disk, parts) && '/' !in c && SlashFree(rest) && !Skipped(c) && c != ".."
    ensures Flat(disk, parts, inode, [c] + rest + b, links) == Onward(disk, Nested(disk, parts, [c] + rest, links), last, b)
    ensures var w := Nested(disk, parts, [c] + rest, links);
      w.At? ==> Canonical(disk, w.parts) && Leaves(disk, parts, inode, [c] + rest, links, last, w.parts)
    decreases MAX_LINKS - links, |rest| + 1, 0
  {
    hide Canonical, SafePath, PathOf, Split, IsDir, Place, StatOf, EndsOnLink, EndsThrough;
    assert ([c] + rest)[1..] == rest && ([c] + rest + b)[0] == c && ([c] + rest + b)[1..] == rest + b;
    assert ([c] + rest)[0] == c && !AllSkipped([c] + rest);
    last := inode;
    var s := StatOf(disk, PathOf(parts + [c]));
    if s.Found? {
      OnLinkAt(disk, parts, c, rest, links);
      var i := s.inode;
      if i.kind.Symlink? {
        if links < MAX_LINKS && SafePath(i.kind.target) {
          last := SpliceLink(disk, parts, i, rest, b, links);
        }
      } else {
        FoundIn(disk, PathOf(parts + [c]));
        DownPlace(disk, parts, c);
        if i.kind.Directory? {
          last := Splice(disk, parts + [c], i, rest, b, links);
          NoneOnLink(disk, parts + [c], rest, links);
          if rest == [] {
            assert rest + b == b;
          }
        } else if rest == [] {
          NotDir(disk, parts + [c]);
          NoneOnLink(disk, parts + [c], rest, links);
          assert rest + b == b;
          last := i;
        }
      }
    }
  }

  lemma OnLinkAt(disk: Disk, parts: seq<string>, c: string, rest: seq<string>, links: nat)
    requires links <= MAX_LINKS && !Skipped(c) && c != ".." && StatOf(disk, PathOf(parts + [c])).Found?
    ensures var i := StatOf(disk, PathOf(parts + [c])).inode;
      EndsOnLink(disk, parts, [c] + rest, links) ==
      if !i.kind.Symlink? then EndsOnLink(disk, parts + [c], rest, links)
      else links < MAX_LINKS && EndsThrough(disk, parts, i.kind.target, rest, links)
  {
    hide StatOf, PathOf, EndsThrough;
    assert ([c] + rest)[0] == c && ([c] + rest)[1..] == rest;
  }

  lemma {:induction false} NoneOnLink(disk: Disk, parts: seq<string>, comps: seq<string>, links: nat)
    requires links <= MAX_LINKS
    ensures AllSkipped(comps) ==> !EndsOnLink(disk, parts, comps, links)
    decreases |comps|
  {
    if comps != [] {
      NoneOnLink(disk, parts, comps[1..], links);
    }
  }

  lemma FoundIn(disk: Disk, path: string)
    requires StatOf(disk, path).Found?
    ensures path in disk && StatOf(disk, path).inode == disk[path]
  {
  }

  lemma NotDir(disk: Disk, parts: seq<string>)
    requires PathOf(parts) in disk && !disk[PathOf(parts)].kind.Directory? && parts != []
    ensures !MayGoOn(disk, parts)
  {
  }

  /** What the recursive walk does at a link. */
  ghost function ThroughLink(disk: Disk, parts: seq<string>, target: string, rest: seq<string>, links: nat): Walked
    requires links < MAX_LINKS
  {
    var end := Nested(disk, From(target, parts), Split(target), links + 1);
    if !end.At? || rest == [] then end
    else if !MayGoOn(disk, end.parts) then Refusal
    else Nested(disk, end.parts, rest, end.links)
  }

  lemma {:induction false} SpliceLink(disk: Disk, parts: seq<string>, i: Inode, rest: seq<string>, b: seq<string>, links: nat)
    returns (last: Inode)
    requires links < MAX_LINKS && Place(disk, parts) && SlashFree(rest) && i.kind.Symlink?
    ensures Flat(disk, From(i.kind.target, parts), i, Split(i.kind.target) + (rest + b), links + 1)
      == Onward(disk, ThroughLink(disk, parts, i.kind.target, rest, links), last, b)
    ensures var w := ThroughLink(disk, parts, i.kind.target, rest, links);
      w.At? ==> Canonical(disk, w.parts) && LinkOrOwn(disk, EndsThrough(disk, parts, i.kind.target, rest, links), last, w.parts)
    decreases MAX_LINKS - links - 1, |Split(i.kind.target)| + |rest| + |b| + 1, 1
  {
    hide Canonical, SafePath, PathOf, IsDir, Place, Flat, Nested, EndsOnLink, Split;
    var t := i.kind.target;
    FromPlace(disk, t, parts);
    last := Splice(disk, From(t, parts), i, Split(t), rest + b, links + 1);
    var end := Nested(disk, From(t, parts), Split(t), links + 1);
    if end.At? {
      if rest == [] {
        assert rest + b == b;
      } else if MayGoOn(disk, end.parts) {
        PlaceMade(disk, end.parts);
        last := Splice(disk, end.parts, last, rest, b, end.links);
      }
    }
  }

  lemma FromPlace(disk: Disk, target: string, parts: seq<string>)
    requires Place(disk, parts)
    ensures Place(disk, From(target, parts))
  {
    RootPlace(disk);
  }

  lemma PlaceMade(disk: Disk, parts: seq<string>)
    requires Canonical(disk, parts) && MayGoOn(disk, parts)
    ensures Place(disk, parts)
  {
  }

  // ---- what resolution promises ------------------------------------------

  predicate SameEnd(w: Walked, r: Outcome) {
    match w
    case Nowhere => r == Missing
    case Refusal => r == Failed
    case At(q, l) => r.Resolved? && r.parts == q
  }

  /** The deque walk and the recursive walk reach the same place or fail alike. */
  lemma ResolveAgrees(disk: Disk, path: string)
    requires SafePath(path) && path[0] == '/' && "/" in disk
    ensures SameEnd(Nested(disk, [], Split(path), 0), Resolve(disk, path))
    ensures Resolve(disk, path).Resolved? ==> Canonical(disk, Resolve(disk, path).parts)
  {
    hide Split, Canonical, SafePath, Nested;
    RootSafe();
    RootPlace(disk);
    var comps := Split(path);
    var last := Splice(disk, [], disk["/"], comps, [], 0);
    assert comps + [] == comps;
  }

  /** Success leads to a canonical place: no link on it, directories all the way. */
  lemma ResolvedIsCanonical(disk: Disk, path: string)
    requires Resolve(disk, path).Resolved?
    ensures Canonical(disk, Resolve(disk, path).parts)
  {
    hide Canonical, SafePath, Nested, Flat;
    ResolveAgrees(disk, path);
  }

  // ---- the inode ---------------------------------------------------------

  /** Whether a path ends on a link that leads to where it stands or to the root. */
  predicate PathEndsOnLink(disk: Disk, path: string) {
    EndsOnLink(disk, [], Split(path), 0)
  }

  /** The inode handed back: a link's if the path ends on a link that leads nowhere, and
      otherwise that of the resolved path. */
  lemma InodeIs(disk: Disk, path: string)
    requires Resolve(disk, path).Resolved?
    ensures var r := Resolve(disk, path);
      PathOf(r.parts) in disk && LinkOrOwn(disk, PathEndsOnLink(disk, path), r.inode, r.parts)
  {
    hide Split, Canonical, SafePath, Nested, EndsOnLink, Join;
    RootSafe();
    RootPlace(disk);
    var comps := Split(path);
    var last := Splice(disk, [], disk["/"], comps, [], 0);
    assert comps + [] == comps;
    NoneOnLink(disk, [], comps, 0);
    CanonicalIsThere(disk, Resolve(disk, path).parts);
  }

  lemma CanonicalIsThere(disk: Disk, parts: seq<string>)
    requires Canonical(disk, parts)
    ensures PathOf(parts) in disk && (parts != [] ==> !disk[PathOf(parts)].kind.Symlink?)
  {
    hide SafePath, IsDir, Plain;
    RootSafe();
  }

  /** It is the resolved path's own exactly when the path does not end on such a link. */
  lemma InodeRightIff(disk: Disk, path: string)
    requires Resolve(disk, path).Resolved? && !disk["/"].kind.Symlink?
    ensures var r := Resolve(disk, path);
      PathOf(r.parts) in disk && (r.inode == disk[PathOf(r.parts)] <==> !PathEndsOnLink(disk, path))
  {
    hide Split, SafePath, EndsOnLink, Flat, Join, Canonical;
    InodeIs(disk, path);
    ResolvedIsCanonical(disk, path);
    CanonicalIsThere(disk, Resolve(disk, path).parts);
    RootSafe();
  }

  /** It can be a link's: a link to the current directory, or to the root. */
  lemma DotLinkKeepsLinkInode(n: nat)
    ensures var link := Inode(n, Symlink("."), 1);
      var disk := map["/" := Inode(2, Directory, 0), "/l" := link];
      Resolve(disk, "/l") == Resolved([], link)
  {
    var link := Inode(n, Symlink("."), 1);
    var disk := map["/" := Inode(2, Directory, 0), "/l" := link];
    SplitThen("", "l");
    SplitWord("l");
    SplitWord(".");
    assert "" + "/" + "l" == "/l" && Split("/l") == ["", "l"];
    assert PathOf(["l"]) == "/l" && [] + ["l"] == ["l"];
    assert ["", "l"][1..] == ["l"] && ["l"][1..] == [] && ["."] + [] == ["."] && ["."][1..] == [];
    assert Flat(disk, [], link, ["."], 1) == Resolved([], link);
    assert Flat(disk, [], disk["/"], ["l"], 0) == Resolved([], link);
  }

  // ---- resolving a result ------------------------------------------------

  lemma {:induction false} WalkCanonical(disk: Disk, parts: seq<string>, k: nat, inode: Inode)
    requires Canonical(disk, parts) && k <= |parts|
    ensures Flat(disk, parts[..k], inode, parts[k..], 0)
      == Resolved(parts, if k == |parts| then inode else disk[PathOf(parts)])
    decreases |parts| - k
  {
    hide SafePath, PathOf;
    if k == |parts| {
      assert parts[..k] == parts && parts[k..] == [];
    } else {
      var c := parts[k];
      assert c in parts;
      assert parts[k..][0] == c && parts[k..][1..] == parts[k + 1..] && parts[..k] + [c] == parts[..k + 1];
      if k + 1 == |parts| {
        assert parts[..k + 1] == parts;
      }
      assert StatOf(disk, PathOf(parts[..k + 1])) == Found(disk[PathOf(parts[..k + 1])]);
      WalkCanonical(disk, parts, k + 1, disk[PathOf(parts[..k + 1])]);
    }
  }

  /** Resolving the result again changes nothing. */
  lemma ResolveIdempotent(disk: Disk, path: string)
    requires Resolve(disk, path).Resolved?
    ensures var r := Resolve(disk, path);
      PathOf(r.parts) in disk && Resolve(disk, PathOf(r.parts)) == Resolved(r.parts, disk[PathOf(r.parts)])
  {
    hide SafePath, Flat, Join;
    var q := Resolve(disk, path).parts;
    ResolvedIsCanonical(disk, path);
    RootSafe();
    SplitPath(q);
    Again(disk, q);
  }

  lemma Again(disk: Disk, q: seq<string>)
    requires Canonical(disk, q)
    ensures Flat(disk, [], disk["/"], [""] + (if q == [] then [""] else q), 0)
      == Resolved(q, if q == [] then disk["/"] else disk[PathOf(q)])
  {
    hide SafePath, PathOf;
    if q == [] {
      assert ([""] + [""])[1..] == [""] && [""][1..] == [];
      assert Flat(disk, [], disk["/"], [""], 0) == Resolved([], disk["/"]);
    } else {
      assert ([""] + q)[1..] == q && q[0..] == q && q[..0] == [];
      WalkCanonical(disk, q, 0, disk["/"]);
    }
  }
}
