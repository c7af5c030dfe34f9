/** The image object: answers are asked for once and remembered. */
module Image {
  import opened GuestPath
  import opened Resolver

  /** A path that must lead to a regular file. */
  function FileOf(disk: Disk, path: string): Outcome {
    var r := Resolver.Resolve(disk, path);
    if r.Resolved? && !r.inode.kind.Regular? then Failed else r
  }

  /** A file found is the inode of its canonical path. */
  lemma FileIsRight(disk: Disk, path: string)
    requires FileOf(disk, path).Resolved?
    ensures var r := FileOf(disk, path);
      Canonical(disk, r.parts) && PathOf(r.parts) in disk && disk[PathOf(r.parts)] == r.inode && r.inode.kind.Regular?
  {
    hide SafePath, Flat, Split, Join, EndsOnLink, Canonical;
    ResolvedIsCanonical(disk, path);
    InodeIs(disk, path);
  }

  class Image {
    /** What the file system tool would answer. */
    const disk: Disk
    var stats: map<string, Inode>

    ghost predicate Valid()
      reads this
    {
      forall p :: p in stats ==> StatOf(disk, p) == Found(stats[p])
    }

    constructor (disk: Disk)
      ensures Valid() && this.disk == disk
    {
      this.disk := disk;
      stats := map[];
    }

    method Stat(path: string) returns (s: Stat)
      requires Valid()
      modifies `stats
      ensures Valid() && s == StatOf(disk, path)
    {
      if !SafePath(path) {
        return Refused;
      }
      if path !in stats {
        if path !in disk {
          return Absent;
        }
        stats := stats[path := disk[path]];
      }
      return Found(stats[path]);
    }

    method Resolve(path: string) returns (r: Outcome)
      requires Valid()
      modifies `stats
      ensures Valid() && r == Resolver.Resolve(disk, path)
    {
      hide SafePath, PathOf, Split, StatOf;
      if !SafePath(path) {
        return Failed;
      }
      NotEmpty(path);
      if path[0] != '/' {
        return Failed;
      }
      var pending, parts, links := Split(path), [], 0;
      var s := Stat("/");
      if s.Refused? {
        return Failed;
      }
      if s.Absent? {
        return Missing;
      }
      var inode := s.inode;
      while pending != []
        invariant Valid() && links <= MAX_LINKS
        invariant Resolver.Resolve(disk, path) == Flat(disk, parts, inode, pending, links)
        decreases MAX_LINKS - links, |pending|
      {
        var c := pending[0];
        pending := pending[1..];
        if Skipped(c) {
          continue;
        }
        if c == ".." {
          if parts == [] {
            return Failed;
          }
          parts := parts[..|parts| - 1];
          s := Stat(PathOf(parts));
          if !s.Found? {
            return if s.Absent? then Missing else Failed;
          }
          inode := s.inode;
          continue;
        }
        s := Stat(PathOf(parts + [c]));
        if !s.Found? {
          return if s.Absent? then Missing else Failed;
        }
        inode := s.inode;
        if inode.kind.Symlink? {
          links := links + 1;
          if links > MAX_LINKS {
            return Failed;
          }
          var dest := inode.kind.target;
          if !SafePath(dest) {
            return Failed;
          }
          if dest != "" && dest[0] == '/' {
            parts := [];
          }
          pending := Split(dest) + pending;
        } else {
          parts := parts + [c];
          if pending != [] && !inode.kind.Directory? {
            return Failed;
          }
        }
      }
      return Resolved(parts, inode);
    }

    lemma NotEmpty(path: string)
      requires SafePath(path)
      ensures path != ""
    {
    }

    method File(path: string) returns (r: Outcome)
      requires Valid()
      modifies `stats
      ensures Valid() && r == FileOf(disk, path)
    {
      r := Resolve(path);
      if r.Resolved? && !r.inode.kind.Regular? {
        return Failed;
      }
    }
  }
}
