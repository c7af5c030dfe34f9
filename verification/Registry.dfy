/** Instance ids and the registry of running instances. */
module Registry {
  import opened Text

  /** The n-th name tried for a build: the build's own, then build#2, build#3, ... */
  function Candidate(build: string, n: nat): string {
    if n <= 1 then build else build + "#" + Dec(n)
  }

  lemma CandidatesDiffer(build: string, m: nat, n: nat)
    requires 1 <= m < n
    ensures Candidate(build, m) != Candidate(build, n)
  {
    var k := |build| + 1;
    assert Candidate(build, n)[k..] == Dec(n);
    if m > 1 {
      assert Candidate(build, m)[k..] == Dec(m);
      assert DecValue(Dec(m)) != DecValue(Dec(n));
    }
  }

  /** id is the first candidate that is free. */
  ghost predicate FirstFree(taken: set<string>, build: string, id: string) {
    exists n: nat :: FreeAt(taken, build, id, n)
  }

  ghost predicate FreeAt(taken: set<string>, build: string, id: string, n: nat) {
    1 <= n && id == Candidate(build, n) && id !in taken && forall m :: 1 <= m < n ==> Candidate(build, m) in taken
  }

  lemma FirstFreeUnique(taken: set<string>, build: string, a: string, b: string)
    requires FirstFree(taken, build, a) && FirstFree(taken, build, b)
    ensures a == b
  {
    hide Candidate;
    var m: nat :| FreeAt(taken, build, a, m);
    var n: nat :| FreeAt(taken, build, b, n);
    assert !(m < n) && !(n < m);
  }

  /** The registered instances, by id, with their builds; and the ids promised to starts
      that have not registered yet. */
  class Instances {
    var sessions: map<string, string>
    var reserved: set<string>

    ghost predicate Valid()
      reads this
    {
      sessions.Keys !! reserved
    }

    constructor ()
      ensures Valid() && sessions == map[] && reserved == {}
    {
      sessions, reserved := map[], {};
    }

    /** Pick and reserve an id. */
    method AllocInstanceId(build: string) returns (id: string)
      requires Valid()
      modifies `reserved
      ensures Valid() && FirstFree(old(sessions.Keys + reserved), build, id)
      ensures id !in old(reserved) && reserved == old(reserved) + {id}
    {
      hide Candidate;
      var taken := sessions.Keys + reserved;
      id := build;
      OwnName(build);
      ghost var left := taken;
      var n := 2;
      while id in taken
        invariant unchanged(this) && n >= 2 && id == Candidate(build, n - 1) && left <= taken
        invariant forall m :: 1 <= m < n - 1 ==> Candidate(build, m) in taken
        invariant forall x :: x in taken && x !in left ==> exists m :: 1 <= m < n - 1 && x == Candidate(build, m)
        decreases left
      {
        if id !in left {
          var m :| 1 <= m < n - 1 && id == Candidate(build, m);
          CandidatesDiffer(build, m, n - 1);
        }
        left := left - {id};
        id := build + "#" + Dec(n);
        NumberedName(build, n);
        n := n + 1;
      }
      assert FreeAt(taken, build, id, n - 1);
      reserved := reserved + {id};
    }

    lemma OwnName(build: string)
      ensures Candidate(build, 1) == build
    {
    }

    lemma NumberedName(build: string, n: nat)
      requires n >= 2
      ensures Candidate(build, n) == build + "#" + Dec(n)
    {
    }

    /** A start that came up: its reserved id becomes a registered one. */
    method Register(id: string, build: string)
      requires Valid() && id in reserved
      modifies this
      ensures Valid() && id !in old(sessions) && sessions == old(sessions)[id := build] && reserved == old(reserved) - {id}
    {
      sessions := sessions[id := build];
      reserved := reserved - {id};
    }

    /** A start that failed. */
    method Release(id: string)
      requires Valid()
      modifies `reserved
      ensures Valid() && reserved == old(reserved) - {id}
    {
      reserved := reserved - {id};
    }

    /** Stopping an instance; false if there is none of that id. */
    method Remove(id: string) returns (found: bool)
      requires Valid()
      modifies `sessions
      ensures Valid() && found == (id in old(sessions)) && sessions == old(sessions) - {id}
    {
      found := id in sessions;
      sessions := sessions - {id};
    }
  }
}
