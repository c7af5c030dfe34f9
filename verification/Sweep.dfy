/** Which unused builds a garbage sweep collects: all but the newest. */
module Sweep {
  /** A candidate: modification time, build id. */
  type Unused = (int, string)

  // ---- the order of tuples -----------------------------------------------

  predicate LexLeq(a: string, b: string) {
    if a == "" then true
    else if b == "" then false
    else a[0] < b[0] || (a[0] == b[0] && LexLeq(a[1..], b[1..]))
  }

  predicate Leq(x: Unused, y: Unused) {
    x.0 < y.0 || (x.0 == y.0 && LexLeq(x.1, y.1))
  }

  lemma {:induction false} LexTotal(a: string, b: string)
    ensures LexLeq(a, b) || LexLeq(b, a)
  {
    if a != "" && b != "" {
      LexTotal(a[1..], b[1..]);
    }
  }

  lemma {:induction false} LexTransitive(a: string, b: string, c: string)
    requires LexLeq(a, b) && LexLeq(b, c)
    ensures LexLeq(a, c)
  {
    if a != "" && b != "" && c != "" && a[0] == b[0] == c[0] {
      LexTransitive(a[1..], b[1..], c[1..]);
    }
  }

  lemma LeqTotal(x: Unused, y: Unused)
    ensures Leq(x, y) || Leq(y, x)
  {
    LexTotal(x.1, y.1);
  }

  lemma LeqTransitive(x: Unused, y: Unused, z: Unused)
    requires Leq(x, y) && Leq(y, z)
    ensures Leq(x, z)
  {
    if x.0 == y.0 == z.0 {
      LexTransitive(x.1, y.1, z.1);
    }
  }

  // ---- newest first ------------------------------------------------------

  ghost predicate Newest(s: seq<Unused>) {
    forall i, j :: 0 <= i < j < |s| ==> Leq(s[j], s[i])
  }

  /** x goes in front of the first that is not newer. */
  function Put(s: seq<Unused>, x: Unused): seq<Unused> {
    if s == [] || Leq(s[0], x) then [x] + s else [s[0]] + Put(s[1..], x)
  }

  /** `sort(reverse=True)`. */
  function NewestFirst(s: seq<Unused>): seq<Unused> {
    if s == [] then [] else Put(NewestFirst(s[1..]), s[0])
  }

  lemma {:induction false} PutKeeps(s: seq<Unused>, x: Unused)
    requires Newest(s)
    ensures Newest(Put(s, x)) && multiset(Put(s, x)) == multiset(s) + multiset{x}
  {
    hide Leq;
    if s == [] {
    } else if Leq(s[0], x) {
      forall j | 0 <= j < |s|
        ensures Leq(s[j], x)
      {
        if j > 0 {
          LeqTransitive(s[j], s[0], x);
        }
      }
    } else {
      PutKeeps(s[1..], x);
      assert s == [s[0]] + s[1..];
      var rest := Put(s[1..], x);
      forall j | 0 <= j < |rest|
        ensures Leq(rest[j], s[0])
      {
        assert rest[j] in multiset(rest);
        if rest[j] == x {
          LeqTotal(x, s[0]);
        } else {
          assert rest[j] in s[1..];
        }
      }
    }
  }

  lemma {:induction false} NewestFirstFacts(s: seq<Unused>)
    ensures Newest(NewestFirst(s)) && multiset(NewestFirst(s)) == multiset(s)
  {
    hide Newest, Put;
    if s == [] {
      NewestNone();
    } else {
      NewestFirstFacts(s[1..]);
      PutKeeps(NewestFirst(s[1..]), s[0]);
      assert s == [s[0]] + s[1..];
    }
  }

  lemma NewestNone()
    ensures Newest([])
  {
  }

  // ---- what is collected -------------------------------------------------

  /** Where the slice `[keep:]` of n elements starts; a negative keep counts from the end. */
  function SliceStart(keep: int, n: nat): (k: nat)
    ensures k <= n
  {
    if keep >= 0 then (if keep <= n then keep else n)
    else if n + keep >= 0 then n + keep
    else 0
  }

  function Collected(candidates: seq<Unused>, keep: int): seq<Unused> {
    var s := NewestFirst(candidates);
    s[SliceStart(keep, |s|)..]
  }

  function Kept(candidates: seq<Unused>, keep: int): seq<Unused> {
    var s := NewestFirst(candidates);
    s[..SliceStart(keep, |s|)]
  }

  /** The sweep keeps the `keep` newest candidates, or all if there are fewer, and collects
      every other one: nothing kept is older than anything collected. A negative `keep`
      collects that many, or all, and keeps the rest. */
  lemma KeepsTheNewest(candidates: seq<Unused>, keep: int)
    ensures multiset(Kept(candidates, keep)) + multiset(Collected(candidates, keep)) == multiset(candidates)
    ensures keep >= 0 ==> |Kept(candidates, keep)| == if keep <= |candidates| then keep else |candidates|
    ensures keep < 0 ==> |Collected(candidates, keep)| == if -keep <= |candidates| then -keep else |candidates|
    ensures forall x, y :: x in Kept(candidates, keep) && y in Collected(candidates, keep) ==> Leq(y, x)
  {
    hide NewestFirst, Leq;
    NewestFirstFacts(candidates);
    var s := NewestFirst(candidates);
    assert |s| == |multiset(s)| == |multiset(candidates)| == |candidates|;
    var k := SliceStart(keep, |s|);
    assert s == s[..k] + s[k..];
  }

  lemma CollectedIsCandidate(candidates: seq<Unused>, keep: int, x: Unused)
    requires x in Collected(candidates, keep)
    ensures x in candidates
  {
    hide NewestFirst, Leq;
    KeepsTheNewest(candidates, keep);
    assert x in multiset(Collected(candidates, keep));
    assert x in multiset(candidates);
  }

  /** The build directories that nobody uses, with their times (0 for one just gone). */
  function Unreferenced(listing: seq<string>, mtimes: map<string, int>, used: set<string>): seq<Unused> {
    if listing == [] then []
    else
      var b := listing[|listing| - 1];
      Unreferenced(listing[..|listing| - 1], mtimes, used) +
      if b in used then [] else [(if b in mtimes then mtimes[b] else 0, b)]
  }

  lemma {:induction false} UnreferencedMeans(listing: seq<string>, mtimes: map<string, int>, used: set<string>, x: Unused)
    ensures x in Unreferenced(listing, mtimes, used) <==>
      x.1 in listing && x.1 !in used && x.0 == if x.1 in mtimes then mtimes[x.1] else 0
  {
    if listing != [] {
      var n := |listing| - 1;
      UnreferencedMeans(listing[..n], mtimes, used, x);
      assert listing == listing[..n] + [listing[n]];
    }
  }

  /** A sweep over a listing: nothing collected is live or being built, and all other
      unused builds but the newest go. */
  method GcSweep(listing: seq<string>, mtimes: map<string, int>, live: set<string>, building: set<string>, keep: int)
    returns (collected: seq<Unused>)
    ensures collected == Collected(Unreferenced(listing, mtimes, live + building), keep)
    ensures forall x :: x in collected ==> x.1 in listing && x.1 !in live && x.1 !in building
  {
    hide Collected, NewestFirst;
    var candidates: seq<Unused> := [];
    for i := 0 to |listing|
      invariant candidates == Unreferenced(listing[..i], mtimes, live + building)
    {
      var b := listing[i];
      assert listing[..i + 1][..i] == listing[..i];
      if b in live || b in building {
        continue;
      }
      candidates := candidates + [(if b in mtimes then mtimes[b] else 0, b)];
    }
    assert listing[..|listing|] == listing;
    collected := Collected(candidates, keep);
    forall x | x in collected
      ensures x.1 in listing && x.1 !in live && x.1 !in building
    {
      CollectedIsCandidate(candidates, keep, x);
      UnreferencedMeans(listing, mtimes, live + building, x);
    }
  }
}
