/** Which names the reader leaves as they are when it is given its own output. An ignorable
    ends a run of marks and is dropped, so two runs it kept apart meet in the output. */
module NormTwice {
  import opened CanonicalOrder
  import opened Normalizer

  /** No mark stands behind one of a higher class without a starter between; k is the class
      in front. */
  predicate InOrder(ccc: Classes, s: seq<Cp>, k: nat) {
    s == [] || ((IsMark(ccc, s[0]) ==> k <= ClassOf(ccc, s[0])) && InOrder(ccc, s[1..], ClassOf(ccc, s[0])))
  }

  lemma {:induction false} RunInOrder(ccc: Classes, run: seq<Cp>, t: seq<Cp>, k: nat)
    requires AllMarks(ccc, run)
    ensures InOrder(ccc, run + t, k) <==>
      Ordered(ccc, run) && (run != [] ==> k <= ClassOf(ccc, run[0])) && InOrder(ccc, t, if run == [] then k else ClassOf(ccc, run[|run| - 1]))
  {
    hide ClassOf;
    if run == [] {
      assert run + t == t;
    } else {
      assert (run + t)[1..] == run[1..] + t;
      RunInOrder(ccc, run[1..], t, ClassOf(ccc, run[0]));
      OrderedCons(ccc, run);
    }
  }

  lemma OrderedCons(ccc: Classes, run: seq<Cp>)
    requires run != []
    ensures Ordered(ccc, run) <==> Ordered(ccc, run[1..]) && (|run| > 1 ==> ClassOf(ccc, run[0]) <= ClassOf(ccc, run[1]))
  {
    hide ClassOf;
    if Ordered(ccc, run[1..]) && (|run| > 1 ==> ClassOf(ccc, run[0]) <= ClassOf(ccc, run[1])) {
      forall i, j | 0 <= i < j < |run|
        ensures ClassOf(ccc, run[i]) <= ClassOf(ccc, run[j])
      {
        assert run[j] == run[1..][j - 1] && run[1] == run[1..][0];
        if i > 0 {
          assert run[i] == run[1..][i - 1];
        }
      }
    } else if Ordered(ccc, run) {
      assert forall i :: 0 <= i < |run| - 1 ==> run[1..][i] == run[i + 1];
    }
  }

  lemma SortedStaysIff(ccc: Classes, run: seq<Cp>)
    ensures StableSort(ccc, run) == run <==> Ordered(ccc, run)
  {
    hide StableSort, OfClass, Ordered;
    StableSortFacts(ccc, run);
    if Ordered(ccc, run) {
      forall k
        ensures OfClass(ccc, StableSort(ccc, run), k) == OfClass(ccc, run, k)
      {
        StableSortOfClass(ccc, run, k);
      }
      OrderedUnique(ccc, StableSort(ccc, run), run);
    }
  }

  /** The leading marks of some characters. */
  function Marks(ccc: Classes, s: seq<Cp>): (n: nat)
    ensures n <= |s| && AllMarks(ccc, s[..n]) && (n < |s| ==> !IsMark(ccc, s[n]))
  {
    if s != [] && IsMark(ccc, s[0]) then 1 + Marks(ccc, s[1..]) else 0
  }

  lemma NormOfItems(ccc: Classes, s: seq<Cp>)
    ensures var n := Marks(ccc, s);
      Norm(ccc, Items(s)) == StableSort(ccc, s[..n]) + if n == |s| then [] else [s[n]] + Norm(ccc, Items(s[n + 1..]))
  {
    hide Norm, StableSort, Marks, IsMark;
    var n := Marks(ccc, s);
    assert Items(s) == Items(s[..n]) + Items(s[n..]);
    assert n < |s| ==> Items(s[n..])[0] == Char(s[n]);
    Flushes(ccc, s[..n], Items(s[n..]));
    if n < |s| {
      assert Items(s[n..]) == [Char(s[n])] + Items(s[n + 1..]);
      AfterNormStep(ccc, Char(s[n]), Items(s[n + 1..]));
    } else {
      assert Items(s[n..]) == [];
    }
  }

  lemma SortLength(ccc: Classes, run: seq<Cp>)
    ensures |StableSort(ccc, run)| == |run|
  {
    hide StableSort;
    StableSortFacts(ccc, run);
    assert |multiset(StableSort(ccc, run))| == |multiset(run)|;
  }

  /** Characters are their own normal form exactly when their marks are in order. */
  lemma {:induction false} NormStaysIff(ccc: Classes, s: seq<Cp>)
    ensures Norm(ccc, Items(s)) == s <==> InOrder(ccc, s, 0)
    decreases |s|
  {
    hide Norm, StableSort, Marks, Ordered, ClassOf, InOrder, Items;
    var n := Marks(ccc, s);
    var run, t := s[..n], s[n..];
    NormOfItems(ccc, s);
    SortLength(ccc, run);
    SortedStaysIff(ccc, run);
    assert s == run + t;
    RunInOrder(ccc, run, t, 0);
    var sorted := StableSort(ccc, run);
    if n < |s| {
      NormStaysIff(ccc, s[n + 1..]);
      StarterResets(ccc, t, if run == [] then 0 else ClassOf(ccc, run[n - 1]));
      assert t[0] == s[n] && t[1..] == s[n + 1..] && t == [s[n]] + s[n + 1..];
      SameParts(sorted, [s[n]] + Norm(ccc, Items(s[n + 1..])), run, t);
      SameParts([s[n]], Norm(ccc, Items(s[n + 1..])), [s[n]], s[n + 1..]);
    } else {
      EndsInOrder(ccc, if run == [] then 0 else ClassOf(ccc, run[n - 1]));
      SameParts(sorted, [], run, t);
    }
  }

  lemma SameParts(a: seq<Cp>, b: seq<Cp>, c: seq<Cp>, d: seq<Cp>)
    requires |a| == |c|
    ensures a + b == c + d <==> a == c && b == d
  {
    if a + b == c + d {
      assert (a + b)[..|a|] == a && (c + d)[..|c|] == c && (a + b)[|a|..] == b && (c + d)[|c|..] == d;
    }
  }

  lemma EndsInOrder(ccc: Classes, k: nat)
    ensures InOrder(ccc, [], k)
  {
  }

  lemma StarterResets(ccc: Classes, t: seq<Cp>, k: nat)
    requires t != [] && !IsMark(ccc, t[0])
    ensures InOrder(ccc, t, k) <==> InOrder(ccc, t[1..], 0)
  {
  }

  // ---- on the name itself ------------------------------------------------

  /** The highest class of a run, or k if it is empty. */
  function Highest(ccc: Classes, run: seq<Cp>, k: nat): nat {
    if run == [] then k
    else
      var h := Highest(ccc, run[1..], k);
      if ClassOf(ccc, run[0]) > h then ClassOf(ccc, run[0]) else h
  }

  predicate NoneBelow(ccc: Classes, run: seq<Cp>, k: nat) {
    forall i :: 0 <= i < |run| ==> k <= ClassOf(ccc, run[i])
  }

  /** No run of marks behind an ignorable has a class below one of the runs before it, back
      to the last starter; k is the highest class of those. */
  predicate Ascends(ccc: Classes, items: seq<Item>, k: nat)
    decreases |items|
  {
    var run, rest := Run(ccc, items), AfterRun(ccc, items);
    NoneBelow(ccc, run, k) && (rest != [] ==> Ascends(ccc, rest[1..], if rest[0].Char? then 0 else Highest(ccc, run, k)))
  }

  lemma {:induction false} HighestFacts(ccc: Classes, run: seq<Cp>, k: nat)
    ensures var h := Highest(ccc, run, k); k <= h && (forall c :: c in run ==> ClassOf(ccc, c) <= h)
    ensures var h := Highest(ccc, run, k); h == k || exists c :: c in run && ClassOf(ccc, c) == h
  {
    hide ClassOf;
    if run != [] {
      HighestFacts(ccc, run[1..], k);
      assert run == [run[0]] + run[1..];
    }
  }

  lemma MemberOfBoth(a: seq<Cp>, b: seq<Cp>, c: Cp)
    requires multiset(a) == multiset(b)
    ensures c in a <==> c in b
  {
    assert c in a <==> c in multiset(a);
    assert c in b <==> c in multiset(b);
  }

  /** First and last of a sorted run. */
  lemma SortedEnds(ccc: Classes, run: seq<Cp>, k: nat)
    requires run != []
    ensures var r := StableSort(ccc, run);
      && |r| == |run| && (k <= ClassOf(ccc, r[0]) <==> NoneBelow(ccc, run, k))
      && (NoneBelow(ccc, run, k) ==> ClassOf(ccc, r[|r| - 1]) == Highest(ccc, run, k))
  {
    hide StableSort, ClassOf, Highest;
    var r := StableSort(ccc, run);
    StableSortFacts(ccc, run);
    SortLength(ccc, run);
    MemberOfBoth(run, r, r[0]);
    MemberOfBoth(run, r, r[|r| - 1]);
    HighestFacts(ccc, run, k);
    forall i | 0 <= i < |run|
      ensures ClassOf(ccc, r[0]) <= ClassOf(ccc, run[i]) <= ClassOf(ccc, r[|r| - 1])
    {
      MemberOfBoth(run, r, run[i]);
    }
  }

  lemma MarksSorted(ccc: Classes, run: seq<Cp>)
    requires AllMarks(ccc, run)
    ensures AllMarks(ccc, StableSort(ccc, run)) && Ordered(ccc, StableSort(ccc, run))
  {
    hide StableSort, IsMark, Ordered;
    var r := StableSort(ccc, run);
    StableSortFacts(ccc, run);
    forall i | 0 <= i < |r|
      ensures IsMark(ccc, r[i])
    {
      MemberOfBoth(run, r, r[i]);
    }
  }

  lemma {:induction false} AscendsIff(ccc: Classes, items: seq<Item>, k: nat)
    ensures InOrder(ccc, Norm(ccc, items), k) <==> Ascends(ccc, items, k)
    decreases |items|
  {
    var run, rest := Run(ccc, items), AfterRun(ccc, items);
    assert Norm(ccc, items) == StableSort(ccc, run) + AfterNorm(ccc, rest);
    assert AllMarks(ccc, run);
    hide Norm, AfterNorm, StableSort, InOrder, ClassOf, Run, AfterRun, Ordered, Highest, NoneBelow, AllMarks, IsMark;
    var r := StableSort(ccc, run);
    MarksSorted(ccc, run);
    SortLength(ccc, run);
    RunInOrder(ccc, r, AfterNorm(ccc, rest), k);
    if run == [] {
      NothingBelow(ccc, k);
    } else {
      SortedEnds(ccc, run, k);
    }
    var h := if run == [] then k else ClassOf(ccc, r[|r| - 1]);
    if rest == [] {
      NothingAfter(ccc);
      EndsInOrder(ccc, h);
    } else {
      AfterNormUnfolds(ccc, rest);
      var more := Norm(ccc, rest[1..]);
      if rest[0].Char? {
        AscendsIff(ccc, rest[1..], 0);
        assert ([rest[0].cp] + more)[1..] == more;
        StarterResets(ccc, [rest[0].cp] + more, h);
      } else {
        assert [] + more == more;
        AscendsIff(ccc, rest[1..], h);
      }
    }
  }

  lemma NothingAfter(ccc: Classes)
    ensures AfterNorm(ccc, []) == []
  {
  }

  lemma NothingBelow(ccc: Classes, k: nat)
    ensures NoneBelow(ccc, [], k) && Highest(ccc, [], k) == k
  {
  }

  // ---- the reader --------------------------------------------------------

  lemma OutputStandsForItself(db: Db, s: seq<Cp>)
    requires FullyExpanded(db)
    ensures Flatten(db, Normalize(db, s)) == Items(Normalize(db, s))
  {
    hide Norm, Flatten, Chars, SelfExpanding, FullyExpanded, Items;
    var items := Flatten(db, s);
    var n := Norm(db.ccc, items);
    forall c | c in n
      ensures SelfExpanding(db, c)
    {
      NormIsPermutation(db.ccc, items);
      assert c in multiset(n) && c in multiset(Chars(items));
      FlattenMember(db, s, c);
    }
    FlattenSelf(db, n);
  }

  /** The reader leaves its own output alone exactly when no run of marks behind an ignorable
      has a class below one of the runs before it, back to the last starter. */
  lemma NormalizeTwiceIff(db: Db, s: seq<Cp>)
    requires FullyExpanded(db)
    ensures Normalize(db, Normalize(db, s)) == Normalize(db, s) <==> Ascends(db.ccc, Flatten(db, s), 0)
  {
    hide Norm, Flatten, InOrder, Ascends, FullyExpanded, Items;
    OutputStandsForItself(db, s);
    NormStaysIff(db.ccc, Normalize(db, s));
    AscendsIff(db.ccc, Flatten(db, s), 0);
  }

  /** It does not, for one, for two marks in the wrong order with an ignorable between. */
  lemma IgnorableHoldsApart(db: Db, x: Cp, z: Cp, y: Cp)
    requires FullyExpanded(db) && SelfExpanding(db, x) && SelfExpanding(db, y) && z in db.di
    requires ClassOf(db.ccc, x) > ClassOf(db.ccc, y) > 0
    ensures Normalize(db, Normalize(db, [x, z, y])) != Normalize(db, [x, z, y])
  {
    hide Norm, FullyExpanded, Normalize;
    NormalizeTwiceIff(db, [x, z, y]);
    ApartItems(db, x, z, y);
    var ccc, a, b := db.ccc, [Char(x), Break, Char(y)], [Char(y)];
    RunLengthIs(ccc, a, 1);
    RunLengthIs(ccc, b, 1);
    assert Run(ccc, a) == [x] && AfterRun(ccc, a)[1..] == b && Run(ccc, b) == [y];
    assert [x][1..] == [];
    assert !NoneBelow(ccc, [y], Highest(ccc, [x], 0));
  }

  lemma ApartItems(db: Db, x: Cp, z: Cp, y: Cp)
    requires SelfExpanding(db, x) && SelfExpanding(db, y) && z in db.di
    ensures Flatten(db, [x, z, y]) == [Char(x), Break, Char(y)]
  {
    hide Expand;
    assert [x, z, y][1..] == [z, y] && [z, y][1..] == [y] && [y][1..] == [];
    assert Flatten(db, [y]) == [Char(y)];
    assert Flatten(db, [z, y]) == [Break] + [Char(y)];
  }
}
