/** Normalization of a name as a sequence of items: characters, and the breaks that
    ignorable code points leave behind. A run of combining marks is sorted stably by
    class; starters and breaks end a run. */
module CanonicalOrder {

  type Cp = nat

  /** The combining class of each code point; a code point without one is a starter. */
  type Classes = map<Cp, nat>

  function ClassOf(ccc: Classes, c: Cp): nat {
    if c in ccc then ccc[c] else 0
  }

  predicate IsMark(ccc: Classes, c: Cp) {
    ClassOf(ccc, c) != 0
  }

  datatype Item = Break | Char(cp: Cp)

  predicate MarkItem(ccc: Classes, it: Item) {
    it.Char? && IsMark(ccc, it.cp)
  }

  // ---- the stable sort ---------------------------------------------------

  /** Inserts c behind everything of its class or a lower one. */
  function Insert(ccc: Classes, run: seq<Cp>, c: Cp): seq<Cp> {
    if run != [] && ClassOf(ccc, run[|run| - 1]) > ClassOf(ccc, c) then
      Insert(ccc, run[..|run| - 1], c) + [run[|run| - 1]]
    else run + [c]
  }

  /** `sorted(run, key=class)`. */
  function StableSort(ccc: Classes, run: seq<Cp>): seq<Cp> {
    if run == [] then [] else Insert(ccc, StableSort(ccc, run[..|run| - 1]), run[|run| - 1])
  }

  ghost predicate Ordered(ccc: Classes, s: seq<Cp>) {
    forall i, j :: 0 <= i < j < |s| ==> ClassOf(ccc, s[i]) <= ClassOf(ccc, s[j])
  }

  /** The members of class k, in the order in which they stand. */
  function OfClass(ccc: Classes, s: seq<Cp>, k: nat): seq<Cp> {
    if s == [] then []
    else
      OfClass(ccc, s[..|s| - 1], k) +
      if ClassOf(ccc, s[|s| - 1]) == k then [s[|s| - 1]] else []
  }

  lemma {:induction false} OfClassConcat(ccc: Classes, a: seq<Cp>, b: seq<Cp>, k: nat)
    ensures OfClass(ccc, a + b, k) == OfClass(ccc, a, k) + OfClass(ccc, b, k)
  {
    if b == [] {
      assert a + b == a;
    } else {
      var n := |b| - 1;
      assert (a + b)[..|a + b| - 1] == a + b[..n];
      OfClassConcat(ccc, a, b[..n], k);
    }
  }

  lemma OfClassOne(ccc: Classes, c: Cp, k: nat)
    ensures OfClass(ccc, [c], k) == if ClassOf(ccc, c) == k then [c] else []
  {
    assert [c][..0] == [];
  }

  lemma {:induction false} OfClassSnoc(ccc: Classes, s: seq<Cp>, c: Cp, k: nat)
    ensures OfClass(ccc, s + [c], k) == OfClass(ccc, s, k) + OfClass(ccc, [c], k)
  {
    OfClassConcat(ccc, s, [c], k);
  }

  lemma {:induction false} InsertPermutes(ccc: Classes, run: seq<Cp>, c: Cp)
    ensures multiset(Insert(ccc, run, c)) == multiset(run) + multiset{c}
  {
    if run != [] && ClassOf(ccc, run[|run| - 1]) > ClassOf(ccc, c) {
      var n := |run| - 1;
      InsertPermutes(ccc, run[..n], c);
      assert run == run[..n] + [run[n]];
    }
  }

  /** Every class in s is at most k. */
  ghost predicate AtMost(ccc: Classes, s: seq<Cp>, k: nat) {
    forall i :: 0 <= i < |s| ==> ClassOf(ccc, s[i]) <= k
  }

  lemma {:induction false} InsertAtMost(ccc: Classes, run: seq<Cp>, c: Cp, k: nat)
    requires AtMost(ccc, run, k) && ClassOf(ccc, c) <= k
    ensures AtMost(ccc, Insert(ccc, run, c), k)
  {
    hide ClassOf;
    if run != [] && ClassOf(ccc, run[|run| - 1]) > ClassOf(ccc, c) {
      InsertAtMost(ccc, run[..|run| - 1], c, k);
    }
  }

  lemma SnocOrdered(ccc: Classes, s: seq<Cp>, c: Cp)
    requires Ordered(ccc, s) && AtMost(ccc, s, ClassOf(ccc, c))
    ensures Ordered(ccc, s + [c])
  {
    hide ClassOf;
  }

  lemma {:induction false} InsertOrders(ccc: Classes, run: seq<Cp>, c: Cp)
    requires Ordered(ccc, run)
    ensures Ordered(ccc, Insert(ccc, run, c))
  {
    hide ClassOf;
    if run == [] {
    } else if ClassOf(ccc, run[|run| - 1]) > ClassOf(ccc, c) {
      var n := |run| - 1;
      InsertOrders(ccc, run[..n], c);
      InsertAtMost(ccc, run[..n], c, ClassOf(ccc, run[n]));
      SnocOrdered(ccc, Insert(ccc, run[..n], c), run[n]);
    } else {
      SnocOrdered(ccc, run, c);
    }
  }

  lemma {:induction false} InsertOfClass(ccc: Classes, run: seq<Cp>, c: Cp, k: nat)
    ensures OfClass(ccc, Insert(ccc, run, c), k) == OfClass(ccc, run, k) + OfClass(ccc, [c], k)
  {
    hide OfClass;
    if run != [] && ClassOf(ccc, run[|run| - 1]) > ClassOf(ccc, c) {
      var n := |run| - 1;
      InsertOfClass(ccc, run[..n], c, k);
      OfClassSnoc(ccc, Insert(ccc, run[..n], c), run[n], k);
      assert run == run[..n] + [run[n]];
      OfClassSnoc(ccc, run[..n], run[n], k);
      OfClassOne(ccc, run[n], k);
      OfClassOne(ccc, c, k);
      OneIsEmpty(OfClass(ccc, run[..n], k), OfClass(ccc, [c], k), OfClass(ccc, [run[n]], k));
    } else {
      OfClassSnoc(ccc, run, c, k);
    }
  }

  lemma OneIsEmpty(a: seq<Cp>, b: seq<Cp>, c: seq<Cp>)
    requires b == [] || c == []
    ensures a + b + c == a + c + b
  {
  }

  /** The sort is a sort: ordered by class, a permutation, and stable within each class. */
  lemma {:induction false} StableSortFacts(ccc: Classes, run: seq<Cp>)
    ensures var r := StableSort(ccc, run);
      Ordered(ccc, r) && multiset(r) == multiset(run)
  {
    if run != [] {
      var n := |run| - 1;
      StableSortFacts(ccc, run[..n]);
      InsertOrders(ccc, StableSort(ccc, run[..n]), run[n]);
      InsertPermutes(ccc, StableSort(ccc, run[..n]), run[n]);
      assert run == run[..n] + [run[n]];
    }
  }

  lemma {:induction false} StableSortOfClass(ccc: Classes, run: seq<Cp>, k: nat)
    ensures OfClass(ccc, StableSort(ccc, run), k) == OfClass(ccc, run, k)
  {
    hide OfClass, Insert;
    if run == [] {
    } else {
      var n := |run| - 1;
      StableSortOfClass(ccc, run[..n], k);
      InsertOfClass(ccc, StableSort(ccc, run[..n]), run[n], k);
      assert run == run[..n] + [run[n]];
      OfClassSnoc(ccc, run[..n], run[n], k);
    }
  }

  lemma {:induction false} OfClassMember(ccc: Classes, s: seq<Cp>, k: nat, x: Cp)
    ensures x in OfClass(ccc, s, k) <==> x in s && ClassOf(ccc, x) == k
  {
    if s != [] {
      OfClassMember(ccc, s[..|s| - 1], k, x);
      assert s == s[..|s| - 1] + [s[|s| - 1]];
    }
  }

  /** Being ordered and agreeing class by class determines a sequence. */
  lemma {:induction false} OrderedUnique(ccc: Classes, a: seq<Cp>, b: seq<Cp>)
    requires Ordered(ccc, a) && Ordered(ccc, b)
    requires forall k :: OfClass(ccc, a, k) == OfClass(ccc, b, k)
    ensures a == b
    decreases |a|
  {
    if a == [] || b == [] {
      EmptyByClass(ccc, a, b);
    } else {
      LastAgrees(ccc, a, b);
      var n, m := |a| - 1, |b| - 1;
      forall k
        ensures OfClass(ccc, a[..n], k) == OfClass(ccc, b[..m], k)
      {
        SplitLast(ccc, a, k);
        SplitLast(ccc, b, k);
        assert OfClass(ccc, a, k) == OfClass(ccc, b, k);
        CancelSuffix(OfClass(ccc, a[..n], k), OfClass(ccc, b[..m], k), OfClass(ccc, [a[n]], k));
      }
      OrderedUnique(ccc, a[..n], b[..m]);
      assert a == a[..n] + [a[n]] && b == b[..m] + [b[m]];
    }
  }

  lemma CancelSuffix(x: seq<Cp>, y: seq<Cp>, t: seq<Cp>)
    requires x + t == y + t
    ensures x == y
  {
    assert x == (x + t)[..|x + t| - |t|] && y == (y + t)[..|y + t| - |t|];
  }

  lemma SplitLast(ccc: Classes, a: seq<Cp>, k: nat)
    requires a != []
    ensures OfClass(ccc, a, k) == OfClass(ccc, a[..|a| - 1], k) + OfClass(ccc, [a[|a| - 1]], k)
  {
    OfClassOne(ccc, a[|a| - 1], k);
  }

  lemma SameMembers(ccc: Classes, a: seq<Cp>, b: seq<Cp>, x: Cp)
    requires forall k :: OfClass(ccc, a, k) == OfClass(ccc, b, k)
    ensures x in a <==> x in b
  {
    hide OfClass;
    OfClassMember(ccc, a, ClassOf(ccc, x), x);
    OfClassMember(ccc, b, ClassOf(ccc, x), x);
    assert OfClass(ccc, a, ClassOf(ccc, x)) == OfClass(ccc, b, ClassOf(ccc, x));
  }

  lemma EmptyByClass(ccc: Classes, a: seq<Cp>, b: seq<Cp>)
    requires forall k :: OfClass(ccc, a, k) == OfClass(ccc, b, k)
    requires a == [] || b == []
    ensures a == b == []
  {
    hide OfClass;
    if a != [] {
      SameMembers(ccc, a, b, a[0]);
    } else if b != [] {
      SameMembers(ccc, a, b, b[0]);
    }
  }

  lemma LastAgrees(ccc: Classes, a: seq<Cp>, b: seq<Cp>)
    requires Ordered(ccc, a) && Ordered(ccc, b) && a != [] && b != []
    requires forall k :: OfClass(ccc, a, k) == OfClass(ccc, b, k)
    ensures a[|a| - 1] == b[|b| - 1]
  {
    hide OfClass, ClassOf, Ordered;
    var x, y := a[|a| - 1], b[|b| - 1];
    var k := ClassOf(ccc, x);
    SameMembers(ccc, a, b, x);
    SameMembers(ccc, a, b, y);
    LastIsTop(ccc, b, x);
    LastIsTop(ccc, a, y);
    SplitLast(ccc, a, k);
    SplitLast(ccc, b, k);
    OfClassOne(ccc, x, k);
    OfClassOne(ccc, y, k);
    assert OfClass(ccc, a, k) == OfClass(ccc, b, k);
    SameLast(OfClass(ccc, a[..|a| - 1], k), x, OfClass(ccc, b[..|b| - 1], k), y);
  }

  lemma LastIsTop(ccc: Classes, b: seq<Cp>, x: Cp)
    requires Ordered(ccc, b) && x in b
    ensures ClassOf(ccc, x) <= ClassOf(ccc, b[|b| - 1])
  {
    hide ClassOf;
  }

  lemma SameLast(s: seq<Cp>, x: Cp, t: seq<Cp>, y: Cp)
    requires s + [x] == t + [y]
    ensures x == y
  {
    assert (s + [x])[|s|] == x && (t + [y])[|t|] == y;
  }

  // ---- normalization -----------------------------------------------------

  /** The number of marks at the front. */
  function RunLength(ccc: Classes, items: seq<Item>): (n: nat)
    ensures n <= |items| && (forall i :: 0 <= i < n ==> MarkItem(ccc, items[i]))
    ensures n < |items| ==> !MarkItem(ccc, items[n])
  {
    if items != [] && MarkItem(ccc, items[0]) then 1 + RunLength(ccc, items[1..]) else 0
  }

  /** The code points of items that are all characters. */
  function Cps(items: seq<Item>): (r: seq<Cp>)
    requires forall it :: it in items ==> it.Char?
    ensures |r| == |items| && forall i :: 0 <= i < |items| ==> r[i] == items[i].cp
  {
    if items == [] then [] else [items[0].cp] + Cps(items[1..])
  }

  function Run(ccc: Classes, items: seq<Item>): (r: seq<Cp>)
    ensures |r| == RunLength(ccc, items) && forall i :: 0 <= i < |r| ==> items[i] == Char(r[i]) && IsMark(ccc, r[i])
  {
    Cps(items[..RunLength(ccc, items)])
  }

  function AfterRun(ccc: Classes, items: seq<Item>): (r: seq<Item>)
    ensures |r| == |items| - RunLength(ccc, items)
    ensures r != [] ==> !MarkItem(ccc, r[0])
  {
    items[RunLength(ccc, items)..]
  }

  /** The normal form: each run sorted, starters kept, breaks dropped. */
  function Norm(ccc: Classes, items: seq<Item>): seq<Cp>
    decreases |items|
  {
    StableSort(ccc, Run(ccc, items)) + AfterNorm(ccc, AfterRun(ccc, items))
  }

  function AfterNorm(ccc: Classes, items: seq<Item>): seq<Cp>
    requires items != [] ==> !MarkItem(ccc, items[0])
    decreases |items|, -1
  {
    if items == [] then []
    else (if items[0].Char? then [items[0].cp] else []) + Norm(ccc, items[1..])
  }

  // ---- what the normal form consists of ----------------------------------

  /** The characters of items, breaks dropped. */
  function Chars(items: seq<Item>): seq<Cp> {
    if items == [] then []
    else (if items[0].Char? then [items[0].cp] else []) + Chars(items[1..])
  }

  lemma {:induction false} CharsConcat(a: seq<Item>, b: seq<Item>)
    ensures Chars(a + b) == Chars(a) + Chars(b)
  {
    if a == [] {
      assert a + b == b;
    } else {
      CharsConcat(a[1..], b);
      assert (a + b)[1..] == a[1..] + b;
    }
  }

  lemma {:induction false} CharsOfCps(a: seq<Item>)
    requires forall it :: it in a ==> it.Char?
    ensures Chars(a) == Cps(a)
  {
    if a != [] {
      CharsOfCps(a[1..]);
    }
  }

  lemma CharsOfRun(ccc: Classes, items: seq<Item>)
    ensures Chars(items) == Run(ccc, items) + Chars(AfterRun(ccc, items))
  {
    hide Chars, Cps, RunLength;
    var n := RunLength(ccc, items);
    assert items == items[..n] + items[n..];
    CharsConcat(items[..n], items[n..]);
    CharsOfCps(items[..n]);
  }

  /** Normalization rearranges the characters and loses none. */
  lemma {:induction false} NormIsPermutation(ccc: Classes, items: seq<Item>)
    ensures multiset(Norm(ccc, items)) == multiset(Chars(items))
    decreases |items|
  {
    StableSortFacts(ccc, Run(ccc, items));
    CharsOfRun(ccc, items);
    var rest := AfterRun(ccc, items);
    if rest != [] {
      NormIsPermutation(ccc, rest[1..]);
    }
  }

  // ---- runs and concatenation --------------------------------------------

  lemma {:induction false} RunLengthIs(ccc: Classes, items: seq<Item>, n: nat)
    requires n <= |items| && (forall i :: 0 <= i < n ==> MarkItem(ccc, items[i]))
    requires n < |items| ==> !MarkItem(ccc, items[n])
    ensures RunLength(ccc, items) == n
  {
    var m := RunLength(ccc, items);
    assert !(m < n) && !(n < m);
  }

  /** A run that ends inside a is the same run with b appended. */
  lemma RunInFront(ccc: Classes, a: seq<Item>, b: seq<Item>)
    requires RunLength(ccc, a) < |a|
    ensures RunLength(ccc, a + b) == RunLength(ccc, a)
    ensures Run(ccc, a + b) == Run(ccc, a) && AfterRun(ccc, a + b) == AfterRun(ccc, a) + b
  {
    var n := RunLength(ccc, a);
    assert forall i :: 0 <= i <= n ==> (a + b)[i] == a[i];
    RunLengthIs(ccc, a + b, n);
    assert (a + b)[..n] == a[..n];
  }

  /** The normal form up to and including what ends the first run. */
  function FirstPart(ccc: Classes, items: seq<Item>): seq<Cp>
    requires RunLength(ccc, items) < |items|
  {
    var stop := items[RunLength(ccc, items)];
    StableSort(ccc, Run(ccc, items)) + if stop.Char? then [stop.cp] else []
  }

  /** What comes after the first run and the item that ends it. */
  function Later(ccc: Classes, items: seq<Item>): (r: seq<Item>)
    requires RunLength(ccc, items) < |items|
    ensures |r| < |items|
  {
    items[RunLength(ccc, items) + 1..]
  }

  lemma NormSplits(ccc: Classes, items: seq<Item>)
    requires RunLength(ccc, items) < |items|
    ensures Norm(ccc, items) == FirstPart(ccc, items) + Norm(ccc, Later(ccc, items))
  {
    hide StableSort, Run, RunLength, Norm, AfterNorm, MarkItem;
    var rest := AfterRun(ccc, items);
    assert rest[1..] == Later(ccc, items) && rest[0] == items[RunLength(ccc, items)];
    NormUnfolds(ccc, items);
    AfterNormUnfolds(ccc, rest);
    Associates(StableSort(ccc, Run(ccc, items)), if rest[0].Char? then [rest[0].cp] else [], Norm(ccc, rest[1..]));
  }

  lemma AfterNormUnfolds(ccc: Classes, rest: seq<Item>)
    requires rest != [] && !MarkItem(ccc, rest[0])
    ensures AfterNorm(ccc, rest) == (if rest[0].Char? then [rest[0].cp] else []) + Norm(ccc, rest[1..])
  {
    hide Norm;
  }

  lemma FirstPartOf(ccc: Classes, a: seq<Item>, b: seq<Item>)
    requires RunLength(ccc, a) < |a|
    ensures RunLength(ccc, a + b) < |a + b|
    ensures FirstPart(ccc, a + b) == FirstPart(ccc, a) && Later(ccc, a + b) == Later(ccc, a) + b
  {
    hide StableSort;
    RunInFront(ccc, a, b);
  }

  /** Normalization works run by run: it distributes over a cut next to a starter or a break. */
  lemma {:induction false} NormConcat(ccc: Classes, a: seq<Item>, b: seq<Item>)
    requires a == [] || b == [] || !MarkItem(ccc, a[|a| - 1]) || !MarkItem(ccc, b[0])
    ensures Norm(ccc, a + b) == Norm(ccc, a) + Norm(ccc, b)
    decreases |a|
  {
    if RunLength(ccc, a) == |a| {
      NormOfRunThen(ccc, a, b);
    } else {
      LaterEnds(ccc, a);
      hide Norm, FirstPart, Later, RunLength;
      FirstPartOf(ccc, a, b);
      NormSplits(ccc, a);
      NormSplits(ccc, a + b);
      NormConcat(ccc, Later(ccc, a), b);
      Associates(FirstPart(ccc, a), Norm(ccc, Later(ccc, a)), Norm(ccc, b));
    }
  }

  lemma Associates<T>(a: seq<T>, b: seq<T>, c: seq<T>)
    ensures (a + b) + c == a + (b + c)
  {
  }

  lemma LaterEnds(ccc: Classes, a: seq<Item>)
    requires RunLength(ccc, a) < |a|
    ensures var r := Later(ccc, a); r != [] ==> r[|r| - 1] == a[|a| - 1]
  {
  }

  lemma NormOfRunThen(ccc: Classes, a: seq<Item>, b: seq<Item>)
    requires RunLength(ccc, a) == |a|
    requires a == [] || b == [] || !MarkItem(ccc, b[0])
    ensures Norm(ccc, a + b) == Norm(ccc, a) + Norm(ccc, b)
  {
    if a == [] {
      assert a + b == b;
      OneRunNorm(ccc, a);
    } else {
      assert b == [] || RunLength(ccc, b) == 0;
      hide StableSort, Norm, RunLength;
      RunThenStop(ccc, a, b);
      OneRunNorm(ccc, a);
      NormNoRun(ccc, b);
      NormUnfolds(ccc, a + b);
    }
  }

  lemma NormUnfolds(ccc: Classes, a: seq<Item>)
    ensures Norm(ccc, a) == StableSort(ccc, Run(ccc, a)) + AfterNorm(ccc, AfterRun(ccc, a))
  {
  }

  lemma RunThenStop(ccc: Classes, a: seq<Item>, b: seq<Item>)
    requires RunLength(ccc, a) == |a| && (b == [] || !MarkItem(ccc, b[0]))
    ensures Run(ccc, a + b) == Run(ccc, a) && AfterRun(ccc, a + b) == b
  {
    RunLengthIs(ccc, a + b, |a|);
    hide RunLength;
    assert (a + b)[..|a|] == a == a[..|a|];
    assert (a + b)[|a|..] == b;
  }

  lemma NormNoRun(ccc: Classes, b: seq<Item>)
    requires b == [] || !MarkItem(ccc, b[0])
    ensures Norm(ccc, b) == AfterNorm(ccc, b)
  {
    RunLengthIs(ccc, b, 0);
    assert b[0..] == b;
    assert Run(ccc, b) == [];
  }

  lemma OneRunNorm(ccc: Classes, a: seq<Item>)
    requires RunLength(ccc, a) == |a|
    ensures Norm(ccc, a) == StableSort(ccc, Run(ccc, a))
  {
    hide StableSort, Run;
    assert AfterRun(ccc, a) == [];
  }

  // ---- canonical equivalence ---------------------------------------------

  /** Two neighbours that may change places: marks of different classes. */
  predicate Swappable(ccc: Classes, x: Item, y: Item) {
    MarkItem(ccc, x) && MarkItem(ccc, y) && ClassOf(ccc, x.cp) != ClassOf(ccc, y.cp)
  }

  lemma {:induction false} SortBySwap(ccc: Classes, p: seq<Cp>, x: Cp, y: Cp, q: seq<Cp>)
    requires ClassOf(ccc, x) != ClassOf(ccc, y)
    ensures StableSort(ccc, p + [x, y] + q) == StableSort(ccc, p + [y, x] + q)
  {
    var a, b := p + [x, y] + q, p + [y, x] + q;
    StableSortFacts(ccc, a);
    StableSortFacts(ccc, b);
    forall k
      ensures OfClass(ccc, StableSort(ccc, a), k) == OfClass(ccc, StableSort(ccc, b), k)
    {
      StableSortOfClass(ccc, a, k);
      StableSortOfClass(ccc, b, k);
      SwapOfClass(ccc, p, x, y, q, k);
    }
    OrderedUnique(ccc, StableSort(ccc, a), StableSort(ccc, b));
  }

  lemma SwapOfClass(ccc: Classes, p: seq<Cp>, x: Cp, y: Cp, q: seq<Cp>, k: nat)
    requires ClassOf(ccc, x) != ClassOf(ccc, y)
    ensures OfClass(ccc, p + [x, y] + q, k) == OfClass(ccc, p + [y, x] + q, k)
  {
    hide OfClass;
    OfClassConcat(ccc, p + [x, y], q, k);
    OfClassConcat(ccc, p + [y, x], q, k);
    OfClassConcat(ccc, p, [x, y], k);
    OfClassConcat(ccc, p, [y, x], k);
    PairOfClass(ccc, x, y, k);
    PairOfClass(ccc, y, x, k);
  }

  lemma PairOfClass(ccc: Classes, x: Cp, y: Cp, k: nat)
    ensures OfClass(ccc, [x, y], k) ==
      (if ClassOf(ccc, x) == k then [x] else []) + (if ClassOf(ccc, y) == k then [y] else [])
  {
    hide OfClass;
    assert [x, y] == [x] + [y];
    OfClassConcat(ccc, [x], [y], k);
    OfClassOne(ccc, x, k);
    OfClassOne(ccc, y, k);
  }

  /** Two marks of one class may not change places without changing the normal form. */
  lemma SortSwapIff(ccc: Classes, p: seq<Cp>, x: Cp, y: Cp, q: seq<Cp>)
    ensures StableSort(ccc, p + [x, y] + q) == StableSort(ccc, p + [y, x] + q) <==>
      x == y || ClassOf(ccc, x) != ClassOf(ccc, y)
  {
    var k := ClassOf(ccc, x);
    if k != ClassOf(ccc, y) {
      SortBySwap(ccc, p, x, y, q);
    } else if StableSort(ccc, p + [x, y] + q) == StableSort(ccc, p + [y, x] + q) {
      StableSortOfClass(ccc, p + [x, y] + q, k);
      StableSortOfClass(ccc, p + [y, x] + q, k);
      SameClassPair(ccc, p, x, y, q, k);
      SameClassPair(ccc, p, y, x, q, k);
      var n := |OfClass(ccc, p, k)|;
      assert OfClass(ccc, p + [x, y] + q, k)[n] == x && OfClass(ccc, p + [y, x] + q, k)[n] == y;
    }
  }

  lemma SameClassPair(ccc: Classes, p: seq<Cp>, x: Cp, y: Cp, q: seq<Cp>, k: nat)
    requires ClassOf(ccc, x) == ClassOf(ccc, y) == k
    ensures OfClass(ccc, p + [x, y] + q, k) == OfClass(ccc, p, k) + [x, y] + OfClass(ccc, q, k)
  {
    OfClassConcat(ccc, p + [x, y], q, k);
    OfClassConcat(ccc, p, [x, y], k);
    assert [x, y] == [x] + [y];
    OfClassConcat(ccc, [x], [y], k);
    OfClassOne(ccc, x, k);
    OfClassOne(ccc, y, k);
  }

  lemma RunLengthThrough(ccc: Classes, a: seq<Item>, b: seq<Item>)
    requires forall i :: 0 <= i < |a| ==> MarkItem(ccc, a[i])
    ensures RunLength(ccc, a + b) == |a| + RunLength(ccc, b)
  {
    var n := |a| + RunLength(ccc, b);
    forall i | 0 <= i < n
      ensures MarkItem(ccc, (a + b)[i])
    {
      if i >= |a| {
        assert (a + b)[i] == b[i - |a|];
      }
    }
    assert n < |a + b| ==> (a + b)[n] == b[n - |a|];
    RunLengthIs(ccc, a + b, n);
  }

  lemma CutInside<T>(a: seq<T>, b: seq<T>, m: nat)
    requires m <= |b|
    ensures (a + b)[|a| + m..] == b[m..] && (a + b)[..|a| + m] == a + b[..m]
  {
  }

  lemma {:induction false} CpsConcat(a: seq<Item>, b: seq<Item>)
    requires (forall it :: it in a ==> it.Char?) && (forall it :: it in b ==> it.Char?)
    ensures Cps(a + b) == Cps(a) + Cps(b)
  {
    hide Cps;
    forall i | 0 <= i < |a| + |b|
      ensures Cps(a + b)[i] == (Cps(a) + Cps(b))[i]
    {
    }
  }

  /** a is all marks: then its run continues into b. */
  lemma RunThrough(ccc: Classes, a: seq<Item>, b: seq<Item>)
    requires forall i :: 0 <= i < |a| ==> MarkItem(ccc, a[i])
    ensures forall it :: it in a ==> it.Char?
    ensures Run(ccc, a + b) == Cps(a) + Run(ccc, b) && AfterRun(ccc, a + b) == AfterRun(ccc, b)
  {
    hide RunLength, Cps, IsMark;
    RunLengthThrough(ccc, a, b);
    var n, m := |a| + RunLength(ccc, b), RunLength(ccc, b);
    CutInside(a, b, m);
    CpsConcat(a, b[..m]);
  }

  /** Swapping two neighbouring marks of different classes, anywhere in any text, leaves
      the normal form unchanged. */
  lemma {:induction false} SwapKeepsNorm(ccc: Classes, p: seq<Item>, x: Item, y: Item, q: seq<Item>)
    requires Swappable(ccc, x, y)
    ensures Norm(ccc, p + [x, y] + q) == Norm(ccc, p + [y, x] + q)
    decreases |p|
  {
    Associates(p, [x, y], q);
    Associates(p, [y, x], q);
    if RunLength(ccc, p) == |p| {
      SwapInFirstRun(ccc, p, x, y, q);
    } else {
      hide Norm, FirstPart, Later, RunLength;
      FirstPartOf(ccc, p, [x, y] + q);
      FirstPartOf(ccc, p, [y, x] + q);
      NormSplits(ccc, p + ([x, y] + q));
      NormSplits(ccc, p + ([y, x] + q));
      var r := Later(ccc, p);
      SwapKeepsNorm(ccc, r, x, y, q);
      Associates(r, [x, y], q);
      Associates(r, [y, x], q);
    }
  }

  lemma SwapInFirstRun(ccc: Classes, p: seq<Item>, x: Item, y: Item, q: seq<Item>)
    requires Swappable(ccc, x, y) && RunLength(ccc, p) == |p|
    ensures Norm(ccc, p + ([x, y] + q)) == Norm(ccc, p + ([y, x] + q))
  {
    hide StableSort, Run, AfterRun, RunLength;
    RunOfPair(ccc, p, x, y, q);
    RunOfPair(ccc, p, y, x, q);
    SortBySwap(ccc, Cps(p), x.cp, y.cp, Run(ccc, q));
  }

  lemma RunOfPair(ccc: Classes, p: seq<Item>, x: Item, y: Item, q: seq<Item>)
    requires MarkItem(ccc, x) && MarkItem(ccc, y) && RunLength(ccc, p) == |p|
    ensures forall it :: it in p ==> it.Char?
    ensures Run(ccc, p + ([x, y] + q)) == Cps(p) + [x.cp, y.cp] + Run(ccc, q)
    ensures AfterRun(ccc, p + ([x, y] + q)) == AfterRun(ccc, q)
  {
    assert forall i :: 0 <= i < |p| ==> MarkItem(ccc, p[i]);
    hide Run, AfterRun, RunLength;
    RunThrough(ccc, p, [x, y] + q);
    RunThrough(ccc, [x, y], q);
    assert Cps([x, y]) == [x.cp, y.cp];
    assert Cps(p) + ([x.cp, y.cp] + Run(ccc, q)) == Cps(p) + [x.cp, y.cp] + Run(ccc, q);
  }

  // ---- the normal form decides canonical equivalence ---------------------

  function SwapAt(a: seq<Item>, i: nat): seq<Item>
    requires i + 1 < |a|
  {
    a[..i] + [a[i + 1], a[i]] + a[i + 2..]
  }

  /** path lists allowed swaps that turn a into b. */
  ghost predicate Reorders(ccc: Classes, a: seq<Item>, b: seq<Item>, path: seq<nat>)
    decreases |path|
  {
    if path == [] then a == b
    else
      var i := path[0];
      i + 1 < |a| && Swappable(ccc, a[i], a[i + 1]) && Reorders(ccc, SwapAt(a, i), b, path[1..])
  }

  /** a and b differ only in the order of neighbouring marks of different classes. */
  ghost predicate Equivalent(ccc: Classes, a: seq<Item>, b: seq<Item>) {
    exists path :: Reorders(ccc, a, b, path)
  }

  lemma {:induction false} ReordersNorm(ccc: Classes, a: seq<Item>, b: seq<Item>, path: seq<nat>)
    requires Reorders(ccc, a, b, path)
    ensures Norm(ccc, a) == Norm(ccc, b)
    decreases |path|
  {
    hide Norm;
    if path != [] {
      var i := path[0];
      SwapKeepsNorm(ccc, a[..i], a[i], a[i + 1], a[i + 2..]);
      assert a == a[..i] + [a[i], a[i + 1]] + a[i + 2..];
      ReordersNorm(ccc, SwapAt(a, i), b, path[1..]);
    }
  }

  lemma {:induction false} ReordersThen(ccc: Classes, a: seq<Item>, b: seq<Item>, c: seq<Item>, p: seq<nat>, q: seq<nat>)
    requires Reorders(ccc, a, b, p) && Reorders(ccc, b, c, q)
    ensures Reorders(ccc, a, c, p + q)
    decreases |p|
  {
    if p == [] {
      assert p + q == q;
    } else {
      ReordersThen(ccc, SwapAt(a, p[0]), b, c, p[1..], q);
      assert (p + q)[1..] == p[1..] + q;
    }
  }

  lemma {:induction false} ReordersBack(ccc: Classes, a: seq<Item>, b: seq<Item>, p: seq<nat>) returns (q: seq<nat>)
    requires Reorders(ccc, a, b, p)
    ensures Reorders(ccc, b, a, q)
    decreases |p|
  {
    if p == [] {
      q := [];
    } else {
      var i := p[0];
      var c := SwapAt(a, i);
      var r := ReordersBack(ccc, c, b, p[1..]);
      assert SwapAt(c, i) == a;
      ReordersStep(ccc, c, a, i, []);
      assert [i] + [] == [i];
      ReordersThen(ccc, b, c, a, r, [i]);
      q := r + [i];
    }
  }

  /** Swaps inside a text remain swaps when the text is surrounded. */
  lemma {:induction false} ReordersInside(ccc: Classes, l: seq<Item>, a: seq<Item>, b: seq<Item>, r: seq<Item>, p: seq<nat>)
    returns (q: seq<nat>)
    requires Reorders(ccc, a, b, p)
    ensures Reorders(ccc, l + a + r, l + b + r, q)
    decreases |p|
  {
    if p == [] {
      q := [];
    } else {
      var i := p[0];
      var rest := ReordersInside(ccc, l, SwapAt(a, i), b, r, p[1..]);
      var whole, j := l + a + r, |l| + i;
      assert whole[j] == a[i] && whole[j + 1] == a[i + 1];
      assert SwapAt(whole, j) == l + SwapAt(a, i) + r;
      q := [j] + rest;
      ReordersStep(ccc, whole, l + b + r, j, rest);
    }
  }

  function Items(s: seq<Cp>): (r: seq<Item>)
    ensures |r| == |s| && forall i :: 0 <= i < |s| ==> r[i] == Char(s[i])
  {
    seq(|s|, i requires 0 <= i < |s| => Char(s[i]))
  }

  lemma ItemsSnoc(s: seq<Cp>, c: Cp)
    ensures Items(s + [c]) == [] + Items(s) + [Char(c)]
  {
  }

  lemma ReordersStep(ccc: Classes, a: seq<Item>, b: seq<Item>, i: nat, rest: seq<nat>)
    requires i + 1 < |a| && Swappable(ccc, a[i], a[i + 1]) && Reorders(ccc, SwapAt(a, i), b, rest)
    ensures Reorders(ccc, a, b, [i] + rest)
  {
    assert ([i] + rest)[1..] == rest;
  }

  lemma SwapLast(front: seq<Cp>, x: Cp, y: Cp)
    ensures var a := Items(front + [x, y]);
      a[|front|] == Char(x) && a[|front| + 1] == Char(y) && SwapAt(a, |front|) == [] + Items(front + [y]) + [Char(x)]
  {
  }

  lemma {:induction false} InsertPath(ccc: Classes, run: seq<Cp>, c: Cp) returns (path: seq<nat>)
    requires IsMark(ccc, c) && forall x :: x in run ==> IsMark(ccc, x)
    ensures Reorders(ccc, Items(run + [c]), Items(Insert(ccc, run, c)), path)
    decreases |run|
  {
    hide Items;
    if run != [] && ClassOf(ccc, run[|run| - 1]) > ClassOf(ccc, c) {
      var n := |run| - 1;
      var front, last := run[..n], run[n];
      assert last in run;
      assert forall x :: x in front ==> x in run;
      var inner := InsertPath(ccc, front, c);
      path := PassOne(ccc, front, last, c, Insert(ccc, front, c), inner);
      assert run == front + [last];
    } else {
      path := [];
    }
  }

  /** c passes last, and goes on inside the front. */
  lemma PassOne(ccc: Classes, front: seq<Cp>, last: Cp, c: Cp, ins: seq<Cp>, inner: seq<nat>) returns (path: seq<nat>)
    requires IsMark(ccc, c) && IsMark(ccc, last) && ClassOf(ccc, last) > ClassOf(ccc, c)
    requires Reorders(ccc, Items(front + [c]), Items(ins), inner)
    ensures Reorders(ccc, Items(front + [last] + [c]), Items(ins + [last]), path)
  {
    hide Reorders;
    var outer := ReordersInside(ccc, [], Items(front + [c]), Items(ins), [Char(last)], inner);
    ItemsSnoc(ins, last);
    SwapLast(front, last, c);
    assert front + [last] + [c] == front + [last, c];
    ReordersStep(ccc, Items(front + [last, c]), Items(ins + [last]), |front|, outer);
    path := [|front|] + outer;
  }

  lemma SortKeepsMarks(ccc: Classes, run: seq<Cp>)
    requires forall x :: x in run ==> IsMark(ccc, x)
    ensures forall x :: x in StableSort(ccc, run) ==> IsMark(ccc, x)
  {
    StableSortFacts(ccc, run);
    var sorted := StableSort(ccc, run);
    forall x | x in sorted
      ensures IsMark(ccc, x)
    {
      assert x in multiset(sorted);
      assert x in run;
    }
  }

  lemma {:induction false} SortPath(ccc: Classes, run: seq<Cp>) returns (path: seq<nat>)
    requires forall x :: x in run ==> IsMark(ccc, x)
    ensures Reorders(ccc, Items(run), Items(StableSort(ccc, run)), path)
    decreases |run|
  {
    if run == [] {
      path := [];
    } else {
      var n := |run| - 1;
      var front, c := run[..n], run[n];
      assert c in run && forall x :: x in front ==> x in run;
      var p1 := SortPath(ccc, front);
      var sorted := StableSort(ccc, front);
      SortKeepsMarks(ccc, front);
      hide Insert, Reorders;
      var p2 := ReordersInside(ccc, [], Items(front), Items(sorted), [Char(c)], p1);
      assert run == front + [c];
      ItemsSnoc(front, c);
      ItemsSnoc(sorted, c);
      var p3 := InsertPath(ccc, sorted, c);
      ReordersThen(ccc, Items(run), Items(sorted + [c]), Items(StableSort(ccc, run)), p2, p3);
      path := p2 + p3;
    }
  }

  predicate BreakFree(a: seq<Item>) {
    forall i :: 0 <= i < |a| ==> a[i].Char?
  }

  /** Every break-free text is equivalent to its normal form. */
  lemma {:induction false} NormPath(ccc: Classes, a: seq<Item>) returns (path: seq<nat>)
    requires BreakFree(a)
    ensures Reorders(ccc, a, Items(Norm(ccc, a)), path)
    decreases |a|
  {
    hide Reorders, StableSort, Norm;
    var p2 := SortFirstRun(ccc, a);
    var sorted, n := Items(StableSort(ccc, Run(ccc, a))), RunLength(ccc, a);
    if n == |a| {
      assert sorted + a[n..] == sorted;
      OneRunNorm(ccc, a);
      path := p2;
    } else {
      var later := Later(ccc, a);
      var p3 := NormPath(ccc, later);
      var head := sorted + [a[n]];
      var p4 := ReordersInside(ccc, head, later, Items(Norm(ccc, later)), [], p3);
      assert sorted + a[n..] == head + later + [];
      NormSplits(ccc, a);
      assert Items(Norm(ccc, a)) == head + Items(Norm(ccc, later)) + [];
      ReordersThen(ccc, a, head + later + [], Items(Norm(ccc, a)), p2, p4);
      path := p2 + p4;
    }
  }

  lemma SortFirstRun(ccc: Classes, a: seq<Item>) returns (path: seq<nat>)
    requires BreakFree(a)
    ensures Reorders(ccc, a, Items(StableSort(ccc, Run(ccc, a))) + a[RunLength(ccc, a)..], path)
  {
    hide Reorders, StableSort;
    var run, rest := Run(ccc, a), a[RunLength(ccc, a)..];
    assert forall x :: x in run ==> IsMark(ccc, x);
    var p1 := SortPath(ccc, run);
    var sorted := Items(StableSort(ccc, run));
    assert a == [] + Items(run) + rest;
    assert [] + sorted + rest == sorted + rest;
    path := ReordersInside(ccc, [], Items(run), sorted, rest, p1);
  }

  /** Two break-free texts have the same normal form exactly when one can be turned into
      the other by swapping neighbouring marks of different classes. */
  lemma NormDecidesEquivalence(ccc: Classes, a: seq<Item>, b: seq<Item>)
    requires BreakFree(a) && BreakFree(b)
    ensures Norm(ccc, a) == Norm(ccc, b) <==> Equivalent(ccc, a, b)
  {
    hide Norm, Reorders;
    if Equivalent(ccc, a, b) {
      var path :| Reorders(ccc, a, b, path);
      ReordersNorm(ccc, a, b, path);
    }
    if Norm(ccc, a) == Norm(ccc, b) {
      var p := NormPath(ccc, a);
      var q := NormPath(ccc, b);
      var r := ReordersBack(ccc, b, Items(Norm(ccc, b)), q);
      ReordersThen(ccc, a, Items(Norm(ccc, a)), b, p, r);
    }
  }

  /** A normal form is its own normal form. */
  lemma NormIdempotent(ccc: Classes, a: seq<Item>)
    requires BreakFree(a)
    ensures Norm(ccc, Items(Norm(ccc, a))) == Norm(ccc, a)
  {
    hide Norm, Reorders;
    var p := NormPath(ccc, a);
    ReordersNorm(ccc, a, Items(Norm(ccc, a)), p);
  }
}
