/** Canonical order without a buffer: the kernel's scanner reads a run of marks once per
    class present and emits one class a pass. The scanner's state is seen here as the
    items ahead of it, the items from the start of the run, and the two class registers;
    each step keeps what is left to yield. A name that breaks off in a malformed sequence
    ends the scan there, whatever pass it is in. */
module ClassPasses {
  import opened CanonicalOrder
  import opened Normalizer

  const MAXCCC: nat := 254
  const STOPPER: int := 0
  const PRESCAN: int := -1
  const NO_MORE: int := 255

  /** The table holds a class in a byte. */
  ghost predicate ByteClasses(ccc: Classes) {
    forall c :: ClassOf(ccc, c) <= 255
  }

  /** The members of class k, then of each higher class. */
  ghost function ByClass(ccc: Classes, run: seq<Cp>, k: nat): seq<Cp>
    decreases MAXCCC + 1 - k
  {
    if k > MAXCCC then [] else OfClass(ccc, run, k) + ByClass(ccc, run, k + 1)
  }

  lemma {:induction false} ByClassFacts(ccc: Classes, run: seq<Cp>, k: nat)
    ensures Ordered(ccc, ByClass(ccc, run, k))
    ensures forall i :: 0 <= i < |ByClass(ccc, run, k)| ==> ClassOf(ccc, ByClass(ccc, run, k)[i]) >= k
    decreases MAXCCC + 1 - k
  {
    hide OfClass, ClassOf;
    if k <= MAXCCC {
      ByClassFacts(ccc, run, k + 1);
      var now := OfClass(ccc, run, k);
      forall i | 0 <= i < |now|
        ensures ClassOf(ccc, now[i]) == k
      {
        OfClassMember(ccc, run, k, now[i]);
      }
    }
  }

  lemma {:induction false} OfClassTwice(ccc: Classes, run: seq<Cp>, k: nat, j: nat)
    ensures OfClass(ccc, OfClass(ccc, run, k), j) == if j == k then OfClass(ccc, run, k) else []
  {
    if run != [] {
      var n := |run| - 1;
      OfClassTwice(ccc, run[..n], k, j);
      OfClassConcat(ccc, OfClass(ccc, run[..n], k), if ClassOf(ccc, run[n]) == k then [run[n]] else [], j);
      OfClassOne(ccc, run[n], j);
    }
  }

  lemma {:induction false} ByClassOfClass(ccc: Classes, run: seq<Cp>, k: nat, j: nat)
    ensures OfClass(ccc, ByClass(ccc, run, k), j) == if k <= j <= MAXCCC then OfClass(ccc, run, j) else []
    decreases MAXCCC + 1 - k
  {
    hide OfClass;
    if k > MAXCCC {
      EmptyOfClass(ccc, j);
    } else {
      OfClassConcat(ccc, OfClass(ccc, run, k), ByClass(ccc, run, k + 1), j);
      OfClassTwice(ccc, run, k, j);
      ByClassOfClass(ccc, run, k + 1, j);
    }
  }

  lemma EmptyOfClass(ccc: Classes, j: nat)
    ensures OfClass(ccc, [], j) == []
  {
  }

  lemma NoneOfClass(ccc: Classes, run: seq<Cp>, j: nat)
    requires forall c :: c in run ==> ClassOf(ccc, c) != j
    ensures OfClass(ccc, run, j) == []
  {
    hide OfClass, ClassOf;
    var r := OfClass(ccc, run, j);
    if r != [] {
      OfClassMember(ccc, run, j, r[0]);
    }
  }

  /** One pass per class, lowest first, is the stable sort, up to the highest class there is
      a pass for. */
  lemma PassesSort(ccc: Classes, run: seq<Cp>)
    requires AllMarks(ccc, run) && forall c :: c in run ==> ClassOf(ccc, c) <= MAXCCC
    ensures ByClass(ccc, run, 1) == StableSort(ccc, run)
  {
    hide StableSort, ByClass, OfClass;
    ByClassFacts(ccc, run, 1);
    StableSortFacts(ccc, run);
    forall j: nat
      ensures OfClass(ccc, ByClass(ccc, run, 1), j) == OfClass(ccc, StableSort(ccc, run), j)
    {
      ByClassOfClass(ccc, run, 1, j);
      StableSortOfClass(ccc, run, j);
      if !(1 <= j <= MAXCCC) {
        NoneOfClass(ccc, run, j);
      }
    }
    OrderedUnique(ccc, ByClass(ccc, run, 1), StableSort(ccc, run));
  }

  /** Classes absent from the run cost nothing. */
  lemma {:induction false} SkipAbsent(ccc: Classes, run: seq<Cp>, k: nat, n: nat)
    requires k <= n <= MAXCCC + 1
    requires forall c :: c in run ==> ClassOf(ccc, c) < k || n <= ClassOf(ccc, c)
    ensures ByClass(ccc, run, k) == ByClass(ccc, run, n)
    decreases n - k
  {
    hide OfClass, ClassOf;
    if k < n {
      NoneOfClass(ccc, run, k);
      SkipAbsent(ccc, run, k + 1, n);
    }
  }

  // ---- what the passes yield ---------------------------------------------

  /** Each run class by class, starters kept, breaks dropped. If the name is cut off behind
      these items, a run that reaches the cut is never gone back to. */
  ghost function Yield(ccc: Classes, items: seq<Item>, cut: bool): seq<Cp>
    decreases |items|
  {
    var rest := AfterRun(ccc, items);
    if cut && rest == [] then [] else ByClass(ccc, Run(ccc, items), 1) + AfterYield(ccc, rest, cut)
  }

  ghost function AfterYield(ccc: Classes, items: seq<Item>, cut: bool): seq<Cp>
    requires items != [] ==> !MarkItem(ccc, items[0])
    decreases |items|, -1
  {
    if items == [] then []
    else (if items[0].Char? then [items[0].cp] else []) + Yield(ccc, items[1..], cut)
  }

  lemma {:induction false} ByClassNone(ccc: Classes, k: nat)
    ensures ByClass(ccc, [], k) == []
    decreases MAXCCC + 1 - k
  {
    hide OfClass;
    if k <= MAXCCC {
      EmptyOfClass(ccc, k);
      ByClassNone(ccc, k + 1);
    }
  }

  lemma YieldNoRun(ccc: Classes, b: seq<Item>, cut: bool)
    requires b == [] || !MarkItem(ccc, b[0])
    ensures Yield(ccc, b, cut) == AfterYield(ccc, b, cut)
  {
    hide ByClass, Run, AfterRun;
    NoRun(ccc, b);
    ByClassNone(ccc, 1);
  }

  /** What is yielded has a class there is a pass for, or none. */
  lemma {:induction false} YieldedClass(ccc: Classes, items: seq<Item>, cut: bool, c: Cp)
    requires c in Yield(ccc, items, cut)
    ensures ClassOf(ccc, c) <= MAXCCC
    decreases |items|
  {
    hide Run, AfterRun, ByClass, ClassOf;
    var rest := AfterRun(ccc, items);
    if c in ByClass(ccc, Run(ccc, items), 1) {
      ByClassMember(ccc, Run(ccc, items), 1, c);
    } else if rest[0].Char? && c == rest[0].cp {
      StarterClass(ccc, c);
    } else {
      YieldedClass(ccc, rest[1..], cut, c);
    }
  }

  lemma StarterClass(ccc: Classes, c: Cp)
    requires !IsMark(ccc, c)
    ensures ClassOf(ccc, c) == 0
  {
  }

  lemma {:induction false} ByClassMember(ccc: Classes, run: seq<Cp>, k: nat, c: Cp)
    requires c in ByClass(ccc, run, k)
    ensures c in run && ClassOf(ccc, c) <= MAXCCC
    decreases MAXCCC + 1 - k
  {
    hide OfClass, ClassOf;
    if c in OfClass(ccc, run, k) {
      OfClassMember(ccc, run, k, c);
    } else {
      ByClassMember(ccc, run, k + 1, c);
    }
  }

  /** No character of items is of a class above the passes. */
  ghost predicate Passable(ccc: Classes, items: seq<Item>) {
    forall c :: Char(c) in items ==> ClassOf(ccc, c) <= MAXCCC
  }

  lemma {:induction false} PassableIsNorm(ccc: Classes, items: seq<Item>)
    requires Passable(ccc, items)
    ensures Yield(ccc, items, false) == Norm(ccc, items)
    decreases |items|
  {
    hide Run, AfterRun, ByClass, StableSort, ClassOf;
    var run, rest := Run(ccc, items), AfterRun(ccc, items);
    PartsOfRun(ccc, items);
    forall c | c in run
      ensures ClassOf(ccc, c) <= MAXCCC
    {
      assert Char(c) in items;
    }
    PassesSort(ccc, run);
    if rest != [] {
      PassableIsNorm(ccc, rest[1..]);
    }
  }

  lemma PartsOfRun(ccc: Classes, items: seq<Item>)
    ensures AllMarks(ccc, Run(ccc, items))
    ensures forall c :: c in Run(ccc, items) ==> Char(c) in items
    ensures forall it :: it in AfterRun(ccc, items) ==> it in items
  {
    hide Cps, RunLength;
    var run := Run(ccc, items);
    forall c | c in run
      ensures Char(c) in items
    {
      var i :| 0 <= i < |run| && run[i] == c;
      assert items[i] == Char(c);
    }
  }

  lemma {:induction false} CharsHave(items: seq<Item>, c: Cp)
    ensures c in Chars(items) <==> Char(c) in items
  {
    if items != [] {
      CharsHave(items[1..], c);
      assert items == [items[0]] + items[1..];
    }
  }

  /** Passes give the normal form exactly when no character has a class above 254: the
      registers take such a class for "no class left", and the mark is dropped. */
  lemma YieldIsNormIff(ccc: Classes, items: seq<Item>)
    ensures Yield(ccc, items, false) == Norm(ccc, items) <==> Passable(ccc, items)
  {
    hide Yield, Norm, ClassOf;
    if Passable(ccc, items) {
      PassableIsNorm(ccc, items);
    } else {
      var c :| Char(c) in items && ClassOf(ccc, c) > MAXCCC;
      NormIsPermutation(ccc, items);
      CharsHave(items, c);
      assert c in multiset(Chars(items));
      assert c in Norm(ccc, items);
      if c in Yield(ccc, items, false) {
        YieldedClass(ccc, items, false, c);
      }
    }
  }

  /** The items up to the last that is not a mark. */
  function Settled(ccc: Classes, items: seq<Item>): seq<Item> {
    if items == [] || !MarkItem(ccc, items[|items| - 1]) then items else Settled(ccc, items[..|items| - 1])
  }

  lemma {:induction false} SettledSplits(ccc: Classes, a: seq<Item>, b: seq<Item>)
    requires a != [] && !MarkItem(ccc, a[|a| - 1])
    ensures Settled(ccc, a + b) == a + Settled(ccc, b)
  {
    if b == [] {
      assert a + b == a;
    } else if MarkItem(ccc, b[|b| - 1]) {
      assert (a + b)[..|a + b| - 1] == a + b[..|b| - 1];
      SettledSplits(ccc, a, b[..|b| - 1]);
    }
  }

  lemma {:induction false} SettledOfMarks(ccc: Classes, items: seq<Item>)
    requires forall it :: it in items ==> MarkItem(ccc, it)
    ensures Settled(ccc, items) == []
  {
    if items != [] {
      SettledOfMarks(ccc, items[..|items| - 1]);
    }
  }

  /** A name that is cut off yields what it holds up to its last starter or ignorable. */
  lemma {:induction false} CutYield(ccc: Classes, items: seq<Item>)
    ensures Yield(ccc, items, true) == Yield(ccc, Settled(ccc, items), false)
    decreases |items|
  {
    hide Run, AfterRun, ByClass, Settled, MarkItem;
    var n := RunLength(ccc, items);
    if n == |items| {
      SettledOfMarks(ccc, items);
      YieldNoRun(ccc, [], false);
      WholeRun(ccc, items);
    } else {
      var a, b := items[..n + 1], items[n + 1..];
      assert items == a + b;
      SettledSplits(ccc, a, b);
      CutYield(ccc, b);
      RunThenMore(ccc, a, b);
      RunThenMore(ccc, a, Settled(ccc, b));
    }
  }

  lemma WholeRun(ccc: Classes, items: seq<Item>)
    requires RunLength(ccc, items) == |items|
    ensures AfterRun(ccc, items) == []
  {
    hide RunLength;
  }

  lemma RunThenMore(ccc: Classes, a: seq<Item>, b: seq<Item>)
    requires a != [] && RunLength(ccc, a) == |a| - 1
    ensures Run(ccc, a + b) == Run(ccc, a) && AfterRun(ccc, a + b) == [a[|a| - 1]] + b
  {
    var n := |a| - 1;
    RunLengthIs(ccc, a + b, n);
    hide RunLength;
    assert (a + b)[..n] == a[..n];
    assert (a + b)[n..] == [a[n]] + b;
  }

  // ---- the scanner's state -----------------------------------------------

  /** ahead: what the scan reads next; start: the same from the start of the run; done:
      the marks in between; cls, next: the class being emitted and the lowest class above
      it seen in this pass; cut: whether the name is cut off behind the items. */
  datatype View = View(ahead: seq<Item>, start: seq<Item>, done: seq<Cp>, cls: int, next: int, cut: bool)

  ghost predicate Idle(v: View) {
    v.cls == STOPPER && v.next == STOPPER
  }

  ghost predicate Good(ccc: Classes, v: View) {
    Idle(v) || Scanning(ccc, v)
  }

  ghost predicate Scanning(ccc: Classes, v: View) {
    && v.start == Items(v.done) + v.ahead
    && AllMarks(ccc, v.done)
    && v.start != [] && MarkItem(ccc, v.start[0])
    && (v.cls == PRESCAN || 1 <= v.cls <= MAXCCC)
    && (v.cut && v.cls != PRESCAN ==> AfterRun(ccc, v.start) != [])
    && (if v.cls == PRESCAN then 1 else v.cls + 1) <= v.next <= NO_MORE
    && Seen(ccc, v.done, v.cls, v.next)
  }

  /** No mark of done has a class strictly between cls and next. */
  ghost predicate Seen(ccc: Classes, done: seq<Cp>, cls: int, next: int) {
    forall c :: c in done ==> ClassOf(ccc, c) <= cls || next <= ClassOf(ccc, c)
  }

  /** What is left to yield. */
  ghost function Left(ccc: Classes, v: View): seq<Cp> {
    if v.cls == STOPPER then Yield(ccc, v.ahead, v.cut)
    else if v.cls <= 0 then Yield(ccc, v.start, v.cut)
    else Emitting(ccc, v.ahead, v.start, v.cls, v.cut)
  }

  ghost function Emitting(ccc: Classes, ahead: seq<Item>, start: seq<Item>, k: nat, cut: bool): seq<Cp> {
    OfClass(ccc, Run(ccc, ahead), k) + ByClass(ccc, Run(ccc, start), k + 1) + AfterYield(ccc, AfterRun(ccc, start), cut)
  }

  predicate Stops(ccc: Classes, ahead: seq<Item>) {
    ahead == [] || !MarkItem(ccc, ahead[0])
  }

  // ---- its steps ---------------------------------------------------------

  lemma IdleEnd(ccc: Classes, cut: bool)
    ensures Yield(ccc, [], cut) == []
  {
    YieldNoRun(ccc, [], cut);
  }

  lemma IdleStarter(ccc: Classes, it: Item, rest: seq<Item>, cut: bool)
    requires !MarkItem(ccc, it)
    ensures Yield(ccc, [it] + rest, cut) == (if it.Char? then [it.cp] else []) + Yield(ccc, rest, cut)
  {
    hide Yield;
    YieldNoRun(ccc, [it] + rest, cut);
    assert ([it] + rest)[1..] == rest;
  }

  /** At a cut nothing more comes. */
  lemma AtCut(ccc: Classes, v: View)
    requires Good(ccc, v) && v.ahead == [] && v.cut
    ensures Left(ccc, v) == []
  {
    hide Run, AfterRun, ByClass, OfClass;
    if v.cls == STOPPER {
      IdleEnd(ccc, true);
    } else {
      RunIsDone(ccc, v);
    }
  }

  /** An idle scan meets a mark: note its class and remember the place. */
  lemma EnterRun(ccc: Classes, v: View, c: Cp, rest: seq<Item>)
    requires ByteClasses(ccc) && Idle(v) && v.ahead == [Char(c)] + rest && IsMark(ccc, c)
    ensures var w := View(rest, v.ahead, [c], PRESCAN, ClassOf(ccc, c), v.cut);
      Scanning(ccc, w) && Left(ccc, w) == Left(ccc, v)
  {
    hide Yield;
    assert Items([c]) + rest == v.ahead;
  }

  /** The next register after a mark of class k. */
  function Noted(cls: int, next: int, k: int): int {
    if cls < k && k < next then k else next
  }

  /** A scan passes over a mark it does not emit. */
  lemma PassMark(ccc: Classes, v: View, c: Cp, rest: seq<Item>)
    requires ByteClasses(ccc) && Scanning(ccc, v) && v.ahead == [Char(c)] + rest && IsMark(ccc, c)
    requires ClassOf(ccc, c) != v.cls
    ensures var w := View(rest, v.start, v.done + [c], v.cls, Noted(v.cls, v.next, ClassOf(ccc, c)), v.cut);
      Scanning(ccc, w) && Left(ccc, w) == Left(ccc, v)
  {
    hide Yield, ByClass, Run, AfterRun, OfClass, AfterYield, Seen;
    var w := View(rest, v.start, v.done + [c], v.cls, Noted(v.cls, v.next, ClassOf(ccc, c)), v.cut);
    DoneGrows(v.done, c, rest);
    SeenGrows(ccc, v.done, v.cls, v.next, c);
    assert ByteClasses(ccc) && ClassOf(ccc, c) <= 255;
    if v.cls != PRESCAN {
      OfClassAhead(ccc, c, rest, v.cls);
      assert OfClass(ccc, Run(ccc, rest), v.cls) == OfClass(ccc, Run(ccc, v.ahead), v.cls);
    }
  }

  lemma DoneGrows(done: seq<Cp>, c: Cp, rest: seq<Item>)
    ensures Items(done + [c]) + rest == Items(done) + ([Char(c)] + rest)
  {
  }

  lemma SeenGrows(ccc: Classes, done: seq<Cp>, cls: int, next: int, c: Cp)
    requires Seen(ccc, done, cls, next)
    ensures Seen(ccc, done + [c], cls, Noted(cls, next, ClassOf(ccc, c)))
  {
    hide ClassOf;
  }

  lemma OfClassAhead(ccc: Classes, c: Cp, rest: seq<Item>, k: nat)
    requires IsMark(ccc, c)
    ensures OfClass(ccc, Run(ccc, [Char(c)] + rest), k) ==
      (if ClassOf(ccc, c) == k then [c] else []) + OfClass(ccc, Run(ccc, rest), k)
  {
    hide OfClass, Run, AfterRun;
    var ahead := [Char(c)] + rest;
    RunThrough(ccc, [Char(c)], rest);
    assert Cps([Char(c)]) == [c];
    OfClassConcat(ccc, [c], Run(ccc, rest), k);
    OfClassOne(ccc, c, k);
  }

  /** A scan emits a mark of its class. */
  lemma EmitMark(ccc: Classes, v: View, c: Cp, rest: seq<Item>)
    requires Scanning(ccc, v) && v.ahead == [Char(c)] + rest && IsMark(ccc, c) && ClassOf(ccc, c) == v.cls
    ensures var w := View(rest, v.start, v.done + [c], v.cls, v.next, v.cut);
      Scanning(ccc, w) && Left(ccc, v) == [c] + Left(ccc, w)
  {
    hide Yield, ByClass, Run, AfterRun, OfClass, AfterYield, Seen;
    DoneGrows(v.done, c, rest);
    SeenGrows(ccc, v.done, v.cls, v.next, c);
    OfClassAhead(ccc, c, rest, v.cls);
    var b, t := ByClass(ccc, Run(ccc, v.start), v.cls + 1), AfterYield(ccc, AfterRun(ccc, v.start), v.cut);
    var o := OfClass(ccc, Run(ccc, rest), v.cls);
    assert ([c] + o) + b + t == [c] + (o + b + t);
  }

  /** The run of start is the marks passed, when the scan has come to its end. */
  lemma RunIsDone(ccc: Classes, v: View)
    requires Scanning(ccc, v) && Stops(ccc, v.ahead)
    ensures Run(ccc, v.start) == v.done && AfterRun(ccc, v.start) == v.ahead && v.done != []
  {
    hide Run, AfterRun;
    RunOfMarks(ccc, v.done, v.ahead);
    NothingDone(v.ahead);
  }

  /** The end of a pass that has seen a higher class: go back and emit that class. */
  lemma NextPass(ccc: Classes, v: View)
    requires Scanning(ccc, v) && Stops(ccc, v.ahead) && v.next != NO_MORE && (v.cut ==> v.ahead != [])
    ensures var w := View(v.start, v.start, [], v.next, NO_MORE, v.cut);
      Scanning(ccc, w) && Left(ccc, w) == Left(ccc, v)
  {
    hide ByClass, Run, AfterRun, OfClass, AfterYield, Yield, Emitting, Items, Stops;
    RunIsDone(ccc, v);
    NothingDone(v.start);
    LeftAtEnd(ccc, v);
    EmittingAll(ccc, v.start, v.next, v.cut);
  }

  lemma EmittingAll(ccc: Classes, start: seq<Item>, k: nat, cut: bool)
    requires k <= MAXCCC
    ensures Emitting(ccc, start, start, k, cut) ==
      ByClass(ccc, Run(ccc, start), k) + AfterYield(ccc, AfterRun(ccc, start), cut)
  {
    hide ByClass, Run, AfterRun, OfClass, AfterYield;
    ByClassUnfolds(ccc, Run(ccc, start), k);
  }

  /** At the end of a pass, the classes from next up and what follows the run are left. */
  lemma LeftAtEnd(ccc: Classes, v: View)
    requires Scanning(ccc, v) && Stops(ccc, v.ahead) && (v.cut ==> v.ahead != [])
    ensures Left(ccc, v) == ByClass(ccc, v.done, v.next) + AfterYield(ccc, v.ahead, v.cut)
  {
    hide ByClass, Run, AfterRun, OfClass, AfterYield;
    RunIsDone(ccc, v);
    if v.cls == PRESCAN {
      SkipAbsent(ccc, v.done, 1, v.next);
    } else {
      NoRun(ccc, v.ahead);
      EmptyOfClass(ccc, v.cls);
      SkipAbsent(ccc, v.done, v.cls + 1, v.next);
    }
  }

  lemma NothingDone(start: seq<Item>)
    ensures Items([]) + start == start
  {
  }

  lemma ByClassUnfolds(ccc: Classes, run: seq<Cp>, k: nat)
    requires k <= MAXCCC
    ensures ByClass(ccc, run, k) == OfClass(ccc, run, k) + ByClass(ccc, run, k + 1)
  {
  }

  /** The end of a pass with no higher class: the run is out, the scan goes on behind it. */
  lemma LastPass(ccc: Classes, v: View)
    requires Scanning(ccc, v) && Stops(ccc, v.ahead) && v.next == NO_MORE && (v.cut ==> v.ahead != [])
    ensures Left(ccc, v) == Yield(ccc, v.ahead, v.cut) && |v.ahead| < |v.start|
  {
    hide Run, AfterRun, OfClass, AfterYield, Yield;
    RunIsDone(ccc, v);
    YieldNoRun(ccc, v.ahead, v.cut);
    LeftAtEnd(ccc, v);
    assert ByClass(ccc, v.done, NO_MORE) == [];
  }
}
