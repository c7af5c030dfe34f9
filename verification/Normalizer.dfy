/** The generator's mirror of the name reader: expand each code point, then sort each run
    of combining marks by class. `Normalize` is the specification; the method fills an
    output list and a run buffer as the source does. */
module Normalizer {
  import opened CanonicalOrder

  // ---- Hangul ------------------------------------------------------------

  const SBASE: nat := 0xAC00
  const LBASE: nat := 0x1100
  const VBASE: nat := 0x1161
  const TBASE: nat := 0x11A7
  const LCOUNT: nat := 19
  const VCOUNT: nat := 21
  const TCOUNT: nat := 28
  const NCOUNT: nat := VCOUNT * TCOUNT
  const SCOUNT: nat := LCOUNT * NCOUNT

  predicate IsSyllable(cp: Cp) {
    SBASE <= cp < SBASE + SCOUNT
  }

  function HangulDecompose(cp: Cp): (r: seq<Cp>)
    requires IsSyllable(cp)
  {
    var si := cp - SBASE;
    var jamo := [LBASE + si / NCOUNT, VBASE + si % NCOUNT / TCOUNT];
    if si % TCOUNT != 0 then jamo + [TBASE + si % TCOUNT] else jamo
  }

  /** The number of jamo and the idx-th jamo, as the kernel's reader computes them. */
  function JamoCount(cp: Cp): nat
    requires IsSyllable(cp)
  {
    if (cp - SBASE) % TCOUNT == 0 then 2 else 3
  }

  function Jamo(cp: Cp, idx: nat): Cp
    requires IsSyllable(cp)
  {
    var si := cp - SBASE;
    if idx == 0 then LBASE + si / NCOUNT
    else if idx == 1 then VBASE + si % NCOUNT / TCOUNT
    else TBASE + si % TCOUNT
  }

  lemma JamoAgree(cp: Cp)
    requires IsSyllable(cp)
    ensures |HangulDecompose(cp)| == JamoCount(cp)
    ensures forall i :: 0 <= i < JamoCount(cp) ==> HangulDecompose(cp)[i] == Jamo(cp, i)
  {
  }

  /** The syllable with leading consonant l, vowel v and trailing consonant t (0 for none). */
  function Syllable(l: nat, v: nat, t: nat): nat {
    SBASE + (l * VCOUNT + v) * TCOUNT + t
  }

  /** Decomposition and arithmetic composition are inverse: the split reaches every
      combination of jamo, and from exactly one syllable. */
  lemma HangulBijection(l: nat, v: nat, t: nat)
    requires l < LCOUNT && v < VCOUNT && t < TCOUNT
    ensures IsSyllable(Syllable(l, v, t))
    ensures HangulDecompose(Syllable(l, v, t)) == [LBASE + l, VBASE + v] + if t == 0 then [] else [TBASE + t]
  {
    SplitIndex(l, v, t);
  }

  lemma SplitIndex(l: nat, v: nat, t: nat)
    requires l < LCOUNT && v < VCOUNT && t < TCOUNT
    ensures var si := (l * VCOUNT + v) * TCOUNT + t;
      si < SCOUNT && si / NCOUNT == l && si % NCOUNT / TCOUNT == v && si % TCOUNT == t
  {
    var si := (l * VCOUNT + v) * TCOUNT + t;
    assert si == l * NCOUNT + (v * TCOUNT + t);
    assert si / NCOUNT == l && si % NCOUNT == v * TCOUNT + t;
  }

  lemma HangulRecomposes(cp: Cp)
    requires IsSyllable(cp)
    ensures var si := cp - SBASE;
      var l, v, t := si / NCOUNT, si % NCOUNT / TCOUNT, si % TCOUNT;
      l < LCOUNT && v < VCOUNT && t < TCOUNT && Syllable(l, v, t) == cp
  {
    var si := cp - SBASE;
    assert si == NCOUNT * (si / NCOUNT) + si % NCOUNT;
    var m := si % NCOUNT;
    assert m == TCOUNT * (m / TCOUNT) + m % TCOUNT;
    assert si == TCOUNT * (VCOUNT * (si / NCOUNT) + m / TCOUNT) + m % TCOUNT;
    assert si % TCOUNT == m % TCOUNT;
  }

  // ---- expansion ---------------------------------------------------------

  /** An expansion table, the ignorable code points and the combining classes. */
  datatype Db = Db(table: map<Cp, seq<Cp>>, di: set<Cp>, ccc: Classes)

  function Expand(db: Db, cp: Cp): seq<Cp> {
    if cp in db.di then []
    else if IsSyllable(cp) then HangulDecompose(cp)
    else if cp in db.table then db.table[cp]
    else [cp]
  }

  /** What a name reads as: each character's expansion, a break for an ignorable. */
  function Flatten(db: Db, s: seq<Cp>): seq<Item> {
    if s == [] then []
    else (if s[0] in db.di then [Break] else Items(Expand(db, s[0]))) + Flatten(db, s[1..])
  }

  function Normalize(db: Db, s: seq<Cp>): seq<Cp> {
    Norm(db.ccc, Flatten(db, s))
  }

  // ---- the run buffer ----------------------------------------------------

  ghost predicate AllMarks(ccc: Classes, run: seq<Cp>) {
    forall i :: 0 <= i < |run| ==> IsMark(ccc, run[i])
  }

  lemma RunOfMarks(ccc: Classes, run: seq<Cp>, rest: seq<Item>)
    requires AllMarks(ccc, run) && (rest == [] || !MarkItem(ccc, rest[0]))
    ensures Run(ccc, Items(run) + rest) == run && AfterRun(ccc, Items(run) + rest) == rest
  {
    hide Run, AfterRun, RunLength, Items, Cps;
    RunThrough(ccc, Items(run), rest);
    assert Cps(Items(run)) == run;
    NoRun(ccc, rest);
    assert run + [] == run;
  }

  lemma NoRun(ccc: Classes, rest: seq<Item>)
    requires rest == [] || !MarkItem(ccc, rest[0])
    ensures Run(ccc, rest) == [] && AfterRun(ccc, rest) == rest
  {
    RunLengthIs(ccc, rest, 0);
    assert rest[0..] == rest;
  }

  /** Flushing the buffer where a run ends. */
  lemma Flushes(ccc: Classes, run: seq<Cp>, rest: seq<Item>)
    requires AllMarks(ccc, run) && (rest == [] || !MarkItem(ccc, rest[0]))
    ensures Norm(ccc, Items(run) + rest) == StableSort(ccc, run) + AfterNorm(ccc, rest)
  {
    hide StableSort, Run, AfterRun, Items;
    RunOfMarks(ccc, run, rest);
  }

  /** out and run are what the loop has made of the items before rest. */
  ghost predicate Buffered(ccc: Classes, all: seq<Cp>, out: seq<Cp>, run: seq<Cp>, rest: seq<Item>) {
    AllMarks(ccc, run) && all == out + Norm(ccc, Items(run) + rest)
  }

  lemma BufferStarter(ccc: Classes, all: seq<Cp>, out: seq<Cp>, run: seq<Cp>, it: Item, rest: seq<Item>)
    requires Buffered(ccc, all, out, run, [it] + rest) && !MarkItem(ccc, it)
    ensures Buffered(ccc, all, out + StableSort(ccc, run) + (if it.Char? then [it.cp] else []), [], rest)
  {
    hide StableSort, Norm, AfterNorm;
    Flushes(ccc, run, [it] + rest);
    AfterNormStep(ccc, it, rest);
    assert Items([]) + rest == rest;
    var emitted := if it.Char? then [it.cp] else [];
    assert all == out + (StableSort(ccc, run) + (emitted + Norm(ccc, rest)));
  }

  lemma AfterNormStep(ccc: Classes, it: Item, rest: seq<Item>)
    requires !MarkItem(ccc, it)
    ensures AfterNorm(ccc, [it] + rest) == (if it.Char? then [it.cp] else []) + Norm(ccc, rest)
  {
    assert ([it] + rest)[1..] == rest;
  }

  lemma BufferMark(ccc: Classes, all: seq<Cp>, out: seq<Cp>, run: seq<Cp>, c: Cp, rest: seq<Item>)
    requires Buffered(ccc, all, out, run, [Char(c)] + rest) && IsMark(ccc, c)
    ensures Buffered(ccc, all, out, run + [c], rest)
  {
    hide Norm;
    assert Items(run + [c]) + rest == Items(run) + ([Char(c)] + rest);
  }

  lemma BufferEnds(ccc: Classes, all: seq<Cp>, out: seq<Cp>, run: seq<Cp>)
    requires Buffered(ccc, all, out, run, [])
    ensures all == out + StableSort(ccc, run)
  {
    hide StableSort, Norm;
    Flushes(ccc, run, []);
    assert AfterNorm(ccc, []) == [];
  }

  method ReaderNormalize(s: seq<Cp>, db: Db) returns (out: seq<Cp>)
    ensures out == Normalize(db, s)
  {
    hide Norm, StableSort, Buffered, Expand;
    ghost var all := Normalize(db, s);
    out := [];
    var run: seq<Cp> := [];
    assert s[0..] == s;
    BufferStarts(db.ccc, all, Flatten(db, s));
    for i := 0 to |s|
      invariant Buffered(db.ccc, all, out, run, Flatten(db, s[i..]))
    {
      ghost var later := Flatten(db, s[i + 1..]);
      assert s[i..][1..] == s[i + 1..];
      if s[i] in db.di {
        BufferStarter(db.ccc, all, out, run, Break, later);
        out := out + StableSort(db.ccc, run) + [];
        run := [];
      } else {
        out, run := BufferAll(Expand(db, s[i]), db.ccc, out, run, all, later);
      }
    }
    assert s[|s|..] == [];
    BufferEnds(db.ccc, all, out, run);
    out := out + StableSort(db.ccc, run);
  }

  lemma BufferStarts(ccc: Classes, all: seq<Cp>, items: seq<Item>)
    requires all == Norm(ccc, items)
    ensures Buffered(ccc, all, [], [], items)
  {
    hide Norm;
    assert Items([]) + items == items;
  }

  /** The inner loop: the characters of one expansion. */
  method BufferAll(chars: seq<Cp>, ccc: Classes, out0: seq<Cp>, run0: seq<Cp>, ghost all: seq<Cp>, ghost later: seq<Item>)
    returns (out: seq<Cp>, run: seq<Cp>)
    requires Buffered(ccc, all, out0, run0, Items(chars) + later)
    ensures Buffered(ccc, all, out, run, later)
  {
    hide Norm, StableSort, Buffered;
    out, run := out0, run0;
    assert chars[0..] == chars;
    for j := 0 to |chars|
      invariant Buffered(ccc, all, out, run, Items(chars[j..]) + later)
    {
      var c := chars[j];
      ghost var rest := Items(chars[j + 1..]) + later;
      assert Items(chars[j..]) + later == [Char(c)] + rest;
      if ClassOf(ccc, c) == 0 {
        BufferStarter(ccc, all, out, run, Char(c), rest);
        out := out + StableSort(ccc, run);
        run := [];
        out := out + [c];
      } else {
        BufferMark(ccc, all, out, run, c, rest);
        run := run + [c];
      }
    }
    assert Items(chars[|chars|..]) + later == later;
  }

  // ---- what the reader promises ------------------------------------------

  predicate IgnorableFree(db: Db, s: seq<Cp>) {
    forall i :: 0 <= i < |s| ==> s[i] !in db.di
  }

  lemma {:induction false} FlattenBreakFree(db: Db, s: seq<Cp>)
    requires IgnorableFree(db, s)
    ensures BreakFree(Flatten(db, s))
  {
    hide Expand;
    if s != [] {
      FlattenBreakFree(db, s[1..]);
    }
  }

  lemma {:induction false} FlattenConcat(db: Db, a: seq<Cp>, b: seq<Cp>)
    ensures Flatten(db, a + b) == Flatten(db, a) + Flatten(db, b)
  {
    hide Expand, Items;
    if a == [] {
      assert a + b == b;
    } else {
      assert (a + b)[1..] == a[1..] + b;
      FlattenConcat(db, a[1..], b);
      Associates(if a[0] in db.di then [Break] else Items(Expand(db, a[0])), Flatten(db, a[1..]), Flatten(db, b));
    }
  }

  /** Two ignorable-free names are one name to the reader exactly when their expansions
      are canonically equivalent. */
  lemma SameNameIff(db: Db, a: seq<Cp>, b: seq<Cp>)
    requires IgnorableFree(db, a) && IgnorableFree(db, b)
    ensures Normalize(db, a) == Normalize(db, b) <==> Equivalent(db.ccc, Flatten(db, a), Flatten(db, b))
  {
    hide Norm, Equivalent;
    FlattenBreakFree(db, a);
    FlattenBreakFree(db, b);
    NormDecidesEquivalence(db.ccc, Flatten(db, a), Flatten(db, b));
  }

  /** Marks that stand for themselves, of different classes, may change places anywhere. */
  lemma MarksCommute(db: Db, p: seq<Cp>, x: Cp, y: Cp, q: seq<Cp>)
    requires x !in db.di && y !in db.di && Expand(db, x) == [x] && Expand(db, y) == [y]
    requires IsMark(db.ccc, x) && IsMark(db.ccc, y) && ClassOf(db.ccc, x) != ClassOf(db.ccc, y)
    ensures Normalize(db, p + [x, y] + q) == Normalize(db, p + [y, x] + q)
  {
    hide Norm, Expand;
    FlattenPair(db, p, x, y, q);
    FlattenPair(db, p, y, x, q);
    SwapKeepsNorm(db.ccc, Flatten(db, p), Char(x), Char(y), Flatten(db, q));
  }

  lemma FlattenPair(db: Db, p: seq<Cp>, x: Cp, y: Cp, q: seq<Cp>)
    requires x !in db.di && y !in db.di && Expand(db, x) == [x] && Expand(db, y) == [y]
    ensures Flatten(db, p + [x, y] + q) == Flatten(db, p) + [Char(x), Char(y)] + Flatten(db, q)
  {
    hide Expand;
    FlattenConcat(db, p + [x, y], q);
    FlattenConcat(db, p, [x, y]);
    assert [x, y][1..] == [y] && [y][1..] == [];
    assert Flatten(db, [y]) == [Char(y)];
    assert Flatten(db, [x, y]) == [Char(x), Char(y)];
  }

  /** Normalization distributes over a cut at a break, a starter or an end. */
  lemma NormalizeConcat(db: Db, a: seq<Cp>, b: seq<Cp>)
    requires var x, y := Flatten(db, a), Flatten(db, b);
      x == [] || y == [] || !MarkItem(db.ccc, x[|x| - 1]) || !MarkItem(db.ccc, y[0])
    ensures Normalize(db, a + b) == Normalize(db, a) + Normalize(db, b)
  {
    hide Norm;
    FlattenConcat(db, a, b);
    NormConcat(db.ccc, Flatten(db, a), Flatten(db, b));
  }

  /** c stands for itself. */
  predicate SelfExpanding(db: Db, c: Cp) {
    c !in db.di && Expand(db, c) == [c]
  }

  /** What expansions yield, tables and syllables alike, stands for itself. */
  ghost predicate FullyExpanded(db: Db) {
    forall cp, c :: c in Expand(db, cp) ==> SelfExpanding(db, c)
  }

  lemma {:induction false} FlattenSelf(db: Db, s: seq<Cp>)
    requires forall c :: c in s ==> SelfExpanding(db, c)
    ensures Flatten(db, s) == Items(s)
  {
    hide Expand;
    if s != [] {
      assert s[0] in s && forall c :: c in s[1..] ==> c in s;
      FlattenSelf(db, s[1..]);
    }
  }

  lemma {:induction false} FlattenMember(db: Db, s: seq<Cp>, c: Cp)
    requires FullyExpanded(db) && c in Chars(Flatten(db, s))
    ensures SelfExpanding(db, c)
    decreases |s|
  {
    hide Expand, SelfExpanding;
    if s != [] {
      var first := if s[0] in db.di then [Break] else Items(Expand(db, s[0]));
      CharsConcat(first, Flatten(db, s[1..]));
      if c in Chars(first) {
        if s[0] !in db.di {
          CharsOfItems(Expand(db, s[0]));
        }
      } else {
        FlattenMember(db, s[1..], c);
      }
    }
  }

  lemma CharsOfItems(s: seq<Cp>)
    ensures Chars(Items(s)) == s
  {
    CharsOfCps(Items(s));
    assert Cps(Items(s)) == s;
  }

  /** Normalizing twice is normalizing once, off the ignorables. */
  lemma NormalizeIdempotent(db: Db, s: seq<Cp>)
    requires FullyExpanded(db) && IgnorableFree(db, s)
    ensures Normalize(db, Normalize(db, s)) == Normalize(db, s)
  {
    hide Norm, Flatten, Chars, SelfExpanding, FullyExpanded;
    var items := Flatten(db, s);
    FlattenBreakFree(db, s);
    NormIdempotent(db.ccc, items);
    var n := Norm(db.ccc, items);
    forall c | c in n
      ensures SelfExpanding(db, c)
    {
      NormIsPermutation(db.ccc, items);
      assert c in multiset(n) && c in multiset(Chars(items));
      FlattenMember(db, s, c);
    }
    FlattenSelf(db, n);
  }
}
