/** Code points compressed to ranges, and the expansion pool. */
module Ranges {
  import opened Utf8

  /** lo..hi, inclusive, all of class cls. */
  datatype Range = Range(lo: nat, hi: nat, cls: nat)

  ghost predicate Ascending(pairs: seq<(nat, nat)>) {
    forall i, j :: 0 <= i < j < |pairs| ==> pairs[i].0 < pairs[j].0
  }

  predicate Covers(r: Range, cp: nat) {
    r.lo <= cp <= r.hi
  }

  ghost predicate Has(rows: seq<Range>, cp: nat, k: nat) {
    exists i :: 0 <= i < |rows| && Covers(rows[i], cp) && rows[i].cls == k
  }

  ghost predicate Separated(rows: seq<Range>) {
    && (forall i :: 0 <= i < |rows| ==> rows[i].lo <= rows[i].hi)
    && (forall i, j :: 0 <= i < j < |rows| ==> rows[i].hi < rows[j].lo)
  }

  /** No two neighbours could be one range. */
  ghost predicate Maximal(rows: seq<Range>) {
    forall i, j :: 0 <= i && j == i + 1 && j < |rows| ==> rows[i].cls != rows[j].cls || rows[i].hi + 1 != rows[j].lo
  }

  ghost predicate Exact(rows: seq<Range>, pairs: seq<(nat, nat)>) {
    forall cp: nat, k: nat :: (cp, k) in pairs <==> Has(rows, cp, k)
  }

  /** The ranges end where the pairs do. */
  ghost predicate SameEnd(rows: seq<Range>, pairs: seq<(nat, nat)>) {
    && (rows == [] <==> pairs == [])
    && (rows != [] ==> rows[|rows| - 1].hi == pairs[|pairs| - 1].0)
  }

  lemma Extend(rows: seq<Range>, pairs: seq<(nat, nat)>, cp: nat, k: nat)
    requires Separated(rows) && Maximal(rows) && Exact(rows, pairs) && rows != []
    requires rows[|rows| - 1].hi + 1 == cp && rows[|rows| - 1].cls == k
    ensures var out := rows[|rows| - 1 := Range(rows[|rows| - 1].lo, cp, k)];
      Separated(out) && Maximal(out) && Exact(out, pairs + [(cp, k)])
  {
    var n := |rows| - 1;
    var out := rows[n := Range(rows[n].lo, cp, k)];
    forall x, c
      ensures Has(out, x, c) <==> Has(rows, x, c) || (x == cp && c == k)
    {
      if Has(rows, x, c) {
        var i :| 0 <= i < |rows| && Covers(rows[i], x) && rows[i].cls == c;
        assert Covers(out[i], x) && out[i].cls == c;
      }
      if x == cp && c == k {
        assert Covers(out[n], x) && out[n].cls == c;
      }
      if Has(out, x, c) && !(x == cp && c == k) {
        var i :| 0 <= i < |out| && Covers(out[i], x) && out[i].cls == c;
        assert Covers(rows[i], x) && rows[i].cls == c;
      }
    }
  }

  lemma Append(rows: seq<Range>, pairs: seq<(nat, nat)>, cp: nat, k: nat)
    requires Separated(rows) && Maximal(rows) && Exact(rows, pairs)
    requires rows != [] ==> rows[|rows| - 1].hi < cp
    requires rows != [] ==> rows[|rows| - 1].hi + 1 != cp || rows[|rows| - 1].cls != k
    ensures var out := rows + [Range(cp, cp, k)];
      Separated(out) && Maximal(out) && Exact(out, pairs + [(cp, k)])
  {
    var out := rows + [Range(cp, cp, k)];
    forall x, c
      ensures Has(out, x, c) <==> Has(rows, x, c) || (x == cp && c == k)
    {
      if Has(rows, x, c) {
        var i :| 0 <= i < |rows| && Covers(rows[i], x) && rows[i].cls == c;
        assert Covers(out[i], x) && out[i].cls == c;
      }
      if x == cp && c == k {
        assert Covers(out[|rows|], x) && out[|rows|].cls == c;
      }
      if Has(out, x, c) && !(x == cp && c == k) {
        var i :| 0 <= i < |out| && Covers(out[i], x) && out[i].cls == c;
        assert Covers(rows[i], x) && rows[i].cls == c;
      }
    }
    if rows != [] {
      assert forall i :: 0 <= i < |rows| ==> rows[i].hi <= rows[|rows| - 1].hi;
    }
  }

  /** The class table: (code point, class) pairs in order, as ranges. */
  method CompressCcc(pairs: seq<(nat, nat)>) returns (out: seq<Range>)
    requires Ascending(pairs)
    ensures Separated(out) && Maximal(out) && Exact(out, pairs)
  {
    hide Separated, Maximal, Exact;
    out := [];
    Nothing();
    for i := 0 to |pairs|
      invariant Separated(out) && Maximal(out) && Exact(out, pairs[..i]) && SameEnd(out, pairs[..i])
    {
      var cp, k := pairs[i].0, pairs[i].1;
      assert pairs[..i + 1] == pairs[..i] + [(cp, k)];
      if out != [] && out[|out| - 1].cls == k && out[|out| - 1].hi + 1 == cp {
        Extend(out, pairs[..i], cp, k);
        out := out[|out| - 1 := Range(out[|out| - 1].lo, cp, k)];
      } else {
        Append(out, pairs[..i], cp, k);
        out := out + [Range(cp, cp, k)];
      }
    }
    assert pairs[..|pairs|] == pairs;
  }

  lemma Nothing()
    ensures Separated([]) && Maximal([]) && Exact([], [])
  {
  }

  /** A set as pairs of one class. */
  function Marked(cps: seq<nat>): (r: seq<(nat, nat)>)
    ensures |r| == |cps| && forall i :: 0 <= i < |cps| ==> r[i] == (cps[i], 0)
  {
    if cps == [] then [] else Marked(cps[..|cps| - 1]) + [(cps[|cps| - 1], 0)]
  }

  /** The ignorable set, in order, as ranges. */
  method Compress(cps: seq<nat>) returns (out: seq<Range>)
    requires forall i, j :: 0 <= i < j < |cps| ==> cps[i] < cps[j]
    ensures Separated(out) && Maximal(out) && Exact(out, Marked(cps))
    ensures forall i :: 0 <= i < |out| ==> out[i].cls == 0
  {
    hide Separated, Maximal, Exact, Marked;
    out := [];
    Nothing();
    assert Marked(cps[..0]) == [];
    for i := 0 to |cps|
      invariant Separated(out) && Maximal(out) && Exact(out, Marked(cps[..i])) && SameEnd(out, Marked(cps[..i]))
      invariant forall j :: 0 <= j < |out| ==> out[j].cls == 0
    {
      var cp := cps[i];
      assert Marked(cps[..i + 1]) == Marked(cps[..i]) + [(cp, 0)];
      if out != [] && out[|out| - 1].hi + 1 == cp {
        Extend(out, Marked(cps[..i]), cp, 0);
        out := out[|out| - 1 := Range(out[|out| - 1].lo, cp, 0)];
      } else {
        Append(out, Marked(cps[..i]), cp, 0);
        out := out + [Range(cp, cp, 0)];
      }
    }
    assert cps[..|cps|] == cps;
  }

  // ---- there is one such table -------------------------------------------

  ghost predicate SameCover(a: seq<Range>, b: seq<Range>) {
    forall cp, k :: Has(a, cp, k) <==> Has(b, cp, k)
  }

  /** The first range reaches no further than the other table's first. */
  lemma FirstWithin(a: seq<Range>, b: seq<Range>)
    requires Separated(a) && Separated(b) && SameCover(a, b) && a != []
    ensures b != [] && b[0].lo <= a[0].lo
  {
    assert Covers(a[0], a[0].lo);
    assert Has(a, a[0].lo, a[0].cls) && Has(b, a[0].lo, a[0].cls);
  }

  /** Both tables agree in what covers a code point, and how. */
  lemma OneClass(a: seq<Range>, i: int, cp: nat, k: nat)
    requires Separated(a) && 0 <= i < |a| && Covers(a[i], cp) && Has(a, cp, k)
    ensures k == a[i].cls
  {
    var j :| 0 <= j < |a| && Covers(a[j], cp) && a[j].cls == k;
    assert !(i < j) && !(j < i);
  }

  /** The class of the first range does not go on behind it. */
  lemma StopsThere(b: seq<Range>)
    requires Separated(b) && Maximal(b) && b != []
    ensures !Has(b, b[0].hi + 1, b[0].cls)
  {
    forall j | 0 <= j < |b|
      ensures !(Covers(b[j], b[0].hi + 1) && b[j].cls == b[0].cls)
    {
      if j > 1 {
        assert b[0].hi < b[1].lo <= b[1].hi < b[j].lo;
      }
    }
  }

  lemma FirstNoLonger(a: seq<Range>, b: seq<Range>)
    requires Separated(a) && Separated(b) && Maximal(b) && SameCover(a, b)
    requires a != [] && b != [] && a[0].lo == b[0].lo
    ensures a[0].cls == b[0].cls && a[0].hi <= b[0].hi
  {
    assert Covers(a[0], a[0].lo) && Covers(b[0], b[0].lo);
    assert Has(a, a[0].lo, a[0].cls) && Has(b, a[0].lo, a[0].cls);
    OneClass(b, 0, b[0].lo, a[0].cls);
    StopsThere(b);
  }

  lemma TailCover(a: seq<Range>, b: seq<Range>)
    requires Separated(a) && Separated(b) && SameCover(a, b) && a != [] && b != [] && a[0] == b[0]
    ensures SameCover(a[1..], b[1..])
  {
    forall cp, k
      ensures Has(a[1..], cp, k) <==> Has(b[1..], cp, k)
    {
      TailHas(a, cp, k);
      TailHas(b, cp, k);
    }
  }

  lemma TailHas(a: seq<Range>, cp: nat, k: nat)
    requires Separated(a) && a != []
    ensures Has(a[1..], cp, k) <==> Has(a, cp, k) && !Covers(a[0], cp)
  {
    if Has(a[1..], cp, k) {
      var i :| 0 <= i < |a| - 1 && Covers(a[1..][i], cp) && a[1..][i].cls == k;
      assert Covers(a[i + 1], cp) && a[i + 1].cls == k && a[0].hi < a[i + 1].lo;
    }
    if Has(a, cp, k) && !Covers(a[0], cp) {
      var i :| 0 <= i < |a| && Covers(a[i], cp) && a[i].cls == k;
      assert Covers(a[1..][i - 1], cp) && a[1..][i - 1].cls == k;
    }
  }

  /** A separated table that cannot be merged further is the only one for what it covers. */
  lemma {:induction false} CanonicalRanges(a: seq<Range>, b: seq<Range>)
    requires Separated(a) && Maximal(a) && Separated(b) && Maximal(b) && SameCover(a, b)
    ensures a == b
  {
    hide SameCover, Maximal;
    if a == [] {
      if b != [] {
        Flip(a, b);
        FirstWithin(b, a);
      }
    } else {
      FirstWithin(a, b);
      Flip(a, b);
      FirstWithin(b, a);
      FirstNoLonger(a, b);
      FirstNoLonger(b, a);
      TailCover(a, b);
      TailMaximal(a);
      TailMaximal(b);
      CanonicalRanges(a[1..], b[1..]);
    }
  }

  lemma Flip(a: seq<Range>, b: seq<Range>)
    requires SameCover(a, b)
    ensures SameCover(b, a)
  {
  }

  lemma TailMaximal(a: seq<Range>)
    requires Maximal(a) && a != []
    ensures Maximal(a[1..])
  {
    assert forall i :: 0 <= i < |a| - 1 ==> a[1..][i] == a[i + 1];
  }

  // ---- the pool ----------------------------------------------------------

  /** One expansion: the code point and where its bytes lie in the pool. */
  datatype Entry = Entry(cp: nat, off: nat, len: nat)

  ghost function Concat(parts: seq<seq<Byte>>): seq<Byte> {
    if parts == [] then [] else Concat(parts[..|parts| - 1]) + parts[|parts| - 1]
  }

  ghost predicate At(pool: seq<Byte>, off: nat, s: seq<Byte>) {
    off + |s| <= |pool| && pool[off..off + |s|] == s
  }

  /** The pool holds each string of the index once, in the order of first use. */
  ghost predicate Pooled(pool: seq<Byte>, index: map<seq<Byte>, nat>, order: seq<seq<Byte>>) {
    && pool == Concat(order)
    && (forall i, j :: 0 <= i < j < |order| ==> order[i] != order[j])
    && (forall s :: s in index <==> s in order)
    && (forall s :: s in index ==> At(pool, index[s], s))
  }

  /** Each row of the table points at its own bytes, and equal expansions share them. */
  ghost predicate Points(rows: seq<Entry>, table: seq<(nat, seq<Byte>)>, index: map<seq<Byte>, nat>) {
    && |rows| == |table|
    && (forall i :: 0 <= i < |rows| ==>
          table[i].1 in index && rows[i] == Entry(table[i].0, index[table[i].1], |table[i].1|))
  }

  ghost predicate Grows(a: map<seq<Byte>, nat>, b: map<seq<Byte>, nat>) {
    forall s :: s in a ==> s in b && a[s] == b[s]
  }

  lemma AddToPool(pool: seq<Byte>, index: map<seq<Byte>, nat>, order: seq<seq<Byte>>, s: seq<Byte>)
    requires Pooled(pool, index, order) && s !in index
    ensures Pooled(pool + s, index[s := |pool|], order + [s])
  {
    assert (order + [s])[..|order|] == order;
    forall t | t in index
      ensures At(pool + s, index[t], t)
    {
      assert (pool + s)[index[t]..index[t] + |t|] == pool[index[t]..index[t] + |t|];
    }
    assert (pool + s)[|pool|..|pool| + |s|] == s;
  }

  method PoolTable(table: seq<(nat, seq<Byte>)>, pool0: seq<Byte>, index0: map<seq<Byte>, nat>, ghost order0: seq<seq<Byte>>)
    returns (rows: seq<Entry>, pool: seq<Byte>, index: map<seq<Byte>, nat>, ghost order: seq<seq<Byte>>)
    requires Pooled(pool0, index0, order0)
    ensures Pooled(pool, index, order) && Points(rows, table, index) && Grows(index0, index)
    ensures forall s :: s in index ==> s in index0 || exists i :: 0 <= i < |table| && table[i].1 == s
  {
    hide Pooled;
    rows, pool, index, order := [], pool0, index0, order0;
    for i := 0 to |table|
      invariant Pooled(pool, index, order) && Points(rows, table[..i], index) && Grows(index0, index)
      invariant forall s :: s in index ==> s in index0 || exists j :: 0 <= j < i && table[j].1 == s
    {
      var s := table[i].1;
      assert table[..i + 1] == table[..i] + [table[i]];
      if s !in index {
        AddToPool(pool, index, order, s);
        index := index[s := |pool|];
        pool := pool + s;
        order := order + [s];
      }
      rows := rows + [Entry(table[i].0, index[s], |s|)];
    }
    assert table[..|table|] == table;
  }

  /** Both expansion tables over one pool: every row's slice is its expansion, a string is
      stored once however many rows use it, and nothing else is stored. */
  method BuildPool(first: seq<(nat, seq<Byte>)>, second: seq<(nat, seq<Byte>)>)
    returns (rows1: seq<Entry>, rows2: seq<Entry>, pool: seq<Byte>, ghost index: map<seq<Byte>, nat>, ghost order: seq<seq<Byte>>)
    ensures Pooled(pool, index, order) && Points(rows1, first, index) && Points(rows2, second, index)
    ensures forall s :: s in order ==> exists e :: (e in first || e in second) && e.1 == s
  {
    hide Pooled;
    var idx: map<seq<Byte>, nat> := map[];
    EmptyPool();
    rows1, pool, idx, order := PoolTable(first, [], idx, []);
    ghost var idx1 := idx;
    rows2, pool, idx, order := PoolTable(second, pool, idx, order);
    index := idx;
    StillPoints(rows1, first, idx1, idx);
    forall s | s in order
      ensures exists e :: (e in first || e in second) && e.1 == s
    {
      InIndex(pool, idx, order, s);
      if s in idx1 {
        var i :| 0 <= i < |first| && first[i].1 == s;
        assert first[i] in first;
      } else {
        var i :| 0 <= i < |second| && second[i].1 == s;
        assert second[i] in second;
      }
    }
  }

  lemma EmptyPool()
    ensures Pooled([], map[], [])
  {
  }

  lemma StillPoints(rows: seq<Entry>, table: seq<(nat, seq<Byte>)>, a: map<seq<Byte>, nat>, b: map<seq<Byte>, nat>)
    requires Points(rows, table, a) && Grows(a, b)
    ensures Points(rows, table, b)
  {
  }

  lemma InIndex(pool: seq<Byte>, index: map<seq<Byte>, nat>, order: seq<seq<Byte>>, s: seq<Byte>)
    requires Pooled(pool, index, order) && s in order
    ensures s in index
  {
  }
}
