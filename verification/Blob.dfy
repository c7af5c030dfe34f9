/** The generated table: the bytes the generator writes and the kernel's reader of them. */
module Blob {
  import opened Options
  import opened Utf8
  import opened Ranges

  const MAGIC: seq<Byte> := [0x4F, 0x58, 0x55, 0x54, 0x46, 0x38, 0, 0]
  const FORMAT_VERSION: nat := 1
  const HEADER_LEN: nat := 40
  const LIMIT: nat := 0x1_0000_0000

  // ---- little-endian words -----------------------------------------------

  function Le32(n: nat): (r: seq<Byte>)
    ensures |r| == 4
  {
    [n % 0x100, n / 0x100 % 0x100, n / 0x10000 % 0x100, n / 0x1000000 % 0x100]
  }

  function Word(data: seq<Byte>, at: nat): nat
    requires at + 4 <= |data|
  {
    var a: nat, b: nat, c: nat, d: nat := data[at], data[at + 1], data[at + 2], data[at + 3];
    a + 0x100 * b + 0x10000 * c + 0x1000000 * d
  }

  lemma Le32Value(n: nat)
    requires n < LIMIT
    ensures Word(Le32(n), 0) == n
  {
    assert n / 0x10000 == n / 0x100 / 0x100 && n / 0x1000000 == n / 0x100 / 0x100 / 0x100;
  }

  lemma WordIs(data: seq<Byte>, at: nat, n: nat)
    requires n < LIMIT && at + 4 <= |data| && data[at..at + 4] == Le32(n)
    ensures Word(data, at) == n
  {
    hide Le32;
    var w := data[at..at + 4];
    assert w[0] == data[at] && w[1] == data[at + 1] && w[2] == data[at + 2] && w[3] == data[at + 3];
    Le32Value(n);
  }

  // ---- rows --------------------------------------------------------------

  function PackWords(ws: seq<nat>): (r: seq<Byte>)
    ensures |r| == 4 * |ws|
  {
    if ws == [] then [] else PackWords(ws[..|ws| - 1]) + Le32(ws[|ws| - 1])
  }

  lemma {:induction false} PackedWord(ws: seq<nat>, i: nat)
    requires i < |ws| && ws[i] < LIMIT
    ensures Word(PackWords(ws), 4 * i) == ws[i]
  {
    hide Word, Le32;
    var n := |ws| - 1;
    var p := PackWords(ws);
    if i == n {
      assert p[4 * n..4 * n + 4] == Le32(ws[n]);
      WordIs(p, 4 * n, ws[n]);
    } else {
      PackedWord(ws[..n], i);
      WordBefore(PackWords(ws[..n]), Le32(ws[n]), 4 * i);
    }
  }

  lemma WordBefore(a: seq<Byte>, b: seq<Byte>, at: nat)
    requires at + 4 <= |a|
    ensures Word(a + b, at) == Word(a, at)
  {
  }

  /** Rows of w words each, one after the other. */
  function Rows(rows: seq<seq<nat>>): seq<nat> {
    if rows == [] then [] else Rows(rows[..|rows| - 1]) + rows[|rows| - 1]
  }

  ghost predicate Wide(rows: seq<seq<nat>>, w: nat) {
    forall i :: 0 <= i < |rows| ==> |rows[i]| == w
  }

  lemma {:induction false} RowsAt(rows: seq<seq<nat>>, w: nat, i: nat, f: nat)
    requires Wide(rows, w) && i < |rows| && f < w
    ensures |Rows(rows)| == |rows| * w
    ensures i * w + f < |rows| * w && Rows(rows)[i * w + f] == rows[i][f]
  {
    var n := |rows| - 1;
    RowsLength(rows[..n], w);
    RowsLength(rows, w);
    Scaled(i, n, w, f);
    if i < n {
      RowsAt(rows[..n], w, i, f);
    }
  }

  lemma {:induction false} RowsLength(rows: seq<seq<nat>>, w: nat)
    requires Wide(rows, w)
    ensures |Rows(rows)| == |rows| * w
  {
    if rows == [] {
      assert 0 * w == 0;
    } else {
      var n := |rows| - 1;
      RowsLength(rows[..n], w);
      assert (n + 1) * w == n * w + w;
    }
  }

  lemma Scaled(i: nat, n: nat, w: nat, f: nat)
    requires i <= n && f < w
    ensures i * w + f < (n + 1) * w
    ensures i < n ==> i * w + f < n * w
    ensures i == n ==> i * w + f - n * w == f
  {
    assert (n + 1) * w == n * w + w;
    Monotone(i, n, w);
    if i < n {
      Monotone(i + 1, n, w);
      assert (i + 1) * w == i * w + w;
    }
  }

  lemma Monotone(a: nat, b: nat, w: nat)
    requires a <= b
    ensures a * w <= b * w
  {
  }

  /** A field of a row, as the reader finds it. */
  function RowWord(tab: seq<Byte>, w: nat, row: nat, field: nat): nat
    requires 4 * (row * w + field) + 4 <= |tab|
  {
    Word(tab, 4 * (row * w + field))
  }

  function Packed(rows: seq<seq<nat>>): seq<Byte> {
    PackWords(Rows(rows))
  }

  ghost predicate Fits(rows: seq<seq<nat>>) {
    forall i, f :: 0 <= i < |rows| && 0 <= f < |rows[i]| ==> rows[i][f] < LIMIT
  }

  lemma PackedRow(rows: seq<seq<nat>>, w: nat, i: nat, f: nat)
    requires Wide(rows, w) && Fits(rows) && i < |rows| && f < w
    ensures 4 * (i * w + f) + 4 <= |Packed(rows)| == 4 * (|rows| * w)
    ensures RowWord(Packed(rows), w, i, f) == rows[i][f]
  {
    RowsAt(rows, w, i, f);
    PackedWord(Rows(rows), i * w + f);
  }

  // ---- searching ---------------------------------------------------------

  /** tab holds rows whose first two words are the ranges' bounds. */
  ghost predicate HoldsRanges(tab: seq<Byte>, w: nat, ranges: seq<Range>) {
    && |tab| == 4 * (|ranges| * w) && (w == 2 || w == 3)
    && (forall i :: 0 <= i < |ranges| ==>
          4 * (i * w) + 8 <= |tab| && RowWord(tab, w, i, 0) == ranges[i].lo && RowWord(tab, w, i, 1) == ranges[i].hi)
  }

  lemma RowCount(n: nat, w: nat)
    requires w == 2 || w == 3
    ensures 4 * (n * w) / (4 * w) == n
  {
    if w == 2 {
      assert 4 * (n * w) == n * 8;
    } else {
      assert 4 * (n * w) == n * 12;
    }
  }

  /** Binary search for the range covering cp. */
  method Search(tab: seq<Byte>, w: nat, cp: nat, ghost ranges: seq<Range>) returns (r: Option<nat>)
    requires HoldsRanges(tab, w, ranges) && Separated(ranges)
    ensures r.Some? ==> r.value < |ranges| && Covers(ranges[r.value], cp)
    ensures r.None? ==> forall i :: 0 <= i < |ranges| ==> !Covers(ranges[i], cp)
  {
    hide RowWord;
    RowCount(|ranges|, w);
    var n := |tab| / (4 * w);
    var lo, hi := 0, n;
    while lo < hi
      invariant 0 <= lo <= hi <= n == |ranges|
      invariant forall i :: 0 <= i < lo ==> ranges[i].hi < cp
      invariant forall i :: hi <= i < n ==> cp < ranges[i].lo
    {
      var mid := (lo + hi) / 2;
      if cp < RowWord(tab, w, mid, 0) {
        hi := mid;
      } else if cp > RowWord(tab, w, mid, 1) {
        lo := mid + 1;
      } else {
        return Some(mid);
      }
    }
    return None;
  }

  ghost predicate HoldsEntries(tab: seq<Byte>, entries: seq<Entry>) {
    && |tab| == 4 * (|entries| * 3)
    && (forall i :: 0 <= i < |entries| ==>
          4 * (i * 3) + 12 <= |tab| && RowWord(tab, 3, i, 0) == entries[i].cp &&
          RowWord(tab, 3, i, 1) == entries[i].off && RowWord(tab, 3, i, 2) == entries[i].len)
  }

  ghost predicate Keyed(entries: seq<Entry>) {
    forall i, j :: 0 <= i < j < |entries| ==> entries[i].cp < entries[j].cp
  }

  /** Binary search for the row of exactly this code point. */
  method SearchExact(tab: seq<Byte>, cp: nat, ghost entries: seq<Entry>) returns (r: Option<nat>)
    requires HoldsEntries(tab, entries) && Keyed(entries)
    ensures r.Some? ==> r.value < |entries| && entries[r.value].cp == cp
    ensures r.None? ==> forall i :: 0 <= i < |entries| ==> entries[i].cp != cp
  {
    hide RowWord;
    var n := |tab| / 12;
    var lo, hi := 0, n;
    while lo < hi
      invariant 0 <= lo <= hi <= n == |entries|
      invariant forall i :: 0 <= i < lo ==> entries[i].cp < cp
      invariant forall i :: hi <= i < n ==> cp < entries[i].cp
    {
      var mid := (lo + hi) / 2;
      var key := RowWord(tab, 3, mid, 0);
      if cp < key {
        hi := mid;
      } else if cp > key {
        lo := mid + 1;
      } else {
        return Some(mid);
      }
    }
    return None;
  }

  // ---- the image ---------------------------------------------------------

  /** What the generator writes out. */
  datatype Tables = Tables(unicode: nat, ccc: seq<Range>, ign: seq<Range>, nfdi: seq<Entry>, nfdicf: seq<Entry>, pool: seq<Byte>)

  function ClassRows(ranges: seq<Range>): (r: seq<seq<nat>>)
    ensures |r| == |ranges| && forall i :: 0 <= i < |r| ==> r[i] == [ranges[i].lo, ranges[i].hi, ranges[i].cls]
  {
    if ranges == [] then []
    else
      var x := ranges[|ranges| - 1];
      ClassRows(ranges[..|ranges| - 1]) + [[x.lo, x.hi, x.cls]]
  }

  function BoundRows(ranges: seq<Range>): (r: seq<seq<nat>>)
    ensures |r| == |ranges| && forall i :: 0 <= i < |r| ==> r[i] == [ranges[i].lo, ranges[i].hi]
  {
    if ranges == [] then []
    else
      var x := ranges[|ranges| - 1];
      BoundRows(ranges[..|ranges| - 1]) + [[x.lo, x.hi]]
  }

  function EntryRows(entries: seq<Entry>): (r: seq<seq<nat>>)
    ensures |r| == |entries| && forall i :: 0 <= i < |r| ==> r[i] == [entries[i].cp, entries[i].off, entries[i].len]
  {
    if entries == [] then []
    else
      var x := entries[|entries| - 1];
      EntryRows(entries[..|entries| - 1]) + [[x.cp, x.off, x.len]]
  }

  function HeaderOf(t: Tables): seq<nat> {
    [FORMAT_VERSION, t.unicode, |t.ccc|, |t.ign|, |t.nfdi|, |t.nfdicf|, |t.pool|, 0]
  }

  function Head(t: Tables): (r: seq<Byte>)
    ensures |r| == HEADER_LEN
  {
    MAGIC + PackWords(HeaderOf(t))
  }

  function Image(t: Tables): seq<Byte> {
    Head(t) + (Packed(ClassRows(t.ccc)) + (Packed(BoundRows(t.ign)) +
               (Packed(EntryRows(t.nfdi)) + (Packed(EntryRows(t.nfdicf)) + t.pool))))
  }

  /** Every number written fits its word. */
  ghost predicate Writable(t: Tables) {
    && t.unicode < LIMIT && |t.ccc| < LIMIT && |t.ign| < LIMIT && |t.nfdi| < LIMIT && |t.nfdicf| < LIMIT && |t.pool| < LIMIT
    && Fits(ClassRows(t.ccc)) && Fits(BoundRows(t.ign)) && Fits(EntryRows(t.nfdi)) && Fits(EntryRows(t.nfdicf))
  }

  lemma {:induction false} PackWordsConcat(a: seq<nat>, b: seq<nat>)
    ensures PackWords(a + b) == PackWords(a) + PackWords(b)
  {
    hide Le32;
    if b == [] {
      assert a + b == a;
    } else {
      var n := |b| - 1;
      assert (a + b)[..|a + b| - 1] == a + b[..n];
      PackWordsConcat(a, b[..n]);
    }
  }

  lemma PackedSnoc(rows: seq<seq<nat>>, row: seq<nat>)
    ensures Packed(rows + [row]) == Packed(rows) + PackWords(row)
  {
    assert (rows + [row])[..|rows|] == rows;
    PackWordsConcat(Rows(rows), row);
  }

  method Serialize(t: Tables) returns (blob: seq<Byte>)
    ensures blob == Image(t)
  {
    hide Packed, PackWords, ClassRows, BoundRows, EntryRows;
    blob := Head(t);
    EmptyRows();
    assert t.ccc[..0] == [] && t.ign[..0] == [];
    for i := 0 to |t.ccc|
      invariant blob == Head(t) + Packed(ClassRows(t.ccc[..i]))
    {
      var x := t.ccc[i];
      assert ClassRows(t.ccc[..i + 1]) == ClassRows(t.ccc[..i]) + [[x.lo, x.hi, x.cls]];
      PackedSnoc(ClassRows(t.ccc[..i]), [x.lo, x.hi, x.cls]);
      blob := blob + PackWords([x.lo, x.hi, x.cls]);
    }
    assert t.ccc[..|t.ccc|] == t.ccc;
    ghost var pre := blob;
    for i := 0 to |t.ign|
      invariant blob == pre + Packed(BoundRows(t.ign[..i]))
    {
      var x := t.ign[i];
      assert BoundRows(t.ign[..i + 1]) == BoundRows(t.ign[..i]) + [[x.lo, x.hi]];
      PackedSnoc(BoundRows(t.ign[..i]), [x.lo, x.hi]);
      blob := blob + PackWords([x.lo, x.hi]);
    }
    assert t.ign[..|t.ign|] == t.ign;
    blob := WriteEntries(blob, t.nfdi);
    blob := WriteEntries(blob, t.nfdicf);
    blob := blob + t.pool;
  }

  lemma EmptyRows()
    ensures Packed(ClassRows([])) == [] && Packed(BoundRows([])) == [] && Packed(EntryRows([])) == []
  {
  }

  method WriteEntries(pre: seq<Byte>, rows: seq<Entry>) returns (blob: seq<Byte>)
    ensures blob == pre + Packed(EntryRows(rows))
  {
    hide Packed, PackWords, EntryRows;
    blob := pre;
    EmptyRows();
    assert rows[..0] == [];
    for i := 0 to |rows|
      invariant blob == pre + Packed(EntryRows(rows[..i]))
    {
      var x := rows[i];
      assert EntryRows(rows[..i + 1]) == EntryRows(rows[..i]) + [[x.cp, x.off, x.len]];
      PackedSnoc(EntryRows(rows[..i]), [x.cp, x.off, x.len]);
      blob := blob + PackWords([x.cp, x.off, x.len]);
    }
    assert rows[..|rows|] == rows;
  }

  // ---- the reader --------------------------------------------------------

  datatype Opened = BadTable | Sections(ccc: seq<Byte>, ign: seq<Byte>, nfdi: seq<Byte>, nfdicf: seq<Byte>, pool: seq<Byte>, unicode: nat)

  function HeaderWord(data: seq<Byte>, i: nat): nat
    requires HEADER_LEN <= |data| && i < 8
  {
    Word(data, |MAGIC| + i * 4)
  }

  function Open(data: seq<Byte>): Opened {
    if |data| < HEADER_LEN || data[..|MAGIC|] != MAGIC then BadTable
    else if HeaderWord(data, 0) != FORMAT_VERSION then BadTable
    else
      var a := HEADER_LEN + HeaderWord(data, 2) * 12;
      if a > |data| then BadTable else
      var b := a + HeaderWord(data, 3) * 8;
      if b > |data| then BadTable else
      var c := b + HeaderWord(data, 4) * 12;
      if c > |data| then BadTable else
      var d := c + HeaderWord(data, 5) * 12;
      if d > |data| then BadTable else
      var e := d + HeaderWord(data, 6);
      if e > |data| then BadTable else
      Sections(data[HEADER_LEN..a], data[a..b], data[b..c], data[c..d], data[d..e], HeaderWord(data, 1))
  }

  /** The length the header announces. */
  ghost function Announced(data: seq<Byte>): nat
    requires HEADER_LEN <= |data|
  {
    HEADER_LEN + HeaderWord(data, 2) * 12 + HeaderWord(data, 3) * 8 + HeaderWord(data, 4) * 12 +
    HeaderWord(data, 5) * 12 + HeaderWord(data, 6)
  }

  /** The reader refuses exactly the blobs that are foreign or shorter than announced. */
  lemma OpenIff(data: seq<Byte>)
    ensures Open(data) != BadTable <==>
      |data| >= HEADER_LEN && data[..|MAGIC|] == MAGIC && HeaderWord(data, 0) == FORMAT_VERSION && Announced(data) <= |data|
  {
    hide Word;
  }

  lemma HeaderReads(t: Tables, rest: seq<Byte>)
    requires Writable(t)
    ensures forall i :: 0 <= i < 8 ==> HeaderWord(Head(t) + rest, i) == HeaderOf(t)[i]
  {
    hide Word, PackWords, Fits;
    forall i | 0 <= i < 8
      ensures HeaderWord(Head(t) + rest, i) == HeaderOf(t)[i]
    {
      PackedWord(HeaderOf(t), i);
      WordAfter(MAGIC, PackWords(HeaderOf(t)), i * 4);
      WordBefore(Head(t), rest, |MAGIC| + i * 4);
    }
  }

  lemma WordAfter(a: seq<Byte>, b: seq<Byte>, at: nat)
    requires at + 4 <= |b|
    ensures Word(a + b, |a| + at) == Word(b, at)
  {
  }

  lemma PackedLength(rows: seq<seq<nat>>, w: nat)
    requires Wide(rows, w)
    ensures |Packed(rows)| == 4 * (|rows| * w)
  {
    RowsLength(rows, w);
  }

  /** The sections of an image are the tables that went into it. */
  ghost function SectionsOf(t: Tables): Opened {
    Sections(Packed(ClassRows(t.ccc)), Packed(BoundRows(t.ign)), Packed(EntryRows(t.nfdi)), Packed(EntryRows(t.nfdicf)), t.pool, t.unicode)
  }

  lemma SectionLengths(t: Tables)
    ensures |Packed(ClassRows(t.ccc))| == |t.ccc| * 12 && |Packed(BoundRows(t.ign))| == |t.ign| * 8
    ensures |Packed(EntryRows(t.nfdi))| == |t.nfdi| * 12 && |Packed(EntryRows(t.nfdicf))| == |t.nfdicf| * 12
  {
    hide Packed;
    PackedLength(ClassRows(t.ccc), 3);
    PackedLength(BoundRows(t.ign), 2);
    PackedLength(EntryRows(t.nfdi), 3);
    PackedLength(EntryRows(t.nfdicf), 3);
  }

  lemma Cuts(h: seq<Byte>, a: seq<Byte>, b: seq<Byte>, c: seq<Byte>, d: seq<Byte>, e: seq<Byte>)
    ensures var x := h + (a + (b + (c + (d + e))));
      var i, j, k, l := |h| + |a|, |h| + |a| + |b|, |h| + |a| + |b| + |c|, |h| + |a| + |b| + |c| + |d|;
      x[|h|..i] == a && x[i..j] == b && x[j..k] == c && x[k..l] == d && x[l..l + |e|] == e && |x| == l + |e|
  {
    var r := c + (d + e);
    Cut(h, a, b + r);
    Assoc(h, a, b + r);
    Cut(h + a, b, r);
    Assoc(h + a, b, r);
    LastCuts(h + a + b, c, d, e);
  }

  lemma LastCuts(p: seq<Byte>, c: seq<Byte>, d: seq<Byte>, e: seq<Byte>)
    ensures var x := p + (c + (d + e));
      var j, k, l := |p|, |p| + |c|, |p| + |c| + |d|;
      x[j..k] == c && x[k..l] == d && x[l..l + |e|] == e && |x| == l + |e|
  {
    Cut(p, c, d + e);
    Assoc(p, c, d + e);
    Cut(p + c, d, e);
    Assoc(p + c, d, e);
    assert (p + c + d + e)[|p + c + d|..] == e;
  }

  lemma Assoc(a: seq<Byte>, b: seq<Byte>, c: seq<Byte>)
    ensures a + (b + c) == a + b + c
  {
  }

  lemma Cut(pre: seq<Byte>, x: seq<Byte>, post: seq<Byte>)
    ensures (pre + (x + post))[|pre|..|pre| + |x|] == x
  {
  }

  lemma OpensImage(t: Tables)
    requires Writable(t)
    ensures Open(Image(t)) == SectionsOf(t)
  {
    hide Word, Packed, Writable, Head, Open, ClassRows, BoundRows, EntryRows;
    var c, g, n, f := Packed(ClassRows(t.ccc)), Packed(BoundRows(t.ign)), Packed(EntryRows(t.nfdi)), Packed(EntryRows(t.nfdicf));
    var rest := c + (g + (n + (f + t.pool)));
    HeaderReads(t, rest);
    HeadIsMagic(t, rest);
    SectionLengths(t);
    Cuts(Head(t), c, g, n, f, t.pool);
    OpenIs(Image(t), |t.ccc|, |t.ign|, |t.nfdi|, |t.nfdicf|, |t.pool|);
  }

  /** What opening yields when the header announces these counts and the blob is long enough. */
  lemma OpenIs(data: seq<Byte>, c: nat, g: nat, n: nat, f: nat, p: nat)
    requires HEADER_LEN <= |data| && data[..|MAGIC|] == MAGIC && HeaderWord(data, 0) == FORMAT_VERSION
    requires HeaderWord(data, 2) == c && HeaderWord(data, 3) == g && HeaderWord(data, 4) == n
    requires HeaderWord(data, 5) == f && HeaderWord(data, 6) == p
    requires HEADER_LEN + c * 12 + g * 8 + n * 12 + f * 12 + p <= |data|
    ensures var i, j := HEADER_LEN + c * 12, HEADER_LEN + c * 12 + g * 8;
      var k, l := j + n * 12, j + n * 12 + f * 12;
      Open(data) == Sections(data[HEADER_LEN..i], data[i..j], data[j..k], data[k..l], data[l..l + p], HeaderWord(data, 1))
  {
    hide Word, HeaderWord;
  }

  lemma HeadIsMagic(t: Tables, rest: seq<Byte>)
    ensures (Head(t) + rest)[..|MAGIC|] == MAGIC
  {
    hide PackWords;
  }

  /** A blob cut short anywhere is refused. */
  lemma TruncatedIsRefused(t: Tables, n: nat)
    requires Writable(t) && n < |Image(t)|
    ensures Open(Image(t)[..n]) == BadTable
  {
    hide Word, Packed, Writable, Head, Open;
    var rest := Packed(ClassRows(t.ccc)) + (Packed(BoundRows(t.ign)) +
                (Packed(EntryRows(t.nfdi)) + (Packed(EntryRows(t.nfdicf)) + t.pool)));
    OpenIff(Image(t)[..n]);
    if n >= HEADER_LEN {
      SectionLengths(t);
      assert Image(t)[..n] == Head(t) + rest[..n - HEADER_LEN];
      HeaderReads(t, rest[..n - HEADER_LEN]);
    }
  }
}
