/** The kernel's lookups in the generated table, and that they answer as the Unicode data
    the generator started from. */
module BlobLookup {
  import opened Options
  import opened Utf8
  import opened Ranges
  import opened Blob
  import N = Normalizer
  import C = CanonicalOrder

  lemma HoldsClasses(ranges: seq<Range>)
    requires Fits(ClassRows(ranges))
    ensures HoldsRanges(Packed(ClassRows(ranges)), 3, ranges)
    ensures forall i :: 0 <= i < |ranges| ==>
      4 * (i * 3) + 12 <= |Packed(ClassRows(ranges))| && RowWord(Packed(ClassRows(ranges)), 3, i, 2) == ranges[i].cls
  {
    hide Packed, RowWord, ClassRows;
    var rows := ClassRows(ranges);
    PackedLength(rows, 3);
    forall i | 0 <= i < |ranges|
      ensures 4 * (i * 3) + 12 <= |Packed(rows)|
      ensures RowWord(Packed(rows), 3, i, 0) == ranges[i].lo && RowWord(Packed(rows), 3, i, 1) == ranges[i].hi
      ensures RowWord(Packed(rows), 3, i, 2) == ranges[i].cls
    {
      PackedRow(rows, 3, i, 0);
      PackedRow(rows, 3, i, 1);
      PackedRow(rows, 3, i, 2);
    }
  }

  lemma HoldsBounds(ranges: seq<Range>)
    requires Fits(BoundRows(ranges))
    ensures HoldsRanges(Packed(BoundRows(ranges)), 2, ranges)
  {
    hide Packed, RowWord, BoundRows;
    var rows := BoundRows(ranges);
    PackedLength(rows, 2);
    forall i | 0 <= i < |ranges|
      ensures 4 * (i * 2) + 8 <= |Packed(rows)|
      ensures RowWord(Packed(rows), 2, i, 0) == ranges[i].lo && RowWord(Packed(rows), 2, i, 1) == ranges[i].hi
    {
      PackedRow(rows, 2, i, 0);
      PackedRow(rows, 2, i, 1);
    }
  }

  lemma HoldsRows(entries: seq<Entry>)
    requires Fits(EntryRows(entries))
    ensures HoldsEntries(Packed(EntryRows(entries)), entries)
  {
    hide Packed, RowWord, EntryRows;
    var rows := EntryRows(entries);
    PackedLength(rows, 3);
    forall i | 0 <= i < |entries|
      ensures 4 * (i * 3) + 12 <= |Packed(rows)|
      ensures RowWord(Packed(rows), 3, i, 0) == entries[i].cp && RowWord(Packed(rows), 3, i, 1) == entries[i].off
      ensures RowWord(Packed(rows), 3, i, 2) == entries[i].len
    {
      PackedRow(rows, 3, i, 0);
      PackedRow(rows, 3, i, 1);
      PackedRow(rows, 3, i, 2);
    }
  }

  /** The class of a code point, cut to a byte; 0 for anything not in the table. */
  method Ccc(s: Opened, cp: nat, ghost ranges: seq<Range>) returns (k: nat)
    requires s.Sections? && s.ccc == Packed(ClassRows(ranges)) && Fits(ClassRows(ranges)) && Separated(ranges)
    ensures forall c: nat :: Has(ranges, cp, c) ==> k == c % 256
    ensures (forall c :: !Has(ranges, cp, c)) ==> k == 0
  {
    hide Packed, RowWord, ClassRows, Separated;
    HoldsClasses(ranges);
    var r := Search(s.ccc, 3, cp, ranges);
    if r == None {
      return 0;
    }
    k := RowWord(s.ccc, 3, r.value, 2) % 256;
    assert Has(ranges, cp, ranges[r.value].cls);
    forall c | Has(ranges, cp, c)
      ensures c == ranges[r.value].cls
    {
      OneClass(ranges, r.value, cp, c);
    }
  }

  method IsIgnorable(s: Opened, cp: nat, ghost ranges: seq<Range>) returns (b: bool)
    requires s.Sections? && s.ign == Packed(BoundRows(ranges)) && Fits(BoundRows(ranges)) && Separated(ranges)
    ensures b <==> exists c :: Has(ranges, cp, c)
  {
    hide Packed, RowWord, BoundRows, Separated;
    HoldsBounds(ranges);
    var r := Search(s.ign, 2, cp, ranges);
    if r != None {
      assert Has(ranges, cp, ranges[r.value].cls);
    }
    b := r != None;
  }

  datatype Form = Nfdi | Nfdicf

  datatype Expansion = Identity | Ignorable | Hangul | Pool(off: nat, end: nat)

  function EntriesOf(t: Tables, form: Form): seq<Entry> {
    if form == Nfdi then t.nfdi else t.nfdicf
  }

  method Expand(s: Opened, form: Form, cp: nat, ghost t: Tables) returns (e: Expansion)
    requires s == SectionsOf(t) && Writable(t) && Separated(t.ign) && Keyed(EntriesOf(t, form))
    ensures e == Ignorable <==> exists c :: Has(t.ign, cp, c)
    ensures e == Hangul <==> !(exists c :: Has(t.ign, cp, c)) && N.IsSyllable(cp)
    ensures e.Pool? <==> !(exists c :: Has(t.ign, cp, c)) && !N.IsSyllable(cp) && exists x :: x in EntriesOf(t, form) && x.cp == cp
    ensures e.Pool? ==> e.off <= e.end && Entry(cp, e.off, e.end - e.off) in EntriesOf(t, form)
  {
    hide Packed, RowWord, BoundRows, EntryRows, Separated, HoldsRanges, Has;
    var i := IsIgnorable(s, cp, t.ign);
    if i {
      return Ignorable;
    }
    if N.IsSyllable(cp) {
      return Hangul;
    }
    ghost var entries := EntriesOf(t, form);
    HoldsRows(entries);
    var tab := if form == Nfdi then s.nfdi else s.nfdicf;
    var r := SearchExact(tab, cp, entries);
    if r == None {
      return Identity;
    }
    var off, len := RowWord(tab, 3, r.value, 1), RowWord(tab, 3, r.value, 2);
    assert entries[r.value] == Entry(cp, off, len) && entries[r.value] in entries;
    return Pool(off, off + len);
  }

  // ---- from the Unicode data to the lookups ------------------------------

  /** The generator's input, each part in code point order: classes, ignorables, and the
      two expansion tables. */
  datatype Data = Data(ccc: seq<(nat, nat)>, di: seq<nat>, nfdi: seq<(nat, seq<nat>)>, nfdicf: seq<(nat, seq<nat>)>)

  ghost predicate SortedTable(table: seq<(nat, seq<nat>)>) {
    && (forall i, j :: 0 <= i < j < |table| ==> table[i].0 < table[j].0)
    && (forall i :: 0 <= i < |table| ==> Scalars(table[i].1))
  }

  ghost predicate Sorted(d: Data) {
    && Ascending(d.ccc) && (forall i, j :: 0 <= i < j < |d.di| ==> d.di[i] < d.di[j])
    && SortedTable(d.nfdi) && SortedTable(d.nfdicf)
  }

  function TableOf(d: Data, form: Form): seq<(nat, seq<nat>)> {
    if form == Nfdi then d.nfdi else d.nfdicf
  }

  /** db is the reference reader's view of the data. */
  ghost predicate Reflects(db: N.Db, d: Data, form: Form) {
    && (forall c :: c in db.di <==> c in d.di)
    && (forall c: nat :: c in db.ccc <==> (c, C.ClassOf(db.ccc, c)) in d.ccc)
    && (forall c: nat, k: nat :: (c, k) in d.ccc ==> c in db.ccc)
    && (forall e :: e in TableOf(d, form) ==> e.0 in db.table && db.table[e.0] == e.1)
    && (forall c: nat :: c in db.table ==> (c, db.table[c]) in TableOf(d, form))
  }

  function BytesOf(table: seq<(nat, seq<nat>)>): (r: seq<(nat, seq<Byte>)>)
    requires forall i :: 0 <= i < |table| ==> Scalars(table[i].1)
    ensures |r| == |table| && forall i :: 0 <= i < |r| ==> r[i] == (table[i].0, EncodeAll(table[i].1))
  {
    if table == [] then []
    else
      var e := table[|table| - 1];
      BytesOf(table[..|table| - 1]) + [(e.0, EncodeAll(e.1))]
  }

  /** Each row points at the bytes of its expansion. */
  ghost predicate Stored(rows: seq<Entry>, table: seq<(nat, seq<nat>)>, pool: seq<Byte>) {
    && |rows| == |table|
    && (forall i :: 0 <= i < |rows| ==>
          rows[i].cp == table[i].0 && rows[i].off + rows[i].len <= |pool| && Scalars(table[i].1) &&
          pool[rows[i].off..rows[i].off + rows[i].len] == EncodeAll(table[i].1))
  }

  /** t is what the generator makes of d. */
  ghost predicate Made(t: Tables, d: Data) {
    && Separated(t.ccc) && Exact(t.ccc, d.ccc)
    && Separated(t.ign) && Exact(t.ign, Marked(d.di))
    && Stored(t.nfdi, d.nfdi, t.pool) && Stored(t.nfdicf, d.nfdicf, t.pool)
  }

  lemma PointsStores(rows: seq<Entry>, table: seq<(nat, seq<nat>)>, pool: seq<Byte>, index: map<seq<Byte>, nat>, order: seq<seq<Byte>>)
    requires SortedTable(table) && Points(rows, BytesOf(table), index) && Pooled(pool, index, order)
    ensures Stored(rows, table, pool)
  {
    hide EncodeAll, Concat, BytesOf;
    forall i | 0 <= i < |rows|
      ensures rows[i].cp == table[i].0 && rows[i].off + rows[i].len <= |pool| && Scalars(table[i].1)
      ensures pool[rows[i].off..rows[i].off + rows[i].len] == EncodeAll(table[i].1)
    {
      assert At(pool, index[BytesOf(table)[i].1], BytesOf(table)[i].1);
    }
  }

  /** The generator's run: compress, pool, serialize. */
  method Generate(d: Data, unicode: nat) returns (blob: seq<Byte>, ghost t: Tables)
    requires Sorted(d)
    ensures blob == Image(t) && Made(t, d) && t.unicode == unicode
    ensures Maximal(t.ccc) && Maximal(t.ign)
  {
    hide Image, Separated, Exact, Maximal, Pooled, Points, Stored, BytesOf;
    var ccc := CompressCcc(d.ccc);
    var ign := Compress(d.di);
    var nfdi, nfdicf, pool, index, order := BuildPool(BytesOf(d.nfdi), BytesOf(d.nfdicf));
    PointsStores(nfdi, d.nfdi, pool, index, order);
    PointsStores(nfdicf, d.nfdicf, pool, index, order);
    var tables := Tables(unicode, ccc, ign, nfdi, nfdicf, pool);
    t := tables;
    blob := Serialize(tables);
  }

  lemma StoredKeyed(rows: seq<Entry>, table: seq<(nat, seq<nat>)>, pool: seq<Byte>)
    requires Stored(rows, table, pool) && SortedTable(table)
    ensures Keyed(rows)
  {
    hide EncodeAll;
  }

  lemma IgnorableMeans(d: Data, t: Tables, cp: nat)
    requires Made(t, d)
    ensures (exists c :: Has(t.ign, cp, c)) <==> cp in d.di
  {
    hide Has, Separated, Stored;
    if c: nat :| Has(t.ign, cp, c) {
      assert (cp, c) in Marked(d.di);
      var i :| 0 <= i < |d.di| && Marked(d.di)[i] == (cp, c);
      assert d.di[i] == cp;
    }
    if cp in d.di {
      var i :| 0 <= i < |d.di| && d.di[i] == cp;
      assert Marked(d.di)[i] == (cp, 0);
      assert Has(t.ign, cp, 0);
    }
  }

  lemma ClassMeans(db: N.Db, d: Data, form: Form, t: Tables, cp: nat, k: nat)
    requires Made(t, d) && Reflects(db, d, form)
    requires forall i :: 0 <= i < |d.ccc| ==> d.ccc[i].1 < 256
    requires forall c: nat :: Has(t.ccc, cp, c) ==> k == c % 256
    requires (forall c :: !Has(t.ccc, cp, c)) ==> k == 0
    ensures k == C.ClassOf(db.ccc, cp)
  {
    hide Has, Separated, Stored;
    if c: nat :| Has(t.ccc, cp, c) {
      assert (cp, c) in d.ccc;
      assert cp in db.ccc;
    }
    if cp in db.ccc {
      var c := C.ClassOf(db.ccc, cp);
      assert (cp, c) in d.ccc;
      var i :| 0 <= i < |d.ccc| && d.ccc[i] == (cp, c);
      assert Has(t.ccc, cp, c);
    }
  }

  lemma PoolMeans(db: N.Db, d: Data, form: Form, t: Tables, cp: nat, off: nat, end: nat)
    requires Made(t, d) && Reflects(db, d, form) && off <= end && Entry(cp, off, end - off) in EntriesOf(t, form)
    ensures end <= |t.pool| && cp in db.table && DecodeAll(t.pool[off..end]) == Text(db.table[cp])
  {
    hide EncodeAll, DecodeAll, Separated, Exact;
    var rows, table := EntriesOf(t, form), TableOf(d, form);
    assert Stored(rows, table, t.pool);
    var i :| 0 <= i < |rows| && rows[i] == Entry(cp, off, end - off);
    assert table[i] in table;
    DecodeAllEncodeAll(table[i].1);
  }

  lemma PresentMeans(db: N.Db, d: Data, form: Form, t: Tables, cp: nat)
    requires Made(t, d) && Reflects(db, d, form)
    ensures cp in db.table ==> exists x :: x in EntriesOf(t, form) && x.cp == cp
  {
    hide EncodeAll, Separated, Exact;
    var rows, table := EntriesOf(t, form), TableOf(d, form);
    assert Stored(rows, table, t.pool);
    if cp in db.table {
      assert (cp, db.table[cp]) in table;
      var i :| 0 <= i < |table| && table[i] == (cp, db.table[cp]);
      assert rows[i] in rows && rows[i].cp == cp;
    }
  }

  lemma MadeKeyed(t: Tables, d: Data, form: Form)
    requires Made(t, d) && Sorted(d)
    ensures Keyed(EntriesOf(t, form))
  {
    hide Stored, SortedTable, Exact;
    StoredKeyed(t.nfdi, d.nfdi, t.pool);
    StoredKeyed(t.nfdicf, d.nfdicf, t.pool);
  }

  /** s is the opened table of data d, which db reflects: what the kernel looks up in, and
      what it should find. */
  ghost predicate Serves(s: Opened, form: Form, t: Tables, d: Data, db: N.Db) {
    && s == SectionsOf(t) && Writable(t) && Sorted(d) && Made(t, d) && Reflects(db, d, form)
    && forall i :: 0 <= i < |d.ccc| ==> d.ccc[i].1 < 256
  }

  /** The class looked up is the reference reader's. */
  method ClassFound(s: Opened, form: Form, cp: nat, ghost t: Tables, ghost d: Data, ghost db: N.Db) returns (k: nat)
    requires Serves(s, form, t, d, db)
    ensures k == C.ClassOf(db.ccc, cp)
  {
    hide Packed, ClassRows, Has, Exact, Fits, Separated, Stored;
    k := Ccc(s, cp, t.ccc);
    ClassMeans(db, d, form, t, cp, k);
  }

  /** The expansion looked up is the reference reader's. */
  method ExpansionFound(s: Opened, form: Form, cp: nat, ghost t: Tables, ghost d: Data, ghost db: N.Db)
    returns (e: Expansion, chars: seq<nat>)
    requires Serves(s, form, t, d, db)
    ensures e == Ignorable <==> cp in db.di
    ensures e == Hangul <==> cp !in db.di && N.IsSyllable(cp)
    ensures e.Pool? <==> cp !in db.di && !N.IsSyllable(cp) && cp in db.table
    ensures e.Pool? ==> chars == db.table[cp]
  {
    hide Packed, BoundRows, EntryRows, Has, DecodeAll, Exact, Fits, Separated, Stored;
    MadeKeyed(t, d, form);
    e := Expand(s, form, cp, t);
    IgnorableMeans(d, t, cp);
    PresentMeans(db, d, form, t, cp);
    chars := [];
    if e.Pool? {
      PoolMeans(db, d, form, t, cp, e.off, e.end);
      chars := DecodeAll(s.pool[e.off..e.end]).cps;
    }
  }

  /** Through the blob and back: the kernel's answers about a code point are those of the
      reference reader on the data the blob was generated from. */
  method Lookup(blob: seq<Byte>, form: Form, cp: nat, ghost t: Tables, ghost d: Data, ghost db: N.Db)
    returns (k: nat, chars: seq<nat>)
    requires blob == Image(t) && Serves(SectionsOf(t), form, t, d, db)
    ensures k == C.ClassOf(db.ccc, cp)
    ensures chars == N.Expand(db, cp)
  {
    hide Image, Open, Writable, Sorted, Made, Reflects, N.HangulDecompose;
    OpensImage(t);
    var s := Open(blob);
    k := ClassFound(s, form, cp, t, d, db);
    var e, pooled := ExpansionFound(s, form, cp, t, d, db);
    match e {
      case Ignorable => chars := [];
      case Hangul => chars := N.HangulDecompose(cp);
      case Identity => chars := [cp];
      case Pool(_, _) => chars := pooled;
    }
  }

  lemma ServedClasses(s: Opened, form: Form, t: Tables, d: Data, db: N.Db, cp: nat)
    requires Serves(s, form, t, d, db)
    ensures C.ClassOf(db.ccc, cp) <= 255
  {
    hide Writable, Made, Sorted;
    if cp in db.ccc {
      assert (cp, C.ClassOf(db.ccc, cp)) in d.ccc;
    }
  }
}
