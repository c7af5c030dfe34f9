/** What holds of the ledger and the archive over every run of the tool. */
module LedgerTheorems {
  import opened Text
  import opened LedgerText
  import opened LedgerIds
  import opened Ledger
  import opened LedgerRuns

  /** Every row shows its id where the id finder looks for it. */
  ghost predicate Visible(lines: seq<string>) {
    forall l :: l in lines && IsRow(l) ==> StartsWithId(l, Key(RowCells(l)))
  }

  /** The rows of both files. */
  ghost function All(f: Files): seq<seq<string>> {
    RowsOf(f.ledger) + RowsOf(f.archive)
  }

  /** The ledger passes the check, ids are visible, and no id stands twice, in one file or
      in both; the archive holds what is fixed. */
  ghost predicate Good(f: Files) {
    && Checked(f.ledger) && Visible(f.ledger) && Visible(f.archive) && DistinctIds(All(f))
    && (forall c :: c in RowsOf(f.archive) ==> WellId(Key(c)) && Kw(c) == "FIXED")
  }

  // ---- the rows each operation leaves ------------------------------------

  lemma ApplyAdd(f: Files, op: Op)
    requires op.Add? && Accepts(f, op)
    ensures Allowed(f, op)
    ensures Apply(f, op) == Files(SetCount(Insert(f.ledger, InsertAt(f.ledger), Fmt(NewRow(f, op)))), f.archive)
  {
    hide SetCount, Fmt, NewRow, InsertAt, Insert, Allowed, Countable;
  }

  lemma ApplyClaim(f: Files, op: Op, k: nat)
    requires op.Claim? && Accepts(f, op) && k == FindRow(f.ledger, op.rid)
    ensures k < |f.ledger| && |RowCells(f.ledger[k])| >= 5 && Kw(RowCells(f.ledger[k])) == "OPEN"
    ensures Apply(f, op) == Files(SetCount(f.ledger[k := Fmt(Claimed(RowCells(f.ledger[k]), op.branch, op.date))]), f.archive)
  {
    hide SetCount, Fmt, Claimed, RowCells, Kw, FindRow, Countable;
  }

  lemma ApplyFix(f: Files, op: Op, k: nat)
    requires op.Fix? && Accepts(f, op) && k == FindRow(f.ledger, op.rid)
    ensures k < |f.ledger| && |RowCells(f.ledger[k])| >= 2
    ensures Apply(f, op) == Files(SetCount(Delete(f.ledger, k)), f.archive + [Fmt(Fixed(RowCells(f.ledger[k]), op.sha))])
  {
    hide SetCount, Fmt, Fixed, RowCells, FindRow, Delete, Countable, Word, LStrip;
  }

  lemma InsertedRow(lines: seq<string>, k: nat, l: string)
    requires k <= |lines| && IsRow(l) && RowsOf(lines[k..]) == []
    ensures RowsOf(SetCount(Insert(lines, k, l))) == RowsOf(lines) + [RowCells(l)]
  {
    hide RowsOf, IsRow, RowCells, SetCount, Insert;
    RowsInsert(lines, k, l);
    SetCountRows(Insert(lines, k, l));
    NothingBehind(RowsOf(lines[..k]), RowCells(l));
  }

  lemma NothingBehind(a: seq<seq<string>>, d: seq<string>)
    ensures a + [d] + [] == a + [] + [d]
  {
  }

  lemma AddRows(f: Files, op: Op)
    requires op.Add? && Accepts(f, op)
    ensures RowsOf(Apply(f, op).ledger) == RowsOf(f.ledger) + [NewRow(f, op)]
  {
    hide *;
    ApplyAdd(f, op);
    NewRowFits(f, op);
    RowLength(f, op);
    WrittenRow(NewRow(f, op));
    InsertsBehindRows(f.ledger);
    InsertedRow(f.ledger, InsertAt(f.ledger), Fmt(NewRow(f, op)));
  }

  lemma RowLength(f: Files, op: Op)
    requires op.Add?
    ensures |NewRow(f, op)| == 7
  {
  }

  lemma InsertsBehindRows(lines: seq<string>)
    ensures RowsOf(lines[InsertAt(lines)..]) == []
  {
    hide RowsOf, AfterRows, IndexOf;
    NoRowsBehind(lines);
    var k := InsertAt(lines);
    if AfterRows(lines) == 0 {
      RowsConcat(lines[..k], lines[k..]);
      assert lines == lines[..k] + lines[k..];
    }
  }

  /** The row found, with the rows before and behind it. */
  lemma AroundRow(f: Files, k: nat)
    requires Checked(f.ledger) && k < |f.ledger| && IsRow(f.ledger[k])
    ensures var c := RowCells(f.ledger[k]);
      c in RowsOf(f.ledger) && RowFine(c) && AllSafe(c) && Strips(c) == c
    ensures RowsOf(f.ledger) == RowsOf(f.ledger[..k]) + [RowCells(f.ledger[k])] + RowsOf(f.ledger[k + 1..])
  {
    hide RowsOf, RowFine, AllSafe, Strips, Visible, Frame, CountLine, DistinctIds, Kw;
    RowsDelete(f.ledger, k);
    var c := RowCells(f.ledger[k]);
    assert c in RowsOf(f.ledger[..k]) + [c] + RowsOf(f.ledger[k + 1..]);
    CellsAreSafe(f.ledger[k]);
  }

  lemma ClaimRows(f: Files, op: Op, k: nat)
    requires op.Claim? && Checked(f.ledger) && CleanOp(op) && Accepts(f, op) && k == FindRow(f.ledger, op.rid)
    ensures k < |f.ledger| && RowFine(RowCells(f.ledger[k]))
    ensures var d := Strips(Claimed(RowCells(f.ledger[k]), op.branch, op.date));
      RowsOf(Apply(f, op).ledger) == RowsOf(f.ledger[..k]) + [d] + RowsOf(f.ledger[k + 1..]) && RowFine(d)
    ensures var l := Fmt(Claimed(RowCells(f.ledger[k]), op.branch, op.date));
      IsRow(l) && StartsWithId(l, Key(RowCells(l))) && Apply(f, op).ledger == SetCount(f.ledger[k := l])
  {
    hide *;
    ApplyClaim(f, op, k);
    FoundIsRow(f.ledger, k, op.rid);
    AroundRow(f, k);
    var c := RowCells(f.ledger[k]);
    FineIsSeven(c);
    var d := Claimed(c, op.branch, op.date);
    CleanClaim(op);
    ClaimedFits(c, op.branch, op.date);
    ClaimedLength(c, op.branch, op.date);
    WrittenRow(d);
    KeyIsFirst(RowCells(Fmt(d)));
    ReplacedRow(f.ledger, k, Fmt(d));
  }

  lemma KeyIsFirst(c: seq<string>)
    requires c != []
    ensures Key(c) == c[0]
  {
  }

  lemma CleanClaim(op: Op)
    requires op.Claim? && CleanOp(op)
    ensures PipeSafe(op.branch) && PipeSafe(op.date)
  {
  }

  lemma FoundIsRow(lines: seq<string>, k: nat, rid: string)
    requires k == FindRow(lines, rid) && k < |lines|
    ensures IsRow(lines[k]) && Key(RowCells(lines[k])) == rid
  {
  }

  lemma ReplacedRow(lines: seq<string>, k: nat, l: string)
    requires k < |lines| && IsRow(l)
    ensures RowsOf(SetCount(lines[k := l])) == RowsOf(lines[..k]) + [RowCells(l)] + RowsOf(lines[k + 1..])
  {
    hide RowsOf, IsRow, RowCells, SetCount;
    SetCountRows(lines[k := l]);
    var cut := Delete(lines, k);
    assert lines[k := l] == Insert(cut, k, l) && cut[..k] == lines[..k] && cut[k..] == lines[k + 1..];
    RowsInsert(cut, k, l);
  }

  lemma FineIsSeven(c: seq<string>)
    requires RowFine(c)
    ensures |c| == 7 && WellId(c[0])
  {
  }

  lemma ClaimedLength(c: seq<string>, branch: string, date: string)
    requires |c| >= 5
    ensures |Claimed(c, branch, date)| == |c| && Claimed(c, branch, date)[0] == c[0]
  {
  }

  lemma FixRows(f: Files, op: Op, k: nat)
    requires op.Fix? && Checked(f.ledger) && CleanOp(op) && Accepts(f, op) && k == FindRow(f.ledger, op.rid)
    ensures k < |f.ledger| && RowFine(RowCells(f.ledger[k]))
    ensures RowsOf(Apply(f, op).ledger) == RowsOf(f.ledger[..k]) + RowsOf(f.ledger[k + 1..])
    ensures var d := Strips(Fixed(RowCells(f.ledger[k]), op.sha));
      RowsOf(Apply(f, op).archive) == RowsOf(f.archive) + [d] && Key(d) == Key(RowCells(f.ledger[k])) && Kw(d) == "FIXED"
    ensures var l := Fmt(Fixed(RowCells(f.ledger[k]), op.sha));
      IsRow(l) && StartsWithId(l, Key(RowCells(l))) && Apply(f, op).archive == f.archive + [l]
  {
    assert PipeSafe(op.sha);
    hide *;
    ApplyFix(f, op, k);
    FoundIsRow(f.ledger, k, op.rid);
    AroundRow(f, k);
    var c := RowCells(f.ledger[k]);
    FineIsSeven(c);
    var d := Fixed(c, op.sha);
    FixedFits(c, op.sha);
    FixedLength(c, op.sha);
    WrittenRow(d);
    KeyIsFirst(RowCells(Fmt(d)));
    KeyIsFirst(c);
    RowsDelete(f.ledger, k);
    SetCountRows(Delete(f.ledger, k));
    RowsConcat(f.archive, [Fmt(d)]);
    RowsOne(Fmt(d));
  }

  lemma FixedLength(c: seq<string>, sha: string)
    requires |c| >= 2
    ensures |Fixed(c, sha)| == |c| && Fixed(c, sha)[0] == c[0]
  {
  }

  // ---- ids ---------------------------------------------------------------

  /** A visible row's number is counted. */
  lemma RowIsCounted(lines: seq<string>, c: seq<string>)
    requires Visible(lines) && c in RowsOf(lines) && WellId(Key(c))
    ensures Number(Key(c)) <= Largest(lines)
  {
    hide RowsOf, IsRow, RowCells, StartsWithId, Largest, WellId, Number;
    RowsMember(lines, c);
    var l :| l in lines && IsRow(l) && RowCells(l) == c;
    SeenId(l, Key(c));
    var i :| 0 <= i < |lines| && lines[i] == l;
    LargestBounds(lines, i);
  }

  lemma AllIdsWell(f: Files, c: seq<string>)
    requires Good(f) && c in All(f)
    ensures WellId(Key(c))
  {
    hide RowsOf, Visible, Frame, CountLine, DistinctIds, Kw;
    if c in RowsOf(f.ledger) {
      assert RowFine(c);
    }
  }

  /** The next id is above every id in either file. */
  lemma NextIsAbove(f: Files, c: seq<string>)
    requires Good(f) && c in All(f)
    ensures WellId(Key(c)) && Number(Key(c)) < NextNumber(f.ledger, f.archive)
  {
    hide RowsOf, Visible, Checked, DistinctIds, Largest, WellId, Number, Kw;
    AllIdsWell(f, c);
    if c in RowsOf(f.ledger) {
      RowIsCounted(f.ledger, c);
    } else {
      RowIsCounted(f.archive, c);
    }
  }

  // ---- what each operation keeps -----------------------------------------

  /** The escaped evidence of an addition is within the cap. */
  ghost predicate WithinCap(op: Op) {
    op.Add? ==> |Esc(op.evidence)| <= EVIDENCE_CAP
  }

  lemma DistinctInsert(a: seq<seq<string>>, b: seq<seq<string>>, d: seq<string>)
    requires DistinctIds(a + b) && forall c :: c in a + b ==> Key(c) != Key(d)
    ensures DistinctIds(a + [d] + b)
  {
    hide Key;
    var s, t := a + b, a + [d] + b;
    forall i, j | 0 <= i < j < |t|
      ensures Key(t[i]) != Key(t[j])
    {
      assert forall k :: 0 <= k < |a| ==> t[k] == s[k];
      assert forall k :: |a| < k < |t| ==> t[k] == s[k - 1];
    }
  }

  /** A row replaced by one of the same id. */
  lemma DistinctReplace(a: seq<seq<string>>, b: seq<seq<string>>, c: seq<string>, d: seq<string>)
    requires DistinctIds(a + [c] + b) && Key(c) == Key(d)
    ensures DistinctIds(a + [d] + b)
  {
    hide Key;
    var s, t := a + [c] + b, a + [d] + b;
    assert forall k :: 0 <= k < |t| ==> Key(t[k]) == Key(s[k]);
  }

  /** A row taken from the middle and put at the end, same id. */
  lemma DistinctMove(a: seq<seq<string>>, b: seq<seq<string>>, c: seq<string>, d: seq<string>, e: seq<seq<string>>)
    requires DistinctIds(a + [c] + b + e) && Key(c) == Key(d)
    ensures DistinctIds(a + b + (e + [d]))
  {
    hide Key;
    var s, t := a + [c] + b + e, a + b + (e + [d]);
    var n := |t| - 1;
    forall i, j | 0 <= i < j < |t|
      ensures Key(t[i]) != Key(t[j])
    {
      var x := if i < |a| then i else i + 1;
      assert t[i] == s[x];
      if j < n {
        assert t[j] == s[if j < |a| then j else j + 1];
      } else {
        assert t[j] == d && s[|a|] == c;
      }
    }
  }

  lemma AddKeepsGood(f: Files, op: Op)
    requires op.Add? && Good(f) && Accepts(f, op) && WithinCap(op)
    ensures Good(Apply(f, op))
  {
    hide *;
    ApplyAdd(f, op);
    AddRows(f, op);
    NewRowFits(f, op);
    RowLength(f, op);
    var row, k := NewRow(f, op), InsertAt(f.ledger);
    WrittenRow(row);
    KeyIsFirst(RowCells(Fmt(row)));
    NewIsDistinct(f, op);
    AllIs(Apply(f, op));
    GoodHas(f);
    AddChecks(f, op);
    OneMoreLine(f.ledger, k, Fmt(row));
    VisibleAfter(f.ledger, Insert(f.ledger, k, Fmt(row)), Fmt(row));
    GoodStill(f, Apply(f, op));
  }

  lemma OneMoreLine(lines: seq<string>, k: nat, l: string)
    requires k <= |lines|
    ensures forall x :: x in Insert(lines, k, l) ==> x in lines || x == l
  {
  }

  lemma AddChecks(f: Files, op: Op)
    requires op.Add? && Checked(f.ledger) && Accepts(f, op) && WithinCap(op)
    requires DistinctIds(RowsOf(f.ledger) + [NewRow(f, op)])
    ensures Checked(Apply(f, op).ledger)
  {
    hide RowsOf, IsRow, RowCells, Fmt, AllSafe, Strips, SetCount, InsertAt, NewRow, WellId, StartsWithId, Frame, CountLine, RowFine, Visible;
    AddRows(f, op);
    NewRowFits(f, op);
    RowLength(f, op);
    var row, k := NewRow(f, op), InsertAt(f.ledger);
    FmtStarts(row);
    FrameInsert(f.ledger, k, Fmt(row));
    var lines := Insert(f.ledger, k, Fmt(row));
    SetCountRows(lines);
    SetCountChecks(lines);
  }

  lemma NewIsDistinct(f: Files, op: Op)
    requires op.Add? && Good(f)
    ensures DistinctIds(RowsOf(f.ledger) + [NewRow(f, op)] + RowsOf(f.archive))
    ensures DistinctIds(RowsOf(f.ledger) + [NewRow(f, op)])
  {
    hide RowsOf, Visible, Checked, NextNumber, IdText, WellId, Number, Esc;
    var row := NewRow(f, op);
    IdTextFacts(NextNumber(f.ledger, f.archive));
    forall c | c in All(f)
      ensures Key(c) != Key(row)
    {
      NextIsAbove(f, c);
    }
    DistinctInsert(RowsOf(f.ledger), RowsOf(f.archive), row);
    Front(RowsOf(f.ledger) + [row], RowsOf(f.archive));
  }

  lemma Front(a: seq<seq<string>>, b: seq<seq<string>>)
    requires DistinctIds(a + b)
    ensures DistinctIds(a)
  {
    hide Key;
    assert forall k :: 0 <= k < |a| ==> (a + b)[k] == a[k];
  }

  /** Counting anew and one more visible line leave every row visible. */
  lemma VisibleAfter(old0: seq<string>, lines: seq<string>, l: string)
    requires Visible(old0) && (forall x :: x in lines ==> x in old0 || x == l)
    requires IsRow(l) ==> StartsWithId(l, Key(RowCells(l)))
    ensures Visible(SetCount(lines))
  {
    hide IsRow, RowCells, StartsWithId, SetCount;
    SetCountRows(lines);
  }

  lemma ClaimKeepsGood(f: Files, op: Op)
    requires op.Claim? && Good(f) && CleanOp(op) && Accepts(f, op)
    ensures Good(Apply(f, op))
  {
    hide *;
    GoodHas(f);
    var k := FindRow(f.ledger, op.rid);
    ClaimRows(f, op, k);
    FoundIsRow(f.ledger, k, op.rid);
    AroundRow(f, k);
    var c := RowCells(f.ledger[k]);
    FineIsSeven(c);
    CleanClaim(op);
    ClaimedFits(c, op.branch, op.date);
    ClaimedLength(c, op.branch, op.date);
    var d, l := Strips(Claimed(c, op.branch, op.date)), Fmt(Claimed(c, op.branch, op.date));
    WrittenRow(Claimed(c, op.branch, op.date));
    KeyIsFirst(c);
    KeyIsFirst(d);
    ApplyClaim(f, op, k);
    ClaimDistinct(f, k, d, Apply(f, op));
    ClaimChecks(f, op, k, l);
    StillThere(f.ledger, k, l);
    VisibleAfter(f.ledger, f.ledger[k := l], l);
    GoodStill(f, Apply(f, op));
  }

  lemma GoodHas(f: Files)
    requires Good(f)
    ensures Visible(f.ledger) && Visible(f.archive) && DistinctIds(All(f)) && Checked(f.ledger)
  {
    hide Visible, DistinctIds, Checked, Kw;
  }

  lemma GoodStill(f: Files, v: Files)
    requires Good(f) && v.archive == f.archive && Checked(v.ledger) && Visible(v.ledger) && DistinctIds(All(v))
    ensures Good(v)
  {
    hide Visible, DistinctIds, Checked, Kw;
  }

  lemma StillThere(lines: seq<string>, k: nat, l: string)
    requires k < |lines|
    ensures forall x :: x in lines[k := l] ==> x in lines || x == l
    ensures forall x :: x in Delete(lines, k) ==> x in lines
  {
  }

  lemma ClaimDistinct(f: Files, k: nat, d: seq<string>, v: Files)
    requires Good(f) && k < |f.ledger| && IsRow(f.ledger[k]) && Key(d) == Key(RowCells(f.ledger[k]))
    requires RowsOf(v.ledger) == RowsOf(f.ledger[..k]) + [d] + RowsOf(f.ledger[k + 1..]) && RowsOf(v.archive) == RowsOf(f.archive)
    ensures DistinctIds(All(v)) && DistinctIds(RowsOf(v.ledger))
  {
    hide *;
    GoodHas(f);
    AroundRow(f, k);
    AllIs(f);
    AllIs(v);
    var c := RowCells(f.ledger[k]);
    var a, b, e := RowsOf(f.ledger[..k]), RowsOf(f.ledger[k + 1..]), RowsOf(f.archive);
    Regroup(a, c, b, e);
    Regroup(a, d, b, e);
    DistinctReplace(a, b + e, c, d);
    Front(a + [d] + b, e);
  }

  lemma AllIs(f: Files)
    ensures All(f) == RowsOf(f.ledger) + RowsOf(f.archive)
  {
  }

  lemma Regroup(a: seq<seq<string>>, c: seq<string>, b: seq<seq<string>>, e: seq<seq<string>>)
    ensures a + [c] + b + e == a + [c] + (b + e)
  {
  }

  lemma ClaimChecks(f: Files, op: Op, k: nat, l: string)
    requires Checked(f.ledger) && k < |f.ledger| && IsRow(f.ledger[k]) && IsRow(l)
    requires Apply(f, op).ledger == SetCount(f.ledger[k := l])
    requires RowsOf(Apply(f, op).ledger) == RowsOf(f.ledger[..k]) + [RowCells(l)] + RowsOf(f.ledger[k + 1..])
    requires RowFine(RowCells(l)) && DistinctIds(RowsOf(Apply(f, op).ledger))
    ensures Checked(Apply(f, op).ledger)
  {
    hide RowsOf, RowCells, Cells, SetCount, RowFine, Frame, CountLine, Apply, Visible, Kw;
    FrameDelete(f.ledger, k);
    var cut := Delete(f.ledger, k);
    FrameInsert(cut, k, l);
    assert f.ledger[k := l] == Insert(cut, k, l);
    SetCountRows(f.ledger[k := l]);
    AroundRow(f, k);
    SetCountChecks(f.ledger[k := l]);
  }

  lemma FixKeepsGood(f: Files, op: Op)
    requires op.Fix? && Good(f) && CleanOp(op) && Accepts(f, op)
    ensures Good(Apply(f, op))
  {
    hide *;
    GoodHas(f);
    var k := FindRow(f.ledger, op.rid);
    FixRows(f, op, k);
    FoundIsRow(f.ledger, k, op.rid);
    ApplyFix(f, op, k);
    var l := Fmt(Fixed(RowCells(f.ledger[k]), op.sha));
    var d := Strips(Fixed(RowCells(f.ledger[k]), op.sha));
    FixDistinct(f, k, d, Apply(f, op));
    FixChecks(f, op, k);
    StillThere(f.ledger, k, f.ledger[k]);
    ItselfVisible(f.ledger, k);
    VisibleAfter(f.ledger, Delete(f.ledger, k), f.ledger[k]);
    VisibleMore(f.archive, l);
    AroundRow(f, k);
    FineIsSeven(RowCells(f.ledger[k]));
    KeyIsFirst(RowCells(f.ledger[k]));
    GoodFixed(f, Apply(f, op), d);
  }

  lemma ItselfVisible(lines: seq<string>, k: nat)
    requires Visible(lines) && k < |lines|
    ensures IsRow(lines[k]) ==> StartsWithId(lines[k], Key(RowCells(lines[k])))
  {
    hide IsRow, RowCells, StartsWithId, Key;
  }

  lemma VisibleMore(lines: seq<string>, l: string)
    requires Visible(lines) && StartsWithId(l, Key(RowCells(l)))
    ensures Visible(lines + [l])
  {
    hide IsRow, RowCells, StartsWithId, Key;
  }

  lemma GoodFixed(f: Files, v: Files, d: seq<string>)
    requires Good(f) && RowsOf(v.archive) == RowsOf(f.archive) + [d] && WellId(Key(d)) && Kw(d) == "FIXED"
    requires Checked(v.ledger) && Visible(v.ledger) && Visible(v.archive) && DistinctIds(All(v))
    ensures Good(v)
  {
    hide Visible, DistinctIds, Checked, Kw, RowsOf, Key, WellId;
  }

  lemma FixDistinct(f: Files, k: nat, d: seq<string>, v: Files)
    requires Good(f) && k < |f.ledger| && IsRow(f.ledger[k]) && Key(d) == Key(RowCells(f.ledger[k]))
    requires RowsOf(v.ledger) == RowsOf(f.ledger[..k]) + RowsOf(f.ledger[k + 1..]) && RowsOf(v.archive) == RowsOf(f.archive) + [d]
    ensures DistinctIds(All(v)) && DistinctIds(RowsOf(v.ledger))
  {
    hide RowsOf, RowCells, IsRow, DistinctIds, Good, Key;
    GoodHas(f);
    AroundRow(f, k);
    var a, b, e := RowsOf(f.ledger[..k]), RowsOf(f.ledger[k + 1..]), RowsOf(f.archive);
    DistinctMove(a, b, RowCells(f.ledger[k]), d, e);
    Front(a + b, e + [d]);
  }

  lemma FixChecks(f: Files, op: Op, k: nat)
    requires Checked(f.ledger) && k < |f.ledger| && IsRow(f.ledger[k])
    requires Apply(f, op).ledger == SetCount(Delete(f.ledger, k))
    requires RowsOf(Apply(f, op).ledger) == RowsOf(f.ledger[..k]) + RowsOf(f.ledger[k + 1..])
    requires DistinctIds(RowsOf(Apply(f, op).ledger))
    ensures Checked(Apply(f, op).ledger)
  {
    hide RowsOf, RowCells, Cells, SetCount, RowFine, Frame, CountLine, Apply, Visible, Kw;
    FrameDelete(f.ledger, k);
    SetCountRows(Delete(f.ledger, k));
    AroundRow(f, k);
    SetCountChecks(Delete(f.ledger, k));
  }

  /** Every operation keeps a good ledger good. */
  lemma ApplyKeepsGood(f: Files, op: Op)
    requires Good(f) && CleanOp(op) && WithinCap(op)
    ensures Good(Apply(f, op))
  {
    hide Good, CleanOp, WithinCap;
    if Accepts(f, op) {
      match op {
        case Add(_, _, _, _, _) => AddKeepsGood(f, op);
        case Claim(_, _, _) => ClaimKeepsGood(f, op);
        case Fix(_, _) => FixKeepsGood(f, op);
      }
    }
  }

  /** An accepted addition leaves a ledger that passes the check exactly when the evidence
      is still within the cap after escaping, which the tool measures before, and no row of
      the ledger has the id it issues. */
  lemma AddPassesIff(f: Files, op: Op)
    requires op.Add? && Checked(f.ledger) && Accepts(f, op)
    ensures Checked(Apply(f, op).ledger) <==>
      && |Esc(op.evidence)| <= EVIDENCE_CAP
      && forall c :: c in RowsOf(f.ledger) ==> Key(c) != IdText(NextNumber(f.ledger, f.archive))
  {
    hide RowsOf, Apply, Checked, RowFine, Esc, NewRow, Accepts, DistinctIds, IdText, NextNumber, Key;
    var rows, row := RowsOf(f.ledger), NewRow(f, op);
    AddRows(f, op);
    ApplyAdd(f, op);
    NewRowFits(f, op);
    NewKey(f, op);
    CheckedHas(f.ledger);
    if WithinCap(op) && forall c :: c in rows ==> Key(c) != Key(row) {
      assert rows + [] == rows && rows + [row] + [] == rows + [row];
      DistinctInsert(rows, [], row);
      AddChecks(f, op);
    } else if Checked(Apply(f, op).ledger) {
      CheckedHas(Apply(f, op).ledger);
      assert row in rows + [row];
      LastIsNew(rows, row);
    }
  }

  lemma LastIsNew(rows: seq<seq<string>>, row: seq<string>)
    requires DistinctIds(rows + [row])
    ensures forall c :: c in rows ==> Key(c) != Key(row)
  {
    hide Key;
    var all := rows + [row];
    forall c | c in rows
      ensures Key(c) != Key(row)
    {
      var i :| 0 <= i < |rows| && rows[i] == c;
      assert all[i] == c && all[|rows|] == row;
    }
  }

  lemma NewKey(f: Files, op: Op)
    requires op.Add?
    ensures Key(NewRow(f, op)) == IdText(NextNumber(f.ledger, f.archive))
  {
    hide IdText, NextNumber, Esc;
  }

  lemma CheckedHas(lines: seq<string>)
    requires Checked(lines)
    ensures DistinctIds(RowsOf(lines)) && forall c :: c in RowsOf(lines) ==> RowFine(c)
  {
    hide DistinctIds, RowsOf, RowFine, Frame, CountLine;
  }

  lemma ClaimKeepsChecked(f: Files, op: Op)
    requires op.Claim? && Checked(f.ledger) && CleanOp(op) && Accepts(f, op)
    ensures Checked(Apply(f, op).ledger)
  {
    hide *;
    var k := FindRow(f.ledger, op.rid);
    ClaimRows(f, op, k);
    FoundIsRow(f.ledger, k, op.rid);
    AroundRow(f, k);
    var c := RowCells(f.ledger[k]);
    FineIsSeven(c);
    CleanClaim(op);
    ClaimedFits(c, op.branch, op.date);
    ClaimedLength(c, op.branch, op.date);
    var d := Claimed(c, op.branch, op.date);
    WrittenRow(d);
    KeyIsFirst(c);
    KeyIsFirst(Strips(d));
    CheckedHas(f.ledger);
    DistinctReplace(RowsOf(f.ledger[..k]), RowsOf(f.ledger[k + 1..]), c, Strips(d));
    ClaimChecks(f, op, k, Fmt(d));
  }

  lemma FixKeepsChecked(f: Files, op: Op)
    requires op.Fix? && Checked(f.ledger) && Accepts(f, op)
    ensures Checked(Apply(f, op).ledger)
  {
    hide *;
    var k := FindRow(f.ledger, op.rid);
    ApplyFix(f, op, k);
    FoundIsRow(f.ledger, k, op.rid);
    AroundRow(f, k);
    var c, a, b := RowCells(f.ledger[k]), RowsOf(f.ledger[..k]), RowsOf(f.ledger[k + 1..]);
    CheckedHas(f.ledger);
    NoneBehind(a + [c] + b);
    DistinctMove(a, b, c, c, []);
    Front(a + b, [] + [c]);
    RowsDelete(f.ledger, k);
    SetCountRows(Delete(f.ledger, k));
    FixChecks(f, op, k);
  }

  lemma NoneBehind(a: seq<seq<string>>)
    ensures a + [] == a
  {
  }

  /** The claim text is safe only if the branch and the date are. */
  lemma ClaimTextOnly(c: seq<string>, branch: string, date: string)
    requires |c| >= 5 && AllSafe(Claimed(c, branch, date))
    ensures PipeSafe(branch) && PipeSafe(date)
  {
    hide SafeAfter;
    var d := Claimed(c, branch, date);
    assert PipeSafe(d[1]) && PipeSafe(d[4]);
    SafeSuffix("IN-PROGRESS ", branch, ' ');
    var front := "[CLAIMED " + branch + " ";
    assert d[4] == front + (date + ("] " + c[4]));
    SafeSuffix(front, date + ("] " + c[4]), ' ');
    PrefixSafe(date + ("] " + c[4]), |date|, ' ');
    assert (date + ("] " + c[4]))[..|date|] == date;
  }

  /** An accepted claim leaves a ledger that passes the check exactly when the pipes of the
      branch, and of the date, are escaped: the tool does not escape them. */
  lemma ClaimPassesIff(f: Files, op: Op)
    requires op.Claim? && Checked(f.ledger) && Accepts(f, op)
    ensures Checked(Apply(f, op).ledger) <==> PipeSafe(op.branch) && PipeSafe(op.date)
  {
    if PipeSafe(op.branch) && PipeSafe(op.date) {
      assert CleanOp(op);
      hide *;
      ClaimKeepsChecked(f, op);
    } else {
      hide *;
      var k := FindRow(f.ledger, op.rid);
      ApplyClaim(f, op, k);
      FoundIsRow(f.ledger, k, op.rid);
      AroundRow(f, k);
      var c := RowCells(f.ledger[k]);
      FineIsSeven(c);
      var d := Claimed(c, op.branch, op.date);
      ClaimedLength(c, op.branch, op.date);
      ClaimTextUnsafe(c, op.branch, op.date);
      BrokenRow(d);
      ReplacedRow(f.ledger, k, Fmt(d));
      BadRowFails(Apply(f, op).ledger, RowCells(Fmt(d)));
    }
  }

  lemma ClaimTextUnsafe(c: seq<string>, branch: string, date: string)
    requires |c| >= 5 && !(PipeSafe(branch) && PipeSafe(date))
    ensures !AllSafe(Claimed(c, branch, date))
  {
    hide AllSafe, PipeSafe, Claimed;
    if AllSafe(Claimed(c, branch, date)) {
      ClaimTextOnly(c, branch, date);
    }
  }

  /** A row of seven cells with an unescaped pipe is a row of other cells, and not of seven. */
  lemma BrokenRow(d: seq<string>)
    requires |d| == 7 && WellId(d[0]) && !AllSafe(d)
    ensures IsRow(Fmt(d)) && |RowCells(Fmt(d))| != 7 && RowCells(Fmt(d)) != Strips(d)
  {
    hide Fmt, Cells, AllSafe, WellId, Starts;
    FmtStarts(d);
    CellsIff(d);
  }

  lemma BadRowFails(lines: seq<string>, c: seq<string>)
    requires c in RowsOf(lines) && |c| != 7
    ensures !Checked(lines)
  {
    hide RowsOf, Frame, CountLine;
  }

  /** An accepted fix leaves a ledger that passes the check; the row in the archive reads
      back as the row that was fixed exactly when the pipes of the commit are escaped. */
  lemma FixReadsIff(f: Files, op: Op)
    requires op.Fix? && Checked(f.ledger) && Accepts(f, op)
    ensures Checked(Apply(f, op).ledger)
    ensures var k := FindRow(f.ledger, op.rid);
      && k < |f.ledger| && |RowCells(f.ledger[k])| == 7
      && (RowsOf(Apply(f, op).archive) == RowsOf(f.archive) + [Strips(Fixed(RowCells(f.ledger[k]), op.sha))] <==> PipeSafe(op.sha))
  {
    assert CleanOp(op) <==> PipeSafe(op.sha);
    hide *;
    FixKeepsChecked(f, op);
    var k := FindRow(f.ledger, op.rid);
    ApplyFix(f, op, k);
    FoundIsRow(f.ledger, k, op.rid);
    AroundRow(f, k);
    var c := RowCells(f.ledger[k]);
    FineIsSeven(c);
    if PipeSafe(op.sha) {
      FixRows(f, op, k);
    } else {
      var d := Fixed(c, op.sha);
      FixedLength(c, op.sha);
      FixTextUnsafe(c, op.sha);
      BrokenRow(d);
      RowsConcat(f.archive, [Fmt(d)]);
      RowsOne(Fmt(d));
      LastDiffer(RowsOf(f.archive), RowCells(Fmt(d)), Strips(d));
    }
  }

  lemma LastDiffer(a: seq<seq<string>>, c: seq<string>, d: seq<string>)
    requires c != d
    ensures a + [c] != a + [d]
  {
    assert (a + [c])[|a|] == c && (a + [d])[|a|] == d;
  }

  lemma FixTextUnsafe(c: seq<string>, sha: string)
    requires |c| >= 2 && !PipeSafe(sha)
    ensures !AllSafe(Fixed(c, sha))
  {
    hide SafeAfter;
    var d := Fixed(c, sha);
    if AllSafe(d) {
      assert PipeSafe(d[1]);
      SafeSuffix("FIXED ", sha, ' ');
    }
  }

  // ---- runs --------------------------------------------------------------

  function After(f: Files, ops: seq<Op>, n: nat): Files
    requires n <= |ops|
  {
    if n == 0 then f else Apply(After(f, ops, n - 1), ops[n - 1])
  }

  ghost predicate CleanRun(ops: seq<Op>) {
    forall i :: 0 <= i < |ops| ==> CleanOp(ops[i]) && WithinCap(ops[i])
  }

  /** A ledger that passes the check passes it after every run, and no id is ever in two
      rows or in both files. */
  lemma {:induction false} RunKeepsGood(f: Files, ops: seq<Op>, n: nat)
    requires Good(f) && CleanRun(ops) && n <= |ops|
    ensures Good(After(f, ops, n))
  {
    hide Good, CleanOp, WithinCap, Apply;
    if n > 0 {
      RunKeepsGood(f, ops, n - 1);
      ApplyKeepsGood(After(f, ops, n - 1), ops[n - 1]);
    }
  }

  lemma Refused(f: Files, op: Op)
    requires !Accepts(f, op)
    ensures Apply(f, op) == f
  {
  }

  lemma AfterOne(f: Files, ops: seq<Op>, i: nat)
    requires i < |ops|
    ensures After(f, ops, i + 1) == Apply(After(f, ops, i), ops[i])
  {
  }

  lemma IssuedId(f: Files, op: Op)
    requires op.Add?
    ensures |NewRow(f, op)| == 7 && WellId(NewRow(f, op)[0]) && Number(NewRow(f, op)[0]) == NextNumber(f.ledger, f.archive)
  {
    hide NextNumber, Esc, WellId, Number, IdText;
    IdTextFacts(NextNumber(f.ledger, f.archive));
  }
}
