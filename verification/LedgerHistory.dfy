/** What becomes of rows and of issued ids over every run of the tool, whatever texts it is
    given and whatever the files hold. */
module LedgerHistory {
  import opened Options
  import opened Text
  import opened LedgerText
  import opened LedgerIds
  import opened Ledger
  import opened LedgerRuns
  import opened LedgerTheorems

  // ---- the first cells of a row ------------------------------------------

  /** A row that starts with an id has it as its first cell. */
  lemma FirstCell(l: string, id: string)
    requires IsRow(l) && WellId(id) && StartsWithId(l, id)
    ensures RowCells(l) != [] && RowCells(l)[0] == id
  {
    assert l[|id| + 3] == l[..|id| + 4][|id| + 3] == '|';
    hide Pieces, Strip, RStrip, SafeAfter, WellId, Starts;
    var s, w := RStrip(l), " " + id + " ";
    RStripKeeps(l, |id| + 4);
    RStripFacts(l);
    var rest := s[|id| + 4..];
    assert s[..|id| + 4] == l[..|id| + 4];
    assert s == "|" + (w + "|" + rest);
    WellIdFits(id);
    PaddedSafe(id);
    PipeCuts(w + "|" + rest);
    PiecesThen(w, rest, '|');
    StripPadded(id);
    CellAt(l, 0);
  }

  lemma CellAt(l: string, i: nat)
    requires IsRow(l) && i + 2 < |Pieces(RStrip(l), ' ')|
    ensures i < |RowCells(l)| && RowCells(l)[i] == Strip(Pieces(RStrip(l), ' ')[i + 1])
  {
    hide Pieces, Strip, RStrip, Starts;
    var parts := Pieces(RStrip(l), ' ');
    assert parts[1..|parts| - 1][i] == parts[i + 1];
  }

  lemma RowHasCells(l: string)
    requires IsRow(l)
    ensures |Pieces(RStrip(l), ' ')| >= 3
  {
    hide Pieces, RStrip, Starts;
  }

  lemma StripStarts(x: string)
    ensures Starts(Strip(" KI-" + x), "KI-")
  {
    hide RStrip, LStrip;
    var t := "KI-" + x;
    assert " KI-" + x == " " + t;
    LStripSpace(t);
    LStripNoop(t);
    RStripKeeps(t, 3);
    RStripFacts(t);
    assert RStrip(t)[..3] == t[..3] == "KI-";
  }

  /** And the first cell of every row starts like an id. */
  lemma FirstCellStarts(l: string)
    requires IsRow(l)
    ensures RowCells(l) != [] && Starts(RowCells(l)[0], "KI-")
  {
    assert l[..5] == LEAD && l[4] == l[..5][4] == '-';
    RowHasCells(l);
    hide Pieces, Strip, RStrip, SafeAfter, IsRow, RowCells, Starts;
    var s := RStrip(l);
    RStripKeeps(l, 5);
    RStripFacts(l);
    var rest := s[5..];
    assert s[..5] == l[..5];
    assert s == "|" + (" KI-" + rest);
    PipeCuts(" KI-" + rest);
    NoPipeSafe(" KI-", '|');
    OnePiece(" KI-", '|');
    PiecesAcross(" KI-", rest, '|');
    StripStarts(Pieces(rest, '-')[0]);
    CellAt(l, 0);
  }

  predicate Status(w: string) {
    w != "" && forall i :: 0 <= i < |w| ==> !IsSpace(w[i]) && w[i] != '|'
  }

  lemma StatusCell(w: string, x: string)
    requires Status(w)
    ensures Word(LStrip(Strip(" " + w + " " + x))) == w
  {
    hide LStrip, RStrip, Word, IsSpace;
    assert " " + w + " " + x == " " + (w + " " + x);
    LStripSpace(w + " " + x);
    StatusWord(w, x);
  }

  /** A written row whose second cell is a word, a blank and anything reads back under its
      id with that word. */
  lemma WrittenReads(c: seq<string>, w: string, rest: string)
    requires |c| >= 2 && PipeSafe(c[0]) && Strip(c[0]) == c[0] && Starts(c[0], "KI-")
    requires Status(w) && c[1] == w + " " + rest
    ensures var d := RowCells(Fmt(c)); IsRow(Fmt(c)) && |d| >= 2 && d[0] == c[0] && Kw(d) == w
  {
    hide Strip, RStrip, Pieces, SafeAfter, Joined, IsSpace, Word, LStrip;
    var l, v, more := Fmt(c), " " + c[0] + " ", " " + Joined(c[1..]) + " |";
    CellsIff(c);
    JoinedFirst(c);
    assert l[..5] == "| " + c[0][..3];
    assert l == "|" + (v + "|" + more);
    FmtNotStripped(c);
    PipeCuts(v + "|" + more);
    PaddedSafe(c[0]);
    PiecesThen(v, more, '|');
    PiecesCount(c[1..]);
    var q := StatusPiece(c[1..], w, rest);
    StripPadded(c[0]);
    StatusCell(w, q);
    CellAt(l, 0);
    CellAt(l, 1);
  }

  lemma JoinedFirst(c: seq<string>)
    requires |c| >= 2
    ensures Joined(c) == c[0] + " | " + Joined(c[1..])
  {
  }

  lemma FmtNotStripped(c: seq<string>)
    ensures RStrip(Fmt(c)) == Fmt(c)
  {
    hide Joined;
    assert Fmt(c)[|Fmt(c)| - 1] == '|';
  }

  /** The piece with the status. */
  lemma StatusPiece(t: seq<string>, w: string, rest: string) returns (q: string)
    requires t != [] && Status(w) && t[0] == w + " " + rest
    ensures Pieces(" " + Joined(t) + " |", '|')[0] == " " + w + " " + q
  {
    hide Pieces, SafeAfter;
    var front := " " + w + " ";
    var behind := if |t| == 1 then rest + " |" else rest + " | " + Joined(t[1..]) + " |";
    assert " " + Joined(t) + " |" == front + behind;
    NoPipeSafe(front, '|');
    OnePiece(front, '|');
    PiecesAcross(front, behind, '|');
    q := Pieces(behind, ' ')[0];
  }

  lemma RowFits(l: string)
    requires IsRow(l)
    ensures var c := RowCells(l); c != [] && PipeSafe(c[0]) && Strip(c[0]) == c[0] && Starts(c[0], "KI-")
  {
    hide Cells, PipeSafe, Strip, Starts;
    CellsAreSafe(l);
    FirstCellStarts(l);
  }

  lemma ClaimReads(l: string, branch: string, date: string)
    requires IsRow(l) && |RowCells(l)| >= 5
    ensures var m := Fmt(Claimed(RowCells(l), branch, date));
      IsRow(m) && Key(RowCells(m)) == Key(RowCells(l)) && Kw(RowCells(m)) == "IN-PROGRESS"
  {
    hide RowCells, IsRow, Fmt, PipeSafe, Strip, Starts, Kw;
    RowFits(l);
    assert "IN-PROGRESS " + branch == "IN-PROGRESS" + " " + branch;
    WrittenReads(Claimed(RowCells(l), branch, date), "IN-PROGRESS", branch);
  }

  lemma FixReads(l: string, sha: string)
    requires IsRow(l) && |RowCells(l)| >= 2
    ensures var m := Fmt(Fixed(RowCells(l), sha));
      IsRow(m) && Key(RowCells(m)) == Key(RowCells(l)) && Kw(RowCells(m)) == "FIXED"
  {
    hide RowCells, IsRow, Fmt, PipeSafe, Strip, Starts, Kw;
    RowFits(l);
    assert "FIXED " + sha == "FIXED" + " " + sha;
    WrittenReads(Fixed(RowCells(l), sha), "FIXED", sha);
  }

  // ---- rows --------------------------------------------------------------

  /** A status may stay, go from OPEN to IN-PROGRESS, or go to FIXED and no further. */
  predicate Moves(a: string, b: string) {
    a == b || (a == "OPEN" && b == "IN-PROGRESS") || b == "FIXED"
  }

  lemma NewIsOpen(f: Files, op: Op)
    requires op.Add?
    ensures Kw(NewRow(f, op)) == "OPEN"
  {
    hide Word, LStrip, IdText, NextNumber, Esc;
    OpenIsOpen();
  }

  lemma ClaimLeaves(f: Files, op: Op, k: nat)
    requires op.Claim? && Accepts(f, op) && k == FindRow(f.ledger, op.rid)
    ensures k < |f.ledger| && IsRow(f.ledger[k]) && |RowCells(f.ledger[k])| >= 5 && Kw(RowCells(f.ledger[k])) == "OPEN"
    ensures Apply(f, op).archive == f.archive
    ensures var d := RowCells(Fmt(Claimed(RowCells(f.ledger[k]), op.branch, op.date)));
      && RowsOf(Apply(f, op).ledger) == RowsOf(f.ledger[..k]) + [d] + RowsOf(f.ledger[k + 1..])
      && Key(d) == Key(RowCells(f.ledger[k])) && Kw(d) == "IN-PROGRESS"
  {
    hide *;
    ApplyClaim(f, op, k);
    FoundIsRow(f.ledger, k, op.rid);
    ClaimReads(f.ledger[k], op.branch, op.date);
    ReplacedRow(f.ledger, k, Fmt(Claimed(RowCells(f.ledger[k]), op.branch, op.date)));
  }

  lemma FixLeaves(f: Files, op: Op, k: nat)
    requires op.Fix? && Accepts(f, op) && k == FindRow(f.ledger, op.rid)
    ensures k < |f.ledger| && IsRow(f.ledger[k]) && |RowCells(f.ledger[k])| >= 2
    ensures RowsOf(Apply(f, op).ledger) == RowsOf(f.ledger[..k]) + RowsOf(f.ledger[k + 1..])
    ensures var d := RowCells(Fmt(Fixed(RowCells(f.ledger[k]), op.sha)));
      && RowsOf(Apply(f, op).archive) == RowsOf(f.archive) + [d]
      && Key(d) == Key(RowCells(f.ledger[k])) && Kw(d) == "FIXED"
  {
    hide *;
    ApplyFix(f, op, k);
    FoundIsRow(f.ledger, k, op.rid);
    FixReads(f.ledger[k], op.sha);
    RowsDelete(f.ledger, k);
    SetCountRows(Delete(f.ledger, k));
    RowsConcat(f.archive, [Fmt(Fixed(RowCells(f.ledger[k]), op.sha))]);
    RowsOne(Fmt(Fixed(RowCells(f.ledger[k]), op.sha)));
  }

  lemma SameMoves(a: string)
    ensures Moves(a, a)
  {
  }

  /** No operation loses a row: it is there again under its id, its status moved on at most. */
  lemma RowPersists(f: Files, op: Op, c: seq<string>) returns (d: seq<string>)
    requires c in All(f)
    ensures d in All(Apply(f, op)) && Key(d) == Key(c) && Moves(Kw(c), Kw(d))
  {
    assert Moves("OPEN", "IN-PROGRESS") && Moves(Kw(c), "FIXED");
    hide *;
    d := c;
    SameMoves(Kw(c));
    AllIs(f);
    AllIs(Apply(f, op));
    if !Accepts(f, op) {
      Refused(f, op);
    } else if op.Add? {
      AddRows(f, op);
      ApplyAdd(f, op);
    } else if op.Claim? {
      var k := FindRow(f.ledger, op.rid);
      ClaimLeaves(f, op, k);
      RowsDelete(f.ledger, k);
      if c == RowCells(f.ledger[k]) {
        d := RowCells(Fmt(Claimed(c, op.branch, op.date)));
      }
    } else {
      var k := FindRow(f.ledger, op.rid);
      FixLeaves(f, op, k);
      RowsDelete(f.ledger, k);
      if c == RowCells(f.ledger[k]) {
        d := RowCells(Fmt(Fixed(c, op.sha)));
      }
    }
  }

  /** Over every run, from whatever files and with whatever texts, no id is lost and no status
      goes back. */
  lemma {:induction false} RunPersists(f: Files, ops: seq<Op>, m: nat, n: nat, c: seq<string>) returns (d: seq<string>)
    requires m <= n <= |ops| && c in All(After(f, ops, m))
    ensures d in All(After(f, ops, n)) && Key(d) == Key(c) && Moves(Kw(c), Kw(d))
    decreases n - m
  {
    hide Apply, All, Key, Kw;
    if m == n {
      d := c;
    } else {
      var e := RunPersists(f, ops, m, n - 1, c);
      d := RowPersists(After(f, ops, n - 1), ops[n - 1], e);
    }
  }

  // ---- issued ids --------------------------------------------------------

  /** Some line of either file starts with the id. */
  ghost predicate Shown(f: Files, id: string) {
    exists l :: (l in f.ledger || l in f.archive) && StartsWithId(l, id)
  }

  lemma ShownIsBelowNext(f: Files, id: string)
    requires WellId(id) && Shown(f, id)
    ensures Number(id) < NextNumber(f.ledger, f.archive)
  {
    hide WellId, Number, Largest, StartsWithId, IdsIn, LedgerIds.Max;
    var l :| (l in f.ledger || l in f.archive) && StartsWithId(l, id);
    SeenId(l, id);
    if l in f.ledger {
      var i :| 0 <= i < |f.ledger| && f.ledger[i] == l;
      LargestBounds(f.ledger, i);
    } else {
      var i :| 0 <= i < |f.archive| && f.archive[i] == l;
      LargestBounds(f.archive, i);
    }
  }

  /** Such a line is not the one with the count. */
  lemma CountSpares(lines: seq<string>, l: string, id: string)
    requires l in lines && StartsWithId(l, id)
    ensures l in SetCount(lines)
  {
    assert l[0] == l[..|id| + 4][0] == '|';
    hide RowsOf, CountLine, FirstCount, Starts;
    StartsAt(l, COUNT_LEAD, 0);
    var j :| 0 <= j < |lines| && lines[j] == l;
    assert SetCount(lines)[j] == l;
  }

  lemma AddShows(f: Files, op: Op, id: string)
    requires op.Add? && Accepts(f, op) && (Shown(f, id) || id == Key(NewRow(f, op)))
    ensures Shown(Apply(f, op), id)
  {
    hide Apply, Accepts, Fmt, InsertAt, SetCount, StartsWithId, NewRow;
    ApplyAdd(f, op);
    var k, row := InsertAt(f.ledger), NewRow(f, op);
    RowLength(f, op);
    var lines := Insert(f.ledger, k, Fmt(row));
    if id == Key(row) {
      FmtStartsWithId(row);
      assert lines[k] == Fmt(row);
      CountSpares(lines, Fmt(row), id);
    } else {
      var l :| (l in f.ledger || l in f.archive) && StartsWithId(l, id);
      if l in f.ledger {
        assert f.ledger == f.ledger[..k] + f.ledger[k..];
        CountSpares(lines, l, id);
      }
    }
  }

  lemma ClaimShows(f: Files, op: Op, id: string)
    requires op.Claim? && Accepts(f, op) && WellId(id) && Shown(f, id)
    ensures Shown(Apply(f, op), id)
  {
    hide Apply, Accepts, Fmt, FindRow, SetCount, StartsWithId, WellId, RowCells, IsRow, Kw, Claimed;
    var k := FindRow(f.ledger, op.rid);
    ApplyClaim(f, op, k);
    FoundIsRow(f.ledger, k, op.rid);
    var c := RowCells(f.ledger[k]);
    var m := Claimed(c, op.branch, op.date);
    ClaimedLength(c, op.branch, op.date);
    var lines := f.ledger[k := Fmt(m)];
    var l :| (l in f.ledger || l in f.archive) && StartsWithId(l, id);
    if l in f.ledger {
      var j :| 0 <= j < |f.ledger| && f.ledger[j] == l;
      if j == k {
        FirstCell(l, id);
        FmtStartsWithId(m);
        assert lines[k] == Fmt(m);
        CountSpares(lines, Fmt(m), id);
      } else {
        assert lines[j] == l;
        CountSpares(lines, l, id);
      }
    }
  }

  lemma FixShows(f: Files, op: Op, id: string)
    requires op.Fix? && Accepts(f, op) && WellId(id) && Shown(f, id)
    ensures Shown(Apply(f, op), id)
  {
    hide Apply, Accepts, Fmt, FindRow, SetCount, StartsWithId, WellId, RowCells, IsRow, Kw, Fixed;
    var k := FindRow(f.ledger, op.rid);
    ApplyFix(f, op, k);
    FoundIsRow(f.ledger, k, op.rid);
    var c := RowCells(f.ledger[k]);
    var m, lines := Fixed(c, op.sha), Delete(f.ledger, k);
    FixedLength(c, op.sha);
    var l :| (l in f.ledger || l in f.archive) && StartsWithId(l, id);
    if l in f.ledger {
      var j :| 0 <= j < |f.ledger| && f.ledger[j] == l;
      if j == k {
        FirstCell(l, id);
        FmtStartsWithId(m);
        assert Fmt(m) in f.archive + [Fmt(m)];
      } else {
        assert lines[if j < k then j else j - 1] == l;
        CountSpares(lines, l, id);
      }
    }
  }

  lemma {:induction false} RunShows(f: Files, ops: seq<Op>, m: nat, n: nat, id: string)
    requires m <= n <= |ops| && WellId(id) && Shown(After(f, ops, m), id)
    ensures Shown(After(f, ops, n), id)
    decreases n - m
  {
    hide Shown, WellId, Accepts, Apply;
    if m < n {
      RunShows(f, ops, m, n - 1, id);
      var g, op := After(f, ops, n - 1), ops[n - 1];
      if !Accepts(g, op) {
        Refused(g, op);
      } else {
        match op {
          case Add(_, _, _, _, _) => AddShows(g, op, id);
          case Claim(_, _, _) => ClaimShows(g, op, id);
          case Fix(_, _) => FixShows(g, op, id);
        }
      }
    }
  }

  /** Over every run, from whatever files and with whatever texts, ids are issued in strictly
      increasing order: no run issues one twice. */
  lemma IssuedIncrease(f: Files, ops: seq<Op>, i: nat, j: nat)
    requires i < j < |ops| && ops[i].Add? && ops[j].Add? && Accepts(After(f, ops, i), ops[i])
    ensures NextNumber(After(f, ops, i).ledger, After(f, ops, i).archive)
      < NextNumber(After(f, ops, j).ledger, After(f, ops, j).archive)
  {
    hide *;
    var g := After(f, ops, i);
    AfterOne(f, ops, i);
    IssuedId(g, ops[i]);
    KeyIsFirst(NewRow(g, ops[i]));
    AddShows(g, ops[i], NewRow(g, ops[i])[0]);
    RunShows(f, ops, i + 1, j, NewRow(g, ops[i])[0]);
    ShownIsBelowNext(After(f, ops, j), NewRow(g, ops[i])[0]);
  }
}
