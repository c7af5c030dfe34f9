/** When an id that stands in a row is issued again, and when evidence that was within the
    cap no longer is: both exactly. */
module LedgerReuse {
  import opened Text
  import opened LedgerText
  import opened LedgerIds
  import opened Ledger
  import opened LedgerRuns
  import opened LedgerTheorems
  import opened LedgerHistory
  import opened LedgerFloor
  import L = LedgerLimits

  // ---- additions ---------------------------------------------------------

  /** What every addition finds and leaves, whatever the rows look like: a place to put a
      row, a status in every row, and no id in the count line. */
  ghost predicate Steady(f: Files) {
    && (RowsOf(f.ledger) != [] || HEADER in f.ledger)
    && (forall c :: c in RowsOf(f.ledger) ==> Kw(c) != "")
    && PlainCount(f.ledger)
  }

  lemma CheckedIsSteady(f: Files)
    requires Checked(f.ledger)
    ensures Steady(f)
  {
    hide RowsOf, CountLine, IdsIn, FirstCount, Legacy, Starts, Kw;
    L.CountLineHasNoId(RowsOf(f.ledger));
    assert multiset(f.ledger)[HEADER] == 1;
  }

  lemma SteadyAllows(f: Files, op: Op)
    requires op.Add? && op.cls == "PERF" && op.sev == "low" && |op.evidence| <= EVIDENCE_CAP && Steady(f)
    ensures Allowed(f, op)
  {
    hide RowsOf, Kw, PlainCount;
  }

  lemma SteadyAccepts(f: Files, op: Op)
    requires op.Add? && Allowed(f, op) && Steady(f)
    requires RowsOf(Edited(f, op)) == RowsOf(f.ledger) + [NewRow(f, op)] && Kw(NewRow(f, op)) == "OPEN"
    ensures Accepts(f, op)
  {
    hide RowsOf, Kw, PlainCount, NewRow, Edited, Allowed, FirstCount;
  }

  /** An addition leaves a steady ledger steady, and the next number at what the new row
      makes it. */
  lemma AddIsSteady(f: Files, op: Op)
    requires op.Add? && Steady(f) && Accepts(f, op)
    ensures Steady(Apply(f, op))
    ensures Next(Apply(f, op)) == Larger(Next(f), 1 + LedgerIds.Max(IdsIn(Fmt(NewRow(f, op)))))
  {
    hide *;
    var row, k := NewRow(f, op), InsertAt(f.ledger);
    var lines := Insert(f.ledger, k, Fmt(row));
    AddRows(f, op);
    ApplyAdd(f, op);
    NewIsOpen(f, op);
    NewRowFits(f, op);
    RowLength(f, op);
    FmtStarts(row);
    SteadyHas(f);
    FmtIsNoCount(row);
    InsertPlain(f.ledger, k, Fmt(row));
    SetCountPlain(lines);
    LargestInsert(f.ledger, k, Fmt(row));
    NextIs(f);
    NextIs(Apply(f, op));
    LargerFacts(Largest(f.ledger), LedgerIds.Max(IdsIn(Fmt(row))), Largest(f.archive));
    SteadyAgain(f, Apply(f, op), row);
  }

  lemma SteadyHas(f: Files)
    requires Steady(f)
    ensures PlainCount(f.ledger)
  {
    hide PlainCount;
  }

  lemma SteadyAgain(f: Files, v: Files, row: seq<string>)
    requires Steady(f) && RowsOf(v.ledger) == RowsOf(f.ledger) + [row] && Kw(row) != "" && PlainCount(v.ledger)
    ensures Steady(v)
  {
    hide RowsOf, Kw, PlainCount;
  }

  lemma NextIs(f: Files)
    ensures Next(f) == 1 + Larger(Largest(f.ledger), Largest(f.archive))
  {
    hide Largest;
  }

  // ---- the plainest addition raises the number by one --------------------

  const PLAIN: Op := Add("PERF", "low", "x", "x", "x")

  lemma EscPlain()
    ensures Esc("x") == "x"
  {
    hide Strip, Escape;
    WordFits("x");
    assert OneLine("x") == "x" by { assert "x"[1..] == ""; }
    EscapeOfSafe("x", ' ');
  }

  lemma PlainRow(f: Files)
    ensures NewRow(f, PLAIN) == [IdText(Next(f)), "OPEN", "PERF", "low", "x", "x", "x"]
  {
    hide Esc, IdText, NextNumber;
    EscPlain();
  }

  lemma PlainIds(n: nat)
    ensures IdsIn(Fmt([IdText(n), "OPEN", "PERF", "low", "x", "x", "x"])) == [n]
  {
    hide Joined, IdAt, DigitRun, Padded4;
    var tail := ["OPEN", "PERF", "low", "x", "x", "x"];
    var row := [IdText(n)] + tail;
    assert row == [IdText(n), "OPEN", "PERF", "low", "x", "x", "x"];
    var line, rest := Fmt(row), " " + Joined(tail) + " |";
    PlainLine(IdText(n), tail);
    L.JoinedWithoutK(tail);
    L.NoKNoIds(rest);
    IdTextFacts(n);
    IdAhead(line, IdText(n), rest);
  }

  lemma PlainLine(id: string, tail: seq<string>)
    requires tail != []
    ensures Fmt([id] + tail) == "| " + id + " |" + (" " + Joined(tail) + " |")
  {
    hide Joined;
    var r := Joined(tail);
    JoinedCons(id, tail);
    assert "| " + (id + " | " + r) + " |" == "| " + id + " |" + (" " + r + " |");
  }

  lemma JoinedCons(id: string, tail: seq<string>)
    requires tail != []
    ensures Joined([id] + tail) == id + " | " + Joined(tail)
  {
    assert ([id] + tail)[1..] == tail;
  }

  /** A steady ledger takes the plainest addition, and the number goes up by one. */
  lemma PlainAdds(f: Files)
    requires Steady(f)
    ensures Accepts(f, PLAIN) && Steady(Apply(f, PLAIN)) && Next(Apply(f, PLAIN)) == Next(f) + 1
  {
    assert PLAIN == Add("PERF", "low", "x", "x", "x") && |PLAIN.evidence| <= EVIDENCE_CAP;
    hide *;
    SteadyAllows(f, PLAIN);
    PlainRow(f);
    PlainIds(Next(f));
    MaxOfOne(Next(f));
    EditedRows(f, PLAIN);
    NewIsOpen(f, PLAIN);
    SteadyAccepts(f, PLAIN);
    AddIsSteady(f, PLAIN);
    LargerFacts(Next(f), 1 + Next(f), 0);
  }

  lemma EditedRows(f: Files, op: Op)
    requires op.Add? && Allowed(f, op)
    ensures RowsOf(Edited(f, op)) == RowsOf(f.ledger) + [NewRow(f, op)]
  {
    hide RowsOf, Fmt, NewRow, IsRow, RowCells, AllSafe, Strips, WellId, StartsWithId, InsertAt, Insert;
    NewRowFits(f, op);
    RowLength(f, op);
    WrittenRow(NewRow(f, op));
    InsertsBehindRows(f.ledger);
    RowsInsert(f.ledger, InsertAt(f.ledger), Fmt(NewRow(f, op)));
    NothingBehind(RowsOf(f.ledger[..InsertAt(f.ledger)]), NewRow(f, op));
  }

  function Plain(n: nat): seq<Op> {
    seq(n, _ => PLAIN)
  }

  lemma {:induction false} PlainRun(f: Files, k: nat, n: nat)
    requires Steady(f) && n <= k
    ensures Steady(After(f, Plain(k), n)) && Next(After(f, Plain(k), n)) == Next(f) + n
    ensures forall i :: 0 <= i < n ==> Accepts(After(f, Plain(k), i), PLAIN)
  {
    hide Steady, Next, Accepts, Apply;
    if n > 0 {
      PlainRun(f, k, n - 1);
      assert Plain(k)[n - 1] == PLAIN;
      PlainAdds(After(f, Plain(k), n - 1));
    }
  }

  // ---- runs, one after the other -----------------------------------------

  lemma {:induction false} AfterPrefix(f: Files, a: seq<Op>, b: seq<Op>, n: nat)
    requires n <= |a|
    ensures After(f, a + b, n) == After(f, a, n)
  {
    hide Apply;
    if n > 0 {
      AfterPrefix(f, a, b, n - 1);
      assert (a + b)[n - 1] == a[n - 1];
    }
  }

  lemma {:induction false} AfterConcat(f: Files, a: seq<Op>, b: seq<Op>, n: nat)
    requires n <= |b|
    ensures After(f, a + b, |a| + n) == After(After(f, a, |a|), b, n)
  {
    hide Apply;
    if n == 0 {
      AfterPrefix(f, a, b, |a|);
    } else {
      AfterConcat(f, a, b, n - 1);
      assert (a + b)[|a| + n - 1] == b[n - 1];
    }
  }

  lemma AfterFirst(f: Files, op: Op)
    ensures After(f, [op], 1) == Apply(f, op)
  {
    hide Apply;
    assert After(f, [op], 0) == f;
  }

  /** Some row has the id. */
  ghost predicate HasKey(f: Files, id: string) {
    exists c :: c in All(f) && Key(c) == id
  }

  /** No id is lost. */
  ghost predicate KeysStay(f: Files, g: Files) {
    forall id :: HasKey(f, id) ==> HasKey(g, id)
  }

  lemma StepKeepsKeys(f: Files, op: Op)
    ensures KeysStay(f, Apply(f, op))
  {
    hide Apply, All, Key, Kw, Moves;
    forall id | HasKey(f, id)
      ensures HasKey(Apply(f, op), id)
    {
      var c :| c in All(f) && Key(c) == id;
      var d := RowPersists(f, op, c);
    }
  }

  lemma {:induction false} RunKeepsKeys(f: Files, ops: seq<Op>, n: nat)
    requires n <= |ops|
    ensures KeysStay(f, After(f, ops, n))
  {
    hide HasKey, Apply;
    if n > 0 {
      RunKeepsKeys(f, ops, n - 1);
      StepKeepsKeys(After(f, ops, n - 1), ops[n - 1]);
    }
  }

  // ---- every row at its least --------------------------------------------

  lemma {:induction false} FloorConcat(a: seq<string>, b: seq<string>)
    ensures Floor(a + b) == Larger(Floor(a), Floor(b))
    decreases |b|
  {
    hide LeastOf;
    if b == [] {
      assert a + b == a;
    } else {
      var n := |b| - 1;
      assert (a + b)[..|a + b| - 1] == a + b[..n];
      FloorConcat(a, b[..n]);
    }
  }

  lemma FloorOne(l: string)
    ensures Floor([l]) == LeastOf(l)
  {
    hide LeastOf;
    assert [l][..0] == [];
  }

  lemma FloorInsert(lines: seq<string>, k: nat, l: string)
    requires k <= |lines|
    ensures Floor(Insert(lines, k, l)) == Larger(Floor(lines), LeastOf(l))
  {
    hide LeastOf, Floor;
    FloorConcat(lines[..k] + [l], lines[k..]);
    FloorConcat(lines[..k], [l]);
    FloorOne(l);
    FloorConcat(lines[..k], lines[k..]);
    assert lines == lines[..k] + lines[k..];
  }

  lemma FloorDelete(lines: seq<string>, k: nat)
    requires k < |lines|
    ensures Floor(lines) == Larger(Floor(Delete(lines, k)), LeastOf(lines[k]))
  {
    hide LeastOf, Floor;
    FloorInsert(Delete(lines, k), k, lines[k]);
    assert lines == Insert(Delete(lines, k), k, lines[k]);
  }

  lemma FloorReplace(lines: seq<string>, k: nat, l: string)
    requires k < |lines| && LeastOf(l) == LeastOf(lines[k])
    ensures Floor(lines[k := l]) == Floor(lines)
  {
    hide LeastOf, Floor;
    FloorDelete(lines, k);
    FloorInsert(Delete(lines, k), k, l);
    assert lines[k := l] == Insert(Delete(lines, k), k, l);
  }

  lemma CountIsNothing(l: string)
    requires Starts(l, COUNT_LEAD)
    ensures LeastOf(l) == Top(l) && (IdsIn(l) == [] ==> LeastOf(l) == 0)
  {
    hide LeastOf, IsRow, IdsIn, Top, Starts;
    CountLineIsNothingElse(l);
    RowlessIsSure(l);
    if IdsIn(l) == [] {
      TopOfNone(l);
    }
  }

  lemma SetCountFloor(lines: seq<string>)
    requires PlainCount(lines)
    ensures Floor(SetCount(lines)) == Floor(lines)
  {
    hide LeastOf, Floor, CountLine, RowsOf, IdsIn, Top, FirstCount, Starts;
    var n, m := FirstCount(lines), CountLine(RowsOf(lines));
    if n < |lines| {
      CountLineStarts(RowsOf(lines));
      L.CountLineHasNoId(RowsOf(lines));
      CountIsNothing(lines[n]);
      CountIsNothing(m);
      FloorReplace(lines, n, m);
    }
  }

  /** From n on, no line can come to show less than it does. */
  ghost predicate Settled(lines: seq<string>, n: nat) {
    forall j :: n <= j < |lines| ==> LeastOf(lines[j]) == Top(lines[j])
  }

  lemma {:induction false} SettledFloor(lines: seq<string>)
    requires Settled(lines, 0)
    ensures Floor(lines) == Largest(lines)
  {
    hide LeastOf, IdsIn, LedgerIds.Max;
    if lines != [] {
      SettledFloor(lines[..|lines| - 1]);
    }
  }

  lemma SetCountSettled(lines: seq<string>, n: nat)
    requires Settled(lines, n)
    ensures Settled(SetCount(lines), n) && |SetCount(lines)| == |lines|
  {
    hide LeastOf, CountLine, RowsOf, Top, FirstCount, Starts, IdsIn;
    CountLineStarts(RowsOf(lines));
    CountIsNothing(CountLine(RowsOf(lines)));
  }

  lemma TwoRows(lines: seq<string>, m: nat, k: nat)
    requires m < k < |lines| && IsRow(lines[m]) && IsRow(lines[k]) && DistinctIds(RowsOf(lines))
    ensures Key(RowCells(lines[m])) != Key(RowCells(lines[k]))
  {
    hide IsRow, RowCells, RowsOf, Key;
    var c, d := RowCells(lines[m]), RowCells(lines[k]);
    var a, b := RowsOf(lines[..m]), RowsOf(lines[m + 1..]);
    RowsDelete(lines, m);
    assert lines[m + 1..][k - m - 1] == lines[k];
    RowsMember(lines[m + 1..], d);
    var i :| 0 <= i < |b| && b[i] == d;
    var rows := a + [c] + b;
    assert rows[|a|] == c && rows[|a| + 1 + i] == d;
  }

  lemma FindIs(lines: seq<string>, k: nat)
    requires k < |lines| && IsRow(lines[k]) && DistinctIds(RowsOf(lines))
    ensures FindRow(lines, Key(RowCells(lines[k]))) == k
  {
    hide IsRow, RowCells, RowsOf, Key, DistinctIds;
    var m := FindRow(lines, Key(RowCells(lines[k])));
    assert lines[k] in lines;
    if m < k {
      TwoRows(lines, m, k);
    } else if k < m {
      TwoRows(lines, k, m);
    }
  }

  /** Counting goes through as long as every row has a status. */
  lemma StillCountable(lines: seq<string>, more: seq<string>, l: string)
    requires (forall c :: c in RowsOf(lines) ==> Kw(c) != "") && (IsRow(l) ==> Kw(RowCells(l)) != "")
    requires forall x :: x in more ==> x in lines || x == l
    ensures Countable(more)
  {
    hide IsRow, RowCells, RowsOf, Kw, FirstCount;
    forall c | c in RowsOf(more)
      ensures Kw(c) != ""
    {
      RowsMember(more, c);
      var x :| x in more && IsRow(x) && RowCells(x) == c;
      if x in lines {
        RowsMember(lines, c);
      }
    }
  }

  lemma CheckedStatus(lines: seq<string>)
    requires Checked(lines)
    ensures forall c :: c in RowsOf(lines) ==> Kw(c) != ""
  {
    hide Checked, RowsOf, Kw;
    CheckedHas(lines);
  }

  lemma ClaimAccepted(f: Files, k: nat)
    requires Checked(f.ledger) && k < |f.ledger| && IsRow(f.ledger[k]) && Kw(RowCells(f.ledger[k])) == "OPEN"
    ensures var op := Claim(Key(RowCells(f.ledger[k])), "x", "x"); Accepts(f, op) && FindRow(f.ledger, op.rid) == k
  {
    hide Fmt, Claimed, RowCells, Kw, RowsOf, FindRow, IsRow, Checked, Countable, RowFine;
    var c := RowCells(f.ledger[k]);
    CheckedHas(f.ledger);
    CheckedRowIsFine(f.ledger, f.ledger[k]);
    FineIsSeven(c);
    FindIs(f.ledger, k);
    CheckedStatus(f.ledger);
    RowIsClean(f.ledger[k]);
    var l := Fmt(Claimed(c, "x", "x"));
    ClaimStatus(c);
    StillThere(f.ledger, k, l);
    StillCountable(f.ledger, f.ledger[k := l], l);
  }

  lemma ClaimStatus(c: seq<string>)
    requires RowFine(c) && AllSafe(c) && Strips(c) == c
    ensures |c| == 7 && Kw(RowCells(Fmt(Claimed(c, "x", "x")))) == "IN-PROGRESS"
  {
    hide *;
    ClaimedIsRow(c, "x", "x");
    RefixedLeast(c, "x", "x", "x");
  }

  lemma LiveHas(c: seq<string>)
    requires RowFine(c)
    ensures Kw(c) != "" && Kw(c) != "FIXED"
  {
    hide Kw;
  }

  lemma FixAccepted(f: Files, k: nat)
    requires Checked(f.ledger) && k < |f.ledger| && IsRow(f.ledger[k])
    ensures var op := Fix(Key(RowCells(f.ledger[k])), "x"); Accepts(f, op) && FindRow(f.ledger, op.rid) == k
  {
    hide Fmt, RowCells, Kw, RowsOf, FindRow, IsRow, Checked, Countable, RowFine, Delete;
    var c := RowCells(f.ledger[k]);
    CheckedHas(f.ledger);
    CheckedRowIsFine(f.ledger, f.ledger[k]);
    LiveHas(c);
    FindIs(f.ledger, k);
    CheckedStatus(f.ledger);
    StillThere(f.ledger, k, f.ledger[k]);
    StillCountable(f.ledger, Delete(f.ledger, k), f.ledger[k]);
  }

  /** A row at its least by a claim: it stays there. */
  lemma ClaimedSettles(l: string)
    requires IsRow(l) && RowFine(RowCells(l)) && Kw(RowCells(l)) == "OPEN"
    requires |RowCells(l)| == 7 && Top(Fmt(Claimed(RowCells(l), "x", "x"))) == LeastOf(l)
    ensures var m := Fmt(Claimed(RowCells(l), "x", "x")); LeastOf(m) == Top(m) == LeastOf(l)
  {
    var c := RowCells(l);
    var m := Fmt(Claimed(c, "x", "x"));
    hide Fmt, Claimed, RowCells, Kw, IsRow, RowFine, Top, Fixed;
    RowIsClean(l);
    ClaimStatus(c);
    ClaimedIsRow(c, "x", "x");
    RefixedLeast(c, "x", "x", "x");
  }

  lemma LargerMoves(a: nat, l: nat, b: nat)
    ensures Larger(Larger(a, l), b) == Larger(a, Larger(b, l))
  {
  }

  lemma LargestSnoc(a: seq<string>, l: string)
    ensures Largest(a + [l]) == Larger(Largest(a), Top(l))
  {
    hide Largest, IdsIn, LedgerIds.Max;
    LargestConcat(a, [l]);
    LargestOne(l);
  }

  lemma SettleByClaim(f: Files, i: nat) returns (op: Op)
    requires Checked(f.ledger) && i < |f.ledger| && Settled(f.ledger, i + 1) && IsRow(f.ledger[i])
    requires var c := RowCells(f.ledger[i]); |c| == 7 && Kw(c) == "OPEN" && Top(Fmt(Claimed(c, "x", "x"))) == LeastOf(f.ledger[i])
    ensures CleanOp(op) && Checked(Apply(f, op).ledger) && i <= |Apply(f, op).ledger|
    ensures Lowest(Apply(f, op)) == Lowest(f) && Settled(Apply(f, op).ledger, i)
  {
    var c := RowCells(f.ledger[i]);
    op := Claim(Key(c), "x", "x");
    CleanX();
    assert CleanOp(op);
    hide *;
    CheckedRowIsFine(f.ledger, f.ledger[i]);
    ClaimAccepted(f, i);
    ClaimKeepsChecked(f, op);
    ApplyClaim(f, op, i);
    ClaimedSettles(f.ledger[i]);
    var m := Fmt(Claimed(c, "x", "x"));
    CheckedIsPlain(f.ledger);
    ReplacePlain(f.ledger, i, Claimed(c, "x", "x"));
    FloorReplace(f.ledger, i, m);
    SetCountFloor(f.ledger[i := m]);
    ReplaceSettles(f.ledger, i, m);
    SetCountSettled(f.ledger[i := m], i);
    LowestStays(f, Apply(f, op));
  }

  lemma ReplaceSettles(lines: seq<string>, i: nat, l: string)
    requires i < |lines| && Settled(lines, i + 1) && LeastOf(l) == Top(l)
    ensures Settled(lines[i := l], i)
  {
    hide LeastOf, Top;
  }

  lemma LowestStays(f: Files, g: Files)
    requires Floor(g.ledger) == Floor(f.ledger) && g.archive == f.archive
    ensures Lowest(g) == Lowest(f)
  {
    hide Floor, Largest;
  }

  lemma CleanX()
    ensures PipeSafe("x")
  {
    hide SafeAfter;
    NoPipeSafe("x", ' ');
  }

  lemma SettleByFix(f: Files, i: nat) returns (op: Op)
    requires Checked(f.ledger) && i < |f.ledger| && Settled(f.ledger, i + 1) && IsRow(f.ledger[i])
    requires var c := RowCells(f.ledger[i]); |c| == 7 && Top(Fmt(Fixed(c, "x"))) == LeastOf(f.ledger[i])
    ensures CleanOp(op) && Checked(Apply(f, op).ledger) && i <= |Apply(f, op).ledger|
    ensures Lowest(Apply(f, op)) == Lowest(f) && Settled(Apply(f, op).ledger, i)
  {
    var c := RowCells(f.ledger[i]);
    op := Fix(Key(c), "x");
    CleanX();
    assert CleanOp(op);
    hide *;
    FixAccepted(f, i);
    FixKeepsChecked(f, op);
    ApplyFix(f, op, i);
    CheckedIsPlain(f.ledger);
    DeleteSettles(f.ledger, i);
    RowLine(f.ledger[i]);
    DeletePlain(f.ledger, i);
    SetCountFloor(Delete(f.ledger, i));
    SetCountSettled(Delete(f.ledger, i), i);
    LowestMoves(f, i, Fmt(Fixed(c, "x")), Apply(f, op));
  }

  lemma RowLine(l: string)
    requires IsRow(l)
    ensures !Starts(l, COUNT_LEAD)
  {
    hide Starts, Cells;
    RowLineIsNothingElse(l);
  }

  lemma DeleteSettles(lines: seq<string>, i: nat)
    requires i < |lines| && Settled(lines, i + 1)
    ensures Settled(Delete(lines, i), i) && i <= |Delete(lines, i)|
  {
    hide LeastOf, Top;
    assert forall j :: i <= j < |Delete(lines, i)| ==> Delete(lines, i)[j] == lines[j + 1];
  }

  /** What a row is worth goes with it to the archive. */
  lemma LowestMoves(f: Files, i: nat, l: string, g: Files)
    requires i < |f.ledger| && Top(l) == LeastOf(f.ledger[i])
    requires Floor(g.ledger) == Floor(Delete(f.ledger, i)) && g.archive == f.archive + [l]
    ensures Lowest(g) == Lowest(f)
  {
    hide Floor, Largest, LeastOf, Top, Larger, Delete;
    FloorDelete(f.ledger, i);
    LargestSnoc(f.archive, l);
    LargerMoves(Floor(g.ledger), LeastOf(f.ledger[i]), Largest(f.archive));
  }

  lemma SettleRow(f: Files, i: nat) returns (op: Op)
    requires Checked(f.ledger) && i < |f.ledger| && Settled(f.ledger, i + 1) && LeastOf(f.ledger[i]) != Top(f.ledger[i])
    ensures CleanOp(op) && Checked(Apply(f, op).ledger) && i <= |Apply(f, op).ledger|
    ensures Lowest(Apply(f, op)) == Lowest(f) && Settled(Apply(f, op).ledger, i)
  {
    var l := f.ledger[i];
    var c := RowCells(l);
    assert |c| >= 5 ==> LeastOf(l) in {Top(l), Top(Fmt(Fixed(c, "x"))), Top(Fmt(Claimed(c, "x", "x")))};
    assert |c| >= 5 && LeastOf(l) == Top(Fmt(Claimed(c, "x", "x"))) && LeastOf(l) != Top(Fmt(Fixed(c, "x"))) && LeastOf(l) != Top(l) ==> Kw(c) == "OPEN";
    assert |c| < 5 ==> LeastOf(l) == Top(l);
    hide Checked, Kw, Cells, Top, Fmt, LeastOf, Apply, RowFine, CleanOp, Lowest, Settled, Starts, Fixed, Claimed;
    assert IsRow(l);
    CheckedRowIsFine(f.ledger, l);
    FineIsSeven(c);
    if LeastOf(l) == Top(Fmt(Fixed(c, "x"))) {
      op := SettleByFix(f, i);
    } else {
      op := SettleByClaim(f, i);
    }
  }

  /** Claims and fixes that bring the next number down as far as it goes. */
  lemma {:induction false} LowestIsReached(f: Files, n: nat) returns (ops: seq<Op>)
    requires Checked(f.ledger) && n <= |f.ledger| && Settled(f.ledger, n)
    ensures var g := After(f, ops, |ops|); Checked(g.ledger) && Next(g) == Lowest(f) && KeysStay(f, g)
    decreases n
  {
    hide Checked, Next, Top, LeastOf, CleanOp, Apply, HasKey, Floor, Largest;
    if n == 0 {
      ops := [];
      SettledFloor(f.ledger);
      NextIs(f);
    } else if LeastOf(f.ledger[n - 1]) == Top(f.ledger[n - 1]) {
      ops := LowestIsReached(f, n - 1);
    } else {
      var op := SettleRow(f, n - 1);
      var rest := LowestIsReached(Apply(f, op), n - 1);
      ops := [op] + rest;
      AfterFirst(f, op);
      AfterConcat(f, [op], rest, |rest|);
    }
    RunKeepsKeys(f, ops, |ops|);
  }

  // ---- when an id is issued again ----------------------------------------

  /** The files when the last operation of the run comes. */
  function Before(f: Files, ops: seq<Op>): Files
    requires ops != []
  {
    After(f, ops, |ops| - 1)
  }

  /** The run ends with an addition that goes through and is given the number m. */
  ghost predicate Issues(f: Files, ops: seq<Op>, m: nat) {
    && ops != [] && ops[|ops| - 1].Add? && Accepts(Before(f, ops), ops[|ops| - 1])
    && Next(Before(f, ops)) == m
  }

  /** A run that issues m, from as low as it goes by plain additions. */
  lemma RunTo(f: Files, m: nat) returns (ops: seq<Op>)
    requires Checked(f.ledger) && m >= Lowest(f)
    ensures Issues(f, ops, m) && KeysStay(f, Before(f, ops))
  {
    hide Checked, Lowest, Next, HasKey, Accepts, Steady, After, Plain, Settled;
    NothingSettled(f.ledger);
    var down := LowestIsReached(f, |f.ledger|);
    var g, k := After(f, down, |down|), m - Lowest(f);
    CheckedIsSteady(g);
    PlainRun(g, k + 1, k + 1);
    PlainRun(g, k + 1, k);
    PlainIs(k + 1);
    ops := down + Plain(k + 1);
    AfterConcat(f, down, Plain(k + 1), k);
    assert ops[|ops| - 1] == Plain(k + 1)[k];
    RunKeepsKeys(f, ops, |ops| - 1);
  }

  lemma NothingSettled(lines: seq<string>)
    ensures Settled(lines, |lines|)
  {
  }

  lemma PlainIs(k: nat)
    requires k > 0
    ensures |Plain(k)| == k && Plain(k)[k - 1] == PLAIN && PLAIN.Add?
  {
  }

  /** From a ledger that passes the check, the numbers some run of additions, claims and
      fixes issues are exactly those from the lowest on. */
  lemma IssuableIff(f: Files, m: nat)
    requires Checked(f.ledger)
    ensures (exists ops :: Issues(f, ops, m)) <==> m >= Lowest(f)
  {
    hide Checked, Lowest, Next, After, Accepts, KeysStay;
    if ops :| Issues(f, ops, m) {
      NeverBelowLowest(f, ops, |ops| - 1);
    }
    if m >= Lowest(f) {
      var ops := RunTo(f, m);
    }
  }

  /** The row's id is the text of a number that is still to come. */
  predicate Ahead(f: Files, c: seq<string>) {
    WellId(Key(c)) && Number(Key(c)) >= Lowest(f) && Key(c) == IdText(Number(Key(c)))
  }

  /** The run ends with an addition that goes through and is given the id of a row that was
      there from the start, and still is. */
  ghost predicate Reissues(f: Files, ops: seq<Op>, c: seq<string>) {
    && c in All(f) && ops != [] && HasKey(Before(f, ops), Key(c))
    && exists m :: Issues(f, ops, m) && Key(c) == IdText(m)
  }

  lemma ReissuedIsAhead(f: Files, ops: seq<Op>, c: seq<string>)
    requires Checked(f.ledger) && Reissues(f, ops, c)
    ensures Ahead(f, c)
  {
    hide Checked, Lowest, Issues, IdText, WellId, Number, All, HasKey, After;
    var m :| Issues(f, ops, m) && Key(c) == IdText(m);
    IssuableIff(f, m);
    IdTextFacts(m);
  }

  lemma AheadIsReissued(f: Files, c: seq<string>) returns (ops: seq<Op>)
    requires Checked(f.ledger) && c in All(f) && Ahead(f, c)
    ensures Reissues(f, ops, c)
  {
    hide Checked, Lowest, Next, IdText, WellId, Number, All, After, Accepts;
    ops := RunTo(f, Number(Key(c)));
    assert HasKey(f, Key(c));
  }

  /** From a ledger that passes the check, some run of additions, claims and fixes issues an
      id that already stands in a row of either file, exactly when some row's id is the text
      of a number not below the lowest that claims and fixes can lead to. */
  lemma ReuseIff(f: Files)
    requires Checked(f.ledger)
    ensures (exists ops, c :: Reissues(f, ops, c)) <==> (exists c :: c in All(f) && Ahead(f, c))
  {
    hide Ahead, All, Checked, HasKey, Issues;
    if ops, c :| Reissues(f, ops, c) {
      ReissuedIsAhead(f, ops, c);
    }
    if c :| c in All(f) && Ahead(f, c) {
      var ops := AheadIsReissued(f, c);
    }
  }

  /** The addition that issues the id of a row of the ledger leaves a ledger that fails the
      check. */
  lemma ReissueFails(f: Files, op: Op, c: seq<string>)
    requires op.Add? && Accepts(f, op) && c in RowsOf(f.ledger) && Key(c) == IdText(Next(f))
    ensures !Checked(Apply(f, op).ledger)
  {
    hide RowsOf, NextNumber, IdText, Apply, Accepts, Checked, Esc;
    AddRows(f, op);
    var row, rows := NewRow(f, op), RowsOf(Apply(f, op).ledger);
    NewKey(f, op);
    var i :| 0 <= i < |RowsOf(f.ledger)| && RowsOf(f.ledger)[i] == c;
    assert rows[i] == c && rows[|rows| - 1] == row;
    if Checked(Apply(f, op).ledger) {
      CheckedHas(Apply(f, op).ledger);
    }
  }

  // ---- evidence that outgrows the cap ------------------------------------

  function Pipes(n: nat): string {
    if n == 0 then "" else "|" + Pipes(n - 1)
  }

  lemma {:induction false} PipesAre(n: nat)
    ensures |Pipes(n)| == n && forall c :: c in Pipes(n) ==> c == '|'
  {
    if n > 0 {
      PipesAre(n - 1);
    }
  }

  lemma {:induction false} EscapedPipes(n: nat, prev: char)
    requires prev != '\\'
    ensures |Escape(Pipes(n), prev)| == 2 * n
  {
    if n > 0 {
      assert Pipes(n)[1..] == Pipes(n - 1);
      EscapedPipes(n - 1, '|');
    }
  }

  lemma {:induction false} OneLineAlready(s: string)
    requires '\n' !in s
    ensures OneLine(s) == s
  {
    if s != "" {
      OneLineAlready(s[1..]);
    }
  }

  lemma EscPipes(n: nat)
    requires n > 0
    ensures |Esc(Pipes(n))| == 2 * n
  {
    hide Escape, Strip, OneLine, Pipes;
    PipesAre(n);
    OneLineAlready(Pipes(n));
    assert Pipes(n)[0] in Pipes(n) && Pipes(n)[n - 1] in Pipes(n);
    StripTrimmed(Pipes(n));
    EscapedPipes(n, ' ');
  }

  /** A ledger with no rows. */
  function Bare(): Files {
    Files([HEADER, CountLine([])], [])
  }

  lemma BareIsGood()
    ensures Good(Bare()) && RowsOf(Bare().ledger) == []
  {
    hide CountLine, Starts, Legacy, IsRow, RowsOf, FirstCount, Kw, StartsWithId;
    var m := CountLine([]);
    CountLineStarts([]);
    L.HeaderIsNothingElse();
    CountLineIsNothingElse(m);
    RowsOne(HEADER);
    RowsOne(m);
    RowsConcat([HEADER], [m]);
    assert [HEADER, m] == [HEADER] + [m];
    FirstCountIs([HEADER, m], 1);
    NoRowsAtAll();
    assert m in [HEADER, m];
  }

  lemma NoRowsAtAll()
    ensures RowsOf([]) == []
  {
  }

  /** The tool takes evidence of up to 2000 pipes; escaped it is twice as long, and from
      1001 on the ledger the tool leaves fails the tool's own check. */
  lemma EvidenceOutgrowsCap(n: nat)
    requires EVIDENCE_CAP < 2 * n && n <= EVIDENCE_CAP
    ensures var f, op := Bare(), Add("PERF", "low", "x", "x", Pipes(n));
      && Good(f) && Accepts(f, op) && |Esc(op.evidence)| == 2 * n
      && !Checked(Apply(f, op).ledger)
  {
    hide *;
    var f, op := Bare(), Add("PERF", "low", "x", "x", Pipes(n));
    BareIsGood();
    GoodHas(f);
    CheckedIsSteady(f);
    EscPipes(n);
    PipesAre(n);
    SteadyAllows(f, op);
    EditedRows(f, op);
    NewIsOpen(f, op);
    SteadyAccepts(f, op);
    AddPassesIff(f, op);
  }
}
