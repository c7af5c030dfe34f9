/** The ledger tool as it edits its two files. */
module LedgerStore {
  import opened Options
  import opened Text
  import opened LedgerText
  import opened LedgerIds
  import opened Ledger
  import opened LedgerRuns
  import T = LedgerTheorems

  class Store {
    var ledger: seq<string>
    var archive: seq<string>

    /** The two files as read, line by line. */
    constructor (ledgerLines: seq<string>, archiveLines: seq<string>)
      ensures Now() == Files(ledgerLines, archiveLines)
    {
      ledger := ledgerLines;
      archive := archiveLines;
    }

    ghost function Now(): Files
      reads this
    {
      Files(ledger, archive)
    }

    lemma NowIs()
      ensures Now() == Files(ledger, archive)
    {
    }

    /** The line of the row with this id; the number of lines if there is none. */
    method Find(rid: string) returns (k: nat)
      ensures k == FindRow(ledger, rid)
    {
      hide IsRow, RowCells;
      k := 0;
      assert ledger[0..] == ledger;
      while k < |ledger|
        invariant k <= |ledger| && FindRow(ledger, rid) == k + FindRow(ledger[k..], rid)
      {
        if IsRow(ledger[k]) && Key(RowCells(ledger[k])) == rid {
          return;
        }
        assert ledger[k..][1..] == ledger[k + 1..];
        k := k + 1;
      }
    }

    /** Put the count line right; the first one there is. */
    method Rewrite()
      modifies `ledger
      ensures ledger == SetCount(old(ledger))
    {
      hide CountLine, RowsOf, FirstCount, Starts;
      var i := 0;
      while i < |ledger| && !Starts(ledger[i], COUNT_LEAD)
        invariant i <= |ledger| && ledger == old(ledger)
        invariant forall j :: 0 <= j < i ==> !Starts(ledger[j], COUNT_LEAD)
      {
        i := i + 1;
      }
      if i < |ledger| {
        FirstCountIs(ledger, i);
        ledger := ledger[i := CountLine(RowsOf(ledger))];
      }
    }

    method AddIssue(cls: string, sev: string, owner: string, issue: string, evidence: string) returns (id: Option<string>)
      modifies this
      ensures Now() == Apply(old(Now()), Add(cls, sev, owner, issue, evidence))
      ensures id.Some? <==> Accepts(old(Now()), Add(cls, sev, owner, issue, evidence))
      ensures id.Some? ==> id.value == IdText(NextNumber(old(ledger), old(archive)))
    {
      hide SetCount, Fmt, InsertAt, Insert, Esc, IdText, NextNumber, RowsOf, Countable;
      if cls !in CLASSES || sev !in SEVS || |evidence| > EVIDENCE_CAP || (RowsOf(ledger) == [] && HEADER !in ledger) {
        return None;
      }
      var rid := NextId(ledger, archive);
      var row := [rid, "OPEN", cls, sev, Esc(issue), Esc(evidence), Esc(owner)];
      var lines := Insert(ledger, InsertAt(ledger), Fmt(row));
      if !Countable(lines) {
        return None;
      }
      ledger := lines;
      Rewrite();
      return Some(rid);
    }

    method ClaimIssue(rid: string, branch: string, date: string) returns (ok: bool)
      modifies this
      ensures Now() == Apply(old(Now()), Claim(rid, branch, date))
      ensures ok <==> Accepts(old(Now()), Claim(rid, branch, date))
    {
      hide *;
      ghost var f, op := Files(ledger, archive), Claim(rid, branch, date);
      NowIs();
      var k := Find(rid);
      AcceptsClaim(f, op, k);
      if k == |ledger| {
        T.Refused(f, op);
        return false;
      }
      var c := RowCells(ledger[k]);
      if |c| < 5 || Kw(c) != "OPEN" {
        T.Refused(f, op);
        return false;
      }
      ClaimedIs(c, branch, date);
      c := c[1 := "IN-PROGRESS " + branch];
      c := c[4 := "[CLAIMED " + branch + " " + date + "] " + c[4]];
      var lines := ledger[k := Fmt(c)];
      if !Countable(lines) {
        T.Refused(f, op);
        return false;
      }
      T.ApplyClaim(f, op, k);
      ledger := lines;
      Rewrite();
      NowIs();
      return true;
    }

    method FixIssue(rid: string, sha: string) returns (ok: bool)
      modifies this
      ensures Now() == Apply(old(Now()), Fix(rid, sha))
      ensures ok <==> Accepts(old(Now()), Fix(rid, sha))
    {
      hide *;
      ghost var f, op := Files(ledger, archive), Fix(rid, sha);
      NowIs();
      var k := Find(rid);
      AcceptsFix(f, op, k);
      if k == |ledger| {
        T.Refused(f, op);
        return false;
      }
      var c := RowCells(ledger[k]);
      if Kw(c) == "" || Kw(c) == "FIXED" {
        T.Refused(f, op);
        return false;
      }
      var lines := Delete(ledger, k);
      if !Countable(lines) {
        T.Refused(f, op);
        return false;
      }
      T.ApplyFix(f, op, k);
      FixedIs(c, sha);
      c := c[1 := "FIXED " + sha];
      ledger := lines;
      Rewrite();
      archive := archive + [Fmt(c)];
      NowIs();
      return true;
    }

    /** The check as a whole: true exactly for a ledger that is in order. */
    method Check() returns (ok: bool)
      ensures ok <==> Checked(ledger)
    {
      hide *;
      var h := CountHeaders(ledger);
      var l := NoLegacy(ledger);
      var r := RowsInOrder(RowsOf(ledger));
      var n := FirstCount(ledger);
      ok := h == 1 && l && r && n < |ledger| && ledger[n] == CountLine(RowsOf(ledger));
      CheckedIs(ledger);
    }
  }

  lemma AcceptsClaim(f: Files, op: Op, k: nat)
    requires op.Claim? && k == FindRow(f.ledger, op.rid)
    ensures k <= |f.ledger|
    ensures Accepts(f, op) <==>
      k < |f.ledger| && |RowCells(f.ledger[k])| >= 5 && Kw(RowCells(f.ledger[k])) == "OPEN" &&
      Countable(f.ledger[k := Fmt(Claimed(RowCells(f.ledger[k]), op.branch, op.date))])
  {
    hide Kw, RowCells, Countable, Fmt, Claimed;
  }

  lemma AcceptsFix(f: Files, op: Op, k: nat)
    requires op.Fix? && k == FindRow(f.ledger, op.rid)
    ensures k <= |f.ledger|
    ensures Accepts(f, op) <==>
      k < |f.ledger| && Kw(RowCells(f.ledger[k])) != "" && Kw(RowCells(f.ledger[k])) != "FIXED" &&
      Countable(Delete(f.ledger, k))
  {
    hide Kw, RowCells, Countable, Delete;
  }

  lemma ClaimedIs(c: seq<string>, branch: string, date: string)
    requires |c| >= 5
    ensures Claimed(c, branch, date) == c[1 := "IN-PROGRESS " + branch][4 := "[CLAIMED " + branch + " " + date + "] " + c[4]]
  {
  }

  lemma FixedIs(c: seq<string>, sha: string)
    requires |c| >= 2
    ensures Fixed(c, sha) == c[1 := "FIXED " + sha]
  {
  }

  lemma CheckedIs(lines: seq<string>)
    ensures FirstCount(lines) <= |lines|
    ensures Checked(lines) <==>
      multiset(lines)[HEADER] == 1 && (forall l :: l in lines ==> !Legacy(l)) && RowsGood(RowsOf(lines)) &&
      FirstCount(lines) < |lines| && lines[FirstCount(lines)] == CountLine(RowsOf(lines))
  {
    hide RowsGood, RowsOf, CountLine, Legacy;
  }

  method CountHeaders(lines: seq<string>) returns (n: nat)
    ensures n == multiset(lines)[HEADER]
  {
    n := 0;
    for i := 0 to |lines|
      invariant n == multiset(lines[..i])[HEADER]
    {
      assert lines[..i + 1] == lines[..i] + [lines[i]];
      if lines[i] == HEADER {
        n := n + 1;
      }
    }
    assert lines[..|lines|] == lines;
  }

  method NoLegacy(lines: seq<string>) returns (ok: bool)
    ensures ok <==> forall l :: l in lines ==> !Legacy(l)
  {
    hide Legacy;
    ok := true;
    for i := 0 to |lines|
      invariant ok <==> forall j :: 0 <= j < i ==> !Legacy(lines[j])
    {
      if Legacy(lines[i]) {
        ok := false;
      }
    }
  }

  method RowsInOrder(rows: seq<seq<string>>) returns (ok: bool)
    ensures ok <==> RowsGood(rows)
  {
    hide RowFine, Key;
    ok := true;
    var seen: set<string> := {};
    for i := 0 to |rows|
      invariant forall id :: id in seen <==> exists j :: 0 <= j < i && Key(rows[j]) == id
      invariant ok <==> (forall j :: 0 <= j < i ==> RowFine(rows[j])) && DistinctIds(rows[..i])
    {
      var c := rows[i];
      assert rows[..i + 1] == rows[..i] + [c];
      SnocDistinct(rows[..i], c);
      if !RowFine(c) {
        ok := false;
      }
      if Key(c) in seen {
        var j :| 0 <= j < i && Key(rows[j]) == Key(c);
        assert rows[..i][j] == rows[j];
        ok := false;
      } else {
        assert forall j :: 0 <= j < i ==> rows[..i][j] == rows[j];
      }
      seen := seen + {Key(c)};
    }
    assert rows[..|rows|] == rows;
  }

  lemma SnocDistinct(rows: seq<seq<string>>, c: seq<string>)
    ensures DistinctIds(rows + [c]) <==> DistinctIds(rows) && forall j :: 0 <= j < |rows| ==> Key(rows[j]) != Key(c)
  {
    hide Key;
    var out := rows + [c];
    assert forall j :: 0 <= j < |rows| ==> out[j] == rows[j];
    assert out[|rows|] == c;
  }
}
