/** The issue ledger and its archive under add, claim and fix. */
module Ledger {
  import opened Text
  import opened LedgerText
  import opened LedgerIds

  const HEADER: string := "| Id |" + " Status | Class |" + " Sev | Issue |" + " Evidence | Owner |"
  const COUNT_LEAD: string := "**Live issue count"
  const CLASSES: set<string> := {"COVERAGE", "DEFECT", "INFRA", "MISSING", "PERF"}
  const SEVS: set<string> := {"blocker", "critical", "high", "med", "low"}
  const EVIDENCE_CAP: nat := 2000

  predicate Starts(s: string, lead: string) {
    |lead| <= |s| && s[..|lead|] == lead
  }

  // ---- rows --------------------------------------------------------------

  predicate IsRow(line: string) {
    Starts(line, LEAD) && Cells(line).Some?
  }

  function RowCells(line: string): seq<string> {
    if IsRow(line) then Cells(line).value else []
  }

  function RowsOf(lines: seq<string>): seq<seq<string>> {
    if lines == [] then []
    else
      var l := lines[|lines| - 1];
      RowsOf(lines[..|lines| - 1]) + if IsRow(l) then [RowCells(l)] else []
  }

  lemma {:induction false} RowsConcat(a: seq<string>, b: seq<string>)
    ensures RowsOf(a + b) == RowsOf(a) + RowsOf(b)
  {
    hide IsRow, RowCells;
    if b == [] {
      assert a + b == a;
    } else {
      var n := |b| - 1;
      assert (a + b)[..|a + b| - 1] == a + b[..n];
      RowsConcat(a, b[..n]);
    }
  }

  lemma RowsOne(l: string)
    ensures RowsOf([l]) == if IsRow(l) then [RowCells(l)] else []
  {
    hide IsRow, RowCells;
    assert [l][..0] == [];
  }

  lemma {:induction false} RowsMember(lines: seq<string>, c: seq<string>)
    ensures c in RowsOf(lines) <==> exists l :: l in lines && IsRow(l) && RowCells(l) == c
  {
    hide IsRow, RowCells;
    if lines != [] {
      var n := |lines| - 1;
      RowsMember(lines[..n], c);
      assert lines == lines[..n] + [lines[n]];
      if c in RowsOf(lines[..n]) {
        var l :| l in lines[..n] && IsRow(l) && RowCells(l) == c;
        assert l in lines;
      }
      if IsRow(lines[n]) && RowCells(lines[n]) == c {
        assert lines[n] in lines;
      }
    }
  }

  function Word(s: string): string {
    if s == "" || IsSpace(s[0]) then "" else [s[0]] + Word(s[1..])
  }

  /** The first word of the status cell; empty where there is none. */
  function Kw(c: seq<string>): string {
    if |c| < 2 then "" else Word(LStrip(c[1]))
  }

  predicate Live(c: seq<string>) {
    Kw(c) == "OPEN" || Kw(c) == "IN-PROGRESS"
  }

  function Tally(rows: seq<seq<string>>, open: bool): nat {
    if rows == [] then 0
    else
      var c := rows[|rows| - 1];
      Tally(rows[..|rows| - 1], open) + if (if open then Kw(c) == "OPEN" else Live(c)) then 1 else 0
  }

  lemma {:induction false} TallyOrder(rows: seq<seq<string>>)
    ensures Tally(rows, true) <= Tally(rows, false)
  {
    hide Kw;
    if rows != [] {
      TallyOrder(rows[..|rows| - 1]);
    }
  }

  function CountLine(rows: seq<seq<string>>): string {
    TallyOrder(rows);
    COUNT_LEAD + ": " + Dec(Tally(rows, false)) + "** \U{2014} " + Dec(Tally(rows, true)) + " `OPEN`, " +
    Dec(Tally(rows, false) - Tally(rows, true)) + " `IN-PROGRESS`."
  }

  // ---- the check ---------------------------------------------------------

  function Key(c: seq<string>): string {
    if c == [] then "" else c[0]
  }

  function Lower(s: string): string {
    if s == "" then ""
    else [if 'A' <= s[0] <= 'Z' then (s[0] as int - 'A' as int + 'a' as int) as char else s[0]] + Lower(s[1..])
  }

  predicate RowFine(c: seq<string>) {
    |c| == 7 && WellId(c[0]) && Live(c) && c[2] in CLASSES && Lower(c[3]) in SEVS && |c[5]| <= EVIDENCE_CAP
  }

  ghost predicate DistinctIds(rows: seq<seq<string>>) {
    forall i, j :: 0 <= i < j < |rows| ==> Key(rows[i]) != Key(rows[j])
  }

  ghost predicate RowsGood(rows: seq<seq<string>>) {
    (forall c :: c in rows ==> RowFine(c)) && DistinctIds(rows)
  }

  /** A row from before rows had ids. */
  predicate Legacy(line: string) {
    Starts(line, "| OPEN") || Starts(line, "| IN-PROGRESS") || Starts(line, "| FIXED")
  }

  function FirstCount(lines: seq<string>): (n: nat)
    ensures n <= |lines| && (n < |lines| ==> Starts(lines[n], COUNT_LEAD))
    ensures forall i :: 0 <= i < n ==> !Starts(lines[i], COUNT_LEAD)
  {
    if lines == [] then 0
    else
      var n := FirstCount(lines[..|lines| - 1]);
      if n < |lines| - 1 || Starts(lines[|lines| - 1], COUNT_LEAD) then n else n + 1
  }

  /** One header, no legacy row, and a line for the count. */
  ghost predicate Frame(lines: seq<string>) {
    multiset(lines)[HEADER] == 1 && (forall l :: l in lines ==> !Legacy(l)) && exists l :: l in lines && Starts(l, COUNT_LEAD)
  }

  ghost predicate Checked(lines: seq<string>) {
    && Frame(lines) && RowsGood(RowsOf(lines))
    && FirstCount(lines) < |lines| && lines[FirstCount(lines)] == CountLine(RowsOf(lines))
  }

  lemma StartsAt(l: string, lead: string, i: nat)
    requires i < |lead|
    ensures Starts(l, lead) ==> i < |l| && l[i] == lead[i]
  {
    if Starts(l, lead) {
      assert l[..|lead|][i] == l[i];
    }
  }

  lemma RowLineIsNothingElse(l: string)
    requires Starts(l, LEAD)
    ensures l != HEADER && !Legacy(l) && !Starts(l, COUNT_LEAD)
  {
    hide Starts;
    StartsAt(l, LEAD, 2);
    StartsAt(l, "| OPEN", 2);
    StartsAt(l, "| IN-PROGRESS", 2);
    StartsAt(l, "| FIXED", 2);
    StartsAt(l, COUNT_LEAD, 2);
    assert HEADER[2] == "| Id |"[2];
  }

  lemma CountLineIsNothingElse(l: string)
    requires Starts(l, COUNT_LEAD)
    ensures l != HEADER && !Legacy(l) && !IsRow(l)
  {
    hide Cells, Starts;
    StartsAt(l, COUNT_LEAD, 0);
    StartsAt(l, LEAD, 0);
    StartsAt(l, "| OPEN", 0);
    StartsAt(l, "| IN-PROGRESS", 0);
    StartsAt(l, "| FIXED", 0);
    assert HEADER[0] == "| Id |"[0];
  }

  // ---- editing lines -----------------------------------------------------

  function Insert(lines: seq<string>, k: nat, l: string): seq<string>
    requires k <= |lines|
  {
    lines[..k] + [l] + lines[k..]
  }

  function Delete(lines: seq<string>, k: nat): seq<string>
    requires k < |lines|
  {
    lines[..k] + lines[k + 1..]
  }

  lemma FrameInsert(lines: seq<string>, k: nat, l: string)
    requires Frame(lines) && k <= |lines| && Starts(l, LEAD)
    ensures Frame(Insert(lines, k, l))
  {
    hide Starts, Legacy;
    RowLineIsNothingElse(l);
    var out := Insert(lines, k, l);
    assert lines == lines[..k] + lines[k..];
    assert multiset(out) == multiset(lines) + multiset{l};
    var n :| n in lines && Starts(n, COUNT_LEAD);
    assert n in out;
  }

  lemma FrameDelete(lines: seq<string>, k: nat)
    requires Frame(lines) && k < |lines| && Starts(lines[k], LEAD)
    ensures Frame(Delete(lines, k))
  {
    hide Starts, Legacy;
    RowLineIsNothingElse(lines[k]);
    var out := Delete(lines, k);
    assert lines == lines[..k] + [lines[k]] + lines[k + 1..];
    assert multiset(lines) == multiset(out) + multiset{lines[k]};
    var n :| n in lines && Starts(n, COUNT_LEAD);
    assert n in multiset(lines) && n != lines[k];
    assert n in multiset(out);
  }

  lemma RowsInsert(lines: seq<string>, k: nat, l: string)
    requires k <= |lines| && IsRow(l)
    ensures RowsOf(Insert(lines, k, l)) == RowsOf(lines[..k]) + [RowCells(l)] + RowsOf(lines[k..])
    ensures RowsOf(lines) == RowsOf(lines[..k]) + RowsOf(lines[k..])
  {
    hide IsRow, RowCells, RowsOf;
    RowsConcat(lines[..k] + [l], lines[k..]);
    RowsConcat(lines[..k], [l]);
    RowsOne(l);
    RowsConcat(lines[..k], lines[k..]);
    assert lines == lines[..k] + lines[k..];
  }

  lemma RowsDelete(lines: seq<string>, k: nat)
    requires k < |lines| && IsRow(lines[k])
    ensures RowsOf(Delete(lines, k)) == RowsOf(lines[..k]) + RowsOf(lines[k + 1..])
    ensures RowsOf(lines) == RowsOf(lines[..k]) + [RowCells(lines[k])] + RowsOf(lines[k + 1..])
  {
    hide IsRow, RowCells, RowsOf;
    RowsConcat(lines[..k], lines[k + 1..]);
    RowsConcat(lines[..k] + [lines[k]], lines[k + 1..]);
    RowsConcat(lines[..k], [lines[k]]);
    RowsOne(lines[k]);
    assert lines == lines[..k] + [lines[k]] + lines[k + 1..];
  }

  // ---- the count ---------------------------------------------------------

  function SetCount(lines: seq<string>): seq<string> {
    var n := FirstCount(lines);
    if n < |lines| then lines[n := CountLine(RowsOf(lines))] else lines
  }

  lemma CountLineStarts(rows: seq<seq<string>>)
    ensures Starts(CountLine(rows), COUNT_LEAD)
  {
    hide Tally, Dec;
  }

  lemma SetCountRows(lines: seq<string>)
    ensures RowsOf(SetCount(lines)) == RowsOf(lines) && |SetCount(lines)| == |lines|
    ensures forall l :: l in SetCount(lines) && IsRow(l) ==> l in lines
  {
    hide RowsOf, CountLine, IsRow, FirstCount;
    var n := FirstCount(lines);
    if n < |lines| {
      var l, m := lines[n], CountLine(RowsOf(lines));
      CountLineStarts(RowsOf(lines));
      CountLineIsNothingElse(l);
      CountLineIsNothingElse(m);
      var out := lines[n := m];
      assert lines == lines[..n] + [l] + lines[n + 1..] && out == lines[..n] + [m] + lines[n + 1..];
      RowsConcat(lines[..n] + [l], lines[n + 1..]);
      RowsConcat(lines[..n] + [m], lines[n + 1..]);
      RowsConcat(lines[..n], [l]);
      RowsConcat(lines[..n], [m]);
      RowsOne(l);
      RowsOne(m);
    }
  }

  lemma FirstCountIs(lines: seq<string>, n: nat)
    requires n < |lines| && Starts(lines[n], COUNT_LEAD) && forall i :: 0 <= i < n ==> !Starts(lines[i], COUNT_LEAD)
    ensures FirstCount(lines) == n
  {
    hide Starts;
    var m := FirstCount(lines);
    assert !(m < n) && !(n < m);
  }

  /** With the rest in order, putting the count right makes the check pass. */
  lemma SetCountChecks(lines: seq<string>)
    requires Frame(lines) && RowsGood(RowsOf(lines))
    ensures Checked(SetCount(lines))
  {
    hide RowsOf, CountLine, RowsGood, Starts, Legacy, FirstCount, Frame;
    SetCountRows(lines);
    var n, m := FirstCount(lines), CountLine(RowsOf(lines));
    CountFound(lines);
    CountLineStarts(RowsOf(lines));
    FirstCountIs(lines[n := m], n);
    FrameRecounted(lines, n, m);
  }

  lemma CountFound(lines: seq<string>)
    requires Frame(lines)
    ensures FirstCount(lines) < |lines|
  {
    hide Starts, Legacy;
    var c :| c in lines && Starts(c, COUNT_LEAD);
    var i :| 0 <= i < |lines| && lines[i] == c;
  }

  lemma FrameRecounted(lines: seq<string>, n: nat, m: string)
    requires Frame(lines) && n < |lines| && Starts(lines[n], COUNT_LEAD) && Starts(m, COUNT_LEAD)
    ensures Frame(lines[n := m])
  {
    hide Starts, Legacy, IsRow;
    CountLineIsNothingElse(lines[n]);
    CountLineIsNothingElse(m);
    var out := lines[n := m];
    assert out[n] == m && m in out;
    assert multiset(out) == multiset(lines) - multiset{lines[n]} + multiset{m};
    forall l | l in out
      ensures !Legacy(l)
    {
      var j :| 0 <= j < |out| && out[j] == l;
      if j != n {
        assert lines[j] == l;
      }
    }
  }
}
