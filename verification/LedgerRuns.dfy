/** What add, claim and fix do to the two files, one after the other. */
module LedgerRuns {
  import opened Text
  import opened LedgerText
  import opened LedgerIds
  import opened Ledger

  datatype Files = Files(ledger: seq<string>, archive: seq<string>)

  datatype Op =
    | Add(cls: string, sev: string, owner: string, issue: string, evidence: string)
    | Claim(rid: string, branch: string, date: string)
    | Fix(rid: string, sha: string)

  // ---- where things go ---------------------------------------------------

  /** Just behind the last row; 0 if there is none. */
  function AfterRows(lines: seq<string>): (n: nat)
    ensures n <= |lines|
  {
    if lines == [] then 0
    else if IsRow(lines[|lines| - 1]) then |lines|
    else AfterRows(lines[..|lines| - 1])
  }

  lemma {:induction false} NoRowsBehind(lines: seq<string>)
    ensures RowsOf(lines[AfterRows(lines)..]) == [] && (AfterRows(lines) == 0 ==> RowsOf(lines) == [])
  {
    hide IsRow, RowCells;
    if lines != [] && !IsRow(lines[|lines| - 1]) {
      var n := |lines| - 1;
      NoRowsBehind(lines[..n]);
      var k := AfterRows(lines[..n]);
      assert lines[k..] == lines[..n][k..] + [lines[n]];
      RowsConcat(lines[..n][k..], [lines[n]]);
      RowsOne(lines[n]);
      assert lines[..n] + [lines[n]] == lines;
      RowsConcat(lines[..n], [lines[n]]);
    } else {
      assert lines[|lines|..] == [];
    }
  }

  function IndexOf(lines: seq<string>, l: string): (n: nat)
    ensures n <= |lines| && (n < |lines| ==> lines[n] == l)
  {
    if lines == [] then 0 else if lines[0] == l then 0 else 1 + IndexOf(lines[1..], l)
  }

  /** A new row goes behind the last, or behind the header and its rule. */
  function InsertAt(lines: seq<string>): (k: nat)
    ensures k <= |lines|
  {
    var after := AfterRows(lines);
    if after > 0 then after
    else
      var h := IndexOf(lines, HEADER);
      if h + 2 <= |lines| then h + 2 else |lines|
  }

  function FindRow(lines: seq<string>, rid: string): (n: nat)
    ensures n <= |lines| && (n < |lines| ==> IsRow(lines[n]) && Key(RowCells(lines[n])) == rid)
    ensures n == |lines| ==> forall l :: l in lines && IsRow(l) ==> Key(RowCells(l)) != rid
  {
    if lines == [] then 0
    else if IsRow(lines[0]) && Key(RowCells(lines[0])) == rid then 0
    else 1 + FindRow(lines[1..], rid)
  }

  // ---- the operations ----------------------------------------------------

  function NewRow(f: Files, op: Op): seq<string>
    requires op.Add?
  {
    [IdText(NextNumber(f.ledger, f.archive)), "OPEN", op.cls, op.sev, Esc(op.issue), Esc(op.evidence), Esc(op.owner)]
  }

  function Claimed(c: seq<string>, branch: string, date: string): seq<string>
    requires |c| >= 5
  {
    c[1 := "IN-PROGRESS " + branch][4 := "[CLAIMED " + branch + " " + date + "] " + c[4]]
  }

  function Fixed(c: seq<string>, sha: string): seq<string>
    requires |c| >= 2
  {
    c[1 := "FIXED " + sha]
  }

  /** What the edit needs of its arguments and of the row it names. */
  predicate Allowed(f: Files, op: Op) {
    match op
    case Add(cls, sev, _, _, evidence) =>
      cls in CLASSES && sev in SEVS && |evidence| <= EVIDENCE_CAP && (RowsOf(f.ledger) != [] || HEADER in f.ledger)
    case Claim(rid, _, _) =>
      var k := FindRow(f.ledger, rid);
      k < |f.ledger| && |RowCells(f.ledger[k])| >= 5 && Kw(RowCells(f.ledger[k])) == "OPEN"
    case Fix(rid, _) =>
      var k := FindRow(f.ledger, rid);
      k < |f.ledger| && Kw(RowCells(f.ledger[k])) != "" && Kw(RowCells(f.ledger[k])) != "FIXED"
  }

  /** The ledger with the edit made and the count not yet put right. */
  function Edited(f: Files, op: Op): seq<string>
    requires Allowed(f, op)
  {
    match op
    case Add(_, _, _, _, _) => Insert(f.ledger, InsertAt(f.ledger), Fmt(NewRow(f, op)))
    case Claim(rid, branch, date) =>
      var k := FindRow(f.ledger, rid);
      f.ledger[k := Fmt(Claimed(RowCells(f.ledger[k]), branch, date))]
    case Fix(rid, _) => Delete(f.ledger, FindRow(f.ledger, rid))
  }

  /** Counting raises on a row without a status, where there is a line to put the count. */
  predicate Countable(lines: seq<string>) {
    FirstCount(lines) < |lines| ==> forall c :: c in RowsOf(lines) ==> Kw(c) != ""
  }

  /** Whether the tool goes ahead; otherwise it says why not, or raises, and leaves the
      files alone. */
  predicate Accepts(f: Files, op: Op) {
    Allowed(f, op) && Countable(Edited(f, op))
  }

  function Apply(f: Files, op: Op): Files {
    if !Accepts(f, op) then f
    else
      var lines := SetCount(Edited(f, op));
      match op
      case Add(_, _, _, _, _) => Files(lines, f.archive)
      case Claim(_, _, _) => Files(lines, f.archive)
      case Fix(rid, sha) =>
        Files(lines, f.archive + [Fmt(Fixed(RowCells(f.ledger[FindRow(f.ledger, rid)]), sha))])
  }

  // ---- status words ------------------------------------------------------

  lemma {:induction false} WordIs(s: string, n: nat)
    requires n <= |s| && (forall i :: 0 <= i < n ==> !IsSpace(s[i])) && (n < |s| ==> IsSpace(s[n]))
    ensures Word(s) == s[..n]
  {
    if n > 0 {
      WordIs(s[1..], n - 1);
      assert s[..n] == [s[0]] + s[1..][..n - 1];
    }
  }

  lemma {:induction false} RStripKeeps(s: string, n: nat)
    requires 1 <= n <= |s| && !IsSpace(s[n - 1])
    ensures |RStrip(s)| >= n
  {
    if IsSpace(s[|s| - 1]) {
      RStripKeeps(s[..|s| - 1], n);
    }
  }

  /** A status written as a word, a blank and something reads back as that word. */
  lemma StatusWord(w: string, rest: string)
    requires w != "" && forall i :: 0 <= i < |w| ==> !IsSpace(w[i])
    ensures Word(LStrip(Strip(w + " " + rest))) == w
  {
    hide RStrip, LStrip, Word;
    var s := w + " " + rest;
    LStripNoop(s);
    RStripKeeps(s, |w|);
    RStripFacts(s);
    var r := RStrip(s);
    LStripNoop(r);
    assert r[..|w|] == w;
    assert forall i :: 0 <= i < |w| ==> r[i] == w[i];
    assert |r| > |w| ==> r[|w|] == s[|w|] == ' ';
    WordIs(r, |w|);
  }

  lemma LStripNoop(s: string)
    requires s != "" && !IsSpace(s[0])
    ensures LStrip(s) == s
  {
  }

  // ---- rows that are written ---------------------------------------------

  /** c can be written as a row and comes back as Strips(c). */
  lemma WrittenRow(c: seq<string>)
    requires |c| == 7 && AllSafe(c) && WellId(c[0])
    ensures IsRow(Fmt(c)) && RowCells(Fmt(c)) == Strips(c) && Strips(c)[0] == c[0]
    ensures StartsWithId(Fmt(c), c[0])
  {
    hide Fmt, Cells, Strip, StartsWithId;
    CellsOfRow(c);
    WellIdFits(c[0]);
    FmtStartsWithId(c);
    FmtStarts(c);
  }

  lemma FmtStarts(c: seq<string>)
    requires c != [] && WellId(c[0])
    ensures Starts(Fmt(c), LEAD)
  {
    FmtStartsWithId(c);
    var line, id := Fmt(c), c[0];
    assert line[..5] == line[..|id| + 4][..5];
    assert ("| " + id + " |")[..5] == "| " + id[..3];
  }

  ghost predicate CleanOp(op: Op) {
    match op
    case Add(_, _, _, _, _) => true
    case Claim(_, branch, date) => PipeSafe(branch) && PipeSafe(date)
    case Fix(_, sha) => PipeSafe(sha)
  }

  predicate Letter(c: char) {
    'A' <= c <= 'Z' || 'a' <= c <= 'z'
  }

  lemma WordFits(s: string)
    requires s != "" && forall i :: 0 <= i < |s| ==> Letter(s[i])
    ensures Strip(s) == s && PipeSafe(s)
  {
    hide Strip, SafeAfter;
    StripTrimmed(s);
    NoPipeSafe(s, ' ');
  }

  lemma ClassFits(s: string)
    requires s in CLASSES
    ensures Strip(s) == s && PipeSafe(s)
  {
    hide Strip, PipeSafe;
    WordFits("COVERAGE");
    WordFits("DEFECT");
    WordFits("INFRA");
    WordFits("MISSING");
    WordFits("PERF");
  }

  lemma SevFits(s: string)
    requires s in SEVS
    ensures Strip(s) == s && PipeSafe(s) && Lower(s) == s
  {
    hide Strip, PipeSafe, Lower;
    WordFits("blocker");
    AlreadyLower("blocker");
    WordFits("critical");
    AlreadyLower("critical");
    WordFits("high");
    AlreadyLower("high");
    WordFits("med");
    AlreadyLower("med");
    WordFits("low");
    AlreadyLower("low");
  }

  lemma {:induction false} AlreadyLower(s: string)
    requires forall i :: 0 <= i < |s| ==> !('A' <= s[i] <= 'Z')
    ensures Lower(s) == s
  {
    if s != "" {
      AlreadyLower(s[1..]);
    }
  }

  lemma NewRowFits(f: Files, op: Op)
    requires op.Add? && Allowed(f, op)
    ensures var c := NewRow(f, op); AllSafe(c) && Strips(c) == c && WellId(c[0])
    ensures RowFine(NewRow(f, op)) <==> |Esc(op.evidence)| <= EVIDENCE_CAP
  {
    hide Strip, Esc, PipeSafe, Lower, Word, LStrip, IdText, NextNumber, WellId;
    var c := NewRow(f, op);
    IdTextFacts(NextNumber(f.ledger, f.archive));
    WordFits("OPEN");
    ClassFits(op.cls);
    SevFits(op.sev);
    EscFits(op.issue);
    EscFits(op.evidence);
    EscFits(op.owner);
    assert Strips(c) == c;
    OpenIsOpen();
  }

  lemma OpenIsOpen()
    ensures Word(LStrip("OPEN")) == "OPEN"
  {
    WordIs("OPEN", 4);
    assert "OPEN"[..4] == "OPEN";
  }

  lemma ClaimedFits(c: seq<string>, branch: string, date: string)
    requires RowFine(c) && AllSafe(c) && Strips(c) == c && PipeSafe(branch) && PipeSafe(date)
    ensures var d := Claimed(c, branch, date);
      AllSafe(d) && RowFine(Strips(d)) && Kw(Strips(d)) == "IN-PROGRESS" && Strips(d)[0] == c[0]
  {
    hide Strip, SafeAfter, Word, LStrip, Lower, WellId;
    var d := Claimed(c, branch, date);
    ClaimTextSafe(branch, date, c[4]);
    StatusWord("IN-PROGRESS", branch);
    assert "IN-PROGRESS" + " " + branch == "IN-PROGRESS " + branch;
    assert forall i :: 0 <= i < 7 && i != 1 && i != 4 ==> Strips(d)[i] == c[i];
  }

  lemma ClaimTextSafe(branch: string, date: string, issue: string)
    requires PipeSafe(branch) && PipeSafe(date) && PipeSafe(issue)
    ensures PipeSafe("IN-PROGRESS " + branch) && PipeSafe("[CLAIMED " + branch + " " + date + "] " + issue)
  {
    hide SafeAfter;
    SafeJoin("IN-PROGRESS ", branch);
    SafeJoin("[CLAIMED ", branch);
    SafeJoin("[CLAIMED " + branch, " ");
    SafeJoin("[CLAIMED " + branch + " ", date);
    SafeJoin("[CLAIMED " + branch + " " + date, "] ");
    SafeJoin("[CLAIMED " + branch + " " + date + "] ", issue);
  }

  lemma SafeJoin(a: string, b: string)
    requires (PipeSafe(a) || '|' !in a) && (PipeSafe(b) || '|' !in b)
    ensures PipeSafe(a + b)
  {
    hide SafeAfter;
    if '|' !in a {
      NoPipeSafe(a, ' ');
    }
    if '|' !in b {
      NoPipeSafe(b, ' ');
    }
    SafeAnywhere(b, if a == "" then ' ' else a[|a| - 1]);
    SafeConcat(a, b, ' ');
  }

  lemma FixedFits(c: seq<string>, sha: string)
    requires |c| == 7 && AllSafe(c) && Strips(c) == c && PipeSafe(sha)
    ensures var d := Fixed(c, sha);
      AllSafe(d) && Kw(Strips(d)) == "FIXED" && Strips(d)[0] == c[0]
  {
    hide Strip, SafeAfter, Word, LStrip;
    var d := Fixed(c, sha);
    SafeJoin("FIXED ", sha);
    StatusWord("FIXED", sha);
    assert "FIXED" + " " + sha == "FIXED " + sha;
  }
}
