/** Lines and files: what is written line by line is read back line by line as long as no
    cell brings a line break of its own. */
module LedgerFiles {
  import opened Text
  import opened LedgerText
  import opened LedgerIds
  import opened Ledger
  import opened LedgerRuns
  import T = LedgerTheorems

  predicate IsBreak(c: char) {
    c == '\n' || c == '\r' || c == '\U{0b}' || c == '\U{0c}' || c == '\U{1c}' || c == '\U{1d}' || c == '\U{1e}' ||
    c == '\U{85}' || c == '\U{2028}' || c == '\U{2029}'
  }

  function SplitLines(text: string): seq<string>
    decreases |text|
  {
    if text == "" then []
    else if text[0] == '\r' && |text| > 1 && text[1] == '\n' then [""] + SplitLines(text[2..])
    else if IsBreak(text[0]) then [""] + SplitLines(text[1..])
    else
      var r := SplitLines(text[1..]);
      if r == [] then [[text[0]]] else [[text[0]] + r[0]] + r[1..]
  }

  function WriteLines(lines: seq<string>): string {
    if lines == [] then "" else lines[0] + "\n" + WriteLines(lines[1..])
  }

  ghost predicate NoBreaks(s: string) {
    forall c :: c in s ==> !IsBreak(c)
  }

  ghost predicate Unbroken(lines: seq<string>) {
    forall l :: l in lines ==> NoBreaks(l)
  }

  lemma {:induction false} SplitLine(l: string, rest: string)
    requires NoBreaks(l)
    ensures SplitLines(l + "\n" + rest) == [l] + SplitLines(rest)
  {
    assert IsBreak('\n') && IsBreak('\r');
    hide IsBreak;
    var t := l + "\n" + rest;
    if l == "" {
      assert t == "\n" + rest && t[1..] == rest;
    } else {
      assert t[1..] == l[1..] + "\n" + rest && t[0] in l;
      SplitLine(l[1..], rest);
      assert [l[0]] + l[1..] == l;
    }
  }

  /** Reading back what was written. */
  lemma {:induction false} LinesReadBack(lines: seq<string>)
    requires Unbroken(lines)
    ensures SplitLines(WriteLines(lines)) == lines
  {
    assert SplitLines("") == [];
    hide NoBreaks, SplitLines;
    if lines == [] {
    } else {
      assert lines[0] in lines;
      LinesReadBack(lines[1..]);
      SplitLine(lines[0], WriteLines(lines[1..]));
      assert lines == [lines[0]] + lines[1..];
    }
  }

  // ---- no operation writes a broken line ---------------------------------

  /** Texts without breaks; a newline in a text to be escaped is turned into a blank. */
  ghost predicate Flat(op: Op) {
    match op
    case Add(cls, sev, owner, issue, evidence) => NoBreaks(OneLine(owner)) && NoBreaks(OneLine(issue)) && NoBreaks(OneLine(evidence))
    case Claim(_, branch, date) => NoBreaks(branch) && NoBreaks(date)
    case Fix(_, sha) => NoBreaks(sha)
  }

  lemma EscUnbroken(s: string)
    requires NoBreaks(OneLine(s))
    ensures NoBreaks(Esc(s))
  {
    hide Escape, Strip, OneLine;
    forall c | c in Esc(s)
      ensures !IsBreak(c)
    {
      EscapeChars(Strip(OneLine(s)), ' ', c);
      if c in Strip(OneLine(s)) {
        StripChars(OneLine(s), c);
      }
    }
  }

  lemma {:induction false} JoinedUnbroken(c: seq<string>)
    requires forall i :: 0 <= i < |c| ==> NoBreaks(c[i])
    ensures NoBreaks(Joined(c))
  {
    if |c| > 1 {
      JoinedUnbroken(c[1..]);
    }
  }

  lemma FmtUnbroken(c: seq<string>)
    requires forall i :: 0 <= i < |c| ==> NoBreaks(c[i])
    ensures NoBreaks(Fmt(c))
  {
    hide Joined;
    JoinedUnbroken(c);
  }

  lemma {:induction false} PiecesChars(s: string, prev: char, i: int, x: char)
    requires 0 <= i < |Pieces(s, prev)| && x in Pieces(s, prev)[i]
    ensures x in s
    decreases |s|
  {
    if s != "" {
      if s[0] == '|' && prev != '\\' {
        if i > 0 {
          PiecesChars(s[1..], '|', i - 1, x);
        }
      } else {
        var r := Pieces(s[1..], s[0]);
        if i > 0 || x in r[0] {
          PiecesChars(s[1..], s[0], i, x);
        }
      }
    }
  }

  lemma CellsUnbroken(line: string)
    requires NoBreaks(line)
    ensures forall i :: 0 <= i < |RowCells(line)| ==> NoBreaks(RowCells(line)[i])
  {
    hide Pieces, Strip, RStrip;
    if IsRow(line) {
      var s := RStrip(line);
      RStripFacts(line);
      var parts := Pieces(s, ' ');
      forall i, x | 0 <= i < |RowCells(line)| && x in RowCells(line)[i]
        ensures !IsBreak(x)
      {
        assert parts[1..|parts| - 1][i] == parts[i + 1];
        StripChars(parts[i + 1], x);
        PiecesChars(s, ' ', i + 1, x);
        assert s == line[..|s|];
      }
    }
  }

  lemma BothUnbroken(a: string, b: string)
    requires NoBreaks(a) && NoBreaks(b)
    ensures NoBreaks(a + b)
  {
    hide IsBreak;
  }

  lemma CountLineUnbroken(rows: seq<seq<string>>)
    ensures NoBreaks(CountLine(rows))
  {
    assert NoBreaks(COUNT_LEAD) && NoBreaks(": ") && NoBreaks("** \U{2014} ") && NoBreaks(" `OPEN`, ") && NoBreaks(" `IN-PROGRESS`.");
    hide Tally, Dec, NoBreaks;
    TallyOrder(rows);
    var live, opens := Dec(Tally(rows, false)), Dec(Tally(rows, true));
    var claimed := Dec(Tally(rows, false) - Tally(rows, true));
    DecUnbroken(Tally(rows, false));
    DecUnbroken(Tally(rows, true));
    DecUnbroken(Tally(rows, false) - Tally(rows, true));
    BothUnbroken(COUNT_LEAD, ": ");
    BothUnbroken(COUNT_LEAD + ": ", live);
    BothUnbroken(COUNT_LEAD + ": " + live, "** \U{2014} ");
    BothUnbroken(COUNT_LEAD + ": " + live + "** \U{2014} ", opens);
    BothUnbroken(COUNT_LEAD + ": " + live + "** \U{2014} " + opens, " `OPEN`, ");
    BothUnbroken(COUNT_LEAD + ": " + live + "** \U{2014} " + opens + " `OPEN`, ", claimed);
    BothUnbroken(COUNT_LEAD + ": " + live + "** \U{2014} " + opens + " `OPEN`, " + claimed, " `IN-PROGRESS`.");
  }

  lemma DecUnbroken(n: nat)
    ensures NoBreaks(Dec(n))
  {
    hide Dec;
    DigitsUnbroken(Dec(n));
  }

  lemma DigitsUnbroken(s: string)
    requires AllDigits(s)
    ensures NoBreaks(s)
  {
  }

  lemma SetCountUnbroken(lines: seq<string>)
    requires Unbroken(lines)
    ensures Unbroken(SetCount(lines))
  {
    hide CountLine, RowsOf, FirstCount, NoBreaks;
    CountLineUnbroken(RowsOf(lines));
  }

  lemma IdUnbroken(n: nat)
    ensures NoBreaks(IdText(n))
  {
    hide Padded4;
    DigitsUnbroken(Padded4(n));
  }

  lemma NewRowUnbroken(f: Files, op: Op)
    requires op.Add? && Flat(op) && Accepts(f, op)
    ensures forall i :: 0 <= i < |NewRow(f, op)| ==> NoBreaks(NewRow(f, op)[i])
  {
    hide Esc, IdText, NextNumber, NoBreaks, Edited, Countable;
    IdUnbroken(NextNumber(f.ledger, f.archive));
    WordUnbroken("OPEN");
    ClassUnbroken(op.cls);
    SevUnbroken(op.sev);
    EscUnbroken(op.owner);
    EscUnbroken(op.issue);
    EscUnbroken(op.evidence);
  }

  lemma WordUnbroken(s: string)
    requires forall i :: 0 <= i < |s| ==> Letter(s[i])
    ensures NoBreaks(s)
  {
  }

  lemma ClassUnbroken(s: string)
    requires s in CLASSES
    ensures NoBreaks(s)
  {
    hide NoBreaks;
    WordUnbroken("COVERAGE");
    WordUnbroken("DEFECT");
    WordUnbroken("INFRA");
    WordUnbroken("MISSING");
    WordUnbroken("PERF");
  }

  lemma SevUnbroken(s: string)
    requires s in SEVS
    ensures NoBreaks(s)
  {
    hide NoBreaks;
    WordUnbroken("blocker");
    WordUnbroken("critical");
    WordUnbroken("high");
    WordUnbroken("med");
    WordUnbroken("low");
  }

  lemma ClaimedUnbroken(c: seq<string>, branch: string, date: string)
    requires |c| >= 5 && (forall i :: 0 <= i < |c| ==> NoBreaks(c[i])) && NoBreaks(branch) && NoBreaks(date)
    ensures forall i :: 0 <= i < |c| ==> NoBreaks(Claimed(c, branch, date)[i])
  {
  }

  lemma FixedUnbroken(c: seq<string>, sha: string)
    requires |c| >= 2 && (forall i :: 0 <= i < |c| ==> NoBreaks(c[i])) && NoBreaks(sha)
    ensures forall i :: 0 <= i < |c| ==> NoBreaks(Fixed(c, sha)[i])
  {
  }

  /** So both files read back as they were left, after every operation. */
  lemma ApplyKeepsUnbroken(f: Files, op: Op)
    requires Unbroken(f.ledger) && Unbroken(f.archive) && Flat(op)
    ensures Unbroken(Apply(f, op).ledger) && Unbroken(Apply(f, op).archive)
  {
    hide *;
    if !Accepts(f, op) {
      T.Refused(f, op);
    } else {
      match op {
        case Add(_, _, _, _, _) => AddUnbroken(f, op);
        case Claim(_, _, _) => ClaimUnbroken(f, op);
        case Fix(_, _) => FixUnbroken(f, op);
      }
    }
  }

  lemma AddUnbroken(f: Files, op: Op)
    requires op.Add? && Unbroken(f.ledger) && Flat(op) && Accepts(f, op)
    ensures Unbroken(Apply(f, op).ledger) && Apply(f, op).archive == f.archive
  {
    hide *;
    T.ApplyAdd(f, op);
    NewRowUnbroken(f, op);
    FmtUnbroken(NewRow(f, op));
    var l := Fmt(NewRow(f, op));
    T.OneMoreLine(f.ledger, InsertAt(f.ledger), l);
    Stays(f.ledger, Insert(f.ledger, InsertAt(f.ledger), l), l);
    SetCountUnbroken(Insert(f.ledger, InsertAt(f.ledger), l));
  }

  lemma Stays(lines: seq<string>, more: seq<string>, l: string)
    requires Unbroken(lines) && NoBreaks(l) && forall x :: x in more ==> x in lines || x == l
    ensures Unbroken(more)
  {
    hide NoBreaks;
  }

  lemma ClaimUnbroken(f: Files, op: Op)
    requires op.Claim? && Unbroken(f.ledger) && Flat(op) && Accepts(f, op)
    ensures Unbroken(Apply(f, op).ledger) && Apply(f, op).archive == f.archive
  {
    hide *;
    var k := FindRow(f.ledger, op.rid);
    T.ApplyClaim(f, op, k);
    var c := RowCells(f.ledger[k]);
    LineUnbroken(f.ledger, k);
    CellsUnbroken(f.ledger[k]);
    FlatClaim(op);
    ClaimedUnbroken(c, op.branch, op.date);
    T.ClaimedLength(c, op.branch, op.date);
    FmtUnbroken(Claimed(c, op.branch, op.date));
    var l := Fmt(Claimed(c, op.branch, op.date));
    T.StillThere(f.ledger, k, l);
    Stays(f.ledger, f.ledger[k := l], l);
    SetCountUnbroken(f.ledger[k := l]);
  }

  lemma LineUnbroken(lines: seq<string>, k: nat)
    requires Unbroken(lines) && k < |lines|
    ensures NoBreaks(lines[k])
  {
    hide NoBreaks;
  }

  lemma FlatClaim(op: Op)
    requires Flat(op)
    ensures op.Claim? ==> NoBreaks(op.branch) && NoBreaks(op.date)
    ensures op.Fix? ==> NoBreaks(op.sha)
  {
    hide NoBreaks;
  }

  lemma FixUnbroken(f: Files, op: Op)
    requires op.Fix? && Unbroken(f.ledger) && Unbroken(f.archive) && Flat(op) && Accepts(f, op)
    ensures Unbroken(Apply(f, op).ledger) && Unbroken(Apply(f, op).archive)
  {
    hide *;
    var k := FindRow(f.ledger, op.rid);
    T.ApplyFix(f, op, k);
    var c := RowCells(f.ledger[k]);
    LineUnbroken(f.ledger, k);
    CellsUnbroken(f.ledger[k]);
    FlatClaim(op);
    FixedUnbroken(c, op.sha);
    T.FixedLength(c, op.sha);
    FmtUnbroken(Fixed(c, op.sha));
    var l := Fmt(Fixed(c, op.sha));
    T.StillThere(f.ledger, k, l);
    Stays(f.ledger, Delete(f.ledger, k), f.ledger[k]);
    SetCountUnbroken(Delete(f.ledger, k));
    Stays(f.archive, f.archive + [l], l);
  }

  // ---- the files as texts ------------------------------------------------

  /** What the tool writes: every line with a line feed behind it, and one line feed for no
      line at all. */
  function WriteFile(lines: seq<string>): string {
    if lines == [] then "\n" else WriteLines(lines)
  }

  lemma FileReadBack(lines: seq<string>)
    requires Unbroken(lines)
    ensures SplitLines(WriteFile(lines)) == if lines == [] then [""] else lines
  {
    if lines == [] {
      assert "\n"[1..] == "" && SplitLines("") == [];
    } else {
      LinesReadBack(lines);
    }
  }

  /** No line of a file has a break in it. */
  lemma {:induction false} SplitUnbroken(text: string)
    ensures Unbroken(SplitLines(text))
    decreases |text|
  {
    assert NoBreaks("");
    hide IsBreak;
    if text != "" {
      if text[0] == '\r' && |text| > 1 && text[1] == '\n' {
        SplitUnbroken(text[2..]);
      } else {
        SplitUnbroken(text[1..]);
        var r := SplitLines(text[1..]);
        if !IsBreak(text[0]) && r != [] {
          assert r[0] in r;
          BothUnbroken([text[0]], r[0]);
        }
      }
    }
  }

  /** The two files as the tool reads them. */
  function OnDisk(ledger: string, archive: string): Files {
    Files(SplitLines(ledger), SplitLines(archive))
  }

  lemma LedgerReadBack(ledger: string, archive: string, op: Op)
    requires var f := OnDisk(ledger, archive); Flat(op) && Checked(f.ledger) && Accepts(f, op)
    ensures var v := Apply(OnDisk(ledger, archive), op).ledger; SplitLines(WriteFile(v)) == v
  {
    hide SplitLines, Flat, Checked, Accepts, Apply, WriteFile, Unbroken;
    var f := OnDisk(ledger, archive);
    SplitUnbroken(ledger);
    SplitUnbroken(archive);
    ApplyKeepsUnbroken(f, op);
    FileReadBack(Apply(f, op).ledger);
    StillLines(f, op);
  }

  lemma StillLines(f: Files, op: Op)
    requires Checked(f.ledger) && Accepts(f, op)
    ensures Apply(f, op).ledger != []
  {
    CheckedIsTwo(f.ledger);
    hide *;
    match op {
      case Add(_, _, _, _, _) =>
        T.ApplyAdd(f, op);
        InsertLength(f.ledger, InsertAt(f.ledger), Fmt(NewRow(f, op)));
        SetCountRows(Insert(f.ledger, InsertAt(f.ledger), Fmt(NewRow(f, op))));
      case Claim(_, _, _) =>
        var k := FindRow(f.ledger, op.rid);
        T.ApplyClaim(f, op, k);
        SetCountRows(f.ledger[k := Fmt(Claimed(RowCells(f.ledger[k]), op.branch, op.date))]);
      case Fix(_, _) =>
        var k := FindRow(f.ledger, op.rid);
        T.ApplyFix(f, op, k);
        InsertLength(f.ledger, k, "");
        SetCountRows(Delete(f.ledger, k));
    }
  }

  lemma InsertLength(lines: seq<string>, k: nat, l: string)
    requires k <= |lines|
    ensures |Insert(lines, k, l)| == |lines| + 1 && (k < |lines| ==> |Delete(lines, k)| == |lines| - 1)
  {
  }

  /** A header and a count are two lines. */
  lemma CheckedIsTwo(lines: seq<string>)
    requires Checked(lines)
    ensures |lines| >= 2
  {
    hide RowsOf, CountLine, Legacy, RowsGood, IsRow, Starts, FirstCount;
    var n := FirstCount(lines);
    CountLineIsNothingElse(lines[n]);
    assert HEADER in multiset(lines);
    var j :| 0 <= j < |lines| && lines[j] == HEADER;
  }

  /** For text without breaks: the ledger file passes the check after an accepted addition
      exactly when the escaped evidence is within the cap and no row has the id issued, */
  lemma AddedFilePassesIff(ledger: string, archive: string, op: Op)
    requires var f := OnDisk(ledger, archive); op.Add? && Flat(op) && Checked(f.ledger) && Accepts(f, op)
    ensures var f := OnDisk(ledger, archive);
      Checked(SplitLines(WriteFile(Apply(f, op).ledger))) <==>
        && |Esc(op.evidence)| <= EVIDENCE_CAP
        && forall c :: c in RowsOf(f.ledger) ==> Key(c) != IdText(NextNumber(f.ledger, f.archive))
  {
    hide *;
    LedgerReadBack(ledger, archive, op);
    T.AddPassesIff(OnDisk(ledger, archive), op);
  }

  /** after an accepted claim exactly when the pipes of branch and date are escaped; */
  lemma ClaimedFilePassesIff(ledger: string, archive: string, op: Op)
    requires var f := OnDisk(ledger, archive); op.Claim? && Flat(op) && Checked(f.ledger) && Accepts(f, op)
    ensures Checked(SplitLines(WriteFile(Apply(OnDisk(ledger, archive), op).ledger))) <==> PipeSafe(op.branch) && PipeSafe(op.date)
  {
    hide *;
    LedgerReadBack(ledger, archive, op);
    T.ClaimPassesIff(OnDisk(ledger, archive), op);
  }

  // ---- appending to the archive ------------------------------------------

  /** Nothing is left open on the last line. */
  predicate Ended(text: string) {
    text == "" || IsBreak(text[|text| - 1])
  }

  /** A character in front of the first line. */
  function Grow(c: char, r: seq<string>): seq<string> {
    if r == [] then [[c]] else [[c] + r[0]] + r[1..]
  }

  lemma SplitStep(text: string)
    requires text != "" && !(text[0] == '\r' && |text| > 1 && text[1] == '\n')
    ensures var r := SplitLines(text[1..]);
      SplitLines(text) == if IsBreak(text[0]) then [""] + r else Grow(text[0], r)
  {
    hide IsBreak;
  }

  lemma SplitPair(text: string)
    requires |text| > 1 && text[0] == '\r' && text[1] == '\n'
    ensures SplitLines(text) == [""] + SplitLines(text[2..])
  {
  }

  lemma SplitSome(text: string)
    ensures SplitLines(text) == [] <==> text == ""
  {
  }

  lemma GrowConcat(c: char, r: seq<string>, q: seq<string>)
    requires r != []
    ensures Grow(c, r + q) == Grow(c, r) + q
  {
  }

  lemma {:induction false} SplitConcat(a: string, b: string)
    requires Ended(a) && (b == "" || b[0] != '\n')
    ensures SplitLines(a + b) == SplitLines(a) + SplitLines(b)
    decreases |a|
  {
    SplitSome("");
    hide IsBreak, SplitLines, Grow;
    if a == "" {
      assert a + b == b;
    } else if a[0] == '\r' && |a| > 1 && a[1] == '\n' {
      assert (a + b)[2..] == a[2..] + b;
      SplitConcat(a[2..], b);
      SplitPair(a);
      SplitPair(a + b);
    } else {
      assert (a + b)[1..] == a[1..] + b;
      SplitConcat(a[1..], b);
      SplitStep(a);
      SplitStep(a + b);
      if !IsBreak(a[0]) {
        SplitSome(a[1..]);
        GrowConcat(a[0], SplitLines(a[1..]), SplitLines(b));
      }
    }
  }

  /** The part of a text that stands on its last line, and what stands before it. */
  lemma {:induction false} LastLine(text: string) returns (b: string, s: string)
    ensures text == b + s && Ended(b) && NoBreaks(s) && (s == "" <==> Ended(text))
  {
    hide IsBreak;
    if Ended(text) {
      b, s := text, "";
    } else {
      var n := |text| - 1;
      b, s := LastLine(text[..n]);
      s := s + [text[n]];
      assert text == text[..n] + [text[n]];
    }
  }

  lemma OneLineFile(l: string)
    requires NoBreaks(l)
    ensures SplitLines(l + "\n") == [l] && (l != "" ==> SplitLines(l) == [l])
  {
    assert SplitLines("") == [];
    assert l + "\n" + "" == l + "\n";
    SplitLine(l, "");
    if l != "" {
      OpenLine(l);
    }
  }

  lemma {:induction false} OpenLine(l: string)
    requires NoBreaks(l) && l != ""
    ensures SplitLines(l) == [l]
  {
    assert IsBreak('\r') && SplitLines("") == [];
    hide IsBreak;
    assert l[0] in l;
    if |l| > 1 {
      OpenLine(l[1..]);
      assert [l[0]] + l[1..] == l;
    } else {
      assert l[1..] == "" && l == [l[0]];
    }
  }

  /** A line appended to a text: a line of its own if the text is ended, and otherwise the
      rest of the last one. */
  lemma AppendedLines(text: string, l: string) returns (b: string, s: string)
    requires NoBreaks(l) && l != ""
    ensures text == b + s && (s == "" <==> Ended(text))
    ensures SplitLines(text + l + "\n") == SplitLines(b) + [s + l]
    ensures SplitLines(text) == SplitLines(b) + if s == "" then [] else [s]
  {
    b, s := LastLine(text);
    assert IsBreak('\n');
    BothUnbroken(s, l);
    OneLineFile(s + l);
    var t := s + l + "\n";
    assert t[0] in s + l;
    assert text + l + "\n" == b + t;
    hide IsBreak;
    SplitConcat(b, t);
    assert SplitLines("") == [];
    if s != "" {
      assert s[0] in s;
      OneLineFile(s);
      SplitConcat(b, s);
    } else {
      assert b + s == b;
    }
  }

  // ---- a row glued to an open line ---------------------------------------

  /** A row behind the rest of a line is not read as the row it is. */
  lemma GluedIsOther(s: string, d: seq<string>)
    requires s != "" && |d| == 7 && WellId(d[0]) && IsRow(s + Fmt(d))
    ensures RowCells(s + Fmt(d)) != Strips(d)
  {
    var z, last := s + Fmt(d), s[|s| - 1];
    assert s[0] == z[0] == z[..5][0] == '|';
    hide WellId, Pieces, Joined, Strip, RStrip;
    var t := " " + Joined(d) + " |";
    GluedEnds(s, d);
    PiecesAcross(s, Fmt(d), ' ');
    PiecesCount(d);
    assert Fmt(d) == "|" + t;
    var p, q := Pieces(s, ' '), Pieces(Fmt(d), last);
    OpensWithPipe(s);
    if last != '\\' {
      PipeBehind(t, last);
    } else {
      PipeEscaped(t);
      if |p| == 2 {
        GluedCell(p, q, Pieces(t, '|'));
        WellIdHasNoPipe(d[0]);
        WellIdFits(d[0]);
      }
    }
  }

  lemma GluedEnds(s: string, d: seq<string>)
    ensures RStrip(s + Fmt(d)) == s + Fmt(d)
  {
    hide Joined;
    var z := s + Fmt(d);
    assert z[|z| - 1] == '|';
  }

  lemma OpensWithPipe(s: string)
    requires s != "" && s[0] == '|'
    ensures |Pieces(s, ' ')| >= 2
  {
  }

  lemma PipeBehind(t: string, prev: char)
    requires prev != '\\'
    ensures Pieces("|" + t, prev) == [""] + Pieces(t, '|')
  {
    assert ("|" + t)[1..] == t;
  }

  lemma PipeEscaped(t: string)
    ensures var r := Pieces(t, '|'); Pieces("|" + t, '\\') == ["|" + r[0]] + r[1..]
  {
    assert ("|" + t)[1..] == t;
  }

  /** The cell across the seam has a pipe in it. */
  lemma GluedCell(p: seq<string>, q: seq<string>, r: seq<string>)
    requires |p| == 2 && r != [] && q == ["|" + r[0]] + r[1..]
    ensures '|' in Strip(Across(p, q)[1])
  {
    hide RStrip, LStrip;
    var y, t := p[1], "|" + r[0];
    assert Across(p, q)[1] == y + t;
    LStripInFront(y, t);
    var u := LStrip(y) + t;
    var n := |LStrip(y)|;
    assert u[n] == '|';
    RStripKeeps(u, n + 1);
    RStripFacts(u);
    assert RStrip(u)[n] == '|';
  }

  lemma WellIdHasNoPipe(id: string)
    requires WellId(id)
    ensures '|' !in id
  {
    assert forall i :: 0 <= i < 3 ==> id[i] == id[..3][i];
    assert forall i :: 3 <= i < |id| ==> id[i] == id[3..][i - 3];
  }

  /** After an accepted fix the ledger file passes the check, and the archive file reads back
      with the fixed row behind its rows exactly when the pipes of the commit are escaped and
      the archive did not break off within a line. */
  lemma FixedFileReadsIff(ledger: string, archive: string, op: Op)
    requires var f := OnDisk(ledger, archive); op.Fix? && Flat(op) && Checked(f.ledger) && Accepts(f, op)
    ensures var f := OnDisk(ledger, archive);
      var k := FindRow(f.ledger, op.rid);
      && Checked(SplitLines(WriteFile(Apply(f, op).ledger)))
      && k < |f.ledger| && |RowCells(f.ledger[k])| == 7
      && var d := Fixed(RowCells(f.ledger[k]), op.sha);
        RowsOf(SplitLines(archive + Fmt(d) + "\n")) == RowsOf(f.archive) + [Strips(d)] <==> PipeSafe(op.sha) && Ended(archive)
  {
    hide *;
    var f := OnDisk(ledger, archive);
    var k := FindRow(f.ledger, op.rid);
    LedgerReadBack(ledger, archive, op);
    T.FixReadsIff(f, op);
    T.ApplyFix(f, op, k);
    T.FoundIsRow(f.ledger, k, op.rid);
    T.AroundRow(f, k);
    var c := RowCells(f.ledger[k]);
    T.FineIsSeven(c);
    T.FixedLength(c, op.sha);
    LedgerLine(ledger, archive, k);
    CellsUnbroken(f.ledger[k]);
    FlatClaim(op);
    FixedUnbroken(c, op.sha);
    FmtUnbroken(Fixed(c, op.sha));
    ArchiveIs(ledger, archive);
    AppendedRows(archive, Fixed(c, op.sha));
    RowsConcat(f.archive, [Fmt(Fixed(c, op.sha))]);
  }

  lemma LedgerLine(ledger: string, archive: string, k: nat)
    requires k < |OnDisk(ledger, archive).ledger|
    ensures NoBreaks(OnDisk(ledger, archive).ledger[k])
  {
    hide NoBreaks, SplitLines;
    SplitUnbroken(ledger);
  }

  lemma ArchiveIs(ledger: string, archive: string)
    ensures OnDisk(ledger, archive).archive == SplitLines(archive)
  {
    hide SplitLines;
  }

  /** What is appended is read as its own line, or never as the row it is. */
  lemma AppendedRows(archive: string, d: seq<string>)
    requires |d| == 7 && WellId(d[0]) && NoBreaks(Fmt(d))
    ensures var rows := RowsOf(SplitLines(archive + Fmt(d) + "\n"));
      if Ended(archive) then rows == RowsOf(SplitLines(archive) + [Fmt(d)])
      else rows != RowsOf(SplitLines(archive)) + [Strips(d)]
  {
    hide WellId, NoBreaks, SplitLines, RowsOf, IsRow, RowCells, Strips, Ended;
    assert Fmt(d) != "";
    hide Fmt;
    var b, s := AppendedLines(archive, Fmt(d));
    var lines := SplitLines(b);
    if s == "" {
      assert s + Fmt(d) == Fmt(d) && lines + [] == lines;
    } else {
      RowsConcat(lines, [s + Fmt(d)]);
      RowsConcat(lines, [s]);
      RowsOne(s + Fmt(d));
      RowsOne(s);
      if IsRow(s + Fmt(d)) {
        GluedIsOther(s, d);
      }
      Shorter(RowsOf(lines), RowsOf([s + Fmt(d)]), RowsOf([s]), Strips(d));
    }
  }

  lemma Shorter(a: seq<seq<string>>, x: seq<seq<string>>, y: seq<seq<string>>, d: seq<string>)
    requires |x| <= 1 && (|x| == 1 ==> x[0] != d)
    ensures a + x != a + y + [d]
  {
    var l, r := a + x, a + y + [d];
    assert r[|r| - 1] == d && (|x| == 1 ==> l[|a|] == x[0]);
  }
}
