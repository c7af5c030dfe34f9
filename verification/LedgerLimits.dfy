/** Where the ledger tool's id finder and its check disagree. */
module LedgerLimits {
  import opened Text
  import opened LedgerText
  import opened LedgerIds
  import opened Ledger
  import opened LedgerRuns
  import opened LedgerTheorems

  lemma {:induction false} NoKNoIds(s: string)
    requires 'K' !in s
    ensures IdsIn(s) == []
    decreases |s|
  {
    if s != "" {
      NoKNoId(s);
      NoKNoIds(s[1..]);
    }
  }

  lemma NoKNoId(s: string)
    requires |s| < 5 || s[2] != 'K'
    ensures IdAt(s) == NoId
  {
    hide DigitRun, DecValue;
    assert |s| >= 5 ==> s[2] == s[..5][2];
  }

  lemma {:induction false} JoinedWithoutK(c: seq<string>)
    requires forall i :: 0 <= i < |c| ==> 'K' !in c[i]
    ensures 'K' !in Joined(c)
  {
    if |c| > 1 {
      JoinedWithoutK(c[1..]);
    }
  }

  /** A row whose id is followed by two blanks. */
  function Spaced(n: nat): seq<string> {
    [IdText(n) + " ", "OPEN", "PERF", "low", "x", "x", "x"]
  }

  function AsRead(n: nat): seq<string> {
    [IdText(n), "OPEN", "PERF", "low", "x", "x", "x"]
  }

  lemma SpacedIsRow(n: nat)
    ensures IsRow(Fmt(Spaced(n))) && RowCells(Fmt(Spaced(n))) == AsRead(n) && RowFine(AsRead(n))
  {
    hide Fmt, Cells, Strip, PipeSafe, Lower, Word, LStrip, IdText;
    SpacedFits(n);
    CellsOfRow(Spaced(n));
    SpacedStarts(n);
    IdTextFacts(n);
    SevFits("low");
    OpenIsOpen();
    assert Strips(Spaced(n)) == AsRead(n);
  }

  lemma SpacedFits(n: nat)
    ensures AllSafe(Spaced(n)) && Strip(IdText(n) + " ") == IdText(n)
    ensures Strip("OPEN") == "OPEN" && Strip("PERF") == "PERF" && Strip("low") == "low" && Strip("x") == "x"
  {
    hide Strip, PipeSafe, IdText, LStrip, RStrip;
    IdTextFacts(n);
    SafeJoin(IdText(n), " ");
    TrailingBlank(IdText(n));
    WordFits("OPEN");
    WordFits("PERF");
    WordFits("low");
    WordFits("x");
  }

  lemma TrailingBlank(x: string)
    requires Strip(x) == x
    ensures Strip(x + " ") == x
  {
    assert RStrip("") == "";
    hide LStrip, RStrip;
    LStripSnoc(x);
    RStripSpace(LStrip(x));
  }

  lemma SpacedStarts(n: nat)
    ensures Starts(Fmt(Spaced(n)), LEAD)
  {
    hide Padded4, Joined;
    var line := Fmt(Spaced(n));
    Unroll(n);
    assert line[..5] == "| KI-";
  }

  /** The line, cut where the finder's pattern breaks off. */
  lemma Unroll(n: nat)
    ensures Fmt(Spaced(n)) == "| KI-" + Padded4(n) + "  | " + Joined(Spaced(n)[1..]) + " |"
  {
    hide Padded4;
    assert Joined(Spaced(n)) == Spaced(n)[0] + " | " + Joined(Spaced(n)[1..]);
    var r := Joined(Spaced(n)[1..]);
    assert "| " + (("KI-" + Padded4(n)) + " " + " | " + r) + " |" == "| KI-" + Padded4(n) + "  | " + r + " |";
  }

  /** The id finder does not see the row. */
  lemma SpacedIsHidden(n: nat)
    ensures IdsIn(Fmt(Spaced(n))) == []
  {
    hide Padded4, Joined, DigitRun, DecValue, IdAt, Fmt;
    Unroll(n);
    var d, r := Padded4(n), Joined(Spaced(n)[1..]);
    var line := "| KI-" + d + "  | " + r + " |";
    var tail := d + "  | " + r + " |";
    assert forall i :: 0 <= i < |Spaced(n)[1..]| ==> 'K' !in Spaced(n)[1..][i];
    JoinedWithoutK(Spaced(n)[1..]);
    FirstNotSeen(d, "  | " + r + " |");
    assert line == "| KI-" + (d + ("  | " + r + " |"));
    assert line[1..][0] == ' ' && line[2..][0] == 'K';
    NoKNoIds("I-" + tail);
    assert line[3..] == "I-" + tail && line[1..][1..] == line[2..] && line[2..][1..] == line[3..];
    NotAPipe(line[1..]);
    NotAPipe(line[2..]);
  }

  lemma NotAPipe(s: string)
    requires s != "" && s[0] != '|'
    ensures IdAt(s) == NoId && IdsIn(s) == IdsIn(s[1..])
  {
    hide DigitRun, DecValue;
    assert |s| >= 5 ==> s[0] == s[..5][0];
  }

  lemma FirstNotSeen(d: string, rest: string)
    requires d != "" && AllDigits(d) && |rest| >= 2 && rest[..2] == "  "
    ensures IdAt("| KI-" + (d + rest)) == NoId
  {
    hide DecValue, DigitRun;
    var s := "| KI-" + (d + rest);
    assert s[5..] == d + rest;
    assert (d + rest)[..|d|] == d && (d + rest)[|d|] == rest[..2][0] == ' ';
    DigitRunIs(d + rest, |d|);
    assert s[5 + |d|..|d| + 7] == rest[..2];
  }

  function Example(): Files {
    Files([HEADER, Fmt(Spaced(1)), CountLine([AsRead(1)])], [])
  }

  lemma ExampleChecks()
    ensures RowsOf(Example().ledger) == [AsRead(1)] && Checked(Example().ledger)
  {
    assert Example() == Files([HEADER, Fmt(Spaced(1)), CountLine([AsRead(1)])], []);
    hide *;
    var l := Fmt(Spaced(1));
    SpacedIsRow(1);
    SmallLedger(l, AsRead(1));
  }

  /** A header, one good row and its count. */
  lemma SmallLedger(l: string, c: seq<string>)
    requires IsRow(l) && RowCells(l) == c && RowFine(c)
    ensures var lines := [HEADER, l, CountLine([c])]; RowsOf(lines) == [c] && Checked(lines)
  {
    hide Cells, RowCells, RowFine, CountLine, FirstCount, Legacy, Starts, RowsOf, Frame, Key;
    SmallRows(l, c);
    CountLineStarts([c]);
    HeaderIsNothingElse();
    RowLineIsNothingElse(l);
    FirstCountIs([HEADER, l, CountLine([c])], 2);
    SmallFrame(HEADER, l, CountLine([c]));
  }

  lemma SmallRows(l: string, c: seq<string>)
    requires IsRow(l) && RowCells(l) == c
    ensures RowsOf([HEADER, l, CountLine([c])]) == [c]
  {
    hide IsRow, RowCells, CountLine, RowsOf;
    var m := CountLine([c]);
    CountLineStarts([c]);
    CountLineIsNothingElse(m);
    HeaderIsNothingElse();
    RowsOne(HEADER);
    RowsOne(l);
    RowsOne(m);
    RowsConcat([HEADER], [l]);
    RowsConcat([HEADER] + [l], [m]);
    assert [HEADER, l, m] == [HEADER] + [l] + [m];
  }

  lemma SmallFrame(a: string, b: string, c: string)
    requires a == HEADER && Starts(b, LEAD) && Starts(c, COUNT_LEAD)
    ensures Frame([a, b, c])
  {
    hide Legacy, Starts, IsRow;
    HeaderIsNothingElse();
    RowLineIsNothingElse(b);
    CountLineIsNothingElse(c);
    var lines := [a, b, c];
    assert c in lines;
    assert multiset(lines) == multiset{a, b, c};
  }

  lemma HeaderIsNothingElse()
    ensures !Legacy(HEADER) && !IsRow(HEADER) && !Starts(HEADER, COUNT_LEAD)
  {
    hide Starts, Cells;
    assert HEADER[2] == "| Id |"[2] && HEADER[0] == "| Id |"[0] && HEADER[3] == "| Id |"[3];
    StartsAt(HEADER, "| OPEN", 2);
    StartsAt(HEADER, "| IN-PROGRESS", 3);
    StartsAt(HEADER, "| FIXED", 2);
    StartsAt(HEADER, LEAD, 2);
    StartsAt(HEADER, COUNT_LEAD, 0);
  }

  lemma {:induction false} DigitsWithoutK(n: nat)
    ensures 'K' !in Dec(n)
  {
    assert forall i :: 0 <= i < |Dec(n)| ==> IsDigit(Dec(n)[i]);
  }

  lemma CountLineHasNoId(rows: seq<seq<string>>)
    ensures IdsIn(CountLine(rows)) == []
  {
    hide Tally, Dec, IdsIn;
    TallyOrder(rows);
    DigitsWithoutK(Tally(rows, false));
    DigitsWithoutK(Tally(rows, true));
    DigitsWithoutK(Tally(rows, false) - Tally(rows, true));
    NoKNoIds(CountLine(rows));
  }

  lemma HeaderHasNoId()
    ensures IdsIn(HEADER) == []
  {
    hide IdsIn;
    assert 'K' !in "| Id |" && 'K' !in " Status | Class |" && 'K' !in " Sev | Issue |" && 'K' !in " Evidence | Owner |";
    NoKNoIds(HEADER);
  }

  lemma ExampleStartsOver()
    ensures NextNumber(Example().ledger, Example().archive) == 1
  {
    hide IdsIn, Fmt, CountLine;
    var a, b, c := HEADER, Fmt(Spaced(1)), CountLine([AsRead(1)]);
    HeaderHasNoId();
    SpacedIsHidden(1);
    CountLineHasNoId([AsRead(1)]);
    assert [a, b, c][..2] == [a, b] && [a, b][..1] == [a] && [a][..0] == [];
    assert Max([]) == 0;
    assert Largest([a]) == 0;
    assert Largest([a, b]) == 0;
    assert Largest([a, b, c]) == 0;
  }

  /** A row with a second blank behind its id passes the check but is not seen by the id
      finder: the next addition issues that id again, and the ledger no longer passes. */
  lemma SpacedIdIsReused(op: Op)
    requires op.Add? && Accepts(Example(), op)
    ensures Checked(Example().ledger) && !Checked(Apply(Example(), op).ledger)
    ensures RowsOf(Example().ledger) == [AsRead(1)] && Key(AsRead(1)) == Key(NewRow(Example(), op))
  {
    hide *;
    ExampleChecks();
    ExampleStartsOver();
    AddRows(Example(), op);
    SameKey(op);
    TwiceFails(Apply(Example(), op).ledger, AsRead(1), NewRow(Example(), op));
  }

  lemma SameKey(op: Op)
    requires op.Add? && NextNumber(Example().ledger, Example().archive) == 1
    ensures |NewRow(Example(), op)| == 7 && Key(AsRead(1)) == Key(NewRow(Example(), op))
  {
    hide Example, IdText, NextNumber, Esc;
  }

  lemma TwiceFails(lines: seq<string>, a: seq<string>, b: seq<string>)
    requires RowsOf(lines) == [a] + [b] && Key(a) == Key(b)
    ensures !Checked(lines)
  {
    hide RowsOf, Frame, CountLine, FirstCount, RowFine, Key;
    var rows := RowsOf(lines);
    assert rows[0] == a && rows[1] == b;
  }
}
