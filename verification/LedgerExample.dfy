/** A ledger on which a claim lowers the next number: one row hides its id behind a second
    blank, another mentions an id that the claim moves out of the id finder's sight. */
module LedgerExample {
  import opened Text
  import opened LedgerText
  import opened LedgerIds
  import opened Ledger
  import opened LedgerRuns
  import opened LedgerTheorems
  import opened LedgerFloor
  import opened LedgerReuse
  import L = LedgerLimits

  /** An issue that consists of an id. */
  function Mentions(): seq<string> {
    [IdText(1), "OPEN", "PERF", "low", IdText(9), "x", "x"]
  }

  function Example(): Files {
    Files([HEADER, Fmt(L.Spaced(5)), Fmt(Mentions()), CountLine([L.AsRead(5), Mentions()])], [])
  }

  const CLAIM: Op := Claim(IdText(1), "x", "x")

  lemma MentionsFits()
    ensures AllSafe(Mentions()) && Strips(Mentions()) == Mentions() && RowFine(Mentions())
  {
    hide Strip, PipeSafe, Lower, Word, LStrip, IdText, WellId;
    IdTextFacts(1);
    IdTextFacts(9);
    WordFits("OPEN");
    WordFits("PERF");
    WordFits("x");
    SevFits("low");
    OpenIsOpen();
  }

  lemma MentionsIsRow()
    ensures IsRow(Fmt(Mentions())) && RowCells(Fmt(Mentions())) == Mentions()
  {
    hide Fmt, IsRow, RowCells, AllSafe, Strips, RowFine, IdText, StartsWithId;
    IdTextFacts(1);
    MentionsFits();
    WrittenRow(Mentions());
  }

  lemma KeysDiffer()
    ensures Key(L.AsRead(5)) != Key(Mentions())
  {
    hide IdText, WellId, Number;
    IdTextFacts(5);
    IdTextFacts(1);
  }

  /** A header, two good rows and their count. */
  lemma TwoRowLedger(l: string, c: seq<string>, m: string, d: seq<string>)
    requires IsRow(l) && RowCells(l) == c && RowFine(c) && IsRow(m) && RowCells(m) == d && RowFine(d) && Key(c) != Key(d)
    ensures var lines := [HEADER, l, m, CountLine([c, d])]; RowsOf(lines) == [c, d] && Checked(lines)
  {
    hide Cells, RowCells, RowFine, CountLine, FirstCount, Legacy, Starts, RowsOf, Frame, Key;
    var count := CountLine([c, d]);
    CountLineStarts([c, d]);
    L.HeaderIsNothingElse();
    RowLineIsNothingElse(l);
    RowLineIsNothingElse(m);
    FourRows(l, c, m, d, count);
    FirstCountIs([HEADER, l, m, count], 3);
    L.SmallFrame(HEADER, l, count);
    FrameInsert([HEADER, l, count], 2, m);
    assert Insert([HEADER, l, count], 2, m) == [HEADER, l, m, count];
  }

  lemma FourRows(l: string, c: seq<string>, m: string, d: seq<string>, count: string)
    requires IsRow(l) && RowCells(l) == c && IsRow(m) && RowCells(m) == d && Starts(count, COUNT_LEAD)
    ensures RowsOf([HEADER, l, m, count]) == [c, d]
  {
    hide IsRow, RowCells, RowsOf, Starts;
    CountLineIsNothingElse(count);
    L.HeaderIsNothingElse();
    RowsOne(HEADER);
    RowsOne(l);
    RowsOne(m);
    RowsOne(count);
    RowsConcat([HEADER], [l]);
    RowsConcat([HEADER] + [l], [m]);
    RowsConcat([HEADER] + [l] + [m], [count]);
    assert [HEADER, l, m, count] == [HEADER] + [l] + [m] + [count];
  }

  lemma ExampleChecks()
    ensures RowsOf(Example().ledger) == [L.AsRead(5), Mentions()] && Checked(Example().ledger)
  {
    assert Example() == Files([HEADER, Fmt(L.Spaced(5)), Fmt(Mentions()), CountLine([L.AsRead(5), Mentions()])], []);
    hide *;
    L.SpacedIsRow(5);
    MentionsIsRow();
    MentionsFits();
    KeysDiffer();
    TwoRowLedger(Fmt(L.Spaced(5)), L.AsRead(5), Fmt(Mentions()), Mentions());
  }

  // ---- the ids it shows --------------------------------------------------

  /** Behind the severity stands the id that is mentioned. */
  lemma MentionedId(n: nat)
    ensures IdsIn(" OPEN | PERF | low | " + IdText(n) + " | x | x |") == [n]
  {
    hide IdsIn, IdText;
    var t := "| " + IdText(n) + " |" + " x | x |";
    IdTextFacts(n);
    L.NoKNoIds(" x | x |");
    IdAhead(t, IdText(n), " x | x |");
    L.NoKNoIds(" OPEN | PERF | lo");
    SkipNoPipe(" ", t);
    IdsAcross(" OPEN | PERF | lo", 'w', " " + t);
    assert " OPEN | PERF | low | " + IdText(n) + " | x | x |" == " OPEN | PERF | lo" + ("w" + (" " + t));
  }

  lemma OpenText(r: string)
    ensures "OPEN" + " | " + ("PERF" + " | " + ("low" + " | " + r)) == "OPEN | PERF | low | " + r
  {
  }

  lemma TwoX()
    ensures Joined(["x", "x"]) == "x | x"
  {
    assert ["x", "x"][1..] == ["x"];
  }

  lemma SevenLine(c: seq<string>)
    requires |c| == 7
    ensures Fmt(c) == "| " + c[0] + " |" + (" " + (c[1] + " | " + (c[2] + " | " + (c[3] + " | " + (c[4] + " | " + Joined(c[5..]))))) + " |")
  {
    hide Joined, Fmt;
    PlainLine(c[0], c[1..]);
    assert c == [c[0]] + c[1..];
    JoinedFrom(c, 1);
    JoinedFrom(c, 2);
    JoinedFrom(c, 3);
    JoinedFrom(c, 4);
  }

  lemma TailText(a: string)
    ensures " " + ("OPEN | PERF | low | " + (a + " | " + "x | x")) + " |" == " OPEN | PERF | low | " + a + " | x | x |"
  {
  }

  lemma MentionsLine()
    ensures Fmt(Mentions()) == "| " + IdText(1) + " |" + (" OPEN | PERF | low | " + IdText(9) + " | x | x |")
  {
    assert Mentions()[5..] == ["x", "x"];
    hide IdText, Joined, Fmt;
    SevenLine(Mentions());
    TwoX();
    OpenText(IdText(9) + " | " + "x | x");
    TailText(IdText(9));
  }

  lemma MentionsTop()
    ensures Top(Fmt(Mentions())) == 9
  {
    hide Fmt, IdText, IdsIn;
    MentionsLine();
    IdTextFacts(1);
    MentionedId(9);
    IdAhead(Fmt(Mentions()), IdText(1), " OPEN | PERF | low | " + IdText(9) + " | x | x |");
    assert [1, 9][..1] == [1] && [1][..0] == [];
  }

  lemma ClaimedTop()
    ensures Top(Fmt(Claimed(Mentions(), "x", "x"))) == 1
  {
    hide Fmt, Claimed, IdText, Top, RowFine, ClaimedRest;
    MentionsFits();
    IdTextFacts(1);
    ClaimedShows(Mentions());
    RestIsEmpty();
  }

  lemma RestIsEmpty()
    ensures Top(ClaimedRest(Mentions())) == 0
  {
    hide IdText, IdsIn, Joined;
    IdHasNoPipe(9);
    TwoX();
    assert Mentions()[5..] == ["x", "x"];
    var w := " " + IdText(9) + " ";
    RestText(IdText(9));
    SkipNoPipe(w, "| x | x |");
    L.NoKNoIds("| x | x |");
  }

  lemma RestText(id: string)
    ensures " " + id + " | " + "x | x" + " |" == " " + id + " " + "| x | x |"
  {
  }

  lemma IdHasNoPipe(n: nat)
    ensures '|' !in IdText(n)
  {
    hide Padded4;
    assert forall i :: 0 <= i < |Padded4(n)| ==> IsDigit(Padded4(n)[i]);
  }

  lemma LargestFour(a: string, b: string, c: string, d: string)
    requires Top(a) == 0 && Top(b) == 0 && Top(d) == 0
    ensures Largest([a, b, c, d]) == Top(c)
  {
    assert Largest([]) == 0;
    hide Top, Largest;
    assert [a, b, c, d] == [a] + [b] + [c] + [d];
    LargestSnoc([a] + [b] + [c], d);
    LargestSnoc([a] + [b], c);
    LargestSnoc([a], b);
    LargestSnoc([], a);
    assert [] + [a] == [a];
  }

  lemma NextOfFour(f: Files, l: string, rows: seq<seq<string>>)
    requires f == Files([HEADER, Fmt(L.Spaced(5)), l, CountLine(rows)], [])
    ensures Next(f) == 1 + Top(l)
  {
    assert Largest([]) == 0;
    hide Top, Largest, IdsIn, Fmt, CountLine;
    L.HeaderHasNoId();
    L.SpacedIsHidden(5);
    L.CountLineHasNoId(rows);
    TopOfNone(HEADER);
    TopOfNone(Fmt(L.Spaced(5)));
    TopOfNone(CountLine(rows));
    LargestFour(HEADER, Fmt(L.Spaced(5)), l, CountLine(rows));
    NextIs(f);
  }

  // ---- the claim and what follows ----------------------------------------

  lemma ClaimGoesThrough()
    ensures Accepts(Example(), CLAIM) && FindRow(Example().ledger, IdText(1)) == 2 && CleanOp(CLAIM)
  {
    assert CLAIM == Claim(IdText(1), "x", "x") && Example().ledger[2] == Fmt(Mentions());
    CleanX();
    assert CleanOp(CLAIM);
    assert Key(Mentions()) == IdText(1);
    OpenIsOpen();
    assert Kw(Mentions()) == "OPEN" by { hide IdText, Word; assert LStrip("OPEN") == "OPEN"; }
    hide *;
    ExampleChecks();
    MentionsIsRow();
    ClaimAccepted(Example(), 2);
  }

  /** The example with the row claimed. */
  function Taken(): Files {
    var lines := [HEADER, Fmt(L.Spaced(5)), Fmt(Claimed(Mentions(), "x", "x")), CountLine([L.AsRead(5), Mentions()])];
    Files(lines[3 := CountLine(RowsOf(lines))], [])
  }

  lemma ClaimTakes()
    ensures Apply(Example(), CLAIM) == Taken()
  {
    hide Apply, Accepts, Fmt, Claimed, CountLine, RowsOf, IdText, FindRow, RowCells, L.Spaced, L.AsRead, Starts, FirstCount, Cells;
    ClaimGoesThrough();
    ApplyClaim(Example(), CLAIM, 2);
    MentionsIsRow();
    var m := Fmt(Claimed(Mentions(), "x", "x"));
    var lines := [HEADER, Fmt(L.Spaced(5)), m, CountLine([L.AsRead(5), Mentions()])];
    assert Example().ledger[2 := m] == lines;
    L.HeaderIsNothingElse();
    FmtIsNoCount(L.Spaced(5));
    FmtIsNoCount(Claimed(Mentions(), "x", "x"));
    CountLineStarts([L.AsRead(5), Mentions()]);
    FirstCountIs(lines, 3);
  }

  lemma TakenIs()
    ensures Next(Taken()) == 2 && L.AsRead(5) in RowsOf(Taken().ledger)
  {
    hide Fmt, Claimed, RowsOf, IdText, IsRow, RowCells, L.Spaced, L.AsRead, Next, Top, CountLine;
    var m := Fmt(Claimed(Mentions(), "x", "x"));
    var lines := [HEADER, Fmt(L.Spaced(5)), m, CountLine([L.AsRead(5), Mentions()])];
    assert Taken().ledger == [HEADER, Fmt(L.Spaced(5)), m, CountLine(RowsOf(lines))];
    NextOfFour(Taken(), m, RowsOf(lines));
    ClaimedTop();
    L.SpacedIsRow(5);
    assert Taken().ledger[1] == Fmt(L.Spaced(5));
    RowsMember(Taken().ledger, L.AsRead(5));
  }

  lemma {:induction false} PlainKeepsRow(f: Files, k: nat, n: nat, c: seq<string>)
    requires Steady(f) && n <= k && c in RowsOf(f.ledger)
    ensures c in RowsOf(After(f, Plain(k), n).ledger)
  {
    hide Steady, Accepts, Apply, RowsOf, NewRow, Next;
    if n > 0 {
      PlainKeepsRow(f, k, n - 1, c);
      PlainRun(f, k, n);
      assert Plain(k)[n - 1] == PLAIN;
      AddRows(After(f, Plain(k), n - 1), PLAIN);
    }
  }

  /** The claim and four plain additions. */
  function Run(): seq<Op> {
    [CLAIM] + Plain(4)
  }

  lemma ExampleNext()
    ensures Next(Example()) == 10
  {
    hide Next, Fmt, CountLine, Top;
    MentionsTop();
    NextOfFour(Example(), Fmt(Mentions()), [L.AsRead(5), Mentions()]);
  }

  /** The files when the last operation behind a first one comes, and after it. */
  lemma BehindFirst(f: Files, op: Op, rest: seq<Op>)
    requires rest != []
    ensures Before(f, [op] + rest) == After(Apply(f, op), rest, |rest| - 1)
    ensures After(f, [op] + rest, |rest| + 1) == Apply(Before(f, [op] + rest), rest[|rest| - 1])
  {
    hide *;
    var n, ops := |rest| - 1, [op] + rest;
    AfterFirst(f, op);
    AfterConcat(f, [op], rest, n);
    BeforeIs(f, ops);
    AfterOne(f, ops, n + 1);
  }

  lemma BeforeIs(f: Files, ops: seq<Op>)
    requires ops != []
    ensures Before(f, ops) == After(f, ops, |ops| - 1)
  {
    hide After;
  }

  lemma BehindClaim()
    ensures |Run()| == 5 && Run()[4] == PLAIN && |Plain(4)| == 4
    ensures Before(Example(), Run()) == After(Apply(Example(), CLAIM), Plain(4), 3)
    ensures After(Example(), Run(), 5) == Apply(After(Apply(Example(), CLAIM), Plain(4), 3), PLAIN)
  {
    PlainIs(4);
    assert Run()[4] == Plain(4)[3];
    hide After, Apply, Plain, Example, Before;
    BehindFirst(Example(), CLAIM, Plain(4));
  }

  lemma FourAdditions()
    requires Apply(Example(), CLAIM) == Taken() && Steady(Taken()) && Next(Taken()) == 2 && L.AsRead(5) in RowsOf(Taken().ledger)
    ensures var g := After(Taken(), Plain(4), 3);
      && Accepts(g, PLAIN) && Next(g) == 5 && L.AsRead(5) in RowsOf(g.ledger) && Key(L.AsRead(5)) == IdText(5)
  {
    hide Apply, Taken, Steady, Next, RowsOf, Accepts, IdText, After;
    PlainRun(Taken(), 4, 3);
    PlainRun(Taken(), 4, 4);
    PlainKeepsRow(Taken(), 4, 3, L.AsRead(5));
  }

  lemma IssuesAgain(f: Files, ops: seq<Op>, c: seq<string>, m: nat)
    requires ops != [] && ops[|ops| - 1].Add? && Accepts(Before(f, ops), ops[|ops| - 1])
    requires Next(Before(f, ops)) == m && Key(c) == IdText(m)
    requires c in RowsOf(f.ledger) && c in RowsOf(Before(f, ops).ledger)
    ensures Reissues(f, ops, c)
  {
    hide RowsOf, Accepts, Next, IdText, Before, Key;
    assert c in All(f) && c in All(Before(f, ops));
    assert Issues(f, ops, m);
  }

  /** The claim takes the next number from 10 down to 2, and the fourth plain addition behind
      it issues the hidden id again: the ledger then fails the check. */
  lemma ClaimLowersNext()
    ensures Checked(Example().ledger) && Next(Example()) == 10 && Next(Apply(Example(), CLAIM)) == 2
    ensures |Run()| == 5 && Reissues(Example(), Run(), L.AsRead(5)) && !Checked(After(Example(), Run(), 5).ledger)
  {
    assert CLAIM.Claim? && PLAIN.Add? && |Plain(4)| == 4;
    hide *;
    ExampleChecks();
    ExampleNext();
    ClaimTakes();
    TakenIs();
    ClaimGoesThrough();
    ClaimKeepsChecked(Example(), CLAIM);
    CheckedIsSteady(Taken());
    FourAdditions();
    BehindClaim();
    ReissueFails(After(Taken(), Plain(4), 3), PLAIN, L.AsRead(5));
    IssuesAgain(Example(), Run(), L.AsRead(5), 5);
  }
}
