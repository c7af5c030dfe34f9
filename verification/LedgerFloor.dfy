/** How low the next number can get: the ids each line shows as it stands, and as a claim or
    a fix would write it. */
module LedgerFloor {
  import opened Options
  import opened Text
  import opened LedgerText
  import opened LedgerIds
  import opened Ledger
  import opened LedgerRuns
  import opened LedgerTheorems
  import L = LedgerLimits

  function Next(f: Files): nat {
    NextNumber(f.ledger, f.archive)
  }

  // ---- the largest id under edits ----------------------------------------

  function Larger(a: nat, b: nat): nat {
    if a > b then a else b
  }

  lemma LargerFacts(a: nat, n: nat, b: nat)
    ensures Larger(a, n) >= a && (a <= n ==> Larger(a, n) == n)
    ensures 1 + Larger(Larger(a, n), b) == Larger(1 + Larger(a, b), 1 + n)
  {
  }

  lemma {:induction false} LargestConcat(a: seq<string>, b: seq<string>)
    ensures Largest(a + b) == Larger(Largest(a), Largest(b))
    decreases |b|
  {
    hide IdsIn, LedgerIds.Max;
    if b == [] {
      assert a + b == a;
    } else {
      var n := |b| - 1;
      assert (a + b)[..|a + b| - 1] == a + b[..n];
      LargestConcat(a, b[..n]);
    }
  }

  lemma LargestOne(l: string)
    ensures Largest([l]) == LedgerIds.Max(IdsIn(l))
  {
    hide IdsIn, LedgerIds.Max;
    assert [l][..0] == [];
  }

  lemma LargestInsert(lines: seq<string>, k: nat, l: string)
    requires k <= |lines|
    ensures Largest(Insert(lines, k, l)) == Larger(Largest(lines), LedgerIds.Max(IdsIn(l)))
  {
    hide IdsIn, LedgerIds.Max, Largest;
    LargestConcat(lines[..k] + [l], lines[k..]);
    LargestConcat(lines[..k], [l]);
    LargestOne(l);
    LargestConcat(lines[..k], lines[k..]);
    assert lines == lines[..k] + lines[k..];
  }

  lemma LargestReplace(lines: seq<string>, n: nat, l: string)
    requires n < |lines| && IdsIn(lines[n]) == [] && IdsIn(l) == []
    ensures Largest(lines[n := l]) == Largest(lines)
  {
    hide IdsIn, Largest;
    var cut := Delete(lines, n);
    assert lines[n := l] == Insert(cut, n, l) && lines == Insert(cut, n, lines[n]);
    LargestInsert(cut, n, l);
    LargestInsert(cut, n, lines[n]);
  }

  /** The line for the count, if there is one, mentions no id. */
  predicate PlainCount(lines: seq<string>) {
    FirstCount(lines) < |lines| ==> IdsIn(lines[FirstCount(lines)]) == []
  }

  lemma SetCountPlain(lines: seq<string>)
    ensures PlainCount(SetCount(lines))
    ensures PlainCount(lines) ==> Largest(SetCount(lines)) == Largest(lines)
  {
    hide IdsIn, Largest, CountLine, RowsOf, FirstCount, Starts;
    var n, m := FirstCount(lines), CountLine(RowsOf(lines));
    if n < |lines| {
      CountLineStarts(RowsOf(lines));
      FirstCountIs(lines[n := m], n);
      L.CountLineHasNoId(RowsOf(lines));
      if PlainCount(lines) {
        LargestReplace(lines, n, m);
      }
    }
  }

  /** A line put in between leaves the count line what it was. */
  lemma InsertPlain(lines: seq<string>, k: nat, l: string)
    requires PlainCount(lines) && k <= |lines| && !Starts(l, COUNT_LEAD)
    ensures PlainCount(Insert(lines, k, l))
  {
    hide IdsIn, FirstCount, Starts;
    var out := Insert(lines, k, l);
    var m := FirstCount(out);
    if m < |out| {
      assert m != k;
      var n := if m < k then m else m - 1;
      assert lines[n] == out[m];
      forall i | 0 <= i < n
        ensures !Starts(lines[i], COUNT_LEAD)
      {
        assert lines[i] == out[if i < k then i else i + 1];
      }
      FirstCountIs(lines, n);
    }
  }

  lemma DeletePlain(lines: seq<string>, k: nat)
    requires PlainCount(lines) && k < |lines| && !Starts(lines[k], COUNT_LEAD)
    ensures PlainCount(Delete(lines, k))
  {
    hide IdsIn, FirstCount, Starts;
    var out := Delete(lines, k);
    var m := FirstCount(out);
    if m < |out| {
      var n := if m < k then m else m + 1;
      assert lines[n] == out[m];
      forall i | 0 <= i < n
        ensures !Starts(lines[i], COUNT_LEAD)
      {
        assert i != k ==> lines[i] == out[if i < k then i else i - 1];
      }
      FirstCountIs(lines, n);
    }
  }

  // ---- ids on either side of a character no id holds ---------------------

  predicate IdChar(c: char) {
    c == '|' || c == ' ' || c == 'K' || c == 'I' || c == '-' || IsDigit(c)
  }

  lemma IdChars(s: string)
    requires IdAt(s).Id?
    ensures forall i :: 0 <= i < IdAt(s).len ==> IdChar(s[i])
  {
    hide DecValue, DigitRun;
    var d := DigitRun(s[5..]);
    assert forall i :: 0 <= i < 5 ==> s[i] == s[..5][i];
    assert forall i :: 5 <= i < 5 + d ==> s[i] == s[5..][..d][i - 5];
    assert forall i :: 5 + d <= i < d + 7 ==> s[i] == s[5 + d..d + 7][i - 5 - d];
  }

  lemma IdStays(a: string, x: string)
    requires IdAt(a).Id?
    ensures IdAt(a + x) == IdAt(a)
  {
    hide DecValue, DigitRun;
    var s, d := a + x, DigitRun(a[5..]);
    assert s[..5] == a[..5] && s[5..][..d] == a[5..][..d];
    assert s[5 + d..d + 7] == a[5 + d..d + 7] && s[5..][d] == s[5 + d..d + 7][0];
    DigitRunIs(s[5..], d);
  }

  lemma IdWithin(a: string, x: string)
    requires IdAt(a + x).Id? && IdAt(a + x).len <= |a|
    ensures IdAt(a) == IdAt(a + x)
  {
    hide DecValue, DigitRun;
    var s := a + x;
    var d := DigitRun(s[5..]);
    assert s[..5] == a[..5] && s[5..][..d] == a[5..][..d];
    assert s[5 + d..d + 7] == a[5 + d..d + 7] && a[5..][d] == a[5 + d..d + 7][0];
    DigitRunIs(a[5..], d);
  }

  lemma NoIdAcross(a: string, c: char, b: string)
    requires !IdChar(c) && a != "" && IdAt(a) == NoId
    ensures IdAt(a + ([c] + b)) == NoId
  {
    hide IdAt, IdChar;
    var s := a + ([c] + b);
    if IdAt(s).Id? {
      IdChars(s);
      assert s[|a|] == c;
      IdWithin(a, [c] + b);
    }
  }

  lemma {:induction false} IdsAcross(a: string, c: char, b: string)
    requires !IdChar(c)
    ensures IdsIn(a + ([c] + b)) == IdsIn(a) + IdsIn(b)
    decreases |a|
  {
    hide IdAt;
    var s := a + ([c] + b);
    if a == "" {
      assert s == [c] + b && s[1..] == b;
      L.NotAPipe(s);
    } else if IdAt(a).Id? {
      var len := IdAt(a).len;
      IdStays(a, [c] + b);
      assert s[len..] == a[len..] + ([c] + b);
      IdsAcross(a[len..], c, b);
    } else {
      NoIdAcross(a, c, b);
      assert s[1..] == a[1..] + ([c] + b);
      IdsAcross(a[1..], c, b);
    }
  }

  lemma {:induction false} SkipNoPipe(w: string, t: string)
    requires '|' !in w
    ensures IdsIn(w + t) == IdsIn(t)
  {
    hide IdsIn;
    if w == "" {
      assert w + t == t;
    } else {
      L.NotAPipe(w + t);
      assert (w + t)[1..] == w[1..] + t;
      SkipNoPipe(w[1..], t);
    }
  }

  /** The largest id a text mentions. */
  function Top(l: string): nat {
    LedgerIds.Max(IdsIn(l))
  }

  lemma {:induction false} MaxConcat(a: seq<nat>, b: seq<nat>)
    ensures LedgerIds.Max(a + b) == Larger(LedgerIds.Max(a), LedgerIds.Max(b))
    decreases |b|
  {
    if b == [] {
      assert a + b == a;
    } else {
      var n := |b| - 1;
      assert (a + b)[..|a + b| - 1] == a + b[..n];
      MaxConcat(a, b[..n]);
    }
  }

  lemma TopAcross(a: string, c: char, b: string)
    requires !IdChar(c)
    ensures Top(a + ([c] + b)) == Larger(Top(a), Top(b))
  {
    hide IdsIn, LedgerIds.Max, IdChar;
    IdsAcross(a, c, b);
    MaxConcat(IdsIn(a), IdsIn(b));
  }

  lemma IdAhead(line: string, id: string, rest: string)
    requires WellId(id) && line == "| " + id + " |" + rest
    ensures IdsIn(line) == [Number(id)] + IdsIn(rest)
  {
    hide DigitRun, DecValue;
    var d := |id| - 3;
    assert line[..5] == LEAD by {
      assert line[..5] == "| " + id[..3];
    }
    assert line[5..][..d] == id[3..];
    assert line[5..][d] == ' ';
    DigitRunIs(line[5..], d);
    assert line[5 + d..d + 7] == " |";
    assert line[d + 7..] == rest;
  }

  lemma TopIsOwn(line: string, id: string, rest: string)
    requires WellId(id) && line == "| " + id + " |" + rest && IdsIn(rest) == []
    ensures Top(line) == Number(id)
  {
    hide IdsIn, WellId, Number;
    IdAhead(line, id, rest);
    MaxOfOne(Number(id));
  }

  lemma MaxOfOne(n: nat)
    ensures LedgerIds.Max([n]) == n
  {
    assert [n][..0] == [];
  }

  lemma TopIsOwnAtLeast(line: string, id: string, rest: string)
    requires WellId(id) && line == "| " + id + " |" + rest
    ensures Top(line) >= Number(id)
  {
    hide IdsIn, LedgerIds.Max, WellId, Number;
    assert line[..|id| + 4] == "| " + id + " |";
    SeenId(line, id);
  }

  // ---- a row as a fix would write it -------------------------------------

  lemma ClassShape(s: string)
    requires s in CLASSES
    ensures |s| > 3 && !IdChar(s[2]) && 'K' !in s && '|' !in s
  {
    assert "COVERAGE"[2] == 'V' && "DEFECT"[2] == 'F' && "INFRA"[2] == 'F' && "MISSING"[2] == 'S' && "PERF"[2] == 'R';
  }

  lemma {:induction false} LowerAt(s: string)
    ensures |Lower(s)| == |s|
    ensures forall i :: 0 <= i < |s| ==> (s[i] == Lower(s)[i] && !('A' <= s[i] <= 'Z')) || ('A' <= s[i] <= 'Z' && Lower(s)[i] as int == s[i] as int + 32)
  {
    if s != "" {
      LowerAt(s[1..]);
    }
  }

  lemma SevShape(s: string)
    requires Lower(s) in SEVS
    ensures s != "" && !IdChar(s[0]) && '|' !in s
  {
    hide Lower;
    LowerAt(s);
    var t := Lower(s);
    SevLetters(t);
    assert forall i :: 0 <= i < |s| ==> s[i] == '|' ==> t[i] == '|';
  }

  lemma SevLetters(t: string)
    requires t in SEVS
    ensures t != "" && t[0] in {'b', 'c', 'h', 'm', 'l'} && '|' !in t
  {
  }

  /** The part of a fixed row behind the middle of the class. */
  function FixedRest(c: seq<string>): string
    requires |c| == 7 && |c[2]| > 3
  {
    c[2][3..] + " | " + Joined(c[3..]) + " |"
  }

  function FixedFront(c: seq<string>, sha: string): string
    requires |c| == 7 && |c[2]| > 3
  {
    " FIXED " + sha + " | " + c[2][..2]
  }

  lemma JoinedFrom(c: seq<string>, i: nat)
    requires i + 1 < |c|
    ensures Joined(c[i..]) == c[i] + " | " + Joined(c[i + 1..])
  {
    assert c[i..][1..] == c[i + 1..] && c[i..][0] == c[i];
  }

  lemma FixedLine(c: seq<string>, sha: string)
    requires |c| == 7 && |c[2]| > 3
    ensures Fmt(Fixed(c, sha)) == ("| " + c[0] + " |" + FixedFront(c, sha)) + ([c[2][2]] + FixedRest(c))
  {
    hide Joined;
    var d := Fixed(c, sha);
    assert d[0..] == d && d[3..] == c[3..];
    JoinedFrom(d, 0);
    JoinedFrom(d, 1);
    JoinedFrom(d, 2);
    FixedText(c[0], sha, c[2], Joined(c[3..]));
  }

  lemma FixedText(id: string, sha: string, cls: string, r: string)
    requires |cls| > 3
    ensures "| " + (id + " | " + ("FIXED " + sha + " | " + (cls + " | " + r))) + " |" ==
      ("| " + id + " |" + (" FIXED " + sha + " | " + cls[..2])) + ([cls[2]] + (cls[3..] + " | " + r + " |"))
  {
    assert cls == cls[..2] + [cls[2]] + cls[3..];
  }

  /** Whatever commit a fix is given, the row it writes shows no less than with a plain one. */
  lemma FixedLeast(c: seq<string>, sha: string)
    requires RowFine(c)
    ensures Top(Fmt(Fixed(c, sha))) >= Top(Fmt(Fixed(c, "x")))
  {
    ClassShape(c[2]);
    hide Fmt, Fixed, IdsIn, LedgerIds.Max, Kw, WellId, Lower, IdChar, FixedRest;
    var id := "| " + c[0] + " |";
    FixedLine(c, sha);
    FixedLine(c, "x");
    TopAcross(id + FixedFront(c, sha), c[2][2], FixedRest(c));
    TopAcross(id + FixedFront(c, "x"), c[2][2], FixedRest(c));
    TopIsOwnAtLeast(id + FixedFront(c, sha), c[0], FixedFront(c, sha));
    PlainFront(c[2]);
    TopIsOwn(id + FixedFront(c, "x"), c[0], FixedFront(c, "x"));
  }

  lemma PlainFront(cls: string)
    requires |cls| > 3 && 'K' !in cls
    ensures IdsIn(" FIXED " + "x" + " | " + cls[..2]) == []
  {
    hide IdsIn;
    assert 'K' !in cls[..2];
    L.NoKNoIds(" FIXED " + "x" + " | " + cls[..2]);
  }

  lemma FmtIsNoCount(c: seq<string>)
    ensures !Starts(Fmt(c), COUNT_LEAD)
  {
    hide Joined;
    StartsAt(Fmt(c), COUNT_LEAD, 0);
  }

  // ---- a row as a claim would write it -----------------------------------

  /** The part of a claimed row behind the claim. */
  function ClaimedRest(c: seq<string>): string
    requires |c| == 7
  {
    " " + c[4] + " | " + Joined(c[5..]) + " |"
  }

  function ClaimedFront(c: seq<string>, branch: string, date: string): string
    requires |c| == 7
  {
    ClaimedStart("IN-PROGRESS " + branch, c[2], c[3]) + ("[CLAIMED " + branch + " " + date)
  }

  function ClaimedStart(status: string, cls: string, sev: string): string {
    " " + status + " | " + cls + " | " + sev + " | "
  }

  lemma ClaimedLine(c: seq<string>, branch: string, date: string)
    requires |c| == 7
    ensures Fmt(Claimed(c, branch, date)) == ("| " + c[0] + " |" + ClaimedFront(c, branch, date)) + ("]" + ClaimedRest(c))
  {
    hide Joined;
    var d := Claimed(c, branch, date);
    assert d[0..] == d && d[5..] == c[5..];
    JoinedFrom(d, 0);
    JoinedFrom(d, 1);
    JoinedFrom(d, 2);
    JoinedFrom(d, 3);
    JoinedFrom(d, 4);
    ClaimedText(c[0], branch, date, c[2], c[3], c[4], Joined(c[5..]));
  }

  lemma ClaimedText(id: string, branch: string, date: string, cls: string, sev: string, issue: string, r: string)
    ensures "| " + (id + " | " + ("IN-PROGRESS " + branch + " | " + (cls + " | " + (sev + " | " + ("[CLAIMED " + branch + " " + date + "] " + issue + " | " + r))))) + " |" ==
      ("| " + id + " |" + (ClaimedStart("IN-PROGRESS " + branch, cls, sev) + ("[CLAIMED " + branch + " " + date))) + ("]" + (" " + issue + " | " + r + " |"))
  {
    hide ClaimedStart;
    var claim := "[CLAIMED " + branch + " " + date;
    var tail := claim + "] " + issue + " | " + r;
    StartText(id, "IN-PROGRESS " + branch, cls, sev, tail);
    var start, rest := ClaimedStart("IN-PROGRESS " + branch, cls, sev), "]" + (" " + issue + " | " + r + " |");
    assert tail + " |" == claim + rest;
    assert ("| " + id + " |" + start) + (claim + rest) == ("| " + id + " |" + (start + claim)) + rest;
  }

  lemma StartText(id: string, status: string, cls: string, sev: string, tail: string)
    ensures "| " + (id + " | " + (status + " | " + (cls + " | " + (sev + " | " + tail)))) + " |" ==
      ("| " + id + " |" + ClaimedStart(status, cls, sev)) + (tail + " |")
  {
  }

  /** Nothing but its own id before the claim, if the claim is plain. */
  lemma PlainClaimFront(a: string, sev: string)
    requires 'K' !in a && sev != "" && !IdChar(sev[0]) && '|' !in sev
    ensures IdsIn(a + sev + " | [CLAIMED x x") == []
  {
    hide IdsIn, IdChar;
    var b := " | [CLAIMED x x";
    L.NoKNoIds(a);
    L.NoKNoIds(b);
    SkipNoPipe(sev[1..], b);
    IdsAcross(a, sev[0], sev[1..] + b);
    assert a + sev + b == a + ([sev[0]] + (sev[1..] + b));
  }

  lemma PlainFrontIs(c: seq<string>)
    requires |c| == 7
    ensures ClaimedFront(c, "x", "x") == " IN-PROGRESS x | " + c[2] + " | " + c[3] + " | [CLAIMED x x"
  {
  }

  lemma FineShape(c: seq<string>)
    requires RowFine(c)
    ensures |c| == 7 && WellId(c[0]) && |c[2]| > 3 && !IdChar(c[2][2]) && 'K' !in c[2]
    ensures c[3] != "" && !IdChar(c[3][0]) && '|' !in c[3]
  {
    hide IdChar, Kw, WellId;
    ClassShape(c[2]);
    SevShape(c[3]);
  }

  /** Its own id and what stands behind the claim: all that a plainly claimed row shows. */
  lemma ClaimedShows(c: seq<string>)
    requires RowFine(c)
    ensures |c| == 7 && WellId(c[0]) && Top(Fmt(Claimed(c, "x", "x"))) == Larger(Number(c[0]), Top(ClaimedRest(c)))
  {
    hide Fmt, Claimed, IdsIn, Top, RowFine, WellId, Number, ClaimedRest, ClaimedFront;
    FineShape(c);
    var front := ClaimedFront(c, "x", "x");
    ClaimedLine(c, "x", "x");
    TopAcross("| " + c[0] + " |" + front, ']', ClaimedRest(c));
    PlainFrontIs(c);
    PlainClaimFront(" IN-PROGRESS x | " + c[2] + " | ", c[3]);
    TopIsOwn("| " + c[0] + " |" + front, c[0], front);
  }

  /** A text that starts with the id and has what stands behind the claim behind a bracket
      shows no less. */
  lemma ShowsNoLess(c: seq<string>, line: string, front: string, rest: string)
    requires RowFine(c) && line == ("| " + c[0] + " |" + front) + ("]" + rest) && Top(rest) == Top(ClaimedRest(c))
    ensures Top(line) >= Top(Fmt(Claimed(c, "x", "x")))
  {
    hide Fmt, Claimed, IdsIn, LedgerIds.Max, Kw, WellId, Number, Lower, ClaimedRest;
    ClaimedShows(c);
    TopAcross("| " + c[0] + " |" + front, ']', rest);
    TopIsOwnAtLeast("| " + c[0] + " |" + front, c[0], front);
  }

  /** Whatever branch and date a claim is given, the row it writes shows no less than with
      plain ones. */
  lemma ClaimedLeast(c: seq<string>, branch: string, date: string)
    requires RowFine(c)
    ensures Top(Fmt(Claimed(c, branch, date))) >= Top(Fmt(Claimed(c, "x", "x")))
  {
    hide Fmt, Claimed, Top, RowFine, ClaimedRest, ClaimedFront;
    FineIsSeven(c);
    ClaimedLine(c, branch, date);
    ShowsNoLess(c, Fmt(Claimed(c, branch, date)), ClaimedFront(c, branch, date), ClaimedRest(c));
  }

  // ---- a claimed row as a fix would write it -----------------------------

  lemma {:induction false} JoinedConcat(a: seq<string>, b: seq<string>)
    requires a != [] && b != []
    ensures Joined(a + b) == Joined(a) + " | " + Joined(b)
  {
    assert (a + b)[1..] == a[1..] + b;
    if |a| > 1 {
      JoinedConcat(a[1..], b);
      assert a[0] + " | " + (Joined(a[1..]) + " | " + Joined(b)) == a[0] + " | " + Joined(a[1..]) + " | " + Joined(b);
    } else {
      assert a[1..] + b == b;
    }
  }

  /** The cell that ends in the claim and the issue, stripped. */
  lemma StripClaim(y: string, issue: string)
    requires Trimmed(issue)
    ensures Strip(y + "]" + (" " + issue + " ")) == LStrip(y) + "]" + if issue == "" then "" else " " + issue
  {
    hide LStrip, RStrip, Trimmed;
    var t := "]" + (" " + issue + " ");
    assert y + "]" + (" " + issue + " ") == y + t;
    LStripInFront(y, t);
    assert LStrip(y) + t == LStrip(y) + "]" + (" " + issue + " ");
    StripTail(LStrip(y) + "]", issue);
  }

  lemma StripTail(z: string, issue: string)
    requires z != "" && !IsSpace(z[|z| - 1]) && Trimmed(issue)
    ensures RStrip(z + (" " + issue + " ")) == z + if issue == "" then "" else " " + issue
  {
    hide RStrip;
    if issue == "" {
      assert z + (" " + issue + " ") == z + " " + " ";
      RStripSpace(z + " ");
      RStripSpace(z);
      RStripNoop(z);
    } else {
      assert z + (" " + issue + " ") == z + (" " + issue) + " ";
      RStripSpace(z + (" " + issue));
      RStripNoop(z + (" " + issue));
    }
  }

  lemma RStripNoop(s: string)
    requires s != "" && !IsSpace(s[|s| - 1])
    ensures RStrip(s) == s
  {
  }

  /** The last piece of a text that does not end in a pipe ends as the text does. */
  lemma LastPiece(x: string, c: char, prev: char) returns (y: string)
    requires c != '|'
    ensures var p := Pieces(x + [c], prev); p[|p| - 1] == y + [c] && |p| == |Pieces(x, prev)|
  {
    hide Pieces;
    PiecesAcross(x, [c], prev);
    OneCharPiece(c, LastOr(x, prev));
    var p := Pieces(x, prev);
    y := p[|p| - 1];
  }

  lemma OneCharPiece(c: char, prev: char)
    requires c != '|'
    ensures Pieces([c], prev) == [[c]]
  {
    assert [c][1..] == "" && [c] + "" == [c];
  }

  /** The pieces of the claimed row up to the claim's bracket, whatever the branch and the
      date bring: more than one, the first with the status. */
  lemma FrontPieces(c: seq<string>, branch: string, date: string) returns (p: string, y: string)
    requires |c| == 7
    ensures var r := Pieces(ClaimedFront(c, branch, date) + "]", '|');
      |r| >= 2 && r[0] == " IN-PROGRESS " + p && r[|r| - 1] == y + "]"
  {
    var front := ClaimedFront(c, branch, date);
    var more := " " + c[2] + " | " + c[3] + " | " + ("[CLAIMED " + branch + " " + date);
    assert front == (" " + ("IN-PROGRESS " + branch) + " ") + ("|" + more);
    assert front + "]" == " IN-PROGRESS " + (branch + " |" + more + "]");
    hide Pieces, SafeAfter, ClaimedFront;
    PiecesAcross(" " + ("IN-PROGRESS " + branch) + " ", "|" + more, '|');
    PipeCuts(more);
    y := LastPiece(front, ']', '|');
    NoPipeSafe(" IN-PROGRESS ", '|');
    OnePiece(" IN-PROGRESS ", '|');
    PiecesAcross(" IN-PROGRESS ", branch + " |" + more + "]", '|');
    p := Pieces(branch + " |" + more + "]", ' ')[0];
  }

  lemma RestPieces(c: seq<string>)
    requires |c| == 7 && AllSafe(c)
    ensures Pieces(ClaimedRest(c), ']') == [" " + c[4] + " ", " " + c[5] + " ", " " + c[6] + " ", ""]
  {
    var rest, t := ClaimedRest(c), c[4..];
    assert Pieces(rest, ']') == Pieces(rest, '|');
    hide Pieces, PipeSafe, Joined;
    JoinedFrom(c, 4);
    assert rest == " " + Joined(t) + " |";
    assert forall i :: 0 <= i < |t| ==> t[i] == c[i + 4];
    PiecesOfRow(t);
  }

  /** All pieces of a claimed row. */
  lemma ClaimedPieces(c: seq<string>, branch: string, date: string)
    requires RowFine(c) && AllSafe(c)
    ensures |c| == 7
    ensures Pieces(Fmt(Claimed(c, branch, date)), ' ') == ["", " " + c[0] + " "] +
      Across(Pieces(ClaimedFront(c, branch, date) + "]", '|'), [" " + c[4] + " ", " " + c[5] + " ", " " + c[6] + " ", ""])
  {
    hide Pieces, Fmt, Claimed, ClaimedFront, ClaimedRest, RowFine, SafeAfter, Across;
    FineIsSeven(c);
    var front, rest := ClaimedFront(c, branch, date), ClaimedRest(c);
    ClaimedLine(c, branch, date);
    var behind := front + "]" + rest;
    var w := " " + c[0] + " ";
    assert ("| " + c[0] + " |" + front) + ("]" + rest) == "|" + (w + "|" + behind);
    PipeCuts(w + "|" + behind);
    assert PipeSafe(c[0]);
    PaddedSafe(c[0]);
    PiecesThen(w, behind, '|');
    PiecesAcross(front + "]", rest, '|');
    RestPieces(c);
  }

  /** The issue as it stands behind the claim once the cell is stripped. */
  function Issue(c: seq<string>): string
    requires |c| == 7
  {
    if c[4] == "" then "" else " " + c[4]
  }

  /** The cells of a claimed row: the id, the status, perhaps more than five others, the last
      three with what was there before. */
  lemma ClaimedCells(c: seq<string>, branch: string, date: string) returns (first: string, mid: seq<string>, z: string)
    requires RowFine(c) && AllSafe(c) && Strips(c) == c
    ensures |c| == 7 && Cells(Fmt(Claimed(c, branch, date))) == Some([c[0], first] + mid + [z + "]" + Issue(c), c[5], c[6]])
    ensures Word(LStrip(first)) == "IN-PROGRESS"
  {
    hide Pieces, Fmt, Claimed, ClaimedFront, RowFine, Strip, Across, Word, LStrip, PipeSafe, RStrip, Issue;
    FineIsSeven(c);
    var line := Fmt(Claimed(c, branch, date));
    FmtEnds(Claimed(c, branch, date));
    var p, y := FrontPieces(c, branch, date);
    ClaimedPieces(c, branch, date);
    var r := Pieces(ClaimedFront(c, branch, date) + "]", '|');
    var n := |r| - 1;
    AcrossIs(r, " " + c[4] + " ", " " + c[5] + " ", " " + c[6] + " ");
    var inner := [" " + c[0] + " "] + r[..n] + [y + "]" + (" " + c[4] + " "), " " + c[5] + " ", " " + c[6] + " "];
    assert Pieces(line, ' ') == [""] + inner + [""];
    CellsAre(line, inner);
    FirstWord(p);
    first := Strip(r[0]);
    mid := Strips(r[1..n]);
    z := LStrip(y);
    StripPadded(c[0]);
    StripPadded(c[5]);
    StripPadded(c[6]);
    TrimmedCell(c, 4);
    IssueIs(c, y);
    TheCells(inner, c, r[..n], first, mid, z + "]" + Issue(c));
  }

  lemma IssueIs(c: seq<string>, y: string)
    requires |c| == 7 && Trimmed(c[4])
    ensures Strip(y + "]" + (" " + c[4] + " ")) == LStrip(y) + "]" + Issue(c)
  {
    hide Strip, LStrip, Trimmed;
    StripClaim(y, c[4]);
  }

  lemma TrimmedCell(c: seq<string>, i: nat)
    requires i < |c| && Strips(c) == c
    ensures Trimmed(c[i]) && Strip(c[i]) == c[i]
  {
    hide Strip, Trimmed;
    StripIsTrimmed(c[i]);
  }

  lemma TheCells(inner: seq<string>, c: seq<string>, r: seq<string>, first: string, mid: seq<string>, last: string)
    requires |c| == 7 && Strips(c) == c && |r| >= 1 && |inner| == |r| + 4 && inner[1..|r| + 1] == r
    requires Strip(inner[0]) == Strip(c[0]) && first == Strip(r[0]) && mid == Strips(r[1..])
    requires Strip(inner[|r| + 1]) == last && Strip(inner[|r| + 2]) == Strip(c[5]) && Strip(inner[|r| + 3]) == Strip(c[6])
    ensures Strips(inner) == [c[0], first] + mid + [last, c[5], c[6]]
  {
    hide Strip;
    var t := [c[0], first] + mid + [last, c[5], c[6]];
    assert Strip(c[0]) == c[0] && Strip(c[5]) == c[5] && Strip(c[6]) == c[6];
    assert forall i :: 1 <= i < |r| + 1 ==> inner[i] == r[i - 1];
    assert forall i :: 2 <= i < |r| + 1 ==> t[i] == mid[i - 2] == Strip(r[1..][i - 2]) == Strip(r[i - 1]);
    assert |t| == |inner|;
    assert Strips(inner) == t;
  }

  lemma FmtEnds(c: seq<string>)
    ensures RStrip(Fmt(c)) == Fmt(c)
  {
    hide Joined, RStrip;
    RStripNoop(Fmt(c));
  }

  lemma AcrossIs(r: seq<string>, a: string, b: string, c: string)
    requires r != []
    ensures Across(r, [a, b, c, ""]) == r[..|r| - 1] + [r[|r| - 1] + a, b, c] + [""]
  {
  }

  lemma CellsAre(line: string, inner: seq<string>)
    requires RStrip(line) == line && Pieces(line, ' ') == [""] + inner + [""] && inner != []
    ensures Cells(line) == Some(Strips(inner))
  {
    assert Strip("") == "";
    hide Pieces, RStrip;
    assert ([""] + inner + [""])[1..|inner| + 1] == inner;
  }

  lemma FirstWord(p: string)
    ensures Word(LStrip(Strip(" IN-PROGRESS " + p))) == "IN-PROGRESS"
  {
    hide LStrip, RStrip, Word;
    assert " IN-PROGRESS " + p == " " + ("IN-PROGRESS" + " " + p);
    LStripSpace("IN-PROGRESS" + " " + p);
    StatusWord("IN-PROGRESS", p);
  }

  lemma RefixedText(id: string, j: string, z: string, rest: string, r: string)
    ensures "| " + (id + " | " + j + " | " + (z + "]" + rest + " | " + r)) + " |" ==
      ("| " + id + " |" + (" " + j + " | " + z)) + ("]" + (rest + " | " + r + " |"))
  {
  }

  lemma RestShows(c: seq<string>)
    requires |c| == 7
    ensures Top(Issue(c) + " | " + Joined(c[5..]) + " |") == Top(ClaimedRest(c))
  {
    hide IdsIn, LedgerIds.Max, Joined;
    var r := Joined(c[5..]);
    if c[4] == "" {
      assert ClaimedRest(c) == " " + ("" + " | " + r + " |");
      SkipNoPipe(" ", "" + " | " + r + " |");
    }
  }

  /** Whatever a claim and a fix behind it are given, the row shows no less than plainly
      claimed. */
  lemma RefixedLeast(c: seq<string>, branch: string, date: string, sha: string)
    requires RowFine(c) && AllSafe(c) && Strips(c) == c
    ensures |c| == 7 && Cells(Fmt(Claimed(c, branch, date))).Some?
    ensures var d := Cells(Fmt(Claimed(c, branch, date))).value;
      |d| >= 5 && Kw(d) == "IN-PROGRESS" && d[0] == c[0] && Top(Fmt(Fixed(d, sha))) >= Top(Fmt(Claimed(c, "x", "x")))
  {
    hide Cells, Fmt, Claimed, RowFine, Top, Joined, Word, LStrip, AllSafe, Strips, Issue;
    var first, mid, z := ClaimedCells(c, branch, date);
    var last := [z + "]" + Issue(c), c[5], c[6]];
    var d := [c[0], first] + mid + last;
    var front := ["FIXED " + sha] + mid;
    assert Fixed(d, sha) == [c[0]] + (front + last);
    RefixedJoined(c[0], front, last);
    JoinedThree(c, last);
    RefixedText(c[0], Joined(front), z, Issue(c), Joined(c[5..]));
    RestShows(c);
    FmtIs(Fixed(d, sha));
    ShowsNoLess(c, Fmt(Fixed(d, sha)), " " + Joined(front) + " | " + z, Issue(c) + " | " + Joined(c[5..]) + " |");
  }

  lemma FmtIs(c: seq<string>)
    ensures Fmt(c) == "| " + Joined(c) + " |"
  {
  }

  lemma RefixedJoined(id: string, a: seq<string>, b: seq<string>)
    requires a != [] && b != []
    ensures Joined([id] + (a + b)) == id + " | " + Joined(a) + " | " + Joined(b)
  {
    assert ([id] + (a + b))[1..] == a + b;
    JoinedConcat(a, b);
    assert id + " | " + (Joined(a) + " | " + Joined(b)) == id + " | " + Joined(a) + " | " + Joined(b);
  }

  lemma JoinedThree(c: seq<string>, last: seq<string>)
    requires |c| == 7 && |last| == 3 && last[1] == c[5] && last[2] == c[6]
    ensures Joined(last) == last[0] + " | " + Joined(c[5..])
  {
    assert last[1..] == c[5..];
  }

  // ---- the least a line can come to show ---------------------------------

  function Smaller(a: nat, b: nat): nat {
    if a < b then a else b
  }

  /** The least largest id of a line as it stands, as a fix would write it and, if it is
      open, as a claim would. A fix behind the claim shows what the claim showed. */
  function LeastOf(l: string): nat {
    var c := RowCells(l);
    if |c| < 5 then Top(l)
    else
      var least := Smaller(Top(l), Top(Fmt(Fixed(c, "x"))));
      if Kw(c) == "OPEN" then Smaller(least, Top(Fmt(Claimed(c, "x", "x")))) else least
  }

  function Floor(lines: seq<string>): nat {
    if lines == [] then 0 else Larger(Floor(lines[..|lines| - 1]), LeastOf(lines[|lines| - 1]))
  }

  /** The least next number that claims and fixes can lead to. */
  function Lowest(f: Files): nat {
    1 + Larger(Floor(f.ledger), Largest(f.archive))
  }

  lemma {:induction false} FloorAttained(lines: seq<string>) returns (l: string)
    requires Floor(lines) > 0
    ensures l in lines && LeastOf(l) == Floor(lines)
  {
    hide LeastOf;
    var n := |lines| - 1;
    l := lines[n];
    if LeastOf(l) != Floor(lines) {
      l := FloorAttained(lines[..n]);
    }
  }

  lemma {:induction false} LargestAttained(lines: seq<string>) returns (l: string)
    requires Largest(lines) > 0
    ensures l in lines && Top(l) == Largest(lines)
  {
    hide LedgerIds.Max, IdsIn;
    var n := |lines| - 1;
    l := lines[n];
    if Top(l) != Largest(lines) {
      l := LargestAttained(lines[..n]);
    }
  }

  // ---- no operation gets below it ----------------------------------------

  ghost predicate SureFixed(c: seq<string>, v: nat) {
    |c| >= 2 ==> forall sha :: Top(Fmt(Fixed(c, sha))) >= v
  }

  ghost predicate SureClaimed(c: seq<string>, branch: string, date: string, v: nat)
    requires |c| >= 5
  {
    var l := Fmt(Claimed(c, branch, date));
    Top(l) >= v && Kw(RowCells(l)) != "OPEN" && SureFixed(RowCells(l), v)
  }

  /** The line shows v or more, now and after whatever is done to it. */
  ghost predicate Sure(l: string, v: nat) {
    var c := RowCells(l);
    && Top(l) >= v && SureFixed(c, v)
    && (|c| >= 5 && Kw(c) == "OPEN" ==> forall branch, date :: SureClaimed(c, branch, date, v))
  }

  lemma FixIsSure(c: seq<string>)
    requires RowFine(c)
    ensures SureFixed(c, Top(Fmt(Fixed(c, "x"))))
  {
    hide Top, Fmt, RowFine, Fixed;
    FineIsSeven(c);
    forall sha
      ensures Top(Fmt(Fixed(c, sha))) >= Top(Fmt(Fixed(c, "x")))
    {
      FixedLeast(c, sha);
    }
  }

  lemma ClaimedIsRow(c: seq<string>, branch: string, date: string)
    requires RowFine(c) && AllSafe(c) && Strips(c) == c
    ensures |c| == 7
    ensures var l := Fmt(Claimed(c, branch, date));
      Cells(l).Some? && IsRow(l) && RowCells(l) == Cells(l).value && |RowCells(l)| >= 5
  {
    hide Cells, Fmt, RowFine, Claimed, AllSafe, Strips, Kw, Top, Fixed, WellId, Starts;
    FineIsSeven(c);
    RefixedLeast(c, branch, date, "x");
    ClaimedLength(c, branch, date);
    FmtStarts(Claimed(c, branch, date));
  }

  lemma ClaimIsSure(c: seq<string>, branch: string, date: string)
    requires RowFine(c) && AllSafe(c) && Strips(c) == c
    ensures |c| == 7 && SureClaimed(c, branch, date, Top(Fmt(Claimed(c, "x", "x"))))
  {
    hide *;
    ClaimedIsRow(c, branch, date);
    ClaimedLeast(c, branch, date);
    var l := Fmt(Claimed(c, branch, date));
    forall sha
      ensures Top(Fmt(Fixed(RowCells(l), sha))) >= Top(Fmt(Claimed(c, "x", "x"))) && Kw(RowCells(l)) == "IN-PROGRESS"
    {
      RefixedLeast(c, branch, date, sha);
    }
    RefixedLeast(c, branch, date, "x");
    SureClaimedIs(c, branch, date, Top(Fmt(Claimed(c, "x", "x"))));
  }

  lemma SureClaimedIs(c: seq<string>, branch: string, date: string, v: nat)
    requires |c| >= 5
    requires var l := Fmt(Claimed(c, branch, date));
      Top(l) >= v && Kw(RowCells(l)) != "OPEN" && |RowCells(l)| >= 2 && forall sha :: Top(Fmt(Fixed(RowCells(l), sha))) >= v
    ensures SureClaimed(c, branch, date, v)
  {
    hide Fmt, Claimed, Top, Kw, RowCells, Fixed;
  }

  lemma SureLess(l: string, v: nat, w: nat)
    requires |RowCells(l)| >= 5 && SureFixed(RowCells(l), v) && w <= v
    ensures SureFixed(RowCells(l), w)
  {
    hide RowCells, Top, Fmt, Fixed;
  }

  lemma SureClaimedLess(c: seq<string>, branch: string, date: string, v: nat, w: nat)
    requires |c| >= 5 && SureClaimed(c, branch, date, v) && w <= v
    ensures SureClaimed(c, branch, date, w)
  {
    hide RowCells, Top, Fmt, Fixed, Kw, Claimed;
  }

  lemma RowIsClean(l: string)
    requires IsRow(l)
    ensures var c := RowCells(l); AllSafe(c) && Strips(c) == c
  {
    hide Cells, AllSafe, Strips, Starts;
    CellsAreSafe(l);
  }

  lemma RowlessIsSure(l: string)
    requires !IsRow(l)
    ensures RowCells(l) == [] && LeastOf(l) == Top(l) && Sure(l, Top(l))
  {
    hide IsRow, Top, Fmt, Kw;
  }

  /** What a line is worth at least, it is sure to show. */
  lemma SureLeast(l: string)
    requires IsRow(l) ==> RowFine(RowCells(l))
    ensures Sure(l, LeastOf(l))
  {
    if !IsRow(l) {
      RowlessIsSure(l);
    } else {
      var c := RowCells(l);
      hide RowCells, Top, Fmt, Fixed, Claimed, Kw, RowFine, SureFixed, SureClaimed, IsRow;
      RowIsClean(l);
      FineIsSeven(c);
      FixIsSure(c);
      SureLess(l, Top(Fmt(Fixed(c, "x"))), LeastOf(l));
      if Kw(c) == "OPEN" {
        forall branch, date
          ensures SureClaimed(c, branch, date, LeastOf(l))
        {
          ClaimIsSure(c, branch, date);
          SureClaimedLess(c, branch, date, Top(Fmt(Claimed(c, "x", "x"))), LeastOf(l));
        }
      }
    }
  }

  /** Some line shows v or more for good. */
  ghost predicate Guarded(f: Files, v: nat) {
    (exists l :: l in f.archive && Top(l) >= v) || (exists l :: l in f.ledger && Sure(l, v))
  }

  lemma GuardedNext(f: Files, v: nat)
    requires Guarded(f, v)
    ensures Next(f) > v
  {
    hide Largest, LedgerIds.Max, IdsIn, RowCells, Kw, SureFixed, SureClaimed;
    if l :| l in f.archive && Top(l) >= v {
      var i :| 0 <= i < |f.archive| && f.archive[i] == l;
      LargestBounds(f.archive, i);
    } else {
      var l :| l in f.ledger && Sure(l, v);
      var i :| 0 <= i < |f.ledger| && f.ledger[i] == l;
      LargestBounds(f.ledger, i);
    }
  }

  lemma CheckedIsPlain(lines: seq<string>)
    requires Checked(lines)
    ensures PlainCount(lines)
  {
    hide RowsOf, CountLine, IdsIn, FirstCount, Frame, RowsGood;
    L.CountLineHasNoId(RowsOf(lines));
  }

  lemma CheckedRowIsFine(lines: seq<string>, l: string)
    requires Checked(lines) && l in lines && IsRow(l)
    ensures RowFine(RowCells(l))
  {
    hide Checked, RowFine, RowCells, IsRow, RowsOf;
    RowsMember(lines, RowCells(l));
    CheckedHas(lines);
  }

  lemma LowestIsGuarded(f: Files)
    requires Checked(f.ledger) && Lowest(f) > 1
    ensures Guarded(f, Lowest(f) - 1)
  {
    hide Checked, Sure, LeastOf, Top, Floor, Largest, IsRow, RowCells, RowFine;
    if Largest(f.archive) == Lowest(f) - 1 {
      var l := LargestAttained(f.archive);
    } else {
      var l := FloorAttained(f.ledger);
      if IsRow(l) {
        CheckedRowIsFine(f.ledger, l);
      }
      SureLeast(l);
    }
  }

  lemma TopOfNone(l: string)
    requires IdsIn(l) == []
    ensures Top(l) == 0
  {
    hide IdsIn;
  }

  lemma CountKeepsLine(lines: seq<string>, l: string)
    requires PlainCount(lines) && l in lines && Top(l) > 0
    ensures l in SetCount(lines)
  {
    hide IdsIn, Top, FirstCount, CountLine, RowsOf;
    var j :| 0 <= j < |lines| && lines[j] == l;
    if j == FirstCount(lines) {
      TopOfNone(l);
    }
    assert SetCount(lines)[j] == l;
  }

  lemma SureShows(l: string, v: nat)
    requires Sure(l, v)
    ensures Top(l) >= v
  {
    hide Top, SureFixed, SureClaimed, RowCells, Kw;
  }

  lemma AddKeepsGuard(f: Files, op: Op, v: nat)
    requires op.Add? && Accepts(f, op) && v > 0 && PlainCount(f.ledger) && Guarded(f, v)
    ensures PlainCount(Apply(f, op).ledger) && Guarded(Apply(f, op), v)
  {
    hide Apply, Accepts, PlainCount, Sure, Top, Fmt, NewRow, InsertAt, SetCount;
    ApplyAdd(f, op);
    var k, line := InsertAt(f.ledger), Fmt(NewRow(f, op));
    var lines := Insert(f.ledger, k, line);
    FmtIsNoCount(NewRow(f, op));
    InsertPlain(f.ledger, k, line);
    SetCountPlain(lines);
    if l :| l in f.ledger && Sure(l, v) {
      SureShows(l, v);
      assert f.ledger == f.ledger[..k] + f.ledger[k..];
      CountKeepsLine(lines, l);
    }
  }

  lemma ClaimKeepsGuard(f: Files, op: Op, v: nat)
    requires op.Claim? && Accepts(f, op) && v > 0 && PlainCount(f.ledger) && Guarded(f, v)
    ensures PlainCount(Apply(f, op).ledger) && Guarded(Apply(f, op), v)
  {
    hide Apply, Accepts, PlainCount, Sure, Top, Fmt, SetCount, FindRow, RowCells, Claimed, Kw, Starts;
    var k := FindRow(f.ledger, op.rid);
    ApplyClaim(f, op, k);
    FoundIsRow(f.ledger, k, op.rid);
    var c := RowCells(f.ledger[k]);
    var line := Fmt(Claimed(c, op.branch, op.date));
    var lines := f.ledger[k := line];
    ReplacePlain(f.ledger, k, Claimed(c, op.branch, op.date));
    SetCountPlain(lines);
    if l :| l in f.ledger && Sure(l, v) {
      var j :| 0 <= j < |f.ledger| && f.ledger[j] == l;
      if j == k {
        ClaimStaysSure(l, op.branch, op.date, v);
        SureShows(line, v);
        assert lines[k] == line;
        CountKeepsLine(lines, line);
      } else {
        SureShows(l, v);
        assert lines[j] == l;
        CountKeepsLine(lines, l);
      }
    }
  }

  lemma ReplacePlain(lines: seq<string>, k: nat, c: seq<string>)
    requires PlainCount(lines) && k < |lines| && IsRow(lines[k])
    ensures PlainCount(lines[k := Fmt(c)])
  {
    hide PlainCount, Fmt, Starts, Cells;
    RowLineIsNothingElse(lines[k]);
    DeletePlain(lines, k);
    FmtIsNoCount(c);
    InsertPlain(Delete(lines, k), k, Fmt(c));
    assert lines[k := Fmt(c)] == Insert(Delete(lines, k), k, Fmt(c));
  }

  lemma ClaimStaysSure(l: string, branch: string, date: string, v: nat)
    requires Sure(l, v) && |RowCells(l)| >= 5 && Kw(RowCells(l)) == "OPEN"
    ensures Sure(Fmt(Claimed(RowCells(l), branch, date)), v)
  {
    hide Top, Fmt, RowCells, Claimed, Kw, SureFixed;
    assert SureClaimed(RowCells(l), branch, date, v);
  }

  lemma FixKeepsGuard(f: Files, op: Op, v: nat)
    requires op.Fix? && Accepts(f, op) && v > 0 && PlainCount(f.ledger) && Guarded(f, v)
    ensures PlainCount(Apply(f, op).ledger) && Guarded(Apply(f, op), v)
  {
    hide Apply, Accepts, PlainCount, Sure, Top, Fmt, SetCount, FindRow, RowCells, Fixed, Kw, Starts, Cells;
    var k := FindRow(f.ledger, op.rid);
    ApplyFix(f, op, k);
    FoundIsRow(f.ledger, k, op.rid);
    RowLineIsNothingElse(f.ledger[k]);
    var c, lines := RowCells(f.ledger[k]), Delete(f.ledger, k);
    var line := Fmt(Fixed(c, op.sha));
    DeletePlain(f.ledger, k);
    SetCountPlain(lines);
    if l :| l in f.archive && Top(l) >= v {
      assert l in f.archive + [line];
    } else {
      var l :| l in f.ledger && Sure(l, v);
      var j :| 0 <= j < |f.ledger| && f.ledger[j] == l;
      if j == k {
        FixStaysSure(l, op.sha, v);
        assert line in f.archive + [line];
      } else {
        SureShows(l, v);
        assert lines[if j < k then j else j - 1] == l;
        CountKeepsLine(lines, l);
      }
    }
  }

  lemma FixStaysSure(l: string, sha: string, v: nat)
    requires Sure(l, v) && |RowCells(l)| >= 2
    ensures Top(Fmt(Fixed(RowCells(l), sha))) >= v
  {
    hide Top, Fmt, RowCells, Fixed, Kw, SureClaimed;
  }

  lemma StepKeepsGuard(f: Files, op: Op, v: nat)
    requires v > 0 && PlainCount(f.ledger) && Guarded(f, v)
    ensures PlainCount(Apply(f, op).ledger) && Guarded(Apply(f, op), v)
  {
    hide *;
    if !Accepts(f, op) {
      Refused(f, op);
    } else {
      match op {
        case Add(_, _, _, _, _) => AddKeepsGuard(f, op, v);
        case Claim(_, _, _) => ClaimKeepsGuard(f, op, v);
        case Fix(_, _) => FixKeepsGuard(f, op, v);
      }
    }
  }

  lemma {:induction false} RunKeepsGuard(f: Files, ops: seq<Op>, n: nat, v: nat)
    requires v > 0 && PlainCount(f.ledger) && Guarded(f, v) && n <= |ops|
    ensures PlainCount(After(f, ops, n).ledger) && Guarded(After(f, ops, n), v)
  {
    hide Apply, PlainCount, Guarded;
    if n > 0 {
      RunKeepsGuard(f, ops, n - 1, v);
      StepKeepsGuard(After(f, ops, n - 1), ops[n - 1], v);
    }
  }

  /** Over every run of the tool, whatever texts it is given, the next number is never below
      that. */
  lemma NeverBelowLowest(f: Files, ops: seq<Op>, n: nat)
    requires Checked(f.ledger) && n <= |ops|
    ensures Next(After(f, ops, n)) >= Lowest(f)
  {
    hide Checked, Guarded, After, PlainCount, Lowest, NextNumber;
    CheckedIsPlain(f.ledger);
    if Lowest(f) > 1 {
      LowestIsGuarded(f);
      RunKeepsGuard(f, ops, n, Lowest(f) - 1);
      GuardedNext(After(f, ops, n), Lowest(f) - 1);
    } else {
      NextIsPositive(After(f, ops, n));
    }
  }

  lemma NextIsPositive(f: Files)
    ensures Next(f) >= 1
  {
    hide Largest;
  }
}
