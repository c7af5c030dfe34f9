/** Rows of the issue ledger as text: cells between pipes that are not escaped. */
module LedgerText {
  import opened Options
  import opened Text

  // ---- whitespace --------------------------------------------------------

  lemma {:induction false} LStripSnoc(x: string)
    ensures LStrip(x + " ") == if LStrip(x) == "" then "" else LStrip(x) + " "
  {
    if x == "" {
      assert (" ")[1..] == "";
    } else if IsSpace(x[0]) {
      assert (x + " ")[1..] == x[1..] + " ";
      LStripSnoc(x[1..]);
    }
  }

  lemma LStripSpace(y: string)
    ensures LStrip(" " + y) == LStrip(y)
  {
    assert (" " + y)[1..] == y;
  }

  lemma {:induction false} LStripInFront(y: string, t: string)
    requires t != "" && !IsSpace(t[0])
    ensures LStrip(y + t) == LStrip(y) + t
  {
    hide IsSpace;
    if y == "" {
      assert y + t == t;
    } else {
      assert (y + t)[1..] == y[1..] + t;
      if IsSpace(y[0]) {
        LStripInFront(y[1..], t);
      }
    }
  }

  lemma RStripSpace(z: string)
    ensures RStrip(z + " ") == RStrip(z)
  {
    assert (z + " ")[..|z|] == z;
  }

  lemma StripPadded(x: string)
    ensures Strip(" " + x + " ") == Strip(x)
  {
    hide LStrip, RStrip;
    assert " " + x + " " == " " + (x + " ");
    LStripSpace(x + " ");
    LStripSnoc(x);
    RStripSpace(LStrip(x));
  }

  lemma StripIsTrimmed(s: string)
    ensures Trimmed(Strip(s)) && Strip(Strip(s)) == Strip(s)
  {
    hide IsSpace, LStrip, RStrip;
    LStripFacts(s);
    RStripFacts(LStrip(s));
    StripTrimmed(Strip(s));
  }

  // ---- splitting ---------------------------------------------------------

  /** The pieces of s between unescaped pipes; prev is the character before s. */
  function Pieces(s: string, prev: char): (r: seq<string>)
    ensures r != []
  {
    if s == "" then [""]
    else if s[0] == '|' && prev != '\\' then [""] + Pieces(s[1..], '|')
    else
      var r := Pieces(s[1..], s[0]);
      [[s[0]] + r[0]] + r[1..]
  }

  function Strips(parts: seq<string>): (r: seq<string>)
    ensures |r| == |parts| && forall i :: 0 <= i < |r| ==> r[i] == Strip(parts[i])
  {
    seq(|parts|, i requires 0 <= i < |parts| => Strip(parts[i]))
  }

  function Cells(line: string): Option<seq<string>> {
    var parts := Pieces(RStrip(line), ' ');
    if |parts| < 3 || Strip(parts[0]) != "" || Strip(parts[|parts| - 1]) != "" then None
    else Some(Strips(parts[1..|parts| - 1]))
  }

  function Joined(c: seq<string>): string {
    if c == [] then ""
    else if |c| == 1 then c[0]
    else c[0] + " | " + Joined(c[1..])
  }

  function Fmt(c: seq<string>): string {
    "| " + Joined(c) + " |"
  }

  /** Every pipe stands behind a backslash; prev is the character before s. */
  predicate SafeAfter(s: string, prev: char) {
    s != "" ==> (s[0] == '|' ==> prev == '\\') && SafeAfter(s[1..], s[0])
  }

  predicate PipeSafe(s: string) {
    SafeAfter(s, ' ')
  }

  lemma {:induction false} SafeConcat(a: string, b: string, prev: char)
    requires SafeAfter(a, prev) && SafeAfter(b, if a == "" then prev else a[|a| - 1])
    ensures SafeAfter(a + b, prev)
  {
    if a == "" {
      assert a + b == b;
    } else {
      assert (a + b)[1..] == a[1..] + b;
      if |a| == 1 {
        assert a[1..] == "";
      }
      SafeConcat(a[1..], b, a[0]);
    }
  }

  /** What is safe on its own is safe after anything: it does not start with a pipe. */
  lemma SafeAnywhere(s: string, prev: char)
    requires PipeSafe(s)
    ensures SafeAfter(s, prev)
  {
  }

  /** A piece without splitting pipes is cut off at the pipe behind it. */
  lemma {:induction false} PiecesThen(w: string, rest: string, prev: char)
    requires SafeAfter(w, prev) && (if w == "" then prev else w[|w| - 1]) != '\\'
    ensures Pieces(w + "|" + rest, prev) == [w] + Pieces(rest, '|')
  {
    var s := w + "|" + rest;
    if w == "" {
      assert s == "|" + rest && s[1..] == rest;
    } else {
      assert s[1..] == w[1..] + "|" + rest;
      if |w| > 1 {
        assert w[1..][|w[1..]| - 1] == w[|w| - 1];
      }
      PiecesThen(w[1..], rest, w[0]);
      assert [w[0]] + w[1..] == w;
    }
  }

  ghost predicate AllSafe(c: seq<string>) {
    forall i :: 0 <= i < |c| ==> PipeSafe(c[i])
  }

  /** The cells with the blanks the format puts around them, and the nothing at the end. */
  function Padded(c: seq<string>): (r: seq<string>)
    ensures |r| == |c| + 1 && r[|c|] == "" && forall i :: 0 <= i < |c| ==> r[i] == " " + c[i] + " "
  {
    if c == [] then [""] else [" " + c[0] + " "] + Padded(c[1..])
  }

  lemma {:induction false} PiecesOfRow(c: seq<string>)
    requires c != [] && AllSafe(c)
    ensures Pieces(" " + Joined(c) + " |", '|') == Padded(c)
  {
    assert Pieces("", '|') == [""];
    hide Pieces;
    var w := " " + c[0] + " ";
    PaddedSafe(c[0]);
    if |c| == 1 {
      assert " " + Joined(c) + " |" == w + "|" + "";
      PiecesThen(w, "", '|');
    } else {
      var rest := " " + Joined(c[1..]) + " |";
      assert " " + Joined(c) + " |" == w + "|" + rest;
      PiecesThen(w, rest, '|');
      PiecesOfRow(c[1..]);
    }
  }

  lemma PaddedSafe(x: string)
    requires PipeSafe(x)
    ensures SafeAfter(" " + x + " ", '|') && (" " + x + " ")[|x| + 1] == ' '
  {
    SafeOne(' ', '|');
    assert (" " + x)[|" " + x| - 1] == if x == "" then ' ' else x[|x| - 1];
    SafeConcat(" ", x, '|');
    SafeOne(' ', if x == "" then ' ' else x[|x| - 1]);
    SafeConcat(" " + x, " ", '|');
  }

  lemma SafeOne(c: char, prev: char)
    requires c != '|'
    ensures SafeAfter([c], prev)
  {
    assert [c][1..] == "";
  }

  /** Writing a row and reading it back: the cells, with outer blanks gone. */
  lemma CellsOfRow(c: seq<string>)
    requires c != [] && AllSafe(c)
    ensures Cells(Fmt(c)) == Some(Strips(c))
  {
    hide Pieces, Joined, SafeAfter;
    var line := Fmt(c);
    assert line[|line| - 1] == '|' && RStrip(line) == line;
    assert line == "" + "|" + (" " + Joined(c) + " |");
    NothingSafe();
    PiecesThen("", " " + Joined(c) + " |", ' ');
    PiecesOfRow(c);
    var parts := [""] + Padded(c);
    assert Pieces(line, ' ') == parts;
    assert Strip("") == "";
    var inner := parts[1..|parts| - 1];
    assert inner == Padded(c)[..|c|];
    forall i | 0 <= i < |c|
      ensures Strips(inner)[i] == Strips(c)[i]
    {
      StripPadded(c[i]);
    }
    assert Strips(inner) == Strips(c);
  }

  lemma NothingSafe()
    ensures SafeAfter("", ' ')
  {
  }

  // ---- exactly which cells come back -------------------------------------

  function LastOr(s: string, prev: char): char {
    if s == "" then prev else s[|s| - 1]
  }

  /** Two lists of pieces, the last of one and the first of the other made one. */
  function Across(p: seq<string>, q: seq<string>): (r: seq<string>)
    requires p != [] && q != []
    ensures |r| == |p| + |q| - 1
  {
    p[..|p| - 1] + [p[|p| - 1] + q[0]] + q[1..]
  }

  /** The pieces of a text put together from two. */
  lemma {:induction false} PiecesAcross(a: string, b: string, prev: char)
    ensures Pieces(a + b, prev) == Across(Pieces(a, prev), Pieces(b, LastOr(a, prev)))
  {
    hide Across;
    var q := Pieces(b, LastOr(a, prev));
    if a == "" {
      assert a + b == b;
      AcrossNothing(q);
    } else {
      assert (a + b)[1..] == a[1..] + b && LastOr(a[1..], a[0]) == LastOr(a, prev);
      PiecesAcross(a[1..], b, a[0]);
      var r := Pieces(a[1..], a[0]);
      if a[0] == '|' && prev != '\\' {
        AcrossFront(r, q);
      } else {
        AcrossGrow(a[0], r, q);
      }
    }
  }

  lemma AcrossNothing(q: seq<string>)
    requires q != []
    ensures Across([""], q) == q
  {
    assert [""][..0] == [] && "" + q[0] == q[0] && q == [q[0]] + q[1..];
  }

  lemma AcrossFront(r: seq<string>, q: seq<string>)
    requires r != [] && q != []
    ensures [""] + Across(r, q) == Across([""] + r, q)
  {
    assert ([""] + r)[..|r|] == [""] + r[..|r| - 1];
  }

  lemma AcrossGrow(c: char, r: seq<string>, q: seq<string>)
    requires r != [] && q != []
    ensures var t := Across(r, q); [[c] + t[0]] + t[1..] == Across([[c] + r[0]] + r[1..], q)
  {
    var p, t := [[c] + r[0]] + r[1..], Across(r, q);
    if |r| == 1 {
      assert t == [r[0] + q[0]] + q[1..];
      assert [c] + (r[0] + q[0]) == ([c] + r[0]) + q[0];
    } else {
      assert p[..|p| - 1] == [[c] + r[0]] + r[1..|r| - 1];
      assert t[1..] == r[1..|r| - 1] + [r[|r| - 1] + q[0]] + q[1..];
    }
  }

  /** One piece exactly when every pipe is escaped. */
  lemma {:induction false} OnePieceIff(s: string, prev: char)
    ensures |Pieces(s, prev)| == 1 <==> SafeAfter(s, prev)
  {
    if s != "" {
      OnePieceIff(s[1..], s[0]);
    }
  }

  lemma {:induction false} OnePiece(s: string, prev: char)
    requires SafeAfter(s, prev)
    ensures Pieces(s, prev) == [s]
  {
    if s != "" {
      OnePiece(s[1..], s[0]);
      assert [s[0]] + s[1..] == s;
    }
  }

  /** What stands between the pipes of a row. */
  lemma {:induction false} PiecesCount(c: seq<string>)
    requires c != []
    ensures |Pieces(" " + Joined(c) + " |", '|')| >= |c| + 1
    ensures |Pieces(" " + Joined(c) + " |", '|')| == |c| + 1 ==> AllSafe(c)
  {
    assert Pieces("", '|') == [""];
    hide Pieces, SafeAfter;
    var w := " " + c[0] + " ";
    var rest := if |c| == 1 then "" else " " + Joined(c[1..]) + " |";
    assert " " + Joined(c) + " |" == w + ("|" + rest);
    PiecesAcross(w, "|" + rest, '|');
    PipeCuts(rest);
    OnePieceIff(w, '|');
    PaddedSafeOnly(c[0]);
    if |c| > 1 {
      PiecesCount(c[1..]);
      assert c == [c[0]] + c[1..];
    }
  }

  lemma PipeCuts(rest: string)
    ensures Pieces("|" + rest, ' ') == [""] + Pieces(rest, '|')
  {
    assert ("|" + rest)[1..] == rest;
  }

  lemma PaddedSafeOnly(x: string)
    ensures SafeAfter(" " + x + " ", '|') ==> PipeSafe(x)
  {
    var s := " " + x + " ";
    if SafeAfter(s, '|') {
      PrefixSafe(s, |x| + 1, '|');
      assert s[..|x| + 1] == " " + x && (" " + x)[1..] == x;
    }
  }

  /** A row always reads back as some cells; as many as were written, and the ones that were
      written, exactly when every pipe in them is escaped. */
  lemma CellsIff(c: seq<string>)
    requires c != []
    ensures var r := Cells(Fmt(c));
      r.Some? && (|r.value| == |c| <==> AllSafe(c)) && (r.value == Strips(c) <==> AllSafe(c))
  {
    hide Pieces, Joined, SafeAfter, Strips;
    if AllSafe(c) {
      CellsOfRow(c);
    }
    var line := Fmt(c);
    assert line[|line| - 1] == '|' && RStrip(line) == line;
    assert line == "|" + (" " + Joined(c) + " |");
    PipeCuts(" " + Joined(c) + " |");
    PiecesCount(c);
    LastIsNothing(" " + Joined(c) + " ", '|');
    assert " " + Joined(c) + " " + "|" == " " + Joined(c) + " |";
    assert Strip("") == "";
  }

  /** Nothing stands behind a last pipe that is not escaped. */
  lemma LastIsNothing(s: string, prev: char)
    requires s != "" && s[|s| - 1] != '\\'
    ensures var p := Pieces(s + "|", prev); p[|p| - 1] == ""
  {
    hide Pieces;
    PiecesAcross(s, "|", prev);
    PipeIsTwo(s[|s| - 1]);
  }

  lemma PipeIsTwo(prev: char)
    requires prev != '\\'
    ensures Pieces("|", prev) == ["", ""]
  {
    assert "|"[1..] == "";
  }

  lemma {:induction false} SafeSuffix(a: string, b: string, prev: char)
    requires SafeAfter(a + b, prev)
    ensures SafeAfter(b, LastOr(a, prev))
  {
    if a == "" {
      assert a + b == b;
    } else {
      assert (a + b)[1..] == a[1..] + b;
      SafeSuffix(a[1..], b, a[0]);
    }
  }

  // ---- cells read are cells that can be written --------------------------

  lemma {:induction false} PiecesSafe(s: string, prev: char)
    ensures forall i :: 1 <= i < |Pieces(s, prev)| ==> PipeSafe(Pieces(s, prev)[i])
    ensures SafeAfter(Pieces(s, prev)[0], prev)
  {
    if s == "" {
    } else if s[0] == '|' && prev != '\\' {
      PiecesSafe(s[1..], '|');
      var r := Pieces(s[1..], '|');
      NotEscaped(r[0], '|');
    } else {
      PiecesSafe(s[1..], s[0]);
      var r := Pieces(s[1..], s[0]);
      assert ([s[0]] + r[0])[1..] == r[0];
    }
  }

  lemma NotEscaped(s: string, prev: char)
    requires SafeAfter(s, prev) && prev != '\\'
    ensures PipeSafe(s)
  {
  }

  lemma {:induction false} LStripSafe(s: string, prev: char)
    requires SafeAfter(s, prev) && prev != '\\'
    ensures PipeSafe(LStrip(s))
  {
    if s != "" && IsSpace(s[0]) {
      LStripSafe(s[1..], s[0]);
    } else {
      NotEscaped(s, prev);
    }
  }

  lemma {:induction false} PrefixSafe(s: string, n: nat, prev: char)
    requires SafeAfter(s, prev) && n <= |s|
    ensures SafeAfter(s[..n], prev)
  {
    if n > 0 {
      PrefixSafe(s[1..], n - 1, s[0]);
      assert s[..n][1..] == s[1..][..n - 1];
    }
  }

  lemma StripSafe(s: string)
    requires PipeSafe(s)
    ensures PipeSafe(Strip(s))
  {
    hide LStrip, RStrip, SafeAfter;
    LStripSafe(s, ' ');
    RStripFacts(LStrip(s));
    PrefixSafe(LStrip(s), |Strip(s)|, ' ');
  }

  /** Cells that were read can be written again, and come back as they are. */
  lemma CellsAreSafe(line: string)
    requires Cells(line).Some?
    ensures var c := Cells(line).value;
      c != [] && AllSafe(c) && Strips(c) == c && Cells(Fmt(c)) == Some(c)
  {
    hide Strip, Cells, PipeSafe, Fmt;
    var inner := Between(line);
    var c := Strips(inner);
    forall i | 0 <= i < |c|
      ensures PipeSafe(c[i]) && Strip(c[i]) == c[i]
    {
      StripSafe(inner[i]);
      StripIsTrimmed(inner[i]);
    }
    assert Strips(c) == c;
    CellsOfRow(c);
  }

  /** The raw text of the cells. */
  lemma Between(line: string) returns (inner: seq<string>)
    requires Cells(line).Some?
    ensures inner != [] && AllSafe(inner) && Cells(line) == Some(Strips(inner))
  {
    hide Pieces, PipeSafe, Strip, RStrip, Strips;
    var parts := Pieces(RStrip(line), ' ');
    inner := parts[1..|parts| - 1];
    PiecesSafe(RStrip(line), ' ');
    assert forall i :: 0 <= i < |inner| ==> inner[i] == parts[i + 1];
  }

  // ---- escaping ----------------------------------------------------------

  /** A backslash before every pipe that has none; prev is the character before s. */
  function Escape(s: string, prev: char): string {
    if s == "" then ""
    else (if s[0] == '|' && prev != '\\' then "\\|" else [s[0]]) + Escape(s[1..], s[0])
  }

  function OneLine(s: string): (r: string)
    ensures |r| == |s| && forall i :: 0 <= i < |s| ==> r[i] == if s[i] == '\n' then ' ' else s[i]
  {
    if s == "" then "" else [if s[0] == '\n' then ' ' else s[0]] + OneLine(s[1..])
  }

  function Esc(s: string): string {
    Escape(Strip(OneLine(s)), ' ')
  }

  lemma {:induction false} EscapeSafe(s: string, prev: char)
    ensures SafeAfter(Escape(s, prev), prev)
  {
    if s != "" {
      EscapeSafe(s[1..], s[0]);
      var rest := Escape(s[1..], s[0]);
      if s[0] == '|' && prev != '\\' {
        assert Escape(s, prev) == "\\|" + rest;
        assert ("\\|" + rest)[1..] == "|" + rest && ("|" + rest)[1..] == rest;
      } else {
        assert ([s[0]] + rest)[1..] == rest;
      }
    }
  }

  /** Escaping what is escaped changes nothing. */
  lemma {:induction false} EscapeOfSafe(s: string, prev: char)
    requires SafeAfter(s, prev)
    ensures Escape(s, prev) == s
  {
    if s != "" {
      EscapeOfSafe(s[1..], s[0]);
    }
  }

  lemma {:induction false} EscapeTrimmed(s: string, prev: char)
    requires s != "" && !IsSpace(s[|s| - 1])
    ensures Escape(s, prev) != "" && !IsSpace(Escape(s, prev)[|Escape(s, prev)| - 1])
    ensures !IsSpace(s[0]) ==> !IsSpace(Escape(s, prev)[0])
  {
    if |s| == 1 {
      assert s[1..] == "";
    } else {
      EscapeTrimmed(s[1..], s[0]);
      var rest := Escape(s[1..], s[0]);
      var front := if s[0] == '|' && prev != '\\' then "\\|" else [s[0]];
      assert (front + rest)[|front + rest| - 1] == rest[|rest| - 1];
    }
  }

  lemma {:induction false} EscapeChars(s: string, prev: char, x: char)
    requires x in Escape(s, prev)
    ensures x in s || x == '\\'
  {
    if s != "" {
      if x in Escape(s[1..], s[0]) {
        EscapeChars(s[1..], s[0], x);
      }
    }
  }

  lemma EscTrimmed(s: string)
    ensures Trimmed(Esc(s)) && Strip(Esc(s)) == Esc(s)
  {
    assert Escape("", ' ') == "";
    hide Escape, Strip, IsSpace, OneLine;
    var t := Strip(OneLine(s));
    StripIsTrimmed(OneLine(s));
    if t != "" {
      EscapeTrimmed(t, ' ');
    } else {
    }
    StripTrimmed(Esc(s));
  }

  lemma EscHasNoNewline(s: string)
    ensures '\n' !in Esc(s)
  {
    hide Escape, Strip, OneLine;
    if '\n' in Esc(s) {
      EscapeChars(Strip(OneLine(s)), ' ', '\n');
      StripChars(OneLine(s), '\n');
    }
  }

  /** Escaped text fits a cell: safe, without outer blanks or newlines; and escaping it
      again changes nothing. */
  lemma EscFits(s: string)
    ensures PipeSafe(Esc(s)) && Trimmed(Esc(s)) && '\n' !in Esc(s) && Strip(Esc(s)) == Esc(s)
    ensures Esc(Esc(s)) == Esc(s)
  {
    hide Escape, Strip, SafeAfter, OneLine, IsSpace;
    var e := Esc(s);
    EscapeSafe(Strip(OneLine(s)), ' ');
    EscTrimmed(s);
    EscHasNoNewline(s);
    assert OneLine(e) == e;
    EscapeOfSafe(e, ' ');
  }

  lemma StripChars(s: string, x: char)
    requires x in Strip(s)
    ensures x in s
  {
    hide LStrip, RStrip, IsSpace;
    var l := LStrip(s);
    LStripFacts(s);
    RStripFacts(l);
    var i :| 0 <= i < |Strip(s)| && Strip(s)[i] == x;
    assert l[i] == x && l == s[|s| - |l|..];
    assert s[|s| - |l| + i] == x;
  }
}
