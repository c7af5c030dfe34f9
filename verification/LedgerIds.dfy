/** Issue ids: their text, and where the next one comes from. */
module LedgerIds {
  import opened Text
  import opened LedgerText

  const LEAD: string := "| KI-"

  function Zeros(n: nat): (s: string)
    ensures |s| == n && AllDigits(s)
  {
    if n == 0 then "" else "0" + Zeros(n - 1)
  }

  /** At least four digits. */
  function Padded4(n: nat): (s: string)
    ensures |s| >= 4 && AllDigits(s)
  {
    var d := Dec(n);
    if |d| < 4 then Zeros(4 - |d|) + d else d
  }

  function IdText(n: nat): string {
    "KI-" + Padded4(n)
  }

  predicate WellId(id: string) {
    |id| >= 7 && id[..3] == "KI-" && AllDigits(id[3..])
  }

  function Number(id: string): nat
    requires WellId(id)
  {
    DecValue(id[3..])
  }

  lemma {:induction false} ZerosWorthNothing(k: nat, s: string)
    requires AllDigits(s)
    ensures AllDigits(Zeros(k) + s) && DecValue(Zeros(k) + s) == DecValue(s)
    decreases |s|, k
  {
    var z := Zeros(k) + s;
    if s == "" {
      assert z == Zeros(k);
      ZerosAreZero(k);
    } else {
      var n := |s| - 1;
      assert z[..|z| - 1] == Zeros(k) + s[..n] && z[|z| - 1] == s[n];
      ZerosWorthNothing(k, s[..n]);
    }
  }

  lemma {:induction false} ZerosAreZero(k: nat)
    ensures DecValue(Zeros(k)) == 0 && forall i :: 0 <= i < k ==> Zeros(k)[i] == '0'
  {
    if k > 0 {
      ZerosAreZero(k - 1);
      var z := Zeros(k);
      assert forall i :: 1 <= i < k ==> z[i] == Zeros(k - 1)[i - 1];
      assert z[..k - 1] == Zeros(k - 1);
    }
  }

  lemma IdTextFacts(n: nat)
    ensures WellId(IdText(n)) && Number(IdText(n)) == n && Strip(IdText(n)) == IdText(n) && PipeSafe(IdText(n))
  {
    hide Dec, Strip, SafeAfter, Zeros;
    var id := IdText(n);
    assert id[3..] == Padded4(n);
    var d := Dec(n);
    if |d| < 4 {
      ZerosWorthNothing(4 - |d|, d);
    }
    WellIdFits(id);
  }

  /** An id has nothing a cell cannot hold. */
  lemma WellIdFits(id: string)
    requires WellId(id)
    ensures Strip(id) == id && PipeSafe(id)
  {
    hide Strip, SafeAfter;
    assert id[0] == id[..3][0];
    assert id[|id| - 1] == id[3..][|id| - 4];
    StripTrimmed(id);
    assert forall i :: 0 <= i < 3 ==> id[i] == id[..3][i];
    assert forall i :: 3 <= i < |id| ==> id[i] == id[3..][i - 3];
    NoPipeSafe(id, ' ');
  }

  lemma {:induction false} NoPipeSafe(s: string, prev: char)
    requires '|' !in s
    ensures SafeAfter(s, prev)
  {
    if s != "" {
      NoPipeSafe(s[1..], s[0]);
    }
  }

  // ---- ids mentioned in a text -------------------------------------------

  function DigitRun(s: string): (n: nat)
    ensures n <= |s| && AllDigits(s[..n]) && (n < |s| ==> !IsDigit(s[n]))
  {
    if s != "" && IsDigit(s[0]) then
      var n := DigitRun(s[1..]);
      assert s[..n + 1] == [s[0]] + s[1..][..n];
      n + 1
    else 0
  }

  datatype Found = NoId | Id(number: nat, len: nat)

  /** The id that s starts with, as the pattern of the id finder has it. */
  function IdAt(s: string): (r: Found)
    ensures r.Id? ==> 0 < r.len <= |s|
  {
    if |s| < 5 || s[..5] != LEAD then NoId
    else
      var d := DigitRun(s[5..]);
      if d == 0 || |s| < d + 7 || s[5 + d..d + 7] != " |" then NoId
      else Id(DecValue(s[5..][..d]), d + 7)
  }

  /** All ids mentioned, left to right. */
  function IdsIn(s: string): seq<nat>
    decreases |s|
  {
    if s == "" then []
    else
      match IdAt(s)
      case NoId => IdsIn(s[1..])
      case Id(n, len) => [n] + IdsIn(s[len..])
  }

  function Max(ns: seq<nat>): (m: nat)
    ensures forall n :: n in ns ==> n <= m
    ensures m == 0 || m in ns
  {
    if ns == [] then 0
    else
      var m := Max(ns[..|ns| - 1]);
      assert ns == ns[..|ns| - 1] + [ns[|ns| - 1]];
      if ns[|ns| - 1] > m then ns[|ns| - 1] else m
  }

  /** The largest id mentioned in some lines, 0 if there is none. */
  function Largest(lines: seq<string>): nat {
    if lines == [] then 0
    else
      var m, n := Largest(lines[..|lines| - 1]), Max(IdsIn(lines[|lines| - 1]));
      if n > m then n else m
  }

  lemma {:induction false} LargestBounds(lines: seq<string>, i: int)
    requires 0 <= i < |lines|
    ensures Max(IdsIn(lines[i])) <= Largest(lines)
    decreases |lines|
  {
    hide Max, IdsIn;
    var k := |lines| - 1;
    if i < k {
      LargestBounds(lines[..k], i);
    }
  }

  method FindLargest(lines: seq<string>) returns (seen: nat)
    ensures seen == Largest(lines)
  {
    hide IdsIn, Max;
    seen := 0;
    for i := 0 to |lines|
      invariant seen == Largest(lines[..i])
    {
      assert lines[..i + 1][..i] == lines[..i];
      var n := Max(IdsIn(lines[i]));
      if n > seen {
        seen := n;
      }
    }
    assert lines[..|lines|] == lines;
  }

  function NextNumber(ledger: seq<string>, archive: seq<string>): nat {
    1 + if Largest(ledger) > Largest(archive) then Largest(ledger) else Largest(archive)
  }

  /** One more than any id mentioned in either file. */
  method NextId(ledger: seq<string>, archive: seq<string>) returns (id: string)
    ensures id == IdText(NextNumber(ledger, archive))
  {
    hide Largest;
    var a := FindLargest(ledger);
    var b := FindLargest(archive);
    id := IdText(1 + if a > b then a else b);
  }

  // ---- rows that can be seen ---------------------------------------------

  /** The line starts with the id and exactly one blank on either side. */
  predicate StartsWithId(line: string, id: string) {
    |line| >= |id| + 4 && line[..|id| + 4] == "| " + id + " |"
  }

  lemma DigitRunIs(s: string, n: nat)
    requires n <= |s| && AllDigits(s[..n]) && (n < |s| ==> !IsDigit(s[n]))
    ensures DigitRun(s) == n
  {
    var m := DigitRun(s);
    assert forall i :: 0 <= i < n ==> s[..n][i] == s[i];
    assert forall i :: 0 <= i < m ==> s[..m][i] == s[i];
  }

  lemma SeenId(line: string, id: string)
    requires WellId(id) && StartsWithId(line, id)
    ensures Number(id) <= Max(IdsIn(line))
  {
    hide DigitRun, DecValue, Max;
    var d := |id| - 3;
    var front := "| " + id + " |";
    assert forall i :: 0 <= i < |id| + 4 ==> line[i] == line[..|id| + 4][i];
    assert line[..5] == LEAD by {
      assert id[..3] == "KI-";
      assert front[..5] == "| " + id[..3];
      assert line[..5] == front[..5];
    }
    var rest := line[5..];
    assert rest[..d] == id[3..] by {
      assert rest[..d] == line[5..5 + d] == front[5..5 + d] == id[3..];
    }
    assert rest[d] == ' ';
    DigitRunIs(rest, d);
    assert line[5 + d..d + 7] == " |" by {
      assert line[5 + d..d + 7] == front[5 + d..d + 7];
    }
    assert IdAt(line) == Id(Number(id), d + 7);
    assert IdsIn(line)[0] == Number(id);
    assert Number(id) in IdsIn(line);
  }

  lemma FmtStartsWithId(c: seq<string>)
    requires c != []
    ensures StartsWithId(Fmt(c), c[0])
  {
    var line := Fmt(c);
    if |c| == 1 {
      assert line == "| " + c[0] + " |";
    } else {
      assert line == "| " + c[0] + " |" + (" " + Joined(c[1..]) + " |");
    }
  }
}
