/** The layer that turns measured depths into pass or fail: grouping by symbol
    identity, the verdict against the allowlist, and the allowlist file itself. */
module Verdict {
  import opened CallGraph
  import opened Text
  import opened WalkerSpec
  import opened WalkerTheorems
  import opened BlockingTail

  /** The deepest symbol sharing an identity, and its depth. */
  datatype Deepest = Deepest(depth: nat, raw: Fn)

  /** An allowlist entry and the line it came from. */
  datatype Budget = Budget(bytes: nat, line: nat)

  // ---- grouping ----------------------------------------------------------

  /** `over` lists the symbols at or over the ceiling, in some order. */
  ghost predicate ListsOver(depth: map<Fn, nat>, ceiling: nat, over: seq<(Fn, nat)>) {
    && (forall i :: 0 <= i < |over| ==>
          over[i].0 in depth && over[i].1 == depth[over[i].0] && over[i].1 >= ceiling)
    && (forall f :: f in depth && depth[f] >= ceiling ==> (f, depth[f]) in over)
  }

  /** Each identity of `over` is mapped to the deepest of its symbols. */
  ghost predicate Groups(over: seq<(Fn, nat)>, ident: map<Fn, string>, byId: map<string, Deepest>) {
    && (forall i :: 0 <= i < |over| ==>
          && over[i].0 in ident && ident[over[i].0] in byId
          && over[i].1 <= byId[ident[over[i].0]].depth)
    && (forall k :: k in byId ==>
          && (byId[k].raw, byId[k].depth) in over
          && byId[k].raw in ident && ident[byId[k].raw] == k)
  }

  method GroupByIdentity(over: seq<(Fn, nat)>, ident: map<Fn, string>) returns (byId: map<string, Deepest>)
    requires forall i :: 0 <= i < |over| ==> over[i].0 in ident
    ensures Groups(over, ident, byId)
  {
    byId := map[];
    for i := 0 to |over|
      invariant Groups(over[..i], ident, byId)
    {
      var (n, d) := over[i];
      var k := ident[n];
      if k !in byId || d > byId[k].depth {
        byId := byId[k := Deepest(d, n)];
      }
      assert over[..i + 1] == over[..i] + [(n, d)];
    }
    assert over[..|over|] == over;
  }

  // ---- the verdict -------------------------------------------------------

  datatype Verdict = Verdict(unlisted: set<string>, worse: set<string>, stale: set<string>, slack: set<string>)

  function Judge(byId: map<string, Deepest>, allow: map<string, Budget>, present: set<string>): Verdict {
    Verdict(
      set k | k in byId && k !in allow,
      set k | k in byId && k in allow && byId[k].depth > allow[k].bytes,
      set k | k in allow && k !in present,
      set k | k in allow && k in present && k !in byId)
  }

  /** What the gate fails on with stale checking on. */
  predicate Clean(v: Verdict) {
    v.unlisted == {} && v.worse == {} && v.stale == {}
  }

  /** A symbol's depth is under the ceiling or within its identity's budget. */
  predicate Tolerated(d: nat, k: string, ceiling: nat, allow: map<string, Budget>) {
    d < ceiling || (k in allow && d <= allow[k].bytes)
  }

  /** The verdict is clean exactly when every symbol is tolerated and no entry is dead:
      grouping by identity hides no symbol behind a shallower one. */
  lemma CleanIff(depth: map<Fn, nat>, ceiling: nat, ident: map<Fn, string>, over: seq<(Fn, nat)>,
                 byId: map<string, Deepest>, allow: map<string, Budget>, present: set<string>)
    requires ident.Keys == depth.Keys
    requires ListsOver(depth, ceiling, over) && Groups(over, ident, byId)
    ensures Clean(Judge(byId, allow, present)) <==>
      (forall f :: f in depth ==> Tolerated(depth[f], ident[f], ceiling, allow)) && allow.Keys <= present
  {
    var v := Judge(byId, allow, present);
    if Clean(v) {
      forall f | f in depth
        ensures Tolerated(depth[f], ident[f], ceiling, allow)
      {
        if depth[f] >= ceiling {
          var i :| 0 <= i < |over| && over[i] == (f, depth[f]);
          var k := ident[over[i].0];
          assert k !in v.unlisted && k !in v.worse;
        }
      }
      forall k | k in allow
        ensures k in present
      {
        assert k !in v.stale;
      }
    }
    if (forall f :: f in depth ==> Tolerated(depth[f], ident[f], ceiling, allow)) && allow.Keys <= present {
      forall k | k in byId
        ensures k in allow && byId[k].depth <= allow[k].bytes
      {
        var i :| 0 <= i < |over| && over[i] == (byId[k].raw, byId[k].depth);
        assert over[i].0 in depth && Tolerated(depth[over[i].0], ident[over[i].0], ceiling, allow);
      }
      assert v.unlisted == {} && v.worse == {} && v.stale == {};
    }
  }

  /** A failure is always real: behind every new or worsened identity stands a symbol
      of that name and a call walk of the image that spends the reported bytes. */
  lemma FailIsReal(g: Graph, points: set<Fn>, ceiling: nat, ident: map<Fn, string>, over: seq<(Fn, nat)>,
                   byId: map<string, Deepest>, allow: map<string, Budget>, present: set<string>, k: string)
    returns (f: Fn, w: seq<Fn>)
    requires points <= g.frames.Keys
    requires ListsOver(Measure(g, points).depth, ceiling, over) && Groups(over, ident, byId)
    requires var v := Judge(byId, allow, present); k in v.unlisted || k in v.worse
    ensures f in ident && ident[f] == k && Walk(g, w) && w[0] == f
    ensures Weight(g, w) >= ceiling && !Tolerated(Weight(g, w), k, ceiling, allow)
  {
    hide Measure;
    f := byId[k].raw;
    var i :| 0 <= i < |over| && over[i] == (f, byId[k].depth);
    assert over[i].0 in Measure(g, points).depth;
    assert f in g.frames by {
      MeasureIsMeasured(g, points);
    }
    w := DepthUnfoldsToRealWalk(g, points, f);
  }

  /** And a clean verdict leaves no untolerated path among the visible edges: not from
      any function that reaches no cycle of the collapsed graph. */
  lemma PassIsComplete(g: Graph, points: set<Fn>, ceiling: nat, ident: map<Fn, string>, over: seq<(Fn, nat)>,
                       byId: map<string, Deepest>, allow: map<string, Budget>, present: set<string>,
                       f: Fn, p: seq<Fn>)
    requires points <= g.frames.Keys && ident.Keys == Measure(g, points).depth.Keys
    requires ListsOver(Measure(g, points).depth, ceiling, over) && Groups(over, ident, byId)
    requires Clean(Judge(byId, allow, present))
    requires f in g.frames && !ReachesCycle(Collapsed(g, points), f)
    requires Walk(Collapsed(g, points), p) && p[0] == f
    ensures f in ident && Tolerated(Weight(Collapsed(g, points), p), ident[f], ceiling, allow)
  {
    hide Measure, Collapsed;
    AcyclicDepthIsLongest(g, points, f, p);
    CleanIff(Measure(g, points).depth, ceiling, ident, over, byId, allow, present);
  }

  // ---- the allowlist file ------------------------------------------------

  /** The reader's state: the entries so far and the reason of the open block. */
  datatype Reading = Reading(allow: map<string, Budget>, reason: string) | Refused

  function LStripHash(s: string): string {
    if s != [] && (s[0] == '#' || s[0] == ' ') then LStripHash(s[1..]) else s
  }

  /** Position of the first tab, or the length. */
  function FirstTab(s: string): (i: nat)
    ensures i <= |s| && (forall j :: 0 <= j < i ==> s[j] != '\t') && (i < |s| ==> s[i] == '\t')
  {
    if s == [] || s[0] == '\t' then 0 else 1 + FirstTab(s[1..])
  }

  /** One line of the file, without its newline; `id` is the identity function. */
  function ReadLine(id: string -> string, st: Reading, line: string, n: nat): Reading
    requires st.Reading?
  {
    var s := Strip(line);
    if s == [] then st.(reason := [])
    else if LStrip(line)[0..1] == "#" then
      var text := Strip(LStripHash(s));
      if text == [] then st else st.(reason := text)
    else
      var i := FirstTab(s);
      if i == |s| then Refused
      else
        var number := Strip(s[..i]);
        if number == [] || !AllDigits(number) || st.reason == [] then Refused
        else
          var bytes, key := DecValue(number), id(Strip(s[i + 1..]));
          if key in st.allow && st.allow[key].bytes != bytes then Refused
          else st.(allow := st.allow[key := Budget(bytes, n)])
  }

  function ReadLines(id: string -> string, lines: seq<string>): Reading {
    if lines == [] then Reading(map[], [])
    else
      var st := ReadLines(id, lines[..|lines| - 1]);
      if st.Refused? then Refused else ReadLine(id, st, lines[|lines| - 1], |lines|)
  }

  method ReadAllowlist(id: string -> string, lines: seq<string>) returns (st: Reading)
    ensures st == ReadLines(id, lines)
  {
    st := Reading(map[], []);
    var n := 0;
    while n < |lines| && st.Reading?
      invariant 0 <= n <= |lines|
      invariant st == ReadLines(id, lines[..n])
    {
      assert lines[..n + 1][..n] == lines[..n];
      st := ReadLine(id, st, lines[n], n + 1);
      n := n + 1;
    }
    assert lines[..|lines|] == lines;
    if st.Refused? {
      StaysRefused(id, lines, n);
    }
  }

  lemma {:induction false} StaysRefused(id: string -> string, lines: seq<string>, n: nat)
    requires n <= |lines| && ReadLines(id, lines[..n]).Refused?
    ensures ReadLines(id, lines).Refused?
    decreases |lines|
  {
    hide ReadLine;
    if n == |lines| {
      assert lines[..n] == lines;
    } else {
      var k := |lines| - 1;
      assert lines[..k][..n] == lines[..n];
      StaysRefused(id, lines[..k], n);
    }
  }

  // ---- which files are refused -------------------------------------------

  /** What a line is to the reader; a rule is a comment that says nothing. */
  datatype Meaning = Blank | Rule | Remark(text: string) | Entry(bytes: nat, key: string) | Unreadable

  function MeaningOf(id: string -> string, line: string): Meaning {
    var s := Strip(line);
    if s == [] then Blank
    else if LStrip(line)[0..1] == "#" then
      var text := Strip(LStripHash(s));
      if text == [] then Rule else Remark(text)
    else
      var i := FirstTab(s);
      var number := Strip(s[..i]);
      if i == |s| || number == [] || !AllDigits(number) then Unreadable
      else Entry(DecValue(number), id(Strip(s[i + 1..])))
  }

  lemma ReadLineMeans(id: string -> string, st: Reading, line: string, n: nat)
    requires st.Reading?
    ensures var m := MeaningOf(id, line);
      ReadLine(id, st, line, n) ==
        if m.Blank? then st.(reason := [])
        else if m.Rule? then st
        else if m.Remark? then st.(reason := m.text)
        else if m.Unreadable? || st.reason == [] || (m.key in st.allow && st.allow[m.key].bytes != m.bytes) then Refused
        else st.(allow := st.allow[m.key := Budget(m.bytes, n)])
    ensures MeaningOf(id, line).Remark? ==> MeaningOf(id, line).text != []
  {
    hide Strip, LStrip, LStripHash, FirstTab, DecValue;
  }

  /** A remark stands above line n in its block. */
  ghost predicate Reasoned(id: string -> string, lines: seq<string>, n: nat) {
    exists j :: 0 <= j < n && j < |lines| && MeaningOf(id, lines[j]).Remark? && NoBlank(id, lines, j, n)
  }

  ghost predicate NoBlank(id: string -> string, lines: seq<string>, j: int, n: nat) {
    forall k :: 0 <= j < k < n && k < |lines| ==> !MeaningOf(id, lines[k]).Blank?
  }

  /** Line j is an entry for this identity. */
  ghost predicate EntryAt(id: string -> string, lines: seq<string>, j: nat, key: string) {
    j < |lines| && MeaningOf(id, lines[j]).Entry? && MeaningOf(id, lines[j]).key == key
  }

  /** Line n cannot stand: it cannot be read, or it is an entry that states no reason or
      gives an identity a second budget. */
  ghost predicate Wrong(id: string -> string, lines: seq<string>, n: nat) {
    n < |lines| &&
    var m := MeaningOf(id, lines[n]);
    || m.Unreadable?
    || (m.Entry? && !Reasoned(id, lines, n))
    || (m.Entry? && exists j: nat :: j < n && EntryAt(id, lines, j, m.key) && MeaningOf(id, lines[j]).bytes != m.bytes)
  }

  /** What the reader knows after lines that are all in order. */
  ghost predicate Knows(id: string -> string, lines: seq<string>, st: Reading) {
    && st.Reading? && (st.reason != [] <==> Reasoned(id, lines, |lines|))
    && (forall k :: k in st.allow <==> exists j: nat :: EntryAt(id, lines, j, k))
    && (forall j: nat, k :: EntryAt(id, lines, j, k) ==> k in st.allow && st.allow[k].bytes == MeaningOf(id, lines[j]).bytes)
    && (forall n: nat :: !Wrong(id, lines, n))
  }

  lemma SameBefore(id: string -> string, lines: seq<string>, line: string)
    ensures var more := lines + [line];
      && (forall n: nat :: n <= |lines| ==> Reasoned(id, more, n) == Reasoned(id, lines, n))
      && (forall j: nat, k :: j < |lines| ==> EntryAt(id, more, j, k) == EntryAt(id, lines, j, k))
      && (forall n: nat :: n < |lines| ==> Wrong(id, more, n) == Wrong(id, lines, n))
  {
    hide MeaningOf;
    var more := lines + [line];
    assert forall j :: 0 <= j < |lines| ==> more[j] == lines[j];
    forall n: nat | n <= |lines|
      ensures Reasoned(id, more, n) == Reasoned(id, lines, n)
    {
      forall j: int
        ensures NoBlank(id, more, j, n) == NoBlank(id, lines, j, n)
      {
        BlanksBefore(id, lines, line, j, n);
      }
    }
  }

  lemma BlanksBefore(id: string -> string, lines: seq<string>, line: string, j: int, n: nat)
    requires n <= |lines|
    ensures NoBlank(id, lines + [line], j, n) == NoBlank(id, lines, j, n)
  {
    hide MeaningOf;
    var more := lines + [line];
    if NoBlank(id, lines, j, n) {
      forall k | 0 <= j < k < n
        ensures !MeaningOf(id, more[k]).Blank?
      {
        assert more[k] == lines[k];
      }
    }
    if NoBlank(id, more, j, n) {
      forall k | 0 <= j < k < n
        ensures !MeaningOf(id, lines[k]).Blank?
      {
        assert lines[k] == more[k];
      }
    }
  }

  lemma ReasonedMore(id: string -> string, lines: seq<string>, line: string)
    ensures var m := MeaningOf(id, line);
      Reasoned(id, lines + [line], |lines| + 1) <==> m.Remark? || (!m.Blank? && Reasoned(id, lines, |lines|))
  {
    hide MeaningOf;
    var more, n := lines + [line], |lines|;
    var m := MeaningOf(id, line);
    if Reasoned(id, more, n + 1) && !m.Remark? {
      var j :| 0 <= j < n + 1 && MeaningOf(id, more[j]).Remark? && NoBlank(id, more, j, n + 1);
      assert more[n] == line && j < n && more[j] == lines[j];
      assert NoBlank(id, more, j, n);
      BlanksBefore(id, lines, line, j, n);
    }
    if m.Remark? {
      assert more[n] == line && NoBlank(id, more, n, n + 1);
    }
    if !m.Blank? && Reasoned(id, lines, n) {
      var j :| 0 <= j < n && MeaningOf(id, lines[j]).Remark? && NoBlank(id, lines, j, n);
      assert more[j] == lines[j] && NoBlank(id, more, j, n + 1);
    }
  }

  lemma KnowsMore(id: string -> string, lines: seq<string>, line: string, st: Reading)
    requires Knows(id, lines, st)
    ensures var st' := ReadLine(id, st, line, |lines| + 1);
      var more := lines + [line];
      if st'.Refused? then Wrong(id, more, |lines|) else Knows(id, more, st')
  {
    hide MeaningOf, ReadLine, Reasoned;
    var more, n := lines + [line], |lines|;
    ReadLineMeans(id, st, line, n + 1);
    SameBefore(id, lines, line);
    ReasonedMore(id, lines, line);
    var m := MeaningOf(id, line);
    assert more[n] == line;
    assert forall j: nat, k :: EntryAt(id, more, j, k) <==> EntryAt(id, lines, j, k) || (j == n && m.Entry? && m.key == k);
    if m.Entry? {
      if m.key in st.allow {
        var j: nat :| EntryAt(id, lines, j, m.key);
        assert EntryAt(id, more, j, m.key);
      }
      assert EntryAt(id, more, n, m.key);
    }
  }

  lemma {:induction false} KnowsOrRefuses(id: string -> string, lines: seq<string>)
    ensures var st := ReadLines(id, lines);
      if st.Refused? then exists n: nat :: Wrong(id, lines, n) else Knows(id, lines, st)
  {
    hide ReadLine, Wrong, Knows;
    if lines == [] {
      KnowsNothing(id);
    } else {
      var n := |lines| - 1;
      var before, line := lines[..n], lines[n];
      assert lines == before + [line];
      KnowsOrRefuses(id, before);
      SameBefore(id, before, line);
      if ReadLines(id, before).Refused? {
        var k: nat :| Wrong(id, before, k);
        WrongIsThere(id, before, k);
        assert Wrong(id, lines, k);
      } else {
        KnowsMore(id, before, line, ReadLines(id, before));
      }
    }
  }

  lemma KnowsNothing(id: string -> string)
    ensures Knows(id, [], Reading(map[], []))
  {
  }

  lemma WrongIsThere(id: string -> string, lines: seq<string>, n: nat)
    requires Wrong(id, lines, n)
    ensures n < |lines|
  {
  }

  /** A file is refused exactly when one of its lines cannot stand: a line that is neither
      blank nor a comment nor an entry, an entry with no reason above it in its block, or
      an entry that contradicts an earlier one for the same identity. Otherwise every
      identity with an entry, and no other, has the budget its entries give. */
  lemma RefusedIff(id: string -> string, lines: seq<string>)
    ensures ReadLines(id, lines).Refused? <==> exists n: nat :: Wrong(id, lines, n)
    ensures ReadLines(id, lines).Reading? ==> Knows(id, lines, ReadLines(id, lines))
  {
    hide ReadLines, Wrong;
    KnowsOrRefuses(id, lines);
    if ReadLines(id, lines).Reading? {
      assert forall n: nat :: !Wrong(id, lines, n);
    }
  }

  /** A line of comment that states something. */
  predicate IsComment(line: string) {
    |line| > 2 && line[..2] == "# " && line[2] != '#' && !IsSpace(line[2]) && !IsSpace(line[|line| - 1])
  }

  function EntryLine(k: string, d: nat): string {
    Dec(d) + "\t" + k
  }

  /** The file written for a list of (identity, depth): a heading comment, then each
      entry under a comment of its own. */
  function WriteLines(heading: seq<string>, todo: string, entries: seq<(string, nat)>): seq<string> {
    if entries == [] then heading
    else
      var e := entries[|entries| - 1];
      WriteLines(heading, todo, entries[..|entries| - 1]) + [todo] + [EntryLine(e.0, e.1)]
  }

  lemma CommentLine(id: string -> string, st: Reading, line: string, n: nat)
    requires st.Reading? && IsComment(line)
    ensures ReadLine(id, st, line, n) == st.(reason := line[2..])
  {
    assert line[0] == line[..2][0] && line[1] == line[..2][1];
    StripTrimmed(line);
    assert LStrip(line)[0..1] == "#";
    assert line[1..][1..] == line[2..];
    assert LStripHash(line) == LStripHash(line[1..]) == LStripHash(line[2..]) == line[2..];
    StripTrimmed(line[2..]);
  }

  /** A name the file can carry: non-empty, on one line, no whitespace at its ends. */
  predicate Writable(k: string) {
    k != [] && Trimmed(k) && '\n' !in k && '\r' !in k
  }

  lemma EntryLineEnds(k: string, d: nat)
    requires Writable(k)
    ensures var line := EntryLine(k, d);
      line != [] && IsDigit(line[0]) && Strip(line) == line && LStrip(line) == line
  {
    var line := EntryLine(k, d);
    assert line[0] == Dec(d)[0] && line[|line| - 1] == k[|k| - 1];
    StripTrimmed(line);
  }

  lemma EntryLineSplits(k: string, d: nat)
    ensures var line, m := EntryLine(k, d), |Dec(d)|;
      FirstTab(line) == m < |line| && line[..m] == Dec(d) && line[m + 1..] == k
  {
    var line, m := EntryLine(k, d), |Dec(d)|;
    assert line[m] == '\t';
    assert forall j :: 0 <= j < m ==> line[j] == Dec(d)[j] && IsDigit(line[j]);
    var i := FirstTab(line);
    assert i <= m;
  }

  lemma EntryLineReads(id: string -> string, st: Reading, k: string, d: nat, n: nat)
    requires st.Reading? && st.reason != [] && Writable(k) && id(k) == k && k !in st.allow
    ensures ReadLine(id, st, EntryLine(k, d), n) == st.(allow := st.allow[k := Budget(d, n)])
  {
    hide Strip, LStrip, RStrip, FirstTab, EntryLine, Dec, DecValue, LStripHash;
    EntryLineEnds(k, d);
    EntryLineSplits(k, d);
    DecStripped(d);
    StripTrimmed(k);
    var line := EntryLine(k, d);
    assert line[0..1] == [line[0]];
  }

  lemma DecStripped(d: nat)
    ensures Strip(Dec(d)) == Dec(d)
  {
    assert IsDigit(Dec(d)[|Dec(d)| - 1]);
    StripTrimmed(Dec(d));
  }

  ghost predicate DistinctKeys(entries: seq<(string, nat)>) {
    forall i, j :: 0 <= i < j < |entries| ==> entries[i].0 != entries[j].0
  }

  /** st holds exactly the entries, with their depths as budgets. */
  ghost predicate Holds(st: Reading, entries: seq<(string, nat)>) {
    && st.Reading?
    && (forall k :: k in st.allow <==> exists i :: 0 <= i < |entries| && entries[i].0 == k)
    && (forall i :: 0 <= i < |entries| ==> st.allow[entries[i].0].bytes == entries[i].1)
  }

  lemma {:induction false} HeadingReads(id: string -> string, heading: seq<string>)
    requires forall i :: 0 <= i < |heading| ==> IsComment(heading[i])
    ensures var st := ReadLines(id, heading); st.Reading? && st.allow == map[]
  {
    hide ReadLine;
    if heading != [] {
      var n := |heading| - 1;
      HeadingReads(id, heading[..n]);
      CommentLine(id, ReadLines(id, heading[..n]), heading[n], n + 1);
    }
  }

  /** Reading back a written allowlist gives every entry its depth as budget. */
  lemma {:induction false} WrittenReadsBack(id: string -> string, heading: seq<string>, todo: string,
                                            entries: seq<(string, nat)>)
    requires IsComment(todo) && forall i :: 0 <= i < |heading| ==> IsComment(heading[i])
    requires DistinctKeys(entries)
    requires forall i :: 0 <= i < |entries| ==> Writable(entries[i].0) && id(entries[i].0) == entries[i].0
    ensures Holds(ReadLines(id, WriteLines(heading, todo, entries)), entries)
  {
    if entries == [] {
      HeadingReads(id, heading);
    } else {
      var k := |entries| - 1;
      WrittenReadsBack(id, heading, todo, entries[..k]);
      AppendReads(id, WriteLines(heading, todo, entries[..k]), todo, entries);
    }
  }

  lemma OneMoreLine(id: string -> string, lines: seq<string>, line: string)
    requires ReadLines(id, lines).Reading?
    ensures ReadLines(id, lines + [line]) == ReadLine(id, ReadLines(id, lines), line, |lines| + 1)
  {
    hide ReadLine;
    assert (lines + [line])[..|lines|] == lines;
  }

  lemma AppendReads(id: string -> string, lines: seq<string>, todo: string, entries: seq<(string, nat)>)
    requires entries != [] && DistinctKeys(entries) && IsComment(todo)
    requires var e := entries[|entries| - 1]; Writable(e.0) && id(e.0) == e.0
    requires Holds(ReadLines(id, lines), entries[..|entries| - 1])
    ensures var e := entries[|entries| - 1];
      Holds(ReadLines(id, lines + [todo] + [EntryLine(e.0, e.1)]), entries)
  {
    hide ReadLine, ReadLines, EntryLine, IsComment, Writable;
    var k := |entries| - 1;
    var e, st := entries[k], ReadLines(id, lines);
    OneMoreLine(id, lines, todo);
    CommentLine(id, st, todo, |lines| + 1);
    assert todo[2..] != [] by { CommentSaysSomething(todo); }
    var st1 := ReadLines(id, lines + [todo]);
    OneMoreLine(id, lines + [todo], EntryLine(e.0, e.1));
    assert e.0 !in st.allow by { NotYetHeld(st, entries); }
    EntryLineReads(id, st1, e.0, e.1, |lines| + 2);
    HoldsMore(st, entries, |lines| + 2, st1.reason);
  }

  lemma CommentSaysSomething(line: string)
    requires IsComment(line)
    ensures |line| > 2
  {
  }

  lemma NotYetHeld(st: Reading, entries: seq<(string, nat)>)
    requires entries != [] && DistinctKeys(entries) && Holds(st, entries[..|entries| - 1])
    ensures entries[|entries| - 1].0 !in st.allow
  {
    var k := |entries| - 1;
    assert forall i :: 0 <= i < k ==> entries[..k][i] == entries[i] && entries[i].0 != entries[k].0;
  }

  lemma HoldsMore(st: Reading, entries: seq<(string, nat)>, n: nat, reason: string)
    requires entries != [] && DistinctKeys(entries) && Holds(st, entries[..|entries| - 1])
    ensures var e := entries[|entries| - 1];
      Holds(Reading(st.allow[e.0 := Budget(e.1, n)], reason), entries)
  {
    var k := |entries| - 1;
    var e := entries[k];
    var st' := Reading(st.allow[e.0 := Budget(e.1, n)], reason);
    assert forall i :: 0 <= i < k ==> entries[..k][i] == entries[i];
    forall key
      ensures key in st'.allow <==> exists i :: 0 <= i < |entries| && entries[i].0 == key
    {
      if key in st.allow {
        var i :| 0 <= i < |entries[..k]| && entries[..k][i].0 == key;
        assert entries[i].0 == key;
      }
    }
    forall i | 0 <= i < |entries|
      ensures st'.allow[entries[i].0].bytes == entries[i].1
    {
      if i < k {
        assert entries[..k][i] == entries[i];
      }
    }
  }

  /** What `--write-allowlist` lists: each over-ceiling identity with its deepest depth. */
  ghost predicate ListsGroups(byId: map<string, Deepest>, entries: seq<(string, nat)>) {
    && DistinctKeys(entries)
    && (forall i :: 0 <= i < |entries| ==> entries[i].0 in byId && entries[i].1 == byId[entries[i].0].depth)
    && (forall k :: k in byId ==> exists i :: 0 <= i < |entries| && entries[i].0 == k)
  }

  /** An allowlist written from an image tolerates that image: reading it back leaves
      nothing new, worse, stale or slack. */
  lemma WrittenAllowlistIsQuiet(id: string -> string, byId: map<string, Deepest>, present: set<string>,
                                heading: seq<string>, todo: string, entries: seq<(string, nat)>)
    requires IsComment(todo) && forall i :: 0 <= i < |heading| ==> IsComment(heading[i])
    requires ListsGroups(byId, entries) && byId.Keys <= present
    requires forall k :: k in byId ==> Writable(k) && id(k) == k
    ensures var st := ReadLines(id, WriteLines(heading, todo, entries));
      st.Reading? && Judge(byId, st.allow, present) == Verdict({}, {}, {}, {})
  {
    WrittenReadsBack(id, heading, todo, entries);
    QuietWhenHeld(ReadLines(id, WriteLines(heading, todo, entries)), byId, present, entries);
  }

  lemma QuietWhenHeld(st: Reading, byId: map<string, Deepest>, present: set<string>, entries: seq<(string, nat)>)
    requires ListsGroups(byId, entries) && byId.Keys <= present && Holds(st, entries)
    ensures Judge(byId, st.allow, present) == Verdict({}, {}, {}, {})
  {
    forall k | k in byId
      ensures k in st.allow && st.allow[k].bytes == byId[k].depth
    {
      var i :| 0 <= i < |entries| && entries[i].0 == k;
    }
    forall k | k in st.allow
      ensures k in byId
    {
      var i :| 0 <= i < |entries| && entries[i].0 == k;
    }
  }
}
