/** The stack-depth gate's reading of a listing: entry cost, direct calls, indirect calls. */
module DepthGate {
  import opened Machine
  import F = FrameGate

  datatype Arch = X86 | Arm

  /** What the prologue window counts. */
  function Counts(op: Op): nat {
    match op
    case Push => 8
    case SubSp(v) => v
    case ArmSub(imm, _) => imm
    case ArmStp(imm) => imm
    case ArmStr(imm) => imm
    case _ => 0
  }

  /** What closes it. */
  predicate Closes(op: Op) {
    op.Call? || op.CallUnknown? || op.Leave? || op.Jne? || op.BLike?
  }

  /** The instructions before the first that closes the window. */
  function Window(code: seq<Op>): (n: nat)
    ensures n <= |code| && (forall i :: 0 <= i < n ==> !Closes(code[i])) && (n < |code| ==> Closes(code[n]))
  {
    if code == [] then 0
    else
      var n := Window(code[..|code| - 1]);
      if n < |code| - 1 || Closes(code[|code| - 1]) then n else n + 1
  }

  function Total(code: seq<Op>): nat {
    if code == [] then 0 else Total(code[..|code| - 1]) + Counts(code[|code| - 1])
  }

  /** The bytes the gate charges for entering a function, the return address aside. */
  function Entry(code: seq<Op>): nat {
    Total(code[..Window(code)])
  }

  // ---- a lower bound -----------------------------------------------------

  /** What the stack pointer really loses to one instruction. */
  function Loses(op: Op): nat {
    if op.ArmSub? then Shl(op.imm, op.lsl) else Counts(op)
  }

  function AllLoses(code: seq<Op>): nat {
    if code == [] then 0 else AllLoses(code[..|code| - 1]) + Loses(code[|code| - 1])
  }

  lemma {:induction false} ShlGrows(v: nat, n: nat)
    ensures v <= Shl(v, n) && (Shl(v, n) == v <==> v == 0 || n == 0)
  {
    if n > 0 {
      ShlGrows(v, n - 1);
    }
  }

  /** A shifted reservation is read without its shift. */
  predicate Exact(op: Op) {
    op.ArmSub? ==> op.imm == 0 || op.lsl == 0
  }

  lemma {:induction false} TotalBelow(code: seq<Op>)
    ensures Total(code) <= AllLoses(code)
    ensures Total(code) == AllLoses(code) <==> forall i :: 0 <= i < |code| ==> Exact(code[i])
  {
    if code != [] {
      var n := |code| - 1;
      TotalBelow(code[..n]);
      if code[n].ArmSub? {
        ShlGrows(code[n].imm, code[n].lsl);
      }
      assert forall i :: 0 <= i < n ==> code[..n][i] == code[i];
    }
  }

  lemma {:induction false} RunsStraight(code: seq<Op>, sp: int, n: nat)
    requires n <= |code| && forall i :: 0 <= i < n ==> !Closes(code[i])
    ensures var t := Run(code, Start(sp), n); t.pc == n && sp - t.sp == AllLoses(code[..n])
  {
    hide Run;
    if n == 0 {
      F.RunNothing(code, Start(sp));
    } else {
      RunsStraight(code, sp, n - 1);
      RunOn(code, Start(sp), n - 1, 1);
      F.TwoSteps(code, Run(code, Start(sp), n - 1));
      assert code[..n][..n - 1] == code[..n - 1] && code[..n][n - 1] == code[n - 1];
    }
  }

  /** On any code: when the window closes the stack has lost at least what the gate
      charges, and exactly that if and only if no shifted reservation stood in it. */
  lemma EntryIsLowerBound(code: seq<Op>, sp: int)
    ensures var n := Window(code);
      var t := Run(code, Start(sp), n);
      t.pc == n && Entry(code) <= sp - t.sp &&
      (Entry(code) == sp - t.sp <==> forall i :: 0 <= i < n ==> Exact(code[i]))
  {
    hide Run, Total, AllLoses;
    var n := Window(code);
    RunsStraight(code, sp, n);
    TotalBelow(code[..n]);
    assert forall i :: 0 <= i < n ==> code[..n][i] == code[i];
  }

  /** So the charge never exceeds the whole prologue's cost. */
  lemma EntryWithinPrologue(ps: seq<F.Piece>)
    requires forall i :: 0 <= i < |ps| ==> F.Sound(ps[i])
    ensures Entry(F.Code(ps)) <= F.Reserved(F.Code(ps)) + F.Pushed(ps)
  {
    hide Run, Step, Entry, Window, F.Reserved, F.Pushed, F.Code, F.Sound, Exact;
    var code := F.Code(ps);
    var m := F.ReservedIsExecuted(ps, 0);
    EntryIsLowerBound(code, 0);
    var n := Window(code);
    if n <= m {
      RunOn(code, Start(0), n, m - n);
      RunDescends(code, Run(code, Start(0), n), m - n);
    } else {
      RunOn(code, Start(0), m, n - m);
      Halted(code, Run(code, Start(0), m), n - m);
    }
  }

  lemma {:induction false} Halted(code: seq<Op>, st: State, n: nat)
    requires st.pc >= |code|
    ensures Run(code, st, n) == st
    decreases n
  {
    if n > 0 {
      Halted(code, st, n - 1);
    }
  }

  // ---- when the charge is the whole prologue -----------------------------

  lemma SnocEntry(code: seq<Op>, op: Op)
    ensures Entry(code + [op]) == if Window(code) == |code| && !Closes(op) then Entry(code) + Counts(op) else Entry(code)
    ensures Window(code + [op]) == |code + [op]| <==> Window(code) == |code| && !Closes(op)
  {
    var more := code + [op];
    assert more[..|code|] == code;
    if Window(code) == |code| && !Closes(op) {
      assert more[..|more|] == more && code[..|code|] == code;
    } else {
      assert more[..Window(code)] == code[..Window(code)];
    }
  }

  lemma {:induction false} EntryConcat(a: seq<Op>, b: seq<Op>)
    ensures Entry(a + b) == if Window(a) == |a| then Entry(a) + Entry(b) else Entry(a)
    ensures Window(a + b) == |a + b| <==> Window(a) == |a| && Window(b) == |b|
    decreases |b|
  {
    hide Entry, Window, Closes, Counts;
    if b == [] {
      assert a + b == a;
      NoEntry();
    } else {
      var n := |b| - 1;
      EntryConcat(a, b[..n]);
      SnocEntry(b[..n], b[n]);
      SnocEntry(a + b[..n], b[n]);
      assert b[..n] + [b[n]] == b && a + b[..n] + [b[n]] == a + b;
    }
  }

  lemma NoEntry()
    ensures Entry([]) == 0 && Window([]) == 0
  {
    var none: seq<Op> := [];
    assert none[..0] == [];
  }

  /** What the gate charges for one piece that it reads: a probe loop closes the window at
      its jump, after one page. */
  function Charges(p: F.Piece): nat {
    match p
    case Loop(_, _) => PAGE
    case Shifted(imm, _) => imm
    case _ => F.Takes(p) + F.Pushes(p)
  }

  lemma EntryOfOne(op: Op)
    ensures Entry([op]) == if Closes(op) then 0 else Counts(op)
    ensures Window([op]) == 1 <==> !Closes(op)
  {
    hide Entry, Window, Closes, Counts;
    NoEntry();
    SnocEntry([], op);
    assert [] + [op] == [op];
  }

  lemma EntryOfLoop(n: nat, r: string)
    ensures var code := F.Emit(F.Loop(n, r)); Entry(code) == PAGE && Window(code) < |code|
  {
    hide Entry, Window;
    var a := [MovSp(r)] + [SubReg(n * PAGE, r)];
    var b := [SubSp(PAGE)] + [Other];
    var c := [CmpSp(r)] + [Jne(3)];
    EntryOfOne(MovSp(r));
    EntryConcat([MovSp(r)], [SubReg(n * PAGE, r)]);
    EntryOfOne(SubReg(n * PAGE, r));
    EntryOfOne(SubSp(PAGE));
    EntryConcat([SubSp(PAGE)], [Other]);
    EntryOfOne(Other);
    EntryOfOne(CmpSp(r));
    EntryConcat([CmpSp(r)], [Jne(3)]);
    EntryOfOne(Jne(3));
    EntryConcat(a, b);
    EntryConcat(a + b, c);
    assert a + b + c == F.Emit(F.Loop(n, r));
  }

  lemma EntryOfPiece(p: F.Piece)
    ensures Entry(F.Emit(p)) == Charges(p)
    ensures Window(F.Emit(p)) == |F.Emit(p)| <==> !p.Loop?
  {
    hide Entry, Window;
    match p
    case Loop(n, r) => EntryOfLoop(n, r);
    case Probed(v) =>
      EntryConcat([SubSp(v)], [Other]);
      EntryOfOne(SubSp(v));
      EntryOfOne(Other);
      assert [SubSp(v)] + [Other] == F.Emit(p);
    case _ =>
      EntryOfOne(F.Emit(p)[0]);
      assert [F.Emit(p)[0]] == F.Emit(p);
  }

  /** No loop before the i-th piece. */
  ghost predicate Read(ps: seq<F.Piece>, i: nat) {
    forall j :: 0 <= j < i && j < |ps| ==> !ps[j].Loop?
  }

  /** The piece is charged in full: one page a loop, no shift, nothing behind a loop. */
  ghost predicate ChargedInFull(ps: seq<F.Piece>, i: nat)
    requires i < |ps|
  {
    if Read(ps, i) then
      (ps[i].Loop? ==> ps[i].pages == 1) && (ps[i].Shifted? ==> ps[i].imm == 0 || ps[i].lsl == 0)
    else F.Takes(ps[i]) + F.Pushes(ps[i]) == 0
  }

  lemma PieceInFull(ps: seq<F.Piece>, i: nat)
    requires i < |ps| && F.Sound(ps[i])
    ensures var c := if Read(ps, i) then Charges(ps[i]) else 0;
      c <= F.Takes(ps[i]) + F.Pushes(ps[i]) && (c == F.Takes(ps[i]) + F.Pushes(ps[i]) <==> ChargedInFull(ps, i))
  {
    hide Read;
    if ps[i].Shifted? {
      ShlGrows(ps[i].imm, ps[i].lsl);
    }
  }

  lemma {:induction false} EntryOfPieces(ps: seq<F.Piece>)
    requires forall i :: 0 <= i < |ps| ==> F.Sound(ps[i])
    ensures Window(F.Code(ps)) == |F.Code(ps)| <==> Read(ps, |ps|)
    ensures Entry(F.Code(ps)) <= F.Taken(ps) + F.Pushed(ps)
    ensures Entry(F.Code(ps)) == F.Taken(ps) + F.Pushed(ps) <==> forall i :: 0 <= i < |ps| ==> ChargedInFull(ps, i)
  {
    hide Entry, Window, F.Emit, Charges, F.Takes, F.Pushes, ChargedInFull, F.Sound;
    if ps == [] {
      NoEntry();
    } else {
      var n := |ps| - 1;
      EntryOfPieces(ps[..n]);
      EntryConcat(F.Code(ps[..n]), F.Emit(ps[n]));
      EntryOfPiece(ps[n]);
      PieceInFull(ps, n);
      SamePieces(ps, n);
    }
  }

  lemma SamePieces(ps: seq<F.Piece>, n: nat)
    requires n + 1 == |ps|
    ensures forall i :: 0 <= i < n ==> ChargedInFull(ps[..n], i) == ChargedInFull(ps, i)
    ensures Read(ps[..n], n) == Read(ps, n)
    ensures Read(ps, n + 1) <==> Read(ps, n) && !ps[n].Loop?
  {
    assert forall i: nat :: i <= n ==> Read(ps[..n], i) == Read(ps, i);
  }

  /** The charge never exceeds the whole prologue's cost, and is all of it if and only if no
      reservation in the window is shifted, no loop takes more than a page, and nothing is
      reserved or pushed behind a loop. */
  lemma EntryIsWholeIff(ps: seq<F.Piece>)
    requires forall i :: 0 <= i < |ps| ==> F.Sound(ps[i])
    ensures Entry(F.Code(ps)) <= F.Reserved(F.Code(ps)) + F.Pushed(ps)
    ensures Entry(F.Code(ps)) == F.Reserved(F.Code(ps)) + F.Pushed(ps) <==>
      forall i :: 0 <= i < |ps| ==> ChargedInFull(ps, i)
  {
    hide Entry, F.Code, F.ReadAll, F.Sound, ChargedInFull;
    F.ReservedIsTaken(ps);
    EntryOfPieces(ps);
  }

  // ---- the listing -------------------------------------------------------

  /** Direct callees that are not pruned, and the calls that cannot be followed. */
  function Callees(code: seq<Op>, pruned: set<string>): set<string> {
    set op | op in code && op.Call? && op.sym !in pruned :: op.sym
  }

  function Unknown(code: seq<Op>): nat {
    if code == [] then 0 else Unknown(code[..|code| - 1]) + if code[|code| - 1].CallUnknown? then 1 else 0
  }

  datatype Facts = Facts(frame: nat, calls: set<string>, indirect: nat)

  /** What the gate should say of one body. */
  function FactsOf(arch: Arch, code: seq<Op>, pruned: set<string>): Facts {
    Facts((if arch == X86 then 8 else 0) + Entry(code), Callees(code, pruned), Unknown(code))
  }

  /** Each function's last listing is what the tables say of it. */
  ghost predicate Tells(facts: map<string, Facts>, arch: Arch, pruned: set<string>, lines: seq<F.Line>) {
    && (forall f :: f in facts ==> F.Header(f) in lines)
    && (forall i, end :: F.Listing(lines, i, end) && lines[i] !in lines[end..] ==>
          lines[i].name in facts && facts[lines[i].name] == FactsOf(arch, F.Ops(lines[i + 1..end]), pruned))
  }

  /** The last header of the lines, and the instructions after it. */
  ghost predicate Within(lines: seq<F.Line>, head: int, fn: string, code: seq<Op>) {
    && 0 <= head < |lines| && lines[head] == F.Header(fn)
    && (forall j :: head < j < |lines| ==> !lines[j].Header?)
    && code == F.Ops(lines[head + 1..])
  }

  lemma OpensListing(facts: map<string, Facts>, arch: Arch, pruned: set<string>, lines: seq<F.Line>, fn: string)
    requires Tells(facts, arch, pruned, lines)
    ensures Tells(facts[fn := FactsOf(arch, [], pruned)], arch, pruned, lines + [F.Header(fn)])
    ensures Within(lines + [F.Header(fn)], |lines|, fn, [])
  {
    hide FactsOf, F.Ops;
    var out, more := facts[fn := FactsOf(arch, [], pruned)], lines + [F.Header(fn)];
    assert more[|lines| + 1..] == [] && F.Ops([]) == [] by { NoOps(); }
    forall i, end | F.Listing(more, i, end) && more[i] !in more[end..]
      ensures more[i].name in out && out[more[i].name] == FactsOf(arch, F.Ops(more[i + 1..end]), pruned)
    {
      if i == |lines| {
        assert more[i + 1..end] == [];
      } else {
        assert more[|lines|] == F.Header(fn);
        EarlierListing(lines, F.Header(fn), i, end);
        assert more[end..] == lines[end..] + [F.Header(fn)];
        assert F.Header(fn) in more[end..];
        assert more[i].name != fn;
      }
    }
  }

  lemma EarlierListing(lines: seq<F.Line>, l: F.Line, i: int, end: int)
    requires F.Listing(lines + [l], i, end) && end <= |lines|
    ensures F.Listing(lines, i, end) && (lines + [l])[i + 1..end] == lines[i + 1..end]
  {
    assert forall j :: 0 <= j < |lines| ==> (lines + [l])[j] == lines[j];
  }

  lemma NoOps()
    ensures F.Ops([]) == []
  {
  }

  /** One more line of the function being read. */
  lemma ExtendsListing(facts: map<string, Facts>, arch: Arch, pruned: set<string>, lines: seq<F.Line>, head: int, fn: string,
                       code: seq<Op>, l: F.Line)
    requires Tells(facts, arch, pruned, lines) && Within(lines, head, fn, code) && !l.Header?
    ensures var now := code + if l.Insn? then [l.op] else [];
      Tells(facts[fn := FactsOf(arch, now, pruned)], arch, pruned, lines + [l]) && Within(lines + [l], head, fn, now)
  {
    hide FactsOf, F.Ops;
    var now := code + if l.Insn? then [l.op] else [];
    var out, more := facts[fn := FactsOf(arch, now, pruned)], lines + [l];
    SnocOps(lines[head + 1..], l);
    assert more[head + 1..] == lines[head + 1..] + [l];
    forall i, end | F.Listing(more, i, end) && more[i] !in more[end..]
      ensures more[i].name in out && out[more[i].name] == FactsOf(arch, F.Ops(more[i + 1..end]), pruned)
    {
      if i == head {
        assert end == |more|;
        assert more[i + 1..end] == more[head + 1..];
      } else {
        assert more[head] == F.Header(fn) && more[|lines|] == l;
        assert forall j :: head < j < |lines| ==> more[j] == lines[j];
        assert end <= head;
        EarlierListing(lines, l, i, end);
        assert more[end..] == lines[end..] + [l];
        assert more[end..][head - end] == F.Header(fn);
        assert more[i].name != fn;
      }
    }
  }

  lemma SnocOps(lines: seq<F.Line>, l: F.Line)
    ensures F.Ops(lines + [l]) == F.Ops(lines) + if l.Insn? then [l.op] else []
  {
    assert (lines + [l])[..|lines|] == lines;
  }

  /** The table entry after one more instruction. */
  lemma SnocFacts(arch: Arch, code: seq<Op>, op: Op, pruned: set<string>)
    ensures var f, open := FactsOf(arch, code, pruned), Window(code) == |code|;
      FactsOf(arch, code + [op], pruned) ==
        Facts(if open && !Closes(op) then f.frame + Counts(op) else f.frame,
              if op.Call? && op.sym !in pruned then f.calls + {op.sym} else f.calls,
              if op.CallUnknown? then f.indirect + 1 else f.indirect)
    ensures Window(code + [op]) == |code + [op]| <==> Window(code) == |code| && !Closes(op)
  {
    hide Entry, Window, Closes, Counts;
    var more := code + [op];
    assert more[..|code|] == code;
    assert Callees(more, pruned) == Callees(code, pruned) + if op.Call? && op.sym !in pruned then {op.sym} else {};
    SnocEntry(code, op);
  }

  method Parse(arch: Arch, lines: seq<F.Line>, pruned: set<string>) returns (facts: map<string, Facts>)
    ensures Tells(facts, arch, pruned, lines)
  {
    hide FactsOf, Within, Tells, Window, F.Ops;
    facts := map[];
    var named, prologue := false, false;
    var fn := "";
    ghost var head: int, code: seq<Op> := 0, [];
    NothingYet(arch, pruned, []);
    assert lines[..0] == [];
    for i := 0 to |lines|
      invariant Tells(facts, arch, pruned, lines[..i])
      invariant !named ==> facts == map[] && forall j :: 0 <= j < i ==> !lines[j].Header?
      invariant named ==> Within(lines[..i], head, fn, code) && fn in facts && facts[fn] == FactsOf(arch, code, pruned)
      invariant named ==> (prologue <==> Window(code) == |code|)
    {
      assert lines[..i + 1] == lines[..i] + [lines[i]];
      var l := lines[i];
      if l.Header? {
        OpensListing(facts, arch, pruned, lines[..i], l.name);
        fn := l.name;
        facts := facts[fn := Facts(if arch == X86 then 8 else 0, {}, 0)];
        FreshFacts(arch, pruned);
        named, prologue, head, code := true, true, i, [];
      } else if !named {
        NothingYet(arch, pruned, lines[..i + 1]);
      } else if l.Text? {
        ExtendsListing(facts, arch, pruned, lines[..i], head, fn, code, l);
        assert code + [] == code && facts[fn := FactsOf(arch, code, pruned)] == facts;
      } else {
        ExtendsListing(facts, arch, pruned, lines[..i], head, fn, code, l);
        SnocFacts(arch, code, l.op, pruned);
        var f := facts[fn];
        if prologue {
          if Counts(l.op) > 0 {
            f := f.(frame := f.frame + Counts(l.op));
          } else if Closes(l.op) {
            prologue := false;
          }
        }
        if l.op.CallUnknown? {
          f := f.(indirect := f.indirect + 1);
        } else if l.op.Call? && l.op.sym !in pruned {
          f := f.(calls := f.calls + {l.op.sym});
        }
        facts := facts[fn := f];
        code := code + [l.op];
      }
    }
    assert lines[..|lines|] == lines;
  }

  lemma FreshFacts(arch: Arch, pruned: set<string>)
    ensures FactsOf(arch, [], pruned) == Facts(if arch == X86 then 8 else 0, {}, 0) && Window([]) == 0
  {
    assert Callees([], pruned) == {};
    var none: seq<Op> := [];
    assert none[..Window(none)] == [];
  }

  lemma NothingYet(arch: Arch, pruned: set<string>, lines: seq<F.Line>)
    requires forall j :: 0 <= j < |lines| ==> !lines[j].Header?
    ensures Tells(map[], arch, pruned, lines)
  {
    hide FactsOf, F.Ops;
  }
}
