/** The frame-size gate: what its line machine counts is what the prologue, when executed,
    takes from the stack. */
module FrameGate {
  import opened Machine

  /** None, the register copied from the stack pointer, or armed: the reservation against
      the copy was counted and the next sub is the loop's own. */
  datatype Probe = NoProbe | Copied(reg: string) | Armed

  datatype Scan = Scan(cur: nat, probe: Probe)

  /** One instruction line. */
  function Read(s: Scan, op: Op): Scan {
    match op
    case MovSp(r) => if r != "rsp" then s.(probe := Copied(r)) else s
    case SubReg(v, r) => if s.probe == Copied(r) then Scan(s.cur + v, Armed) else s
    case SubSp(v) => if s.probe == Armed then s.(probe := NoProbe) else s.(cur := s.cur + v)
    case ArmSub(imm, n) => s.(cur := s.cur + Shl(imm, n))
    case ArmStp(imm) => s.(cur := s.cur + imm)
    case _ => s
  }

  function ReadAll(s: Scan, code: seq<Op>): Scan {
    if code == [] then s else Read(ReadAll(s, code[..|code| - 1]), code[|code| - 1])
  }

  /** The bytes the gate counts for a function body. */
  function Reserved(code: seq<Op>): nat {
    ReadAll(Scan(0, NoProbe), code).cur
  }

  lemma {:induction false} ReadAllConcat(s: Scan, a: seq<Op>, b: seq<Op>)
    ensures ReadAll(s, a + b) == ReadAll(ReadAll(s, a), b)
  {
    if b == [] {
      assert a + b == a;
    } else {
      var n := |b| - 1;
      assert (a + b)[..|a + b| - 1] == a + b[..n];
      ReadAllConcat(s, a, b[..n]);
    }
  }

  // ---- prologues ---------------------------------------------------------

  /** What a prologue is made of. */
  datatype Piece =
    | Plain(bytes: nat)                         // sub $bytes, %rsp
    | Probed(bytes: nat)                        // the same, then a store that touches the page
    | Loop(pages: nat, reg: string)             // the whole reservation against a copy, a page at a time
    | Shifted(imm: nat, lsl: nat)               // sub sp, sp, #imm, lsl #lsl
    | PreIndex(bytes: nat)                      // stp .., [sp, #-bytes]!
    | Saved                                     // push
    | SavedArm(bytes: nat)                      // str .., [sp, #-bytes]!
    | FramePointer(reg: string)                 // mov %rsp, %reg
    | Neutral                                   // anything that leaves the stack pointer alone

  ghost predicate Sound(p: Piece) {
    p.Loop? ==> p.pages >= 1 && p.reg != "rsp"
  }

  function Emit(p: Piece): seq<Op> {
    match p
    case Plain(v) => [SubSp(v)]
    case Probed(v) => [SubSp(v), Other]
    case Loop(n, r) => [MovSp(r), SubReg(n * PAGE, r), SubSp(PAGE), Other, CmpSp(r), Jne(3)]
    case Shifted(imm, n) => [ArmSub(imm, n)]
    case PreIndex(v) => [ArmStp(v)]
    case Saved => [Push]
    case SavedArm(v) => [ArmStr(v)]
    case FramePointer(r) => [MovSp(r)]
    case Neutral => [Other]
  }

  function Code(ps: seq<Piece>): seq<Op> {
    if ps == [] then [] else Code(ps[..|ps| - 1]) + Emit(ps[|ps| - 1])
  }

  /** Bytes reserved, and bytes pushed, which the gate does not count. */
  function Takes(p: Piece): nat {
    match p
    case Plain(v) => v
    case Probed(v) => v
    case Loop(n, _) => n * PAGE
    case Shifted(imm, n) => Shl(imm, n)
    case PreIndex(v) => v
    case _ => 0
  }

  function Pushes(p: Piece): nat {
    match p
    case Saved => 8
    case SavedArm(v) => v
    case _ => 0
  }

  function Taken(ps: seq<Piece>): nat {
    if ps == [] then 0 else Taken(ps[..|ps| - 1]) + Takes(ps[|ps| - 1])
  }

  function Pushed(ps: seq<Piece>): nat {
    if ps == [] then 0 else Pushed(ps[..|ps| - 1]) + Pushes(ps[|ps| - 1])
  }

  // ---- the gate's side ---------------------------------------------------

  lemma ReadPiece(s: Scan, p: Piece)
    requires s.probe != Armed && Sound(p)
    ensures var t := ReadAll(s, Emit(p)); t.cur == s.cur + Takes(p) && t.probe != Armed
  {
    var e := Emit(p);
    if p.Loop? {
      ReadLoop(s, p.pages * PAGE, p.reg);
    } else if p.Probed? {
      assert e[..1] == [SubSp(p.bytes)] && [SubSp(p.bytes)][..0] == [];
      ReadOne(s, SubSp(p.bytes));
    } else {
      ReadOne(s, e[0]);
      assert e == [e[0]];
    }
  }

  lemma ReadOne(s: Scan, op: Op)
    ensures ReadAll(s, [op]) == Read(s, op)
  {
    assert [op][..0] == [];
  }

  lemma ReadTwo(s: Scan, a: Op, b: Op)
    ensures ReadAll(s, [a, b]) == Read(Read(s, a), b)
  {
    ReadOne(s, a);
    assert [a, b][..1] == [a];
  }

  lemma ReadLoop(s: Scan, v: nat, r: string)
    requires r != "rsp"
    ensures ReadAll(s, [MovSp(r), SubReg(v, r), SubSp(PAGE), Other, CmpSp(r), Jne(3)]) == Scan(s.cur + v, NoProbe)
  {
    hide ReadAll;
    var s2 := Read(Read(s, MovSp(r)), SubReg(v, r));
    var s4 := Read(Read(s2, SubSp(PAGE)), Other);
    ReadTwo(s, MovSp(r), SubReg(v, r));
    ReadTwo(s2, SubSp(PAGE), Other);
    ReadTwo(s4, CmpSp(r), Jne(3));
    ReadAllConcat(s, [MovSp(r), SubReg(v, r)], [SubSp(PAGE), Other]);
    ReadAllConcat(s, [MovSp(r), SubReg(v, r)] + [SubSp(PAGE), Other], [CmpSp(r), Jne(3)]);
    assert [MovSp(r), SubReg(v, r)] + [SubSp(PAGE), Other] + [CmpSp(r), Jne(3)]
      == [MovSp(r), SubReg(v, r), SubSp(PAGE), Other, CmpSp(r), Jne(3)];
  }

  lemma {:induction false} ReservedIsTaken(ps: seq<Piece>)
    requires forall i :: 0 <= i < |ps| ==> Sound(ps[i])
    ensures var t := ReadAll(Scan(0, NoProbe), Code(ps)); t.cur == Taken(ps) && t.probe != Armed
  {
    hide ReadAll, Emit, Takes, Sound;
    if ps == [] {
      assert ReadAll(Scan(0, NoProbe), []) == Scan(0, NoProbe) by { ReadNone(Scan(0, NoProbe)); }
    } else {
      var n := |ps| - 1;
      ReservedIsTaken(ps[..n]);
      ReadAllConcat(Scan(0, NoProbe), Code(ps[..n]), Emit(ps[n]));
      ReadPiece(ReadAll(Scan(0, NoProbe), Code(ps[..n])), ps[n]);
    }
  }

  lemma ReadNone(s: Scan)
    ensures ReadAll(s, []) == s
  {
  }

  // ---- the machine's side ------------------------------------------------

  /** e stands at position at of the code. */
  ghost predicate StandsAt(code: seq<Op>, at: nat, e: seq<Op>) {
    at + |e| <= |code| && code[at..at + |e|] == e
  }

  lemma OpAt(code: seq<Op>, at: nat, e: seq<Op>, i: nat)
    requires StandsAt(code, at, e) && i < |e|
    ensures at + i < |code| && code[at + i] == e[i]
  {
    assert code[at..at + |e|][i] == code[at + i];
  }

  /** The loop's turns: k pages to go. */
  lemma {:induction false} RunLoop(code: seq<Op>, at: nat, v: nat, r: string, st: State, k: nat) returns (n: nat)
    requires StandsAt(code, at, [MovSp(r), SubReg(v, r), SubSp(PAGE), Other, CmpSp(r), Jne(3)])
    requires st.pc == at + 2 && k >= 1 && r in st.regs && st.regs[r] == st.sp - k * PAGE
    ensures var t := Run(code, st, n); t.pc == at + 6 && t.sp == st.sp - k * PAGE
    decreases k
  {
    hide StandsAt, Run, Step;
    FourSteps(code, st);
    OneTurn(code, at, v, r, st);
    if k == 1 {
      return 4;
    }
    var next := Run(code, st, 4);
    assert k * PAGE - PAGE == (k - 1) * PAGE;
    var m := RunLoop(code, at, v, r, next, k - 1);
    RunOn(code, st, 4, m);
    n := 4 + m;
  }

  /** One turn takes a page; the loop is left when the copy is reached. */
  lemma OneTurn(code: seq<Op>, at: nat, v: nat, r: string, st: State)
    requires StandsAt(code, at, [MovSp(r), SubReg(v, r), SubSp(PAGE), Other, CmpSp(r), Jne(3)])
    requires st.pc == at + 2 && r in st.regs
    ensures var t := Step(code, Step(code, Step(code, Step(code, st))));
      t.sp == st.sp - PAGE && t.regs == st.regs && t.pc == if st.regs[r] == st.sp - PAGE then at + 6 else at + 2
  {
    hide StandsAt, Shl;
    var e := [MovSp(r), SubReg(v, r), SubSp(PAGE), Other, CmpSp(r), Jne(3)];
    OpAt(code, at, e, 2);
    OpAt(code, at, e, 3);
    OpAt(code, at, e, 4);
    OpAt(code, at, e, 5);
    var s1 := Step(code, st);
    assert s1 == State(at + 3, st.sp - PAGE, st.regs, st.equal);
    var s2 := Step(code, s1);
    assert s2 == State(at + 4, st.sp - PAGE, st.regs, st.equal);
    var s3 := Step(code, s2);
    assert s3 == State(at + 5, st.sp - PAGE, st.regs, st.regs[r] == st.sp - PAGE);
  }

  lemma FourSteps(code: seq<Op>, st: State)
    ensures Run(code, st, 4) == Step(code, Step(code, Step(code, Step(code, st))))
  {
    RunStep(code, st, 4);
    RunStep(code, Step(code, st), 3);
    RunStep(code, Step(code, Step(code, st)), 2);
    RunStep(code, Step(code, Step(code, Step(code, st))), 1);
  }

  lemma TwoSteps(code: seq<Op>, st: State)
    ensures Run(code, st, 2) == Step(code, Step(code, st))
    ensures Run(code, st, 1) == Step(code, st)
  {
    RunStep(code, st, 2);
    RunStep(code, Step(code, st), 1);
    RunStep(code, st, 1);
  }

  /** Executing one piece, wherever it stands, takes its bytes and falls out behind it. */
  lemma RunPiece(code: seq<Op>, at: nat, p: Piece, st: State) returns (n: nat)
    requires Sound(p) && StandsAt(code, at, Emit(p)) && st.pc == at
    ensures var t := Run(code, st, n); t.pc == at + |Emit(p)| && t.sp == st.sp - Takes(p) - Pushes(p)
  {
    hide StandsAt, Run;
    var e := Emit(p);
    OpAt(code, at, e, 0);
    TwoSteps(code, st);
    if p.Loop? {
      OpAt(code, at, e, 1);
      var s2 := Step(code, Step(code, st));
      assert s2.pc == at + 2 && s2.sp == st.sp && p.reg in s2.regs && s2.regs[p.reg] == s2.sp - p.pages * PAGE;
      var m := RunLoop(code, at, p.pages * PAGE, p.reg, s2, p.pages);
      RunOn(code, st, 2, m);
      return 2 + m;
    }
    if p.Probed? {
      OpAt(code, at, e, 1);
      return 2;
    }
    return 1;
  }

  lemma {:induction false} RunPieces(code: seq<Op>, ps: seq<Piece>, sp: int) returns (n: nat)
    requires (forall i :: 0 <= i < |ps| ==> Sound(ps[i])) && StandsAt(code, 0, Code(ps))
    ensures var t := Run(code, Start(sp), n); t.pc == |Code(ps)| && t.sp == sp - Taken(ps) - Pushed(ps)
  {
    hide Run, Emit, Takes, Pushes, Sound;
    if ps == [] {
      assert Run(code, Start(sp), 0) == Start(sp) by { RunNothing(code, Start(sp)); }
      return 0;
    }
    var k := |ps| - 1;
    var before, e := Code(ps[..k]), Emit(ps[k]);
    assert Code(ps) == before + e;
    Parts(code, before, e);
    var m := RunPieces(code, ps[..k], sp);
    var st := Run(code, Start(sp), m);
    var m' := RunPiece(code, |before|, ps[k], st);
    RunOn(code, Start(sp), m, m');
    n := m + m';
  }

  lemma RunNothing(code: seq<Op>, st: State)
    ensures Run(code, st, 0) == st
  {
  }

  lemma Parts(code: seq<Op>, a: seq<Op>, b: seq<Op>)
    requires StandsAt(code, 0, a + b)
    ensures StandsAt(code, 0, a) && StandsAt(code, |a|, b)
  {
    assert code[0..|a| + |b|] == a + b;
    assert code[0..|a|] == code[0..|a| + |b|][..|a|];
    assert code[|a|..|a| + |b|] == code[0..|a| + |b|][|a|..];
  }

  /** The gate's number for a prologue is what executing it takes from the stack, loop
      turns included, not counting what it pushes. */
  lemma ReservedIsExecuted(ps: seq<Piece>, sp: int) returns (n: nat)
    requires forall i :: 0 <= i < |ps| ==> Sound(ps[i])
    ensures var t := Run(Code(ps), Start(sp), n);
      t.pc == |Code(ps)| && sp - t.sp == Reserved(Code(ps)) + Pushed(ps)
  {
    hide Run, ReadAll, Code, Sound;
    ReservedIsTaken(ps);
    Whole(Code(ps));
    n := RunPieces(Code(ps), ps, sp);
  }

  lemma Whole(code: seq<Op>)
    ensures StandsAt(code, 0, code)
  {
    assert code[0..|code|] == code;
  }

  // ---- page multiples ----------------------------------------------------

  /** Inside the loop, always a whole number of pages below the start. */
  ghost predicate Inside(st: State, v: nat, r: string, sp: int) {
    && 2 <= st.pc <= 5 && r in st.regs && st.regs[r] == sp - v
    && (sp - st.sp) % PAGE == 0 && (st.pc == 5 ==> !st.equal)
  }

  lemma {:induction false} NeverLeaves(v: nat, r: string, sp: int, st: State, n: nat)
    requires v % PAGE != 0 && Inside(st, v, r, sp)
    ensures Inside(Run([MovSp(r), SubReg(v, r), SubSp(PAGE), Other, CmpSp(r), Jne(3)], st, n), v, r, sp)
    decreases n
  {
    if n > 0 {
      var code := [MovSp(r), SubReg(v, r), SubSp(PAGE), Other, CmpSp(r), Jne(3)];
      NeverLeaves(v, r, sp, Step(code, st), n - 1);
    }
  }

  /** A reservation that is not whole pages would never get out of the probe loop, so whole
      pages are the only loops there are. */
  lemma OddLoopNeverEnds(v: nat, r: string, sp: int, n: nat)
    requires v % PAGE != 0
    ensures Run([MovSp(r), SubReg(v, r), SubSp(PAGE), Other, CmpSp(r), Jne(3)], Start(sp), n).pc < 6
  {
    hide Run;
    var code := [MovSp(r), SubReg(v, r), SubSp(PAGE), Other, CmpSp(r), Jne(3)];
    TwoSteps(code, Start(sp));
    RunNothing(code, Start(sp));
    if n >= 2 {
      var s2 := Step(code, Step(code, Start(sp)));
      assert Inside(s2, v, r, sp);
      RunOn(code, Start(sp), 2, n - 2);
      NeverLeaves(v, r, sp, s2, n - 2);
    }
  }

  // ---- the whole listing -------------------------------------------------

  datatype Line = Header(name: string) | Insn(op: Op) | Text

  /** The instructions among some lines. */
  function Ops(lines: seq<Line>): seq<Op> {
    if lines == [] then []
    else
      var l := lines[|lines| - 1];
      Ops(lines[..|lines| - 1]) + if l.Insn? then [l.op] else []
  }

  /** A header at i and the lines of its function up to end. */
  ghost predicate Listing(lines: seq<Line>, i: int, end: int) {
    && 0 <= i < end <= |lines| && lines[i].Header?
    && (forall j :: i < j < end ==> !lines[j].Header?)
    && (end == |lines| || lines[end].Header?)
  }

  /** Every function listed before `upto` has its number, that of its last listing there. */
  ghost predicate Reports(frames: map<string, nat>, lines: seq<Line>, upto: int)
    requires 0 <= upto <= |lines|
  {
    && (forall f :: f in frames ==> Header(f) in lines[..upto])
    && (forall i, end :: Listing(lines, i, end) && end <= upto && lines[i] !in lines[end..upto] ==>
          lines[i].name in frames && frames[lines[i].name] == Reserved(Ops(lines[i + 1..end])))
  }

  /** The function being read: the last header, and what its lines so far came to. */
  ghost predicate Reading(lines: seq<Line>, head: int, i: int, fn: string, s: Scan) {
    && 0 <= head < i <= |lines| && lines[head] == Header(fn)
    && (forall j :: head < j < i ==> !lines[j].Header?)
    && s == ReadAll(Scan(0, NoProbe), Ops(lines[head + 1..i]))
  }

  lemma ReadLine(lines: seq<Line>, head: int, i: int, fn: string, s: Scan)
    requires Reading(lines, head, i, fn, s) && i < |lines| && !lines[i].Header?
    ensures Reading(lines, head, i + 1, fn, if lines[i].Insn? then Read(s, lines[i].op) else s)
  {
    hide Read;
    var before := lines[head + 1..i];
    assert lines[head + 1..i + 1] == before + [lines[i]];
    assert (before + [lines[i]])[..|before|] == before;
    if lines[i].Insn? {
      ReadAllConcat(Scan(0, NoProbe), Ops(before), [lines[i].op]);
      ReadOne(s, lines[i].op);
    } else {
      assert Ops(before) + [] == Ops(before);
    }
  }

  lemma Starts(lines: seq<Line>, i: int)
    requires 0 <= i < |lines| && lines[i].Header?
    ensures Reading(lines, i, i + 1, lines[i].name, Scan(0, NoProbe))
  {
    assert lines[i + 1..i + 1] == [];
  }

  /** Where a listing ends, its number goes in and hides an earlier one of that name. */
  lemma Records(frames: map<string, nat>, lines: seq<Line>, head: int, i: int, fn: string, s: Scan)
    requires Reading(lines, head, i, fn, s) && Reports(frames, lines, head) && (i == |lines| || lines[i].Header?)
    ensures Reports(frames[fn := s.cur], lines, i)
  {
    hide ReadAll, Ops;
    var out := frames[fn := s.cur];
    forall f | f in out
      ensures Header(f) in lines[..i]
    {
      if f == fn {
        assert lines[..i][head] == Header(fn);
      } else {
        assert forall l :: l in lines[..head] ==> l in lines[..i];
      }
    }
    forall a, end | Listing(lines, a, end) && end <= i && lines[a] !in lines[end..i]
      ensures lines[a].name in out && out[lines[a].name] == Reserved(Ops(lines[a + 1..end]))
    {
      if a < head {
        assert end <= head;
        assert lines[end..i][head - end] == lines[head];
        assert lines[a].name != fn;
        assert forall l :: l in lines[end..head] ==> l in lines[end..i];
      } else {
        assert a == head && end == i;
      }
    }
  }

  /** The tests the gate makes on one instruction, in its order. */
  method Count(op: Op, cur0: nat, probe0: Probe) returns (cur: nat, probe: Probe)
    ensures Scan(cur, probe) == Read(Scan(cur0, probe0), op)
  {
    cur, probe := cur0, probe0;
    if op.MovSp? && op.reg != "rsp" {
      probe := Copied(op.reg);
      return;
    }
    if probe.Copied? && op.SubReg? && op.reg == probe.reg {
      cur := cur + op.bytes;
      probe := Armed;
      return;
    }
    if op.SubSp? {
      if probe == Armed {
        probe := NoProbe;
        return;
      }
      cur := cur + op.bytes;
    } else if op.ArmSub? {
      cur := cur + Shl(op.imm, op.lsl);
    } else if op.ArmStp? {
      cur := cur + op.imm;
    }
  }

  method Parse(lines: seq<Line>) returns (frames: map<string, nat>)
    ensures Reports(frames, lines, |lines|)
  {
    hide ReadAll, Read, Ops, Reserved;
    frames := map[];
    var named := false;
    var fn, cur, probe := "", 0, NoProbe;
    ghost var head := 0;
    for i := 0 to |lines|
      invariant !named ==> frames == map[] && forall j :: 0 <= j < i ==> !lines[j].Header?
      invariant named ==> Reading(lines, head, i, fn, Scan(cur, probe)) && Reports(frames, lines, head)
    {
      if lines[i].Header? {
        if named {
          Records(frames, lines, head, i, fn, Scan(cur, probe));
          frames := frames[fn := cur];
        } else {
          NothingBefore(lines, i);
        }
        Starts(lines, i);
        named, fn, cur, probe, head := true, lines[i].name, 0, NoProbe, i;
      } else if named && lines[i].Insn? {
        ReadLine(lines, head, i, fn, Scan(cur, probe));
        cur, probe := Count(lines[i].op, cur, probe);
      } else if named {
        ReadLine(lines, head, i, fn, Scan(cur, probe));
      }
    }
    if named {
      Records(frames, lines, head, |lines|, fn, Scan(cur, probe));
      frames := frames[fn := cur];
    } else {
      NothingBefore(lines, |lines|);
    }
  }

  lemma NothingBefore(lines: seq<Line>, i: int)
    requires 0 <= i <= |lines| && forall j :: 0 <= j < i ==> !lines[j].Header?
    ensures Reports(map[], lines, i)
  {
    hide Ops, Reserved;
  }
}
