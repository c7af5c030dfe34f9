/** Disassembled instructions, as far as they matter to the stack, and what executing them
    does to the stack pointer. */
module Machine {
  const PAGE: nat := 4096

  datatype Op =
    | Push                             // x86 push: eight bytes
    | SubSp(bytes: nat)                // sub $bytes, %rsp
    | MovSp(reg: string)               // mov %rsp, %reg
    | SubReg(bytes: nat, reg: string)  // sub $bytes, %reg, a register other than %rsp
    | CmpSp(reg: string)               // cmp %reg, %rsp
    | Jne(back: nat)                   // jump that many instructions back unless equal
    | ArmSub(imm: nat, lsl: nat)       // sub sp, sp, #imm, lsl #lsl
    | ArmStp(imm: nat)                 // stp .., [sp, #-imm]!
    | ArmStr(imm: nat)                 // str .., [sp, #-imm]!
    | Call(sym: string)
    | CallUnknown                      // through a register or memory, or without a symbol
    | Leave                            // any other jump or return
    | BLike                            // not a branch, but its mnemonic starts like one
    | Other

  function Shl(v: nat, n: nat): nat {
    if n == 0 then v else 2 * Shl(v, n - 1)
  }

  datatype State = State(pc: int, sp: int, regs: map<string, int>, equal: bool)

  function Start(sp: int): State {
    State(0, sp, map[], false)
  }

  /** Calls and leaving jumps are not followed: runs are only looked at up to them. */
  function Step(code: seq<Op>, st: State): State {
    if !(0 <= st.pc < |code|) then st
    else
      match code[st.pc]
      case Push => st.(pc := st.pc + 1, sp := st.sp - 8)
      case SubSp(v) => st.(pc := st.pc + 1, sp := st.sp - v)
      case MovSp(r) => st.(pc := st.pc + 1, regs := st.regs[r := st.sp])
      case SubReg(v, r) => st.(pc := st.pc + 1, regs := if r in st.regs then st.regs[r := st.regs[r] - v] else st.regs)
      case CmpSp(r) => st.(pc := st.pc + 1, equal := r in st.regs && st.regs[r] == st.sp)
      case Jne(k) => st.(pc := if st.equal then st.pc + 1 else st.pc - k)
      case ArmSub(imm, n) => st.(pc := st.pc + 1, sp := st.sp - Shl(imm, n))
      case ArmStp(imm) => st.(pc := st.pc + 1, sp := st.sp - imm)
      case ArmStr(imm) => st.(pc := st.pc + 1, sp := st.sp - imm)
      case _ => st.(pc := st.pc + 1)
  }

  function Run(code: seq<Op>, st: State, n: nat): State
    decreases n
  {
    if n == 0 then st else Run(code, Step(code, st), n - 1)
  }

  lemma {:induction false} RunOn(code: seq<Op>, st: State, m: nat, n: nat)
    ensures Run(code, st, m + n) == Run(code, Run(code, st, m), n)
    decreases m
  {
    if m > 0 {
      RunOn(code, Step(code, st), m - 1, n);
    }
  }

  /** The stack pointer only goes down. */
  lemma {:induction false} RunDescends(code: seq<Op>, st: State, n: nat)
    ensures Run(code, st, n).sp <= st.sp
    decreases n
  {
    if n > 0 {
      RunDescends(code, Step(code, st), n - 1);
    }
  }

  lemma RunStep(code: seq<Op>, st: State, n: nat)
    requires n > 0
    ensures Run(code, st, n) == Run(code, Step(code, st), n - 1)
  {
  }
}
