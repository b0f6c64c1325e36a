/**
  The fragment of the RV32I base instruction set the seeding preamble uses
  (sections 2.2 to 2.6 of the RISC-V Unprivileged ISA manual): formats,
  immediates, and the effect of LUI, ADDI, SW and JAL on a machine whose
  instruction words are injected one after another.
*/
module Rv32 {
  const WORD: int := 0x1_0000_0000

  /** Thirty-two-bit wrap-around. */
  function Wrap(x: int): (r: int)
    ensures 0 <= r < WORD
  {
    x % WORD
  }

  datatype Instruction =
    | Lui(rd: nat, imm20: nat)
    | Addi(rd: nat, rs1: nat, imm: int)
    | Sw(rs1: nat, rs2: nat, imm: int)
    | Jal(rd: nat, offset: int)
    | Illegal

  function SignExtend(value: nat, half: nat): int {
    if value >= half then value - 2 * half else value
  }

  function Decode(w: nat): Instruction {
    var rd := w / 0x80 % 32;
    var funct3 := w / 0x1000 % 8;
    var rs1 := w / 0x8000 % 32;
    var rs2 := w / 0x10_0000 % 32;
    match w % 0x80
    case 0x37 => Lui(rd, w / 0x1000)
    case 0x13 => if funct3 == 0 then Addi(rd, rs1, SignExtend(w / 0x10_0000, 0x800)) else Illegal
    case 0x23 => if funct3 == 2 then Sw(rs1, rs2, SignExtend(w / 0x200_0000 * 32 + rd, 0x800)) else Illegal
    case 0x6F =>
      Jal(rd, SignExtend(
                w / 0x8000_0000 * 0x10_0000     // imm[20]
                + w / 0x1000 % 0x100 * 0x1000   // imm[19:12]
                + w / 0x10_0000 % 2 * 0x800     // imm[11]
                + w / 0x20_0000 % 0x400 * 2,    // imm[10:1]
                0x10_0000))
    case _ => Illegal
  }

  type Memory = map<int, int>

  function ByteAt(mem: Memory, address: int): int {
    if address in mem then mem[address] else 0
  }

  /** The four bytes of a word, least significant first. */
  function StoreWord(mem: Memory, address: int, value: int): Memory {
    mem[address := value % 0x100]
       [address + 1 := value / 0x100 % 0x100]
       [address + 2 := value / 0x1_0000 % 0x100]
       [address + 3 := value / 0x100_0000 % 0x100]
  }

  function LoadWord(mem: Memory, address: int): int {
    ByteAt(mem, address) + 0x100 * ByteAt(mem, address + 1)
    + 0x1_0000 * ByteAt(mem, address + 2) + 0x100_0000 * ByteAt(mem, address + 3)
  }

  datatype Machine =
    | Running(pc: int, regs: seq<int>, mem: Memory)
    | Trapped

  predicate Ready(m: Machine) {
    m.Running? && |m.regs| == 32 && m.regs[0] == 0
    && 0 <= m.pc < WORD && forall i | 0 <= i < 32 :: 0 <= m.regs[i] < WORD
  }

  function Write(regs: seq<int>, rd: nat, value: int): seq<int>
    requires |regs| == 32 && rd < 32
  {
    if rd == 0 then regs else regs[rd := value]
  }

  /** Execute one injected word; misaligned stores and jump targets trap. */
  function Step(m: Machine, w: nat): (m': Machine)
    requires Ready(m)
    ensures m'.Running? ==> Ready(m')
  {
    var next := Wrap(m.pc + 4);
    match Decode(w)
    case Lui(rd, imm20) =>
      Running(next, Write(m.regs, rd, Wrap(imm20 * 0x1000)), m.mem)
    case Addi(rd, rs1, imm) =>
      Running(next, Write(m.regs, rd, Wrap(m.regs[rs1] + imm)), m.mem)
    case Sw(rs1, rs2, imm) =>
      var address := Wrap(m.regs[rs1] + imm);
      if address % 4 != 0 then Trapped
      else Running(next, m.regs, StoreWord(m.mem, address, m.regs[rs2]))
    case Jal(rd, offset) =>
      var target := Wrap(m.pc + offset);
      if target % 4 != 0 then Trapped
      else Running(target, Write(m.regs, rd, next), m.mem)
    case Illegal => Trapped
  }

  function Run(m: Machine, words: seq<nat>): Machine
    requires m.Running? ==> Ready(m)
    decreases |words|
  {
    if words == [] || m.Trapped? then m else Run(Step(m, words[0]), words[1..])
  }

  lemma {:induction false} RunAppend(m: Machine, a: seq<nat>, b: seq<nat>)
    requires m.Running? ==> Ready(m)
    ensures Run(m, a).Running? ==> Ready(Run(m, a))
    ensures Run(m, a + b) == Run(Run(m, a), b)
    decreases |a|
  {
    if a == [] {
      assert a + b == b;
    } else if m.Running? {
      assert (a + b)[1..] == a[1..] + b;
      RunAppend(Step(m, a[0]), a[1..], b);
    }
  }

  /** Two runs in a row. */
  lemma RunThen(m: Machine, m1: Machine, m2: Machine, a: seq<nat>, b: seq<nat>)
    requires (m.Running? ==> Ready(m)) && (m1.Running? ==> Ready(m1))
    requires Run(m, a) == m1 && Run(m1, b) == m2
    ensures Run(m, a + b) == m2
  {
    hide Run, Ready;
    RunAppend(m, a, b);
  }

  function Reset(entry: int): Machine {
    Running(Wrap(entry), seq(32, i => 0), map[])
  }
}
