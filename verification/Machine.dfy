/** The processor as a pure step function over registers, the T flag and a flat
    4096-word memory (Arch.md, pytools/sim.py).  Everything else that gives words a
    meaning -- the two simulators, linked branches, the runtime library -- is stated
    against this one function. */
module Machine {
  import opened Isa

  /** What answers at one address: writable RAM, read-only ROM, an I/O page that reads as
      zero, or nothing (the bus floats and reads as all ones). */
  datatype Cell = Ram(w: Word) | Rom(w: Word) | Io | Open

  type Memory = m: seq<Cell> | |m| == 4096 witness seq(4096, _ => Open)

  function Read(mem: Memory, a: Word): Word {
    match mem[a]
    case Ram(w) => w
    case Rom(w) => w
    case Io => 0
    case Open => 4095
  }

  function Write(mem: Memory, a: Word, v: Word): Memory {
    if mem[a].Ram? then mem[a := Ram(v)] else mem
  }

  /** r0 and r7 are wired to 0 and 0o7777 and have no storage. */
  datatype State = State(r1: Word, r2: Word, r3: Word, r4: Word, r5: Word, r6: Word,
                         t: Bit, pc: Word, mem: Memory, running: bool)
  {
    function Get(r: Reg): Word {
      if r == 0 then 0 else if r == 1 then r1 else if r == 2 then r2 else if r == 3 then r3
      else if r == 4 then r4 else if r == 5 then r5 else if r == 6 then r6 else 4095
    }

    function Set(r: Reg, v: int): State {
      if r == 1 then this.(r1 := Mask12(v)) else if r == 2 then this.(r2 := Mask12(v))
      else if r == 3 then this.(r3 := Mask12(v)) else if r == 4 then this.(r4 := Mask12(v))
      else if r == 5 then this.(r5 := Mask12(v)) else if r == 6 then this.(r6 := Mask12(v))
      else this
    }

    function Next(): State { this.(pc := Mask12(pc + 1)) }

    function Goto(off: int): State { this.(pc := Mask12(pc + off)) }
  }

  /** The effect of one instruction; `s.pc` is its own address. */
  function Exec(s: State, i: Instr): State {
    match i
    case And(rd, ra, rb) => s.Next().Set(rd, BitAnd(s.Get(ra), s.Get(rb)))
    case Sub(rd, ra, rb) =>
      s.Next().Set(rd, s.Get(ra) - s.Get(rb)).(t := if s.Get(ra) < s.Get(rb) then 1 else 0)
    case Add(rd, ra, rb) =>
      s.Next().Set(rd, s.Get(ra) + s.Get(rb)).(t := if s.Get(ra) + s.Get(rb) > 4095 then 1 else 0)
    case Addc(rd, ra, rb) =>
      var v := s.Get(ra) + s.Get(rb) + s.t;
      s.Next().Set(rd, v).(t := if v > 4095 then 1 else 0)
    case Bf(off) => if s.t == 0 then s.Goto(off) else s.Next()
    case Bt(off) => if s.t != 0 then s.Goto(off) else s.Next()
    case Lui(rd, imm) => s.Next().Set(rd, imm * 64)
    case Addi(rd, imm) => s.Next().Set(rd, s.Get(rd) + imm)
    case Subi(rd, imm) => s.Next().Set(rd, s.Get(rd) - imm).(t := if s.Get(rd) < imm then 1 else 0)
    case Jalr(rd, ra) => s.Next().Set(rd, s.pc + 1).(pc := s.Get(ra))
    case Ror(rd, ra) => s.Next().Set(rd, s.Get(ra) / 2 + s.t * 2048).(t := s.Get(ra) % 2)
    case Rol(rd, ra) => s.Next().Set(rd, s.Get(ra) * 2 % 4096 + s.t).(t := s.Get(ra) / 2048)
    case Lwr(rd, ra) => s.Next().Set(rd, Read(s.mem, s.Get(ra)))
    case Swr(rd, ra) => s.Next().(mem := Write(s.mem, s.Get(ra), s.Get(rd)))
    case Halt => s.Next().(running := false)
    case Other => s.Next()
  }

  function Fetch(s: State): Instr { Decode(Read(s.mem, s.pc)) }

  function Step(s: State): State { Exec(s, Fetch(s)) }

  /** `n` steps. */
  function Run(s: State, n: nat): State
    decreases n
  {
    if n == 0 then s else Run(Step(s), n - 1)
  }

  lemma {:induction false} RunSum(s: State, m: nat, n: nat)
    ensures Run(s, m + n) == Run(Run(s, m), n)
    decreases m
  {
    hide Step;
    if m != 0 { RunSum(Step(s), m - 1, n); }
  }

  // ---- registers ------------------------------------------------------------------

  lemma GetAfterSet(s: State, r: Reg, v: int)
    requires 0 < r < 7
    ensures s.Set(r, v).Get(r) == Mask12(v)
  {
    hide Mask12;
  }

  lemma SetAfterSet(s: State, r: Reg, v: int, w: int)
    ensures s.Set(r, v).Set(r, w) == s.Set(r, w)
  {
    hide Mask12;
  }

  lemma SetAndPc(s: State, r: Reg, v: int, p: Word)
    ensures s.(pc := p).Set(r, v) == s.Set(r, v).(pc := p)
  {
    hide Mask12;
  }
}
