/** The simulators in the form they have: objects whose step changes registers, flags, counters
    and bank storage in place.  Each step is proved to be `PyStep` or `CStep` of `SimModel`. */
module Simulators {
  import opened Isa
  import opened ObjFile
  import opened SimModel
  import opened Lockstep

  /** One bank with its backing store; an io bank has an empty one. */
  class Device {
    const kind: BankKind
    const base: nat
    const size: nat
    const data: array<Word>

    constructor (kind: BankKind, base: nat, size: nat)
      ensures this.kind == kind && this.base == base && this.size == size && fresh(data)
      ensures data.Length == (if kind == IoBank then 0 else size) && forall i | 0 <= i < data.Length :: data[i] == 0
    {
      this.kind := kind;
      this.base := base;
      this.size := size;
      data := new Word[if kind == IoBank then 0 else size](_ => 0);
    }

    function AsBank(): Bank
      reads data
    {
      Bank(kind, base, size, data[..])
    }
  }

  function Stores(ds: seq<Device>): set<array<Word>> { set i | 0 <= i < |ds| :: ds[i].data }

  function Banks(ds: seq<Device>): seq<Bank>
    reads Stores(ds)
  {
    seq(|ds|, i requires 0 <= i < |ds| reads Stores(ds) => ds[i].AsBank())
  }

  /** Every device has a store of its own. */
  ghost predicate Separate(regfile: array<Word>, ds: seq<Device>) {
    regfile !in Stores(ds)
    && (forall i, j | 0 <= i < j < |ds| :: ds[i].data != ds[j].data)
    && forall i | 0 <= i < |ds| :: ds[i].base + ds[i].size <= 4096 && ds[i].data.Length == (if ds[i].kind == IoBank then 0 else ds[i].size)
  }

  lemma SeparateGood(regfile: array<Word>, ds: seq<Device>)
    requires Separate(regfile, ds)
    ensures forall i | 0 <= i < |ds| :: GoodBank(Banks(ds)[i])
  {
  }

  /** pytools/sim.py's `CPU`. */
  class PyCpu {
    const regfile: array<Word>
    const devices: seq<Device>
    var t: Bit
    var pc: Word
    var running: bool
    var retired: nat
    var cycles: nat

    ghost predicate Valid()
      reads this, regfile
    {
      regfile.Length == 8 && regfile[0] == 0 && regfile[7] == 4095 && Separate(regfile, devices)
    }

    function State(): Sim
      reads this, regfile, Stores(devices)
    {
      Sim(regfile[..], t, pc, Banks(devices), running, retired, cycles)
    }

    constructor (devices: seq<Device>, start: Word)
      requires forall i, j | 0 <= i < j < |devices| :: devices[i].data != devices[j].data
      requires forall i | 0 <= i < |devices| ::
                 devices[i].base + devices[i].size <= 4096
                 && devices[i].data.Length == (if devices[i].kind == IoBank then 0 else devices[i].size)
      ensures Valid() && fresh(regfile) && this.devices == devices
      ensures State() == Sim([0, 0, 0, 0, 0, 0, 0, 4095], 0, start, Banks(devices), true, 0, 0)
    {
      regfile := new Word[8](_ => 0);
      this.devices := devices;
      t, pc, running, retired, cycles := 0, start, true, 0, 0;
      new;
      regfile[7] := 4095;
      assert regfile[..] == [0, 0, 0, 0, 0, 0, 0, 4095];
    }

    /** `wrreg`. */
    method WrReg(rd: Reg, val: int)
      requires Valid()
      modifies regfile
      ensures Valid() && regfile[..] == SetReg(old(regfile[..]), rd, val)
      ensures Banks(devices) == old(Banks(devices))
    {
      if rd != 0 && rd != 7 { regfile[rd] := Mask12(val); }
    }

    /** `rdmem`: every device registered at the address is asked. */
    method RdMem(addr: Word) returns (r: Result<Word, BusConflict>)
      requires Valid()
      ensures forall i | 0 <= i < |Banks(devices)| :: GoodBank(Banks(devices)[i])
      ensures r == BusRead(Banks(devices), addr)
    {
      SeparateGood(regfile, devices);
      ghost var banks := Banks(devices);
      var responses: seq<Word> := [];
      for i := 0 to |devices|
        invariant forall k | 0 <= k < i :: GoodBank(banks[..i][k])
        invariant responses == Responses(banks[..i], addr)
      {
        assert banks[..i + 1][..i] == banks[..i];
        assert banks[i] == devices[i].AsBank();
        if devices[i].base <= addr < devices[i].base + devices[i].size {
          var v: Word := 0;
          if devices[i].kind != IoBank { v := devices[i].data[addr - devices[i].base]; }
          responses := responses + [v];
        }
      }
      assert banks[..|devices|] == banks;
      if responses == [] { return Ok(4095); }
      if |responses| == 1 { return Ok(responses[0]); }
      return Err(BusConflict(addr, responses));
    }

    /** `wrmem`: every writer registered at the address takes the word. */
    method WrMem(addr: Word, val: Word)
      requires Valid()
      modifies Stores(devices)
      ensures Valid() && regfile[..] == old(regfile[..])
      ensures forall i | 0 <= i < |old(Banks(devices))| :: GoodBank(old(Banks(devices))[i])
      ensures Banks(devices) == BusWrite(old(Banks(devices)), addr, val)
    {
      SeparateGood(regfile, devices);
      ghost var banks := Banks(devices);
      for i := 0 to |devices|
        invariant Valid() && regfile[..] == old(regfile[..])
        invariant forall k | 0 <= k < i :: devices[k].AsBank() == WriteBank(banks[k], addr, val)
        invariant forall k | i <= k < |devices| :: devices[k].data[..] == old(devices[k].data[..])
      {
        assert devices[i].data in Stores(devices);
        assert banks[i] == old(devices[i].AsBank());
        if devices[i].base <= addr < devices[i].base + devices[i].size && devices[i].kind == RamBank {
          devices[i].data[addr - devices[i].base] := val;
        }
      }
      assert Banks(devices) == BusWrite(banks, addr, val);
    }

    /** `step`.  A bus conflict is the source's exception: the program counter has not moved when
        the fetch conflicts, and the counters have not when a load does. */
    method Step() returns (conflict: Option<BusConflict>)
      requires Valid()
      modifies this, regfile, Stores(devices)
      ensures Valid() && old(Good(State()))
      ensures match old(PyStep(State()))
              case Ok(s) => conflict == None && State() == s
              case Err(c) => conflict == Some(c)
    {
      SeparateGood(regfile, devices);
      ghost var s0 := State();
      assert Good(s0);
      var oldpc: int := pc;
      var fetched := RdMem(oldpc);
      if fetched.Err? { return Some(fetched.error); }
      var ir := fetched.value;
      pc := Mask12(oldpc + 1);
      var op: Reg, rd: Reg, ra: Reg, rb: Reg, imm: Imm6 := ir / 512 % 8, ir / 64 % 8, ir / 8 % 8, ir % 8, ir % 64;
      conflict := Dispatch(op, rd, ra, rb, imm, ir == 4095, oldpc);
    }

    /** The state at the start of the step. */
    function Before(oldpc: Word): Sim
      reads this, regfile, Stores(devices)
    {
      State().(pc := oldpc)
    }

    /** The branches of `step`, and the counters. */
    method Dispatch(op: Reg, rd: Reg, ra: Reg, rb: Reg, imm: Imm6, halt: bool, oldpc: Word)
      returns (conflict: Option<BusConflict>)
      requires Valid() && pc == Mask12(oldpc + 1) && Good(Before(oldpc))
      modifies this, regfile, Stores(devices)
      ensures Valid()
      ensures match old(PyExec(Before(oldpc), op, rd, ra, rb, imm, halt))
              case Ok(s) => conflict == None && State() == s
              case Err(c) => conflict == Some(c)
    {
      hide GoodBank, Mask12, BitAnd, BusWrite, BusRead, PyExec, BranchOffset;
      conflict := None;
      var memory := false;
      if op < 4 {
        Alu(op, rd, ra, rb, imm, halt, oldpc);
      } else if op < 7 {
        Immediate(op, rd, ra, rb, imm, halt, oldpc);
      } else {
        conflict, memory := Special(op, rd, ra, rb, imm, halt, oldpc);
        if conflict.Some? { return; }
      }
      retired := retired + 1;
      cycles := cycles + if memory then 2 else 1;
    }

    /** The state is that of the step result, counters aside. */
    ghost predicate Reaches(out: Result<Sim, BusConflict>, memory: bool)
      reads this, regfile, Stores(devices)
    {
      out == Ok(State().(retired := retired + 1, cycles := cycles + if memory then 2 else 1))
    }

    method Alu(op: Reg, rd: Reg, ra: Reg, rb: Reg, imm: Imm6, halt: bool, oldpc: Word)
      requires Valid() && pc == Mask12(oldpc + 1) && Good(Before(oldpc)) && op < 4
      modifies this, regfile
      ensures Valid() && Reaches(old(PyExec(Before(oldpc), op, rd, ra, rb, imm, halt)), false)
    {
      hide GoodBank, Mask12, BitAnd;
      var x: int, y: int := regfile[ra], regfile[rb];
      if op == 0 {
        WrReg(rd, BitAnd(x, y));
      } else if op == 1 {
        WrReg(rd, Mask12(x - y));
        t := if x < y then 1 else 0;
      } else if op == 2 {
        WrReg(rd, x + y);
        t := if x + y > 4095 then 1 else 0;
      } else {
        var v: int := x + y + t;
        WrReg(rd, v);
        t := if v > 4095 then 1 else 0;
      }
    }

    method Immediate(op: Reg, rd: Reg, ra: Reg, rb: Reg, imm: Imm6, halt: bool, oldpc: Word)
      requires Valid() && pc == Mask12(oldpc + 1) && Good(Before(oldpc)) && 4 <= op < 7
      modifies this, regfile
      ensures Valid() && Reaches(old(PyExec(Before(oldpc), op, rd, ra, rb, imm, halt)), false)
    {
      hide GoodBank, Mask12, BranchOffset;
      var z: int := regfile[rd];
      if op == 4 && (rd == 0 || rd == 7) {
        if t == 0 { pc := Mask12(oldpc + BranchOffset(rd, imm)); }
      } else if op == 5 && (rd == 0 || rd == 7) {
        if t != 0 { pc := Mask12(oldpc + BranchOffset(rd, imm)); }
      } else if op == 4 {
        WrReg(rd, imm * 64);
      } else if op == 5 {
        WrReg(rd, z + imm);
      } else {
        WrReg(rd, Mask12(z - imm));
        t := if z < imm then 1 else 0;
      }
    }

    method Special(op: Reg, rd: Reg, ra: Reg, rb: Reg, imm: Imm6, halt: bool, oldpc: Word)
      returns (conflict: Option<BusConflict>, memory: bool)
      requires Valid() && pc == Mask12(oldpc + 1) && Good(Before(oldpc)) && op == 7
      modifies this, regfile, Stores(devices)
      ensures Valid() && old(Good(Before(oldpc)))
      ensures match conflict
              case None => Reaches(old(PyExec(Before(oldpc), op, rd, ra, rb, imm, halt)), memory)
              case Some(c) => old(PyExec(Before(oldpc), op, rd, ra, rb, imm, halt)) == Err(c)
    {
      hide GoodBank, Mask12, BusRead, BusWrite;
      conflict, memory := None, false;
      var x: int, z: int := regfile[ra], regfile[rd];
      if rb == 0 {
        WrReg(rd, pc);
        pc := x;
      } else if rb == 1 {
        var newT := x % 2;
        WrReg(rd, x / 2 + t * 2048);
        t := newT;
      } else if rb == 2 {
        var newT := x / 2048 % 2;
        WrReg(rd, x * 2 % 4096 + t);
        t := newT;
      } else if rb == 3 {
        var loaded := RdMem(x);
        if loaded.Err? { return Some(loaded.error), false; }
        WrReg(rd, loaded.value);
        memory := true;
      } else if rb == 4 {
        WrMem(x, z);
        memory := true;
      } else if halt {
        running := false;
      }
    }

    lemma ValidGood()
      requires Valid()
      ensures Good(State())
    {
      SeparateGood(regfile, devices);
    }

    /** The run loop, watched for `turns` turns: it has then ended as `PyRun` says, or is still running.
        Under a cycle limit `max` turns are always enough (`Lockstep.PyTurnsSuffice`). */
    method Run(max: nat, turns: nat) returns (conflict: Option<BusConflict>, limited: bool)
      requires Valid()
      modifies this, regfile, Stores(devices)
      ensures Valid() && old(Good(State()))
      ensures match old(PyRun(State(), max, turns))
              case Halted(s) => conflict == None && !limited && State() == s
              case CycleLimit(s) => conflict == None && limited && State() == s
              case Conflict(c) => conflict == Some(c)
              case StillRunning(s) => conflict == None && !limited && State() == s
    {
      hide Separate, Banks, Good, GoodBank, PyStep, PyRun, Stores;
      ValidGood();
      PyRunEnds(max);
      ghost var out := PyRun(State(), max, turns);
      var left := turns;
      while running && left > 0
        invariant Valid() && Good(State()) && out == PyRun(State(), max, left)
        decreases left
      {
        ghost var s := State();
        var c := Step();
        PyRunTurn(s, max, left);
        if c.Some? { return c, false; }
        if max > 0 && cycles >= max { return None, true; }
        left := left - 1;
      }
      return None, false;
    }
  }

  /** The globals of sim2.c. */
  class CMachine {
    const reg: array<Word>
    const banks: seq<Device>
    var t: Bit
    var pc: Word
    var running: bool
    var retired: nat
    var cycles: nat

    ghost predicate Valid()
      reads this, reg
    {
      reg.Length == 8 && reg[0] == 0 && reg[7] == 4095 && Separate(reg, banks)
    }

    function State(): Sim
      reads this, reg, Stores(banks)
    {
      Sim(reg[..], t, pc, Banks(banks), running, retired, cycles)
    }

    constructor (banks: seq<Device>, start: Word)
      requires forall i, j | 0 <= i < j < |banks| :: banks[i].data != banks[j].data
      requires forall i | 0 <= i < |banks| ::
                 banks[i].base + banks[i].size <= 4096
                 && banks[i].data.Length == (if banks[i].kind == IoBank then 0 else banks[i].size)
      ensures Valid() && fresh(reg) && this.banks == banks
      ensures State() == Sim([0, 0, 0, 0, 0, 0, 0, 4095], 0, start, Banks(banks), true, 0, 0)
    {
      reg := new Word[8](_ => 0);
      this.banks := banks;
      t, pc, running, retired, cycles := 0, start, true, 0, 0;
      new;
      reg[7] := 4095;
      assert reg[..] == [0, 0, 0, 0, 0, 0, 0, 4095];
    }

    /** `wrreg`. */
    method WrReg(r: Reg, val: int)
      requires Valid()
      modifies reg
      ensures Valid() && reg[..] == SetReg(old(reg[..]), r, val)
      ensures Banks(banks) == old(Banks(banks))
    {
      if r != 0 && r != 7 { reg[r] := Mask12(val); }
    }

    /** `rdmem`: the first bank that covers the address. */
    method RdMem(addr: Word) returns (w: Word)
      requires Valid()
      ensures forall i | 0 <= i < |Banks(banks)| :: GoodBank(Banks(banks)[i])
      ensures w == ScanRead(Banks(banks), addr)
    {
      SeparateGood(reg, banks);
      ghost var bs := Banks(banks);
      for i := 0 to |banks|
        invariant FirstBank(bs, addr, i) == FirstBank(bs, addr, 0)
      {
        assert bs[i] == banks[i].AsBank() && GoodBank(bs[i]);
        if banks[i].base <= addr < banks[i].base + banks[i].size {
          if banks[i].kind == IoBank { return 0; }
          return banks[i].data[addr - banks[i].base];
        }
      }
      return 4095;
    }

    /** `wrmem`: the first bank that covers the address takes the word, if it is RAM. */
    method WrMem(addr: Word, val: Word)
      requires Valid()
      modifies Stores(banks)
      ensures Valid() && reg[..] == old(reg[..])
      ensures forall i | 0 <= i < |old(Banks(banks))| :: GoodBank(old(Banks(banks))[i])
      ensures Banks(banks) == ScanWrite(old(Banks(banks)), addr, val)
    {
      SeparateGood(reg, banks);
      ghost var bs := Banks(banks);
      for i := 0 to |banks|
        invariant Valid() && reg[..] == old(reg[..]) && Banks(banks) == bs
        invariant FirstBank(bs, addr, i) == FirstBank(bs, addr, 0)
      {
        assert bs[i] == banks[i].AsBank() && GoodBank(bs[i]);
        if banks[i].base <= addr < banks[i].base + banks[i].size {
          if banks[i].kind == RamBank {
            StoreInto(i, addr - banks[i].base, val);
          } else {
            assert bs[i := WriteBank(bs[i], addr, val)] == bs;
          }
          return;
        }
      }
    }

    /** One word of one bank. */
    method StoreInto(i: nat, offset: nat, val: Word)
      requires Valid() && i < |banks| && offset < banks[i].data.Length
      modifies Stores(banks)
      ensures Valid() && reg[..] == old(reg[..])
      ensures Banks(banks) == old(Banks(banks))[i := old(Banks(banks)[i]).(data := old(banks[i].data[..])[offset := val])]
    {
      ghost var bs := Banks(banks);
      assert banks[i].data in Stores(banks);
      banks[i].data[offset] := val;
      forall k | 0 <= k < |banks| && k != i
        ensures banks[k].AsBank() == bs[k]
      {
        assert bs[k] == old(banks[k].AsBank());
      }
      assert Banks(banks) == bs[i := bs[i].(data := old(banks[i].data[..])[offset := val])];
    }

    function Before(oldpc: Word): Sim
      reads this, reg, Stores(banks)
    {
      State().(pc := oldpc)
    }

    ghost predicate Reaches(out: Sim, memory: bool)
      reads this, reg, Stores(banks)
    {
      out == State().(retired := retired + 1, cycles := cycles + if memory then 2 else 1)
    }

    /** One turn of the fetch/execute loop. */
    method Turn()
      requires Valid()
      modifies this, reg, Stores(banks)
      ensures Valid() && old(Good(State())) && State() == old(CStep(State()))
    {
      SeparateGood(reg, banks);
      assert Good(State());
      var oldpc: int := pc;
      var ir := RdMem(oldpc);
      pc := Mask12(oldpc + 1);
      var op: Reg, rd: Reg, ra: Reg, rb: Reg, imm: Imm6 := ir / 512 % 8, ir / 64 % 8, ir / 8 % 8, ir % 8, ir % 64;
      Dispatch(op, rd, ra, rb, imm, ir == 4095, oldpc);
    }

    /** Halt first, then the switch, then the counters. */
    method Dispatch(op: Reg, rd: Reg, ra: Reg, rb: Reg, imm: Imm6, halt: bool, oldpc: Word)
      requires Valid() && pc == Mask12(oldpc + 1) && Good(Before(oldpc))
      modifies this, reg, Stores(banks)
      ensures Valid() && State() == old(CExec(Before(oldpc), op, rd, ra, rb, imm, halt))
    {
      hide GoodBank, Mask12, BitAnd, ScanWrite, ScanRead, CBranchOffset;
      var memory := false;
      if halt {
        running := false;
      } else if op < 4 {
        Alu(op, rd, ra, rb, imm, oldpc);
      } else if op < 7 {
        Immediate(op, rd, ra, rb, imm, oldpc);
      } else {
        memory := Special(op, rd, ra, rb, imm, oldpc);
      }
      retired := retired + 1;
      cycles := cycles + if memory then 2 else 1;
    }

    method Alu(op: Reg, rd: Reg, ra: Reg, rb: Reg, imm: Imm6, oldpc: Word)
      requires Valid() && pc == Mask12(oldpc + 1) && Good(Before(oldpc)) && op < 4
      modifies this, reg
      ensures Valid() && Reaches(old(CExec(Before(oldpc), op, rd, ra, rb, imm, false)), false)
    {
      hide GoodBank, Mask12, BitAnd, Bit12;
      var x: int, y: int := reg[ra], reg[rb];
      if op == 0 {
        WrReg(rd, BitAnd(x, y));
      } else if op == 1 {
        WrReg(rd, x - y);
        t := Bit12(x - y);
      } else if op == 2 {
        WrReg(rd, x + y);
        t := if x + y > 4095 then 1 else 0;
      } else {
        var v: int := x + y + t;
        WrReg(rd, v);
        t := if v > 4095 then 1 else 0;
      }
    }

    method Immediate(op: Reg, rd: Reg, ra: Reg, rb: Reg, imm: Imm6, oldpc: Word)
      requires Valid() && pc == Mask12(oldpc + 1) && Good(Before(oldpc)) && 4 <= op < 7
      modifies this, reg
      ensures Valid() && Reaches(old(CExec(Before(oldpc), op, rd, ra, rb, imm, false)), false)
    {
      hide GoodBank, Mask12, CBranchOffset, Bit12;
      var z: int := reg[rd];
      if op == 4 {
        if rd == 0 || rd == 7 {
          if t == 0 { pc := Mask12(oldpc + CBranchOffset(rd, imm)); }
        } else {
          WrReg(rd, imm * 64);
        }
      } else if op == 5 {
        if rd == 0 || rd == 7 {
          if t != 0 { pc := Mask12(oldpc + CBranchOffset(rd, imm)); }
        } else {
          WrReg(rd, z + imm);
        }
      } else {
        WrReg(rd, z - imm);
        t := Bit12(z - imm);
      }
    }

    method Special(op: Reg, rd: Reg, ra: Reg, rb: Reg, imm: Imm6, oldpc: Word) returns (memory: bool)
      requires Valid() && pc == Mask12(oldpc + 1) && Good(Before(oldpc)) && op == 7
      modifies this, reg, Stores(banks)
      ensures Valid() && old(Good(Before(oldpc)))
      ensures Reaches(old(CExec(Before(oldpc), op, rd, ra, rb, imm, false)), memory)
    {
      hide GoodBank, Mask12, ScanRead, ScanWrite;
      memory := false;
      var x: int, z: int := reg[ra], reg[rd];
      if rb == 0 {
        WrReg(rd, pc);
        pc := x;
      } else if rb == 1 {
        var newT := x % 2;
        WrReg(rd, x / 2 + t * 2048);
        t := newT;
      } else if rb == 2 {
        var newT := x / 2048 % 2;
        WrReg(rd, x * 2 % 4096 + t);
        t := newT;
      } else if rb == 3 {
        var w := RdMem(x);
        WrReg(rd, w);
        memory := true;
      } else if rb == 4 {
        WrMem(x, z);
        memory := true;
      }
    }

    lemma ValidGood()
      requires Valid()
      ensures Good(State())
    {
      SeparateGood(reg, banks);
    }

    /** The loop of `main`, watched for `turns` turns: it has then ended as `CRun` says, or is still
        running.  Under a cycle limit `max` turns are always enough (`Lockstep.CTurnsSuffice`). */
    method RunLoop(max: nat, turns: nat) returns (limited: bool)
      requires Valid()
      modifies this, reg, Stores(banks)
      ensures Valid() && old(Good(State()))
      ensures match old(CRun(State(), max, turns))
              case Halted(s) => !limited && State() == s
              case CycleLimit(s) => limited && State() == s
              case Conflict(_) => false
              case StillRunning(s) => !limited && State() == s
    {
      hide Separate, Banks, Good, GoodBank, CStep, CRun, Stores;
      ValidGood();
      CRunEnds(max);
      ghost var out := CRun(State(), max, turns);
      var left := turns;
      while running && left > 0
        invariant Valid() && Good(State()) && out == CRun(State(), max, left)
        decreases left
      {
        ghost var s := State();
        Turn();
        CRunTurn(s, max, left);
        if max > 0 && cycles >= max { return true; }
        left := left - 1;
      }
      return false;
    }
  }
}
