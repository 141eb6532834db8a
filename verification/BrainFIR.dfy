/** The LLVM IR that the BrainF compiler emits: SSA registers, phi nodes, basic blocks and a machine over them. */
module BrainFIR {
  import opened BrainFSource

  type Reg = nat
  type Label = nat

  const WORD := 0x1_0000_0000_0000_0000

  datatype Instr =
    | Malloc(dst: Reg)
    | Memset(ptr: Reg, val: Byte, len: nat)
    | Gep(dst: Reg, ptr: Reg, off: int)
    | GetChar(dst: Reg)
    | Trunc8(dst: Reg, src: Reg)
    | SExt32(dst: Reg, src: Reg)
    | PutChar(src: Reg)
    | Load(dst: Reg, ptr: Reg)
    | Store(src: Reg, ptr: Reg)
    | Add8(dst: Reg, src: Reg, imm: int)
    | CmpUGE(dst: Reg, a: Reg, b: Reg)
    | CmpULT(dst: Reg, a: Reg, b: Reg)
    | Or(dst: Reg, a: Reg, b: Reg)
    | CmpZero(dst: Reg, src: Reg)
    | Puts
    | Free(ptr: Reg)

  datatype Terminator = Open | Br(to: Label) | CondBr(cond: Reg, yes: Label, no: Label) | Ret

  datatype Incoming = Incoming(src: Reg, from: Label)
  datatype Phi = Phi(dst: Reg, incoming: seq<Incoming>)
  datatype Block = Block(phis: seq<Phi>, code: seq<Instr>, term: Terminator)
  type Code = seq<Block>

  /** Where malloc puts the tape, what it finds there, and what stdin holds. */
  datatype World = World(input: seq<Byte>, base: nat, garbage: seq<Byte>)

  /** An object neither starts at null nor reaches the end of the address space. */
  predicate SaneWorld(w: World) { 0 < w.base && w.base + |w.garbage| < WORD }

  datatype Config = Config(at: Label, idx: nat, regs: map<Reg, int>, obs: Obs, msg: bool)

  datatype Machine =
    | Live(c: Config)
    | Done(obs: Obs, msg: bool)  // returned; msg: the out-of-bounds message was printed
    | Trap(obs: Obs)             // a load or store outside the malloc'd tape
    | Stuck                      // an undefined register, label or phi edge was used

  function Addr(w: World, head: int): int { (w.base + head) % WORD }

  function Cell(w: World, addr: int): int { addr - w.base }

  function Operands(i: Instr): set<Reg> {
    match i
    case Malloc(_) => {}
    case Memset(p, _, _) => {p}
    case Gep(_, p, _) => {p}
    case GetChar(_) => {}
    case Trunc8(_, s) => {s}
    case SExt32(_, s) => {s}
    case PutChar(s) => {s}
    case Load(_, p) => {p}
    case Store(s, p) => {s, p}
    case Add8(_, s, _) => {s}
    case CmpUGE(_, a, b) => {a, b}
    case CmpULT(_, a, b) => {a, b}
    case Or(_, a, b) => {a, b}
    case CmpZero(_, s) => {s}
    case Puts => {}
    case Free(p) => {p}
  }

  function Bit(b: bool): int { if b then 1 else 0 }

  /** An i8 seen as a signed 32-bit number. */
  function SignExtend(v: int): int { if v % 256 >= 128 then v % 256 - 256 else v % 256 }

  function Next(c: Config): Config { c.(idx := c.idx + 1) }

  function Def(c: Config, r: Reg, v: int): Machine {
    Live(Next(c).(regs := c.regs[r := v]))
  }

  function Exec(w: World, i: Instr, c: Config): Machine {
    if !(Operands(i) <= c.regs.Keys) then Stuck
    else
      var o, tape := c.obs, c.obs.tape;
      match i
      case Malloc(d) => Def(c.(obs := o.(tape := w.garbage)), d, w.base)
      case Memset(p, v, n) =>
        if Cell(w, c.regs[p]) == 0 && n == |tape| then Live(Next(c).(obs := o.(tape := seq(n, _ => v))))
        else Trap(o)
      case Gep(d, p, off) => Def(c, d, (c.regs[p] + off) % WORD)
      case GetChar(d) =>
        Def(c.(obs := Consume(w.input, o)), d, if o.used < |w.input| then w.input[o.used] else -1)
      case Trunc8(d, s) => Def(c, d, c.regs[s] % 256)
      case SExt32(d, s) => Def(c, d, SignExtend(c.regs[s]))
      case PutChar(s) => Live(Next(c).(obs := o.(out := o.out + [c.regs[s] % 256])))
      case Load(d, p) =>
        if InTape(Cell(w, c.regs[p]), tape) then Def(c, d, tape[Cell(w, c.regs[p])]) else Trap(o)
      case Store(s, p) =>
        if InTape(Cell(w, c.regs[p]), tape)
        then Live(Next(c).(obs := SetCell(o, Cell(w, c.regs[p]), c.regs[s] % 256)))
        else Trap(o)
      case Add8(d, s, imm) => Def(c, d, (c.regs[s] + imm % 256) % 256)
      case CmpUGE(d, a, b) => Def(c, d, Bit(c.regs[a] >= c.regs[b]))
      case CmpULT(d, a, b) => Def(c, d, Bit(c.regs[a] < c.regs[b]))
      case Or(d, a, b) => Def(c, d, Bit(c.regs[a] != 0 || c.regs[b] != 0))
      case CmpZero(d, s) => Def(c, d, Bit(c.regs[s] == 0))
      case Puts => Live(Next(c).(msg := true))
      case Free(_) => Live(Next(c))
  }

  /** The register a phi reads when control arrives from `from`. */
  function PhiSource(incoming: seq<Incoming>, from: Label): (r: int)
    ensures r == -1 || r >= 0
  {
    if incoming == [] then -1
    else if incoming[0].from == from then incoming[0].src
    else PhiSource(incoming[1..], from)
  }

  /** All phis of a block read the registers as they were before the branch. */
  function EvalPhis(phis: seq<Phi>, from: Label, before: map<Reg, int>, after: map<Reg, int>)
    : (r: (bool, map<Reg, int>))
  {
    if phis == [] then (true, after)
    else
      var s := PhiSource(phis[0].incoming, from);
      if s < 0 || s !in before then (false, after)
      else EvalPhis(phis[1..], from, before, after[phis[0].dst := before[s]])
  }

  function Jump(code: Code, c: Config, to: Label): Machine {
    if to >= |code| then Stuck
    else
      var (ok, regs) := EvalPhis(code[to].phis, c.at, c.regs, c.regs);
      if ok then Live(c.(at := to, idx := 0, regs := regs)) else Stuck
  }

  function StepIR(code: Code, w: World, m: Machine): Machine {
    if !m.Live? then m
    else if m.c.at >= |code| then Stuck
    else
      var c, b := m.c, code[m.c.at];
      if c.idx < |b.code| then Exec(w, b.code[c.idx], c)
      else match b.term
        case Open => Stuck
        case Br(to) => Jump(code, c, to)
        case CondBr(r, y, n) => if r !in c.regs then Stuck else Jump(code, c, if c.regs[r] != 0 then y else n)
        case Ret => Done(c.obs, c.msg)
  }

  function RunIR(code: Code, w: World, m: Machine, n: nat): Machine {
    if n == 0 then m else StepIR(code, w, RunIR(code, w, m, n - 1))
  }

  function Start(w: World): Machine {
    Live(Config(0, 0, map[], Obs([], 0, []), false))
  }

  lemma {:induction false} RunIRSplit(code: Code, w: World, m: Machine, a: nat, b: nat)
    ensures RunIR(code, w, m, a + b) == RunIR(code, w, RunIR(code, w, m, a), b)
  {
    hide StepIR;
    if b > 0 { RunIRSplit(code, w, m, a, b - 1); }
  }

  lemma {:induction false} RunIRStays(code: Code, w: World, m: Machine, n: nat)
    requires !m.Live?
    ensures RunIR(code, w, m, n) == m
  {
    hide EvalPhis, Exec;
    if n > 0 { RunIRStays(code, w, m, n - 1); }
  }

  /** An address is a tape cell exactly when the head it stands for is on the
      tape, and the two unsigned comparisons of a bounds test decide just that,
      as long as the head is less than an address space away. */
  lemma AddressMeaning(w: World, head: int)
    requires SaneWorld(w) && -(WORD - |w.garbage|) < head < WORD
    ensures 0 <= Addr(w, head) < WORD
    ensures 0 <= Cell(w, Addr(w, head)) < |w.garbage| <==> 0 <= head < |w.garbage|
    ensures 0 <= head < |w.garbage| ==> Cell(w, Addr(w, head)) == head
    ensures Addr(w, head) >= Addr(w, |w.garbage|) || Addr(w, head) < w.base <==> !(0 <= head < |w.garbage|)
  {
    var a := w.base + head;
    if a < 0 {
      assert a % WORD == (a + WORD) % WORD == a + WORD;
    } else if a >= WORD {
      assert a % WORD == (a - WORD) % WORD == a - WORD;
    }
  }

  lemma AddressStep(w: World, head: int, off: int)
    ensures (Addr(w, head) + off) % WORD == Addr(w, head + off)
  {}
}
