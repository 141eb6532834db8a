/** Compiled code behaves like the text it was compiled from. */
module BrainFCorrect {
  import opened BrainFSource
  import opened BrainFIR
  import opened BrainFCompiler

  /** The compiled program `code` for a program text, in a world it may run in.
      Text and tape sizes are C++ ints. */
  ghost predicate Compiled(prog: Program, mem: nat, w: World, code: Code, segs: seq<Seg>) {
    && Complete(prog.text, prog.checked, mem, code, segs)
    && FitsInt(prog.text, mem)
    && SaneWorld(w) && |w.garbage| == mem && w.input == prog.input
  }

  predicate FitsInt(text: string, mem: nat) { |text| < 0x8000_0000 && mem < 0x8000_0000 }

  /** The same thing is visible of both runs. */
  ghost predicate SameView(s: State, m: Machine) {
    match s
    case Running(_, _, o) => m.Live? && m.c.obs == o && !m.c.msg
    case Halted(o) => m == Done(o, false)
    case OffTape(o) => m == Done(o, true)
    case Fault(o) => m == Trap(o)
  }

  ghost predicate RegsOK(checked: bool, mem: nat, w: World, regs: map<Reg, int>) {
    ARR in regs && regs[ARR] == w.base && (checked ==> ARRMAX in regs && regs[ARRMAX] == Addr(w, mem))
  }

  /** Both machines stand at location `l`; the head is at most `slack` off the tape. */
  ghost predicate At(checked: bool, mem: nat, w: World, l: Loc, pc: nat, slack: nat, s: State, m: Machine) {
    && s.Running? && s.pc == pc && |s.obs.tape| == mem && 0 - slack <= s.head <= mem + slack
    && m.Live? && m.c.at == l.at && m.c.idx == l.idx && m.c.obs == s.obs && !m.c.msg
    && RegsOK(checked, mem, w, m.c.regs) && l.head in m.c.regs && m.c.regs[l.head] == Addr(w, s.head)
  }

  ghost predicate AtSeg(prog: Program, mem: nat, w: World, s: State, m: Machine, g: Seg) {
    At(prog.checked, mem, w, g.loc, g.start, g.start, s, m)
  }

  /** In the test block of a loop, after its phi; the text is at its '['. */
  ghost predicate AtTest(prog: Program, mem: nat, w: World, s: State, m: Machine, g: Seg) {
    g.sym.SymLoop? && g.loop.LoopInfo? && 0 < g.end <= |prog.text| &&
    At(prog.checked, mem, w, Loc(g.loop.test, 0, g.loop.phi), g.end - 1, |prog.text|, s, m)
  }

  ghost predicate Related(prog: Program, mem: nat, w: World, segs: seq<Seg>, s: State, m: Machine) {
    || (exists k :: 0 <= k < |segs| && AtSeg(prog, mem, w, s, m, segs[k]))
    || (exists k :: 0 <= k < |segs| && AtTest(prog, mem, w, s, m, segs[k]))
    || (!s.Running? && SameView(s, m))
  }

  // ---- one or more machine steps -----------------------------------------

  ghost predicate Ready(code: Code, c: Config, i: Instr) {
    c.at < |code| && c.idx < |code[c.at].code| && code[c.at].code[c.idx] == i
  }

  lemma ExecAt(code: Code, w: World, c: Config, i: Instr)
    requires Ready(code, c, i)
    ensures StepIR(code, w, Live(c)) == Exec(w, i, c)
  {
    hide Exec;
  }

  lemma StepLoad(code: Code, w: World, c: Config, d: Reg, p: Reg)
    requires Ready(code, c, Load(d, p)) && p in c.regs
    ensures InTape(Cell(w, c.regs[p]), c.obs.tape) ==>
              StepIR(code, w, Live(c)) ==
              Live(c.(idx := c.idx + 1, regs := c.regs[d := c.obs.tape[Cell(w, c.regs[p])]]))
    ensures !InTape(Cell(w, c.regs[p]), c.obs.tape) ==> StepIR(code, w, Live(c)) == Trap(c.obs)
  {
    ExecAt(code, w, c, Load(d, p));
  }

  lemma StepStore(code: Code, w: World, c: Config, v: Reg, p: Reg)
    requires Ready(code, c, Store(v, p)) && p in c.regs && v in c.regs
    ensures InTape(Cell(w, c.regs[p]), c.obs.tape) ==>
              StepIR(code, w, Live(c)) ==
              Live(c.(idx := c.idx + 1, obs := SetCell(c.obs, Cell(w, c.regs[p]), c.regs[v] % 256)))
    ensures !InTape(Cell(w, c.regs[p]), c.obs.tape) ==> StepIR(code, w, Live(c)) == Trap(c.obs)
  {
    ExecAt(code, w, c, Store(v, p));
  }

  /** An instruction that only defines register `d`. */
  lemma StepDef(code: Code, w: World, c: Config, i: Instr, d: Reg, v: int)
    requires Ready(code, c, i) && Exec(w, i, c) == Def(c, d, v)
    ensures StepIR(code, w, Live(c)) == Live(c.(idx := c.idx + 1, regs := c.regs[d := v]))
  {
    hide Exec;
    ExecAt(code, w, c, i);
  }

  lemma Two(code: Code, w: World, m: Machine)
    ensures RunIR(code, w, m, 1) == StepIR(code, w, m)
    ensures RunIR(code, w, m, 2) == StepIR(code, w, StepIR(code, w, m))
  {
    hide StepIR;
    assert RunIR(code, w, m, 0) == m;
  }

  lemma Three(code: Code, w: World, m: Machine)
    ensures RunIR(code, w, m, 3) == StepIR(code, w, StepIR(code, w, StepIR(code, w, m)))
  {
    hide StepIR;
    Two(code, w, m);
  }

  lemma HasCodeAt(code: Code, l: Loc, ins: seq<Instr>, j: nat)
    requires HasCode(code, l, ins) && j < |ins|
    ensures l.idx + j < |code[l.at].code| && code[l.at].code[l.idx + j] == ins[j]
  {
    assert code[l.at].code[l.idx..l.idx + |ins|][j] == ins[j];
  }

  lemma JumpPlain(code: Code, c: Config, to: Label)
    requires NoPhis(code, to)
    ensures Jump(code, c, to) == Live(c.(at := to, idx := 0))
  {}

  lemma JumpPhi(code: Code, c: Config, to: Label, phi: Phi, src: Reg)
    requires to < |code| && code[to].phis == [phi] && PhiSource(phi.incoming, c.at) == src && src in c.regs
    ensures Jump(code, c, to) == Live(c.(at := to, idx := 0, regs := c.regs[phi.dst := c.regs[src]]))
  {
    var phis := code[to].phis;
    assert phis[0] == phi && phis[1..] == [];
    assert EvalPhis(phis, c.at, c.regs, c.regs) == EvalPhis(phis[1..], c.at, c.regs, c.regs[phi.dst := c.regs[src]]);
  }

  lemma ModTwice(t: int, v: int)
    ensures ((t + v % 256) % 256) % 256 == (t + v) % 256
  {}

  /** In the tape, Addr and Cell are inverse; off the tape an access traps. */
  lemma AccessMeaning(w: World, mem: nat, text: string, h: int, slack: nat)
    requires SaneWorld(w) && |w.garbage| == mem && FitsInt(text, mem) && slack <= |text| && 0 - slack <= h <= mem + slack
    ensures 0 <= Cell(w, Addr(w, h)) < mem <==> 0 <= h < mem
    ensures 0 <= h < mem ==> Cell(w, Addr(w, h)) == h
    ensures Addr(w, h) >= Addr(w, mem) || Addr(w, h) < w.base <==> !(0 <= h < mem)
  {
    hide Addr, Cell;
    AddressMeaning(w, h);
  }

  lemma FirstCommand(text: string, p: nat, q: nat) returns (i: nat)
    requires p <= q <= |text| && !Comments(text, p, q)
    ensures p <= i < q && Comments(text, p, i) && IsCommand(text[i])
  {
    i := p;
    while !IsCommand(text[i])
      invariant p <= i < q && Comments(text, p, i)
      decreases q - i
    {
      i := i + 1;
      if i == q { assert Comments(text, p, q); }
    }
  }

  // ---- symbols that access the tape ----------------------------------------

  /** Off the tape, the first access of the symbol faults on both sides. */
  lemma AccessFaults(prog: Program, mem: nat, w: World, code: Code, g: Seg, s: State, m: Machine)
    returns (n: nat)
    requires SaneWorld(w) && |w.garbage| == mem && FitsInt(prog.text, mem)
    requires AtSeg(prog, mem, w, s, m, g) && Spells(prog.text, g.start, g.end, g.sym, g.val)
    requires g.sym.SymRead? || g.sym.SymWrite? || g.sym.SymChange?
    requires !InTape(s.head, s.obs.tape)
    ensures n > 0 && Run(prog, s, n) == Fault(if g.sym.SymRead? then Consume(prog.input, s.obs) else s.obs)
  {
    hide RunEnds, OpenOf, CloseOf, Sum;
    var i := FirstCommand(prog.text, g.start, g.end);
    CommentsDoNothing(prog, g.start, i, s.head, s.obs);
    n := i - g.start + 1;
  }

  lemma ReadyAt(code: Code, l: Loc, ins: seq<Instr>, j: nat, c: Config)
    requires HasCode(code, l, ins) && j < |ins| && c.at == l.at && c.idx == l.idx + j
    ensures Ready(code, c, ins[j])
  {
    HasCodeAt(code, l, ins, j);
  }

  lemma WriteIR(code: Code, w: World, c: Config, l: Loc, r: Reg, checked: bool)
    requires HasCode(code, l, PlainCode(checked, SymWrite, 0, l.head, r)) && c.at == l.at && c.idx == l.idx
    requires l.head in c.regs && InTape(Cell(w, c.regs[l.head]), c.obs.tape)
    ensures var v := c.obs.tape[Cell(w, c.regs[l.head])];
            RunIR(code, w, Live(c), 3) ==
            Live(c.(idx := l.idx + 3, regs := c.regs[r := v][r + 1 := SignExtend(v)], obs := c.obs.(out := c.obs.out + [v])))
  {
    hide StepIR, HasCode, Ready;
    var v := c.obs.tape[Cell(w, c.regs[l.head])];
    var c1 := c.(idx := c.idx + 1, regs := c.regs[r := v]);
    var c2 := c.(idx := c.idx + 2, regs := c1.regs[r + 1 := SignExtend(v)]);
    var ins := PlainCode(checked, SymWrite, 0, l.head, r);
    ReadyAt(code, l, ins, 0, c); ReadyAt(code, l, ins, 1, c1); ReadyAt(code, l, ins, 2, c2);
    StepLoad(code, w, c, r, l.head);
    StepDef(code, w, c1, SExt32(r + 1, r), r + 1, SignExtend(v));
    ExecAt(code, w, c2, PutChar(r + 1));
    Three(code, w, Live(c));
  }

  lemma ChangeIR(code: Code, w: World, c: Config, l: Loc, r: Reg, checked: bool, val: int)
    requires HasCode(code, l, PlainCode(checked, SymChange, val, l.head, r)) && c.at == l.at && c.idx == l.idx
    requires l.head in c.regs && l.head < r && InTape(Cell(w, c.regs[l.head]), c.obs.tape)
    ensures var p := Cell(w, c.regs[l.head]); var v := c.obs.tape[p];
            RunIR(code, w, Live(c), 3) ==
            Live(c.(idx := l.idx + 3, regs := c.regs[r := v][r + 1 := (v + val % 256) % 256],
                    obs := SetCell(c.obs, p, (v + val) % 256)))
  {
    hide StepIR, HasCode, Ready;
    var v := c.obs.tape[Cell(w, c.regs[l.head])];
    var sum := (v + val % 256) % 256;
    ModTwice(v, val);
    var c1 := c.(idx := c.idx + 1, regs := c.regs[r := v]);
    var c2 := c.(idx := c.idx + 2, regs := c1.regs[r + 1 := sum]);
    var ins := PlainCode(checked, SymChange, val, l.head, r);
    ReadyAt(code, l, ins, 0, c); ReadyAt(code, l, ins, 1, c1); ReadyAt(code, l, ins, 2, c2);
    StepLoad(code, w, c, r, l.head);
    StepDef(code, w, c1, Add8(r + 1, r, val), r + 1, sum);
    StepStore(code, w, c2, r + 1, l.head);
    Three(code, w, Live(c));
  }

  function GetCharResult(w: World, o: Obs): int { if o.used < |w.input| then w.input[o.used] else -1 }

  lemma ReadIR(code: Code, w: World, c: Config, l: Loc, r: Reg, checked: bool)
    requires HasCode(code, l, PlainCode(checked, SymRead, 0, l.head, r)) && c.at == l.at && c.idx == l.idx
    requires l.head in c.regs && l.head < r
    ensures var p, v := Cell(w, c.regs[l.head]), NextInput(w.input, c.obs.used);
            if InTape(p, c.obs.tape) then
              RunIR(code, w, Live(c), 3) ==
              Live(c.(idx := l.idx + 3, regs := c.regs[r := GetCharResult(w, c.obs)][r + 1 := v],
                      obs := SetCell(Consume(w.input, c.obs), p, v)))
            else RunIR(code, w, Live(c), 3) == Trap(Consume(w.input, c.obs))
  {
    hide StepIR, HasCode, Ready;
    var got := GetCharResult(w, c.obs);
    var v := NextInput(w.input, c.obs.used);
    assert got % 256 == v;
    var c1 := c.(idx := c.idx + 1, regs := c.regs[r := got], obs := Consume(w.input, c.obs));
    var c2 := c1.(idx := c.idx + 2, regs := c1.regs[r + 1 := v]);
    var ins := PlainCode(checked, SymRead, 0, l.head, r);
    ReadyAt(code, l, ins, 0, c); ReadyAt(code, l, ins, 1, c1); ReadyAt(code, l, ins, 2, c2);
    ExecAt(code, w, c, GetChar(r));
    StepDef(code, w, c1, Trunc8(r + 1, r), r + 1, v);
    StepStore(code, w, c2, r + 1, l.head);
    Three(code, w, Live(c));
  }

  // ---- one segment on both sides -------------------------------------------

  /** The world, and one compiled segment of the program in it. */
  ghost predicate Piece(prog: Program, mem: nat, w: World, code: Code, g: Seg) {
    && FitsInt(prog.text, mem) && SaneWorld(w) && |w.garbage| == mem && w.input == prog.input
    && SegOK(code, prog.checked, g) && SegText(prog.text, g)
  }

  /** Both runs are through the segment, or both have ended alike. */
  ghost predicate Through(prog: Program, mem: nat, w: World, g: Seg, s: State, m: Machine) {
    At(prog.checked, mem, w, g.to, g.end, g.end, s, m) || (!s.Running? && SameView(s, m))
  }

  /** Comments, then one command. */
  lemma LastStep(prog: Program, p: nat, q: nat, h: int, o: Obs)
    requires p < q && Comments(prog.text, p, q - 1) && q <= |prog.text|
    ensures Run(prog, Running(p, h, o), q - p) == Step(prog, Running(q - 1, h, o))
  {
    hide Step;
    CommentsDoNothing(prog, p, q - 1, h, o);
  }

  lemma WriteText(prog: Program, p: nat, q: nat, h: int, o: Obs)
    requires Spells(prog.text, p, q, SymWrite, 0) && InTape(h, o.tape)
    ensures Run(prog, Running(p, h, o), q - p) == Running(q, h, o.(out := o.out + [o.tape[h]]))
  {
    LastStep(prog, p, q, h, o);
    hide Run;
  }

  lemma ReadText(prog: Program, p: nat, q: nat, h: int, o: Obs)
    requires Spells(prog.text, p, q, SymRead, 0)
    ensures Run(prog, Running(p, h, o), q - p) ==
            if InTape(h, o.tape) then Running(q, h, SetCell(Consume(prog.input, o), h, NextInput(prog.input, o.used)))
            else Fault(Consume(prog.input, o))
  {
    LastStep(prog, p, q, h, o);
    hide Run;
  }

  lemma WriteSeg(prog: Program, mem: nat, w: World, code: Code, g: Seg, s: State, m: Machine) returns (n: nat)
    requires Piece(prog, mem, w, code, g) && g.sym.SymWrite? && AtSeg(prog, mem, w, s, m, g)
    ensures n > 0 && Through(prog, mem, w, g, Run(prog, s, n), RunIR(code, w, m, 3))
  {
    hide RunIR, StepIR, RunEnds, Run, HasCode, Addr;
    AccessMeaning(w, mem, prog.text, s.head, g.start);
    SpellsFacts(prog.text, g.start, g.end, g.sym, g.val);
    if InTape(s.head, s.obs.tape) {
      WriteText(prog, g.start, g.end, s.head, s.obs);
      n := g.end - g.start;
      WriteIR(code, w, m.c, g.loc, g.r, prog.checked);
    } else {
      n := AccessFaults(prog, mem, w, code, g, s, m);
      FirstTraps(code, w, m.c, g, prog.checked);
    }
  }

  /** A load through a head off the tape traps. */
  lemma FirstTraps(code: Code, w: World, c: Config, g: Seg, checked: bool)
    requires g.sym.SymWrite? || g.sym.SymChange?
    requires HasCode(code, g.loc, PlainCode(checked, g.sym, g.val, g.loc.head, g.r)) && c.at == g.loc.at && c.idx == g.loc.idx
    requires g.loc.head in c.regs && !InTape(Cell(w, c.regs[g.loc.head]), c.obs.tape)
    ensures RunIR(code, w, Live(c), 3) == Trap(c.obs)
  {
    hide StepIR, HasCode, Ready;
    ReadyAt(code, g.loc, PlainCode(checked, g.sym, g.val, g.loc.head, g.r), 0, c);
    StepLoad(code, w, c, g.r, g.loc.head);
    Two(code, w, Live(c));
    RunIRSplit(code, w, Live(c), 1, 2);
    RunIRStays(code, w, Trap(c.obs), 2);
  }

  lemma ChangeSeg(prog: Program, mem: nat, w: World, code: Code, g: Seg, s: State, m: Machine) returns (n: nat)
    requires Piece(prog, mem, w, code, g) && g.sym.SymChange? && AtSeg(prog, mem, w, s, m, g)
    ensures n > 0 && Through(prog, mem, w, g, Run(prog, s, n), RunIR(code, w, m, 3))
  {
    hide RunIR, StepIR, RunEnds, Run, PlainCode, HasCode, Addr;
    AccessMeaning(w, mem, prog.text, s.head, g.start);
    SpellsFacts(prog.text, g.start, g.end, g.sym, g.val);
    if InTape(s.head, s.obs.tape) {
      ChangesAdd(prog, g.start, g.end, s.head, s.obs);
      n := g.end - g.start;
      ChangeIR(code, w, m.c, g.loc, g.r, prog.checked, g.val);
    } else {
      n := AccessFaults(prog, mem, w, code, g, s, m);
      FirstTraps(code, w, m.c, g, prog.checked);
    }
  }

  lemma ReadSeg(prog: Program, mem: nat, w: World, code: Code, g: Seg, s: State, m: Machine) returns (n: nat)
    requires Piece(prog, mem, w, code, g) && g.sym.SymRead? && AtSeg(prog, mem, w, s, m, g)
    ensures n > 0 && Through(prog, mem, w, g, Run(prog, s, n), RunIR(code, w, m, 3))
  {
    hide RunIR, StepIR, RunEnds, Run, HasCode, Addr;
    AccessMeaning(w, mem, prog.text, s.head, g.start);
    SpellsFacts(prog.text, g.start, g.end, g.sym, g.val);
    ReadText(prog, g.start, g.end, s.head, s.obs);
    n := g.end - g.start;
    ReadIR(code, w, m.c, g.loc, g.r, prog.checked);
  }

  lemma FreeMoveSeg(prog: Program, mem: nat, w: World, code: Code, g: Seg, s: State, m: Machine) returns (n: nat)
    requires Piece(prog, mem, w, code, g) && g.sym.SymMove? && !prog.checked && AtSeg(prog, mem, w, s, m, g)
    ensures n > 0 && Through(prog, mem, w, g, Run(prog, s, n), RunIR(code, w, m, 1))
  {
    hide RunIR, StepIR, RunEnds, CloseOf, OpenOf, Run;
    MovesPartway(prog, g.start, g.end, g.end, s.head, s.obs);
    SumBound(prog.text, g.start, g.end);
    SpellsFacts(prog.text, g.start, g.end, g.sym, g.val);
    n := g.end - g.start;
    ReadyAt(code, g.loc, [Gep(g.r, g.loc.head, g.val)], 0, m.c);
    AddressStep(w, s.head, g.val);
    StepDef(code, w, m.c, Gep(g.r, g.loc.head, g.val), g.r, Addr(w, s.head + g.val));
    Two(code, w, m);
  }

  // ---- branches ------------------------------------------------------------

  lemma StepBr(code: Code, w: World, c: Config, to: Label)
    requires c.at < |code| && c.idx == |code[c.at].code| && code[c.at].term == Br(to)
    ensures StepIR(code, w, Live(c)) == Jump(code, c, to)
  {
    hide Exec;
  }

  lemma StepCondBr(code: Code, w: World, c: Config, r: Reg, yes: Label, no: Label)
    requires c.at < |code| && c.idx == |code[c.at].code| && code[c.at].term == CondBr(r, yes, no) && r in c.regs
    ensures StepIR(code, w, Live(c)) == Jump(code, c, if c.regs[r] != 0 then yes else no)
  {
    hide Exec, Jump;
  }

  /** brainf.end: free the tape and return. */
  lemma EndBlock(prog: Program, mem: nat, code: Code, w: World, c: Config)
    requires HeaderOK(code, prog.checked, mem) && c.at == ENDBB && c.idx == 0 && ARR in c.regs
    ensures RunIR(code, w, Live(c), 2) == Done(c.obs, c.msg)
  {
    assert code[ENDBB].code == [Free(ARR)];
    var c1 := Next(c);
    assert StepIR(code, w, Live(c)) == Live(c1) by { ExecAt(code, w, c, Free(ARR)); }
    assert StepIR(code, w, Live(c1)) == Done(c.obs, c.msg);
    hide StepIR;
    Two(code, w, Live(c));
  }

  /** brainf.aberror: print the message, then brainf.end. */
  lemma ErrorBlock(prog: Program, mem: nat, code: Code, w: World, c: Config)
    requires HeaderOK(code, prog.checked, mem) && prog.checked && c.at == ABERRORBB && c.idx == 0 && ARR in c.regs
    ensures RunIR(code, w, Live(c), 4) == Done(c.obs, true)
  {
    hide Exec, RunIR;
    assert code[ABERRORBB] == Block([], [Puts], Br(ENDBB));
    var c1 := c.(idx := 1, msg := true);
    assert StepIR(code, w, Live(c)) == Live(c1) by { ExecPuts(w, c); ExecAt(code, w, c, Puts); }
    var c2 := c1.(at := ENDBB, idx := 0);
    assert StepIR(code, w, Live(c1)) == Live(c2) by { StepBr(code, w, c1, ENDBB); JumpPlain(code, c1, ENDBB); }
    hide StepIR;
    Two(code, w, Live(c));
    EndBlock(prog, mem, code, w, c2);
    RunIRSplit(code, w, Live(c), 2, 2);
  }

  lemma ExecPuts(w: World, c: Config)
    ensures Exec(w, Puts, c) == Live(Next(c).(msg := true))
  {}

  // ---- moves under a bounds test ---------------------------------------------

  lemma ExecBinary(w: World, c: Config, d: Reg, a: Reg, b: Reg)
    requires a in c.regs && b in c.regs
    ensures Exec(w, CmpUGE(d, a, b), c) == Def(c, d, Bit(c.regs[a] >= c.regs[b]))
    ensures Exec(w, CmpULT(d, a, b), c) == Def(c, d, Bit(c.regs[a] < c.regs[b]))
    ensures Exec(w, Or(d, a, b), c) == Def(c, d, Bit(c.regs[a] != 0 || c.regs[b] != 0))
  {}

  function TestRegs(w: World, mem: nat, regs: map<Reg, int>, r: Reg, a: int): map<Reg, int> {
    regs[r := a][r + 1 := Bit(a >= Addr(w, mem))][r + 2 := Bit(a < w.base)]
    [r + 3 := Bit(a >= Addr(w, mem) || a < w.base)]
  }

  lemma ExecGep(w: World, c: Config, d: Reg, p: Reg, off: int)
    requires p in c.regs
    ensures Exec(w, Gep(d, p, off), c) == Def(c, d, (c.regs[p] + off) % WORD)
  {}

  /** The new head and the first comparison. */
  lemma TestIR1(mem: nat, code: Code, w: World, c: Config, l: Loc, r: Reg, val: int, a: int)
    requires HasCode(code, l, PlainCode(true, SymMove, val, l.head, r)) && c.at == l.at && c.idx == l.idx
    requires RegsOK(true, mem, w, c.regs) && ARRMAX < r && l.head in c.regs && (c.regs[l.head] + val) % WORD == a
    ensures RunIR(code, w, Live(c), 2) ==
            Live(c.(idx := l.idx + 2, regs := c.regs[r := a][r + 1 := Bit(a >= Addr(w, mem))]))
  {
    hide StepIR, HasCode, Ready, Addr, Exec;
    var c1 := c.(idx := c.idx + 1, regs := c.regs[r := a]);
    var ins := PlainCode(true, SymMove, val, l.head, r);
    ReadyAt(code, l, ins, 0, c); ReadyAt(code, l, ins, 1, c1);
    ExecGep(w, c, r, l.head, val);
    StepDef(code, w, c, Gep(r, l.head, val), r, a);
    ExecBinary(w, c1, r + 1, r, ARRMAX);
    StepDef(code, w, c1, CmpUGE(r + 1, r, ARRMAX), r + 1, Bit(a >= Addr(w, mem)));
    Two(code, w, Live(c));
  }

  /** The second comparison and their disjunction. */
  lemma TestIR2(mem: nat, code: Code, w: World, c: Config, l: Loc, r: Reg, val: int, a: int)
    requires HasCode(code, l, PlainCode(true, SymMove, val, l.head, r)) && c.at == l.at && c.idx == l.idx + 2
    requires ARR in c.regs && c.regs[ARR] == w.base && ARRMAX < r
    requires r in c.regs && c.regs[r] == a && r + 1 in c.regs && c.regs[r + 1] == Bit(a >= Addr(w, mem))
    ensures RunIR(code, w, Live(c), 2) ==
            Live(c.(idx := l.idx + 4,
                    regs := c.regs[r + 2 := Bit(a < w.base)][r + 3 := Bit(a >= Addr(w, mem) || a < w.base)]))
  {
    hide StepIR, HasCode, Ready, Addr, Exec;
    var c3 := c.(idx := c.idx + 1, regs := c.regs[r + 2 := Bit(a < w.base)]);
    var ins := PlainCode(true, SymMove, val, l.head, r);
    ReadyAt(code, l, ins, 2, c); ReadyAt(code, l, ins, 3, c3);
    ExecBinary(w, c, r + 2, r, ARR);
    ExecBinary(w, c3, r + 3, r + 1, r + 2);
    StepDef(code, w, c, CmpULT(r + 2, r, ARR), r + 2, Bit(a < w.base));
    StepDef(code, w, c3, Or(r + 3, r + 1, r + 2), r + 3, Bit(a >= Addr(w, mem) || a < w.base));
    Two(code, w, Live(c));
  }

  lemma TestIR(mem: nat, code: Code, w: World, c: Config, l: Loc, r: Reg, val: int, a: int)
    requires HasCode(code, l, PlainCode(true, SymMove, val, l.head, r)) && c.at == l.at && c.idx == l.idx
    requires RegsOK(true, mem, w, c.regs) && ARRMAX < r && l.head in c.regs && (c.regs[l.head] + val) % WORD == a
    ensures RunIR(code, w, Live(c), 4) == Live(c.(idx := l.idx + 4, regs := TestRegs(w, mem, c.regs, r, a)))
  {
    hide HasCode, Addr, RunIR, PlainCode;
    TestIR1(mem, code, w, c, l, r, val, a);
    TestIR2(mem, code, w, c.(idx := c.idx + 2, regs := c.regs[r := a][r + 1 := Bit(a >= Addr(w, mem))]), l, r, val, a);
    RunIRSplit(code, w, Live(c), 2, 2);
  }

  lemma CheckedMoveSeg(prog: Program, mem: nat, w: World, code: Code, g: Seg, s: State, m: Machine)
    returns (n: nat, k: nat)
    requires Piece(prog, mem, w, code, g) && HeaderOK(code, prog.checked, mem)
    requires g.sym.SymMove? && prog.checked && AtSeg(prog, mem, w, s, m, g)
    ensures n > 0 && k > 0 && Through(prog, mem, w, g, Run(prog, s, n), RunIR(code, w, m, k))
  {
    hide RunIR, StepIR, RunEnds, CloseOf, OpenOf, Run, Exec, HasCode;
    MovesPartway(prog, g.start, g.end, g.end, s.head, s.obs);
    SumBound(prog.text, g.start, g.end);
    SpellsFacts(prog.text, g.start, g.end, g.sym, g.val);
    n := g.end - g.start;
    var h := s.head + g.val;
    AddressStep(w, s.head, g.val);
    AccessMeaning(w, mem, prog.text, h, g.end);
    TestIR(mem, code, w, m.c, g.loc, g.r, g.val, Addr(w, h));
    k := CheckedBranch(prog, mem, w, code, g, m, h);
  }

  /** The branch behind the test. */
  lemma CheckedBranch(prog: Program, mem: nat, w: World, code: Code, g: Seg, m: Machine, h: int) returns (k: nat)
    requires HeaderOK(code, true, mem) && prog.checked && SegOK(code, true, g) && g.sym.SymMove?
    requires m.Live? && m.c.at == g.loc.at && !m.c.msg && RegsOK(true, mem, w, m.c.regs)
    requires RunIR(code, w, m, 4) == Live(m.c.(idx := g.loc.idx + 4, regs := TestRegs(w, mem, m.c.regs, g.r, Addr(w, h))))
    requires Addr(w, h) >= Addr(w, mem) || Addr(w, h) < w.base <==> !(0 <= h < mem)
    ensures k > 0
    ensures RunIR(code, w, m, k) ==
            if 0 <= h < mem
            then Live(m.c.(at := g.to.at, idx := 0, regs := TestRegs(w, mem, m.c.regs, g.r, Addr(w, h))))
            else Done(m.c.obs, true)
  {
    hide RunIR, StepIR, Addr, HasCode;
    var c4 := m.c.(idx := g.loc.idx + 4, regs := TestRegs(w, mem, m.c.regs, g.r, Addr(w, h)));
    StepCondBr(code, w, c4, g.r + 3, ABERRORBB, g.to.at);
    Two(code, w, Live(c4));
    RunIRSplit(code, w, m, 4, 1);
    if 0 <= h < mem {
      JumpPlain(code, c4, g.to.at);
      k := 5;
    } else {
      JumpPlain(code, c4, ABERRORBB);
      ErrorBlock(prog, mem, code, w, c4.(at := ABERRORBB, idx := 0));
      RunIRSplit(code, w, m, 5, 4);
      k := 9;
    }
  }

  // ---- loops -------------------------------------------------------------------

  /** What a finished loop knows about its two ends. */
  ghost predicate LoopPiece(prog: Program, mem: nat, w: World, code: Code, g: Seg, e: Seg) {
    && Piece(prog, mem, w, code, g) && Piece(prog, mem, w, code, e) && g.sym.SymLoop? && e.sym.SymEndLoop?
    && TestOK(code, g, e) && 0 < g.end <= e.end <= |prog.text|
    && CloseOf(prog.text, g.end, 0) == e.end - 1 && OpenOf(prog.text, e.end - 1, 0) == g.end - 1
  }

  /** Entering the loop: comments up to the '[', and the phi takes the head from outside. */
  lemma EnterLoop(prog: Program, mem: nat, w: World, code: Code, g: Seg, e: Seg, s: State, m: Machine) returns (n: nat)
    requires LoopPiece(prog, mem, w, code, g, e) && AtSeg(prog, mem, w, s, m, g)
    ensures AtTest(prog, mem, w, Run(prog, s, n), RunIR(code, w, m, 1), g)
  {
    hide RunIR, StepIR, RunEnds, CloseOf, OpenOf, Exec, Run;
    n := g.end - 1 - g.start;
    CommentsDoNothing(prog, g.start, g.end - 1, s.head, s.obs);
    var phi := code[g.loop.test].phis[0];
    StepBr(code, w, m.c, g.loop.test);
    JumpPhi(code, m.c, g.loop.test, phi, g.loc.head);
    Two(code, w, m);
  }

  lemma BackText(prog: Program, p: nat, q: nat, h: int, o: Obs)
    requires Spells(prog.text, p, q, SymEndLoop, 0)
    ensures Run(prog, Running(p, h, o), q - p) == Running(OpenOf(prog.text, q - 1, 0), h, o)
  {
    LastStep(prog, p, q, h, o);
    hide Run;
  }

  /** From the ']' back to the '[': the phi takes the head from the end of the body. */
  lemma LoopBack(prog: Program, mem: nat, w: World, code: Code, g: Seg, e: Seg, s: State, m: Machine) returns (n: nat)
    requires LoopPiece(prog, mem, w, code, g, e) && AtSeg(prog, mem, w, s, m, e)
    ensures n > 0 && AtTest(prog, mem, w, Run(prog, s, n), RunIR(code, w, m, 1), g)
  {
    hide RunIR, StepIR, RunEnds, CloseOf, OpenOf, Run, Addr, HasCode, Nesting;
    n := e.end - e.start;
    BackText(prog, e.start, e.end, s.head, s.obs);
    var phi := code[g.loop.test].phis[0];
    StepBr(code, w, m.c, g.loop.test);
    assert phi.incoming[1..][0] == phi.incoming[1];
    assert PhiSource(phi.incoming, m.c.at) == e.loc.head;
    JumpPhi(code, m.c, g.loop.test, phi, e.loc.head);
    Two(code, w, m);
  }

  lemma ExecCmpZero(w: World, c: Config, d: Reg, s: Reg)
    requires s in c.regs
    ensures Exec(w, CmpZero(d, s), c) == Def(c, d, Bit(c.regs[s] == 0))
  {}

  /** The test block up to its branch. */
  lemma TestBlock(code: Code, w: World, g: Seg, e: Seg, c: Config)
    requires TestOK(code, g, e) && c.at == g.loop.test && c.idx == 0 && g.loop.phi in c.regs
    requires InTape(Cell(w, c.regs[g.loop.phi]), c.obs.tape)
    ensures var v := c.obs.tape[Cell(w, c.regs[g.loop.phi])];
            RunIR(code, w, Live(c), 2) == Live(c.(idx := 2, regs := c.regs[e.r := v][e.r + 1 := Bit(v == 0)]))
  {
    hide StepIR, Exec, Cell;
    var v := c.obs.tape[Cell(w, c.regs[g.loop.phi])];
    var c1 := c.(idx := 1, regs := c.regs[e.r := v]);
    StepLoad(code, w, c, e.r, g.loop.phi);
    ExecCmpZero(w, c1, e.r + 1, e.r);
    StepDef(code, w, c1, CmpZero(e.r + 1, e.r), e.r + 1, Bit(v == 0));
    Two(code, w, Live(c));
  }

  /** The branch of the test block: out through a phi, or into the body. */
  lemma TestBranch(code: Code, w: World, g: Seg, e: Seg, m: Machine, c2: Config, v: int)
    requires TestOK(code, g, e) && RunIR(code, w, m, 2) == Live(c2) && c2.at == g.loop.test && c2.idx == 2
    requires e.r + 1 in c2.regs && c2.regs[e.r + 1] == Bit(v == 0) && g.loop.phi in c2.regs
    requires NoPhis(code, g.loop.body)
    requires OnePhi(code, e.to.at, e.r + 2, Incoming(g.loop.phi, g.loop.test))
    ensures RunIR(code, w, m, 3) ==
            if v == 0 then Live(c2.(at := e.to.at, idx := 0, regs := c2.regs[e.r + 2 := c2.regs[g.loop.phi]]))
            else Live(c2.(at := g.loop.body, idx := 0))
  {
    hide StepIR, RunIR;
    StepCondBr(code, w, c2, e.r + 1, e.to.at, g.loop.body);
    Two(code, w, Live(c2));
    RunIRSplit(code, w, m, 2, 1);
    if v == 0 {
      JumpPhi(code, c2, e.to.at, code[e.to.at].phis[0], g.loop.phi);
    } else {
      JumpPlain(code, c2, g.loop.body);
    }
  }

  lemma RefTest(prog: Program, p: nat, h: int, o: Obs)
    requires p < |prog.text| && prog.text[p] == '['
    ensures Run(prog, Running(p, h, o), 1) ==
            if !InTape(h, o.tape) then Fault(o)
            else Running(if o.tape[h] == 0 then CloseOf(prog.text, p + 1, 0) + 1 else p + 1, h, o)
  {
    assert Run(prog, Running(p, h, o), 1) == Step(prog, Run(prog, Running(p, h, o), 0));
  }

  lemma TestTraps(code: Code, w: World, g: Seg, e: Seg, c: Config)
    requires TestOK(code, g, e) && c.at == g.loop.test && c.idx == 0 && g.loop.phi in c.regs
    requires !InTape(Cell(w, c.regs[g.loop.phi]), c.obs.tape)
    ensures RunIR(code, w, Live(c), 3) == Trap(c.obs)
  {
    hide StepIR, Cell;
    StepLoad(code, w, c, e.r, g.loop.phi);
    Two(code, w, Live(c));
    RunIRSplit(code, w, Live(c), 1, 2);
    RunIRStays(code, w, Trap(c.obs), 2);
  }

  /** One loop test on both sides: fault, leave the loop, or enter its body. */
  lemma LoopTest(prog: Program, mem: nat, w: World, code: Code, g: Seg, e: Seg, s: State, m: Machine)
    requires LoopPiece(prog, mem, w, code, g, e) && AtTest(prog, mem, w, s, m, g)
    ensures var s', m' := Run(prog, s, 1), RunIR(code, w, m, 3);
            || (!s'.Running? && SameView(s', m'))
            || At(prog.checked, mem, w, g.to, g.end, g.end, s', m')
            || At(prog.checked, mem, w, e.to, e.end, e.end, s', m')
  {
    hide Run, RunIR, CloseOf, OpenOf, Addr, Cell, HasCode, Nesting, RunEnds;
    AccessMeaning(w, mem, prog.text, s.head, |prog.text|);
    RefTest(prog, g.end - 1, s.head, s.obs);
    if InTape(s.head, s.obs.tape) {
      TestBlock(code, w, g, e, m.c);
      var v := s.obs.tape[s.head];
      var c2 := m.c.(idx := 2, regs := m.c.regs[e.r := v][e.r + 1 := Bit(v == 0)]);
      TestBranch(code, w, g, e, m, c2, v);
    } else {
      TestTraps(code, w, g, e, m.c);
    }
  }

  /** The end of the text: brainf.end frees the tape and returns. */
  lemma EofSeg(prog: Program, mem: nat, w: World, code: Code, g: Seg, s: State, m: Machine) returns (n: nat)
    requires Piece(prog, mem, w, code, g) && HeaderOK(code, prog.checked, mem)
    requires g.sym.SymEof? && AtSeg(prog, mem, w, s, m, g)
    ensures n > 0 && Run(prog, s, n) == Halted(s.obs) && RunIR(code, w, m, 3) == Done(s.obs, false)
  {
    hide RunIR, StepIR, RunEnds, CloseOf, OpenOf, Exec;
    n := |prog.text| - g.start + 1;
    CommentsDoNothing(prog, g.start, |prog.text|, s.head, s.obs);
    StepBr(code, w, m.c, ENDBB);
    JumpPlain(code, m.c, ENDBB);
    Two(code, w, m);
    EndBlock(prog, mem, code, w, m.c.(at := ENDBB, idx := 0));
    RunIRSplit(code, w, m, 1, 2);
  }

  // ---- the whole program -----------------------------------------------------------

  lemma PieceOf(prog: Program, mem: nat, w: World, code: Code, segs: seq<Seg>, k: nat)
    requires Compiled(prog, mem, w, code, segs) && k < |segs|
    ensures Piece(prog, mem, w, code, segs[k]) && HeaderOK(code, prog.checked, mem)
    ensures k + 1 < |segs| ==> segs[k].to == segs[k + 1].loc && segs[k].end == segs[k + 1].start
    ensures segs[k].sym.SymEof? <==> k == |segs| - 1
  {
    hide SegOK, SegText, HeaderOK;
  }

  lemma LoopOf(prog: Program, mem: nat, w: World, code: Code, segs: seq<Seg>, k: nat) returns (m: nat)
    requires Compiled(prog, mem, w, code, segs) && k < |segs| && segs[k].sym.SymLoop?
    ensures m == segs[k].mate && m < |segs| && LoopPiece(prog, mem, w, code, segs[k], segs[m])
  {
    hide SegOK, SegText, HeaderOK, TestOK;
    assert PairOK(prog.text, code, segs, k);
    m := segs[k].mate;
    PieceOf(prog, mem, w, code, segs, k);
    PieceOf(prog, mem, w, code, segs, m);
  }

  lemma LoopEndOf(prog: Program, mem: nat, w: World, code: Code, segs: seq<Seg>, m: nat) returns (k: nat)
    requires Compiled(prog, mem, w, code, segs) && m < |segs| && segs[m].sym.SymEndLoop?
    ensures k < |segs| && LoopPiece(prog, mem, w, code, segs[k], segs[m])
  {
    hide SegOK, SegText, HeaderOK, TestOK, LoopPiece;
    assert EndOK(segs, m);
    k := segs[m].mate;
    var m' := LoopOf(prog, mem, w, code, segs, k);
    assert PairOK(prog.text, code, segs, k);
  }

  /** Leaving segment k is arriving at segment k + 1. */
  lemma ArriveNext(prog: Program, mem: nat, w: World, code: Code, segs: seq<Seg>, k: nat, s: State, m: Machine)
    requires Compiled(prog, mem, w, code, segs) && k < |segs| && !segs[k].sym.SymEof?
    requires At(prog.checked, mem, w, segs[k].to, segs[k].end, segs[k].end, s, m)
    ensures Related(prog, mem, w, segs, s, m)
  {
    hide At, Piece, HeaderOK, Layout;
    PieceOf(prog, mem, w, code, segs, k);
    assert AtSeg(prog, mem, w, s, m, segs[k + 1]);
  }

  /** From the test block of a loop both sides move on. */
  lemma AdvanceTest(prog: Program, mem: nat, w: World, code: Code, segs: seq<Seg>, k: nat, s: State, m: Machine)
    requires Compiled(prog, mem, w, code, segs) && k < |segs| && AtTest(prog, mem, w, s, m, segs[k])
    ensures Related(prog, mem, w, segs, Run(prog, s, 1), RunIR(code, w, m, 3))
  {
    hide At, Run, RunIR, Piece, Compiled, LoopPiece, SameView;
    var j := LoopOf(prog, mem, w, code, segs, k);
    LoopEnds(prog, mem, w, code, segs[k], segs[j]);
    LoopTest(prog, mem, w, code, segs[k], segs[j], s, m);
    var s', m' := Run(prog, s, 1), RunIR(code, w, m, 3);
    if At(prog.checked, mem, w, segs[k].to, segs[k].end, segs[k].end, s', m') {
      ArriveNext(prog, mem, w, code, segs, k, s', m');
    } else if At(prog.checked, mem, w, segs[j].to, segs[j].end, segs[j].end, s', m') {
      ArriveNext(prog, mem, w, code, segs, j, s', m');
    }
  }

  lemma LoopEnds(prog: Program, mem: nat, w: World, code: Code, g: Seg, e: Seg)
    requires LoopPiece(prog, mem, w, code, g, e)
    ensures g.sym.SymLoop? && e.sym.SymEndLoop?
  {}

  /** From the start of a straight-line segment both sides move on. */
  lemma AdvancePlain(prog: Program, mem: nat, w: World, code: Code, g: Seg, s: State, m: Machine)
    returns (n: nat, k: nat)
    requires Piece(prog, mem, w, code, g) && HeaderOK(code, prog.checked, mem) && Plain(g.sym)
    requires AtSeg(prog, mem, w, s, m, g)
    ensures n > 0 && k > 0 && Through(prog, mem, w, g, Run(prog, s, n), RunIR(code, w, m, k))
  {
    hide Piece, HeaderOK, AtSeg, Through, Run, RunIR;
    k := 3;
    match g.sym {
      case SymRead => n := ReadSeg(prog, mem, w, code, g, s, m);
      case SymWrite => n := WriteSeg(prog, mem, w, code, g, s, m);
      case SymChange => n := ChangeSeg(prog, mem, w, code, g, s, m);
      case SymMove =>
        if prog.checked {
          n, k := CheckedMoveSeg(prog, mem, w, code, g, s, m);
        } else {
          n := FreeMoveSeg(prog, mem, w, code, g, s, m);
          k := 1;
        }
    }
  }

  /** Related runs can both be taken further, staying related. */
  lemma AdvanceSeg(prog: Program, mem: nat, w: World, code: Code, segs: seq<Seg>, k: nat, s: State, m: Machine)
    returns (n: nat, j: nat)
    requires Compiled(prog, mem, w, code, segs) && k < |segs| && AtSeg(prog, mem, w, s, m, segs[k])
    ensures n > 0 && j > 0 && Related(prog, mem, w, segs, Run(prog, s, n), RunIR(code, w, m, j))
  {
    hide Compiled, Piece, At, Run, RunIR, LoopPiece, HeaderOK, SameView;
    PieceOf(prog, mem, w, code, segs, k);
    if Plain(segs[k].sym) {
      n, j := AdvancePlain(prog, mem, w, code, segs[k], s, m);
      if At(prog.checked, mem, w, segs[k].to, segs[k].end, segs[k].end, Run(prog, s, n), RunIR(code, w, m, j)) {
        ArriveNext(prog, mem, w, code, segs, k, Run(prog, s, n), RunIR(code, w, m, j));
      }
    } else if segs[k].sym.SymLoop? {
      var e := LoopOf(prog, mem, w, code, segs, k);
      n := EnterLoop(prog, mem, w, code, segs[k], segs[e], s, m);
      AdvanceTest(prog, mem, w, code, segs, k, Run(prog, s, n), RunIR(code, w, m, 1));
      RunSplit(prog, s, n, 1);
      RunIRSplit(code, w, m, 1, 3);
      n, j := n + 1, 4;
    } else if segs[k].sym.SymEndLoop? {
      var o := LoopEndOf(prog, mem, w, code, segs, k);
      n := LoopBack(prog, mem, w, code, segs[o], segs[k], s, m);
      j := 1;
    } else {
      NotNone(prog, mem, w, code, segs[k]);
      n := EofSeg(prog, mem, w, code, segs[k], s, m);
      j := 3;
      EofView(s.obs);
    }
  }

  lemma EofView(o: Obs)
    ensures SameView(Halted(o), Done(o, false))
  {}

  lemma NotNone(prog: Program, mem: nat, w: World, code: Code, g: Seg)
    requires Piece(prog, mem, w, code, g)
    ensures !g.sym.SymNone?
  {}

  // ---- start-up ----------------------------------------------------------------------

  lemma ExecMalloc(w: World, c: Config)
    ensures Exec(w, Malloc(ARR), c) == Def(c.(obs := c.obs.(tape := w.garbage)), ARR, w.base)
  {}

  lemma ExecMemset(w: World, c: Config, mem: nat)
    requires ARR in c.regs && c.regs[ARR] == w.base && |c.obs.tape| == mem
    ensures Exec(w, Memset(ARR, 0, mem), c) == Live(Next(c).(obs := c.obs.(tape := Zeros(mem))))
  {
    var z: seq<Byte> := seq(mem, _ => 0);
    assert z == Zeros(mem);
  }

  function HeaderRegs(checked: bool, mem: nat, w: World): map<Reg, int> {
    (if checked then map[ARR := w.base][ARRMAX := Addr(w, mem)] else map[ARR := w.base])[HEAD := Addr(w, mem / 2)]
  }

  lemma HeaderReady(code: Code, checked: bool, mem: nat, c: Config)
    requires HeaderOK(code, checked, mem) && c.at == ENTRYBB && c.idx < |HeaderCode(checked, mem)|
    ensures Ready(code, c, HeaderCode(checked, mem)[c.idx])
  {
    assert code[ENTRYBB].code[..|HeaderCode(checked, mem)|] == HeaderCode(checked, mem);
  }

  /** malloc and memset: a tape of zeros, whatever was there. */
  lemma HeaderTape(code: Code, checked: bool, mem: nat, w: World)
    requires HeaderOK(code, checked, mem) && |w.garbage| == mem
    ensures RunIR(code, w, Start(w), 2) ==
            Live(Config(ENTRYBB, 2, map[ARR := w.base], Obs(Zeros(mem), 0, []), false))
  {
    hide StepIR, Exec, Ready, HeaderOK;
    var c := Start(w).c;
    var c1 := c.(idx := 1, regs := map[ARR := w.base], obs := c.obs.(tape := w.garbage));
    HeaderReady(code, checked, mem, c);
    HeaderReady(code, checked, mem, c1);
    ExecMalloc(w, c);
    ExecMemset(w, c1, mem);
    ExecAt(code, w, c, Malloc(ARR));
    ExecAt(code, w, c1, Memset(ARR, 0, mem));
    assert c.regs[ARR := w.base] == map[ARR := w.base];
    Two(code, w, Start(w));
  }

  /** The header's pointers: the end of the tape, if it is needed, and the initial head. */
  lemma HeaderHead(code: Code, checked: bool, mem: nat, w: World, c: Config)
    requires HeaderOK(code, checked, mem) && c.at == ENTRYBB && c.idx == 2 && c.regs == map[ARR := w.base]
    ensures RunIR(code, w, Live(c), if checked then 2 else 1) ==
            Live(c.(idx := if checked then 4 else 3, regs := HeaderRegs(checked, mem, w)))
  {
    hide StepIR, Exec, Ready, HeaderOK;
    HeaderReady(code, checked, mem, c);
    Two(code, w, Live(c));
    if checked {
      var c1 := c.(idx := 3, regs := c.regs[ARRMAX := Addr(w, mem)]);
      HeaderReady(code, checked, mem, c1);
      ExecGep(w, c, ARRMAX, ARR, mem);
      StepDef(code, w, c, Gep(ARRMAX, ARR, mem), ARRMAX, Addr(w, mem));
      ExecGep(w, c1, HEAD, ARR, mem / 2);
      StepDef(code, w, c1, Gep(HEAD, ARR, mem / 2), HEAD, Addr(w, mem / 2));
    } else {
      ExecGep(w, c, HEAD, ARR, mem / 2);
      StepDef(code, w, c, Gep(HEAD, ARR, mem / 2), HEAD, Addr(w, mem / 2));
    }
  }

  lemma Launch(prog: Program, mem: nat, w: World, code: Code, segs: seq<Seg>) returns (k: nat)
    requires Compiled(prog, mem, w, code, segs)
    ensures Related(prog, mem, w, segs, Initial(mem), RunIR(code, w, Start(w), k))
  {
    hide RunIR, Layout, HeaderOK, SaneWorld;
    HeaderTape(code, prog.checked, mem, w);
    var c := Config(ENTRYBB, 2, map[ARR := w.base], Obs(Zeros(mem), 0, []), false);
    HeaderHead(code, prog.checked, mem, w, c);
    k := if prog.checked then 4 else 3;
    RunIRSplit(code, w, Start(w), 2, k - 2);
    assert AtSeg(prog, mem, w, Initial(mem), RunIR(code, w, Start(w), k), segs[0]);
  }

  // ---- the main result -------------------------------------------------------------

  lemma RelatedView(prog: Program, mem: nat, w: World, segs: seq<Seg>, s: State, m: Machine)
    requires Related(prog, mem, w, segs, s, m)
    ensures SameView(s, m) && (s.Running? <==> m.Live?)
  {
    hide RegsOK, Addr;
  }

  /** Related runs stay related arbitrarily far ahead on both sides. */
  lemma {:induction false} Lockstep(prog: Program, mem: nat, w: World, code: Code, segs: seq<Seg>, b: nat)
    returns (n: nat, k: nat)
    requires Compiled(prog, mem, w, code, segs)
    ensures n >= b && k >= b
    ensures Related(prog, mem, w, segs, Run(prog, Initial(mem), n), RunIR(code, w, Start(w), k))
  {
    hide Compiled, Related, Run, RunIR, AtSeg, AtTest, SameView;
    if b == 0 {
      n := 0;
      k := Launch(prog, mem, w, code, segs);
      RunZero(prog, mem);
    } else {
      n, k := Lockstep(prog, mem, w, code, segs, b - 1);
      var dn, dk := OneRound(prog, mem, w, code, segs, Run(prog, Initial(mem), n), RunIR(code, w, Start(w), k));
      RunSplit(prog, Initial(mem), n, dn);
      RunIRSplit(code, w, Start(w), k, dk);
      n, k := n + dn, k + dk;
    }
  }

  lemma RunZero(prog: Program, mem: nat)
    ensures Run(prog, Initial(mem), 0) == Initial(mem)
  {}

  lemma OneRound(prog: Program, mem: nat, w: World, code: Code, segs: seq<Seg>, s: State, m: Machine)
    returns (n: nat, k: nat)
    requires Compiled(prog, mem, w, code, segs) && Related(prog, mem, w, segs, s, m)
    ensures n > 0 && k > 0 && Related(prog, mem, w, segs, Run(prog, s, n), RunIR(code, w, m, k))
  {
    hide Compiled, Run, RunIR, AtSeg, AtTest, SameView;
    if j :| 0 <= j < |segs| && AtSeg(prog, mem, w, s, m, segs[j]) {
      n, k := AdvanceSeg(prog, mem, w, code, segs, j, s, m);
    } else if j :| 0 <= j < |segs| && AtTest(prog, mem, w, s, m, segs[j]) {
      AdvanceTest(prog, mem, w, code, segs, j, s, m);
      n, k := 1, 3;
    } else {
      RelatedView(prog, mem, w, segs, s, m);
      RunStays(prog, s, 1);
      RunIRStays(code, w, m, 1);
      n, k := 1, 1;
    }
  }

  ghost predicate AgreeBeyond(prog: Program, mem: nat, w: World, code: Code, b: nat) {
    exists n, k :: n >= b && k >= b && SameView(Run(prog, Initial(mem), n), RunIR(code, w, Start(w), k))
  }

  /** Arbitrarily far into both runs there are points at which the tape, the
      consumed input, the output and the way of ending agree. */
  lemma SameBehaviour(prog: Program, mem: nat, w: World, code: Code, segs: seq<Seg>, b: nat)
    requires Compiled(prog, mem, w, code, segs)
    ensures AgreeBeyond(prog, mem, w, code, b)
  {
    hide Compiled, Run, RunIR, SameView, Related;
    var n, k := Lockstep(prog, mem, w, code, segs, b);
    RelatedView(prog, mem, w, segs, Run(prog, Initial(mem), n), RunIR(code, w, Start(w), k));
  }

  /** The text ends in a certain way exactly when its compiled code does: the same
      tape, input and output, and the same kind of ending. */
  lemma SameEnding(prog: Program, mem: nat, w: World, code: Code, segs: seq<Seg>, end: State, stop: Machine)
    requires Compiled(prog, mem, w, code, segs)
    requires !end.Running? && !stop.Live? && SameView(end, stop)
    ensures (exists n :: Run(prog, Initial(mem), n) == end) <==> (exists k :: RunIR(code, w, Start(w), k) == stop)
  {
    hide Compiled, Run, RunIR, Related;
    if n :| Run(prog, Initial(mem), n) == end {
      var n', k := Lockstep(prog, mem, w, code, segs, n);
      RunSplit(prog, Initial(mem), n, n' - n);
      RunStays(prog, end, n' - n);
      RelatedView(prog, mem, w, segs, end, RunIR(code, w, Start(w), k));
      ViewsAgree(end, stop, RunIR(code, w, Start(w), k), end);
    }
    if k :| RunIR(code, w, Start(w), k) == stop {
      var n, k' := Lockstep(prog, mem, w, code, segs, k);
      RunIRSplit(code, w, Start(w), k, k' - k);
      RunIRStays(code, w, stop, k' - k);
      RelatedView(prog, mem, w, segs, Run(prog, Initial(mem), n), stop);
      ViewsAgree(end, stop, stop, Run(prog, Initial(mem), n));
    }
  }

  lemma ViewsAgree(s: State, m: Machine, m': Machine, s': State)
    requires !s.Running? && SameView(s, m) && !m.Live?
    ensures SameView(s, m') ==> m' == m
    ensures !s'.Running? && SameView(s', m) ==> s' == s
  {}

  /** No undefined register, label or phi edge is ever used. */
  lemma NeverStuck(prog: Program, mem: nat, w: World, code: Code, segs: seq<Seg>, k: nat)
    requires Compiled(prog, mem, w, code, segs)
    ensures !RunIR(code, w, Start(w), k).Stuck?
  {
    hide Compiled, Run, RunIR, Related;
    if RunIR(code, w, Start(w), k).Stuck? {
      var n, k' := Lockstep(prog, mem, w, code, segs, k);
      RunIRSplit(code, w, Start(w), k, k' - k);
      RunIRStays(code, w, Stuck, k' - k);
      RelatedView(prog, mem, w, segs, Run(prog, Initial(mem), n), Stuck);
    }
  }

  /** With bounds tests and a non-empty tape every executed load and store is on the tape. */
  lemma CheckedNeverTraps(prog: Program, mem: nat, w: World, code: Code, segs: seq<Seg>, k: nat)
    requires Compiled(prog, mem, w, code, segs) && prog.checked && mem > 0
    ensures !RunIR(code, w, Start(w), k).Trap?
  {
    hide Compiled, Run, RunIR, Related, RunEnds;
    var m := RunIR(code, w, Start(w), k);
    if m.Trap? {
      var n, k' := Lockstep(prog, mem, w, code, segs, k);
      RunIRSplit(code, w, Start(w), k, k' - k);
      RunIRStays(code, w, m, k' - k);
      RelatedView(prog, mem, w, segs, Run(prog, Initial(mem), n), m);
      CheckedRunsNeverFault(prog, mem, n);
    }
  }

  lemma PlusFaults(prog: Program) returns (n: nat)
    requires prog.text == "+"
    ensures Run(prog, Initial(0), n) == Fault(Initial(0).obs)
  {
    n := 1;
    assert Run(prog, Initial(0), n) == Step(prog, Run(prog, Initial(0), n - 1));
  }

  /** The guarantee needs a tape: with none, the head starts off the tape and no
      move means no test. Compiled "+" with bounds tests traps exactly then. */
  lemma UntestedStart(prog: Program, mem: nat, w: World, code: Code, segs: seq<Seg>)
    requires Compiled(prog, mem, w, code, segs) && prog.checked && prog.text == "+"
    ensures (exists k :: RunIR(code, w, Start(w), k).Trap?) <==> mem == 0
  {
    hide Compiled, RunIR, Related, RunEnds, Run;
    if mem == 0 {
      var o := Initial(0).obs;
      var n := PlusFaults(prog);
      SameEnding(prog, mem, w, code, segs, Fault(o), Trap(o));
      assert exists n :: Run(prog, Initial(mem), n) == Fault(o);
      var k :| RunIR(code, w, Start(w), k) == Trap(o);
    } else {
      forall k ensures !RunIR(code, w, Start(w), k).Trap? {
        CheckedNeverTraps(prog, mem, w, code, segs, k);
      }
    }
  }

  /** parse: compiles exactly the bracket-balanced texts, and what it emits behaves
      like the text for every input and every place and content of the tape's memory. */
  method Parse(text: string, mem: nat, cf: bool) returns (status: Status, code: Code)
    requires FitsInt(text, mem)
    ensures status == Ok <==> Balanced(text)
    ensures status == Ok ==>
              forall w, b {:trigger AgreeBeyond(Program(text, w.input, cf), mem, w, code, b)} ::
                SaneWorld(w) && |w.garbage| == mem ==> AgreeBeyond(Program(text, w.input, cf), mem, w, code, b)
  {
    hide Complete, Balanced, AgreeBeyond, Nesting, SaneWorld;
    var compiler := new BrainF(text, mem, cf);
    status := compiler.Parse();
    code := compiler.code;
    if status == Ok {
      ghost var segs := compiler.segs;
      forall w: World, b: nat | SaneWorld(w) && |w.garbage| == mem
        ensures AgreeBeyond(Program(text, w.input, cf), mem, w, code, b)
      {
        SameBehaviour(Program(text, w.input, cf), mem, w, code, segs, b);
      }
    }
  }
}
