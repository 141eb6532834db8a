/** The compiler: BrainF.cpp's parse, header and readloop, emitting the mini-IR. */
module BrainFCompiler {
  import opened BrainFSource
  import opened BrainFIR

  datatype Symbol = SymNone | SymRead | SymWrite | SymMove | SymChange | SymLoop | SymEndLoop | SymEof

  // Registers and labels fixed by the header.
  const ARR: Reg := 0
  const ARRMAX: Reg := 1
  const HEAD: Reg := 2
  const ENTRYBB: Label := 0
  const ENDBB: Label := 1
  const ABERRORBB: Label := 2

  /** A point of the emitted code: the next instruction and the current head register. */
  datatype Loc = Loc(at: Label, idx: nat, head: Reg)

  datatype LoopInfo = NoLoop | LoopInfo(test: Label, phi: Reg, body: Label)

  /** What one symbol was compiled to: text[start..end] runs from `loc` to `to`.
      `r` is the first register it defines; `mate` pairs a loop's two ends. */
  datatype Seg = Seg(start: nat, end: nat, sym: Symbol, val: int, loc: Loc, to: Loc, r: Reg,
                     loop: LoopInfo, mate: int)

  /** text[p..q] spells the symbol, preceded (or, for runs, interspersed) by comments. */
  ghost predicate Spells(text: string, p: nat, q: nat, sym: Symbol, val: int) {
    p <= q <= |text| &&
    match sym
    case SymNone => Comments(text, p, q) && Sum(text, p, q) == 0
    case SymRead => p < q && Comments(text, p, q - 1) && text[q - 1] == ','
    case SymWrite => p < q && Comments(text, p, q - 1) && text[q - 1] == '.'
    case SymMove => Moves(text, p, q) && HasMove(text, p, q) && val == Sum(text, p, q)
    case SymChange => p < q && Changes(text, p, q) && val == Sum(text, p, q) &&
                      exists i :: p <= i < q && IsChange(text[i])
    case SymLoop => p < q && Comments(text, p, q - 1) && text[q - 1] == '['
    case SymEndLoop => p < q && Comments(text, p, q - 1) && text[q - 1] == ']'
    case SymEof => q == |text| && Comments(text, p, q)
  }

  /** The straight-line code of a symbol on head register h with registers from r. */
  function PlainCode(checked: bool, sym: Symbol, val: int, h: Reg, r: Reg): seq<Instr> {
    match sym
    case SymRead => [GetChar(r), Trunc8(r + 1, r), Store(r + 1, h)]
    case SymWrite => [Load(r, h), SExt32(r + 1, r), PutChar(r + 1)]
    case SymChange => [Load(r, h), Add8(r + 1, r, val), Store(r + 1, h)]
    case SymMove =>
      if checked then [Gep(r, h, val), CmpUGE(r + 1, r, ARRMAX), CmpULT(r + 2, r, ARR), Or(r + 3, r + 1, r + 2)]
      else [Gep(r, h, val)]
    case _ => []
  }

  predicate Plain(sym: Symbol) { sym.SymRead? || sym.SymWrite? || sym.SymChange? || sym.SymMove? }

  ghost predicate HasCode(code: Code, loc: Loc, ins: seq<Instr>) {
    loc.at < |code| && loc.idx + |ins| <= |code[loc.at].code| &&
    code[loc.at].code[loc.idx..loc.idx + |ins|] == ins
  }

  ghost predicate EndsBlock(code: Code, loc: Loc, n: nat, t: Terminator) {
    loc.at < |code| && |code[loc.at].code| == loc.idx + n && code[loc.at].term == t
  }

  ghost predicate NoPhis(code: Code, l: Label) { l < |code| && code[l].phis == [] }

  /** A single phi whose first edge is `first`. */
  ghost predicate OnePhi(code: Code, l: Label, dst: Reg, first: Incoming) {
    l < |code| && |code[l].phis| == 1 && code[l].phis[0].dst == dst && [first] <= code[l].phis[0].incoming
  }

  /** The code of one segment is in place. */
  ghost predicate SegOK(code: Code, checked: bool, s: Seg) {
    ARRMAX < s.loc.head < s.r && s.loc.at < |code| && s.to.at < |code| &&
    match s.sym
    case SymRead | SymWrite | SymChange =>
      HasCode(code, s.loc, PlainCode(checked, s.sym, s.val, s.loc.head, s.r)) &&
      s.to == Loc(s.loc.at, s.loc.idx + 3, s.loc.head)
    case SymMove =>
      HasCode(code, s.loc, PlainCode(checked, s.sym, s.val, s.loc.head, s.r)) &&
      if checked then
        EndsBlock(code, s.loc, 4, CondBr(s.r + 3, ABERRORBB, s.to.at)) &&
        NoPhis(code, s.to.at) && s.to.idx == 0 && s.to.head == s.r
      else s.to == Loc(s.loc.at, s.loc.idx + 1, s.r)
    case SymLoop =>
      s.loop.LoopInfo? && s.loop.phi == s.r && s.loop.test < |code| &&
      EndsBlock(code, s.loc, 0, Br(s.loop.test)) &&
      NoPhis(code, s.loop.body) && s.to == Loc(s.loop.body, 0, s.loop.phi)
    case SymEndLoop =>
      s.loop.LoopInfo? && EndsBlock(code, s.loc, 0, Br(s.loop.test)) &&
      s.loop.phi < s.r &&
      OnePhi(code, s.to.at, s.r + 2, Incoming(s.loop.phi, s.loop.test)) &&
      s.to.idx == 0 && s.to.head == s.r + 2
    case SymEof => EndsBlock(code, s.loc, 0, Br(ENDBB))
    case SymNone => false
  }

  /** The test block of a finished loop, given its opening and closing segments. */
  ghost predicate TestOK(code: Code, s: Seg, e: Seg) {
    s.loop.LoopInfo? && e.loop == s.loop && s.loop.test < |code| && s.loc.at != e.loc.at &&
    code[s.loop.test] == Block([Phi(s.loop.phi, [Incoming(s.loc.head, s.loc.at), Incoming(e.loc.head, e.loc.at)])],
                               [Load(e.r, s.loop.phi), CmpZero(e.r + 1, e.r)],
                               CondBr(e.r + 1, e.to.at, s.loop.body))
  }

  ghost predicate PairOK(text: string, code: Code, segs: seq<Seg>, k: nat) {
    k < |segs| &&
    var s, m := segs[k], segs[k].mate;
    k < m < |segs| &&
    var e := segs[m];
    e.sym.SymEndLoop? && e.mate == k && 0 < s.end <= e.end <= |text| &&
    CloseOf(text, s.end, 0) == e.end - 1 && OpenOf(text, e.end - 1, 0) == s.end - 1 &&
    TestOK(code, s, e)
  }

  ghost predicate EndOK(segs: seq<Seg>, k: nat) {
    k < |segs| && 0 <= segs[k].mate < k && segs[segs[k].mate].sym.SymLoop? && segs[segs[k].mate].mate == k
  }

  ghost predicate SegsOK(text: string, checked: bool, code: Code, segs: seq<Seg>) {
    forall k :: 0 <= k < |segs| ==> SegOK(code, checked, segs[k]) && SegText(text, segs[k])
  }

  ghost predicate SegText(text: string, s: Seg) {
    Spells(text, s.start, s.end, s.sym, s.val) && (s.sym.SymMove? ==> RunEnds(text, s.end))
  }

  ghost predicate Chained(segs: seq<Seg>) {
    forall k :: 0 <= k < |segs| - 1 ==> segs[k].to == segs[k + 1].loc && segs[k].end == segs[k + 1].start
  }

  ghost predicate PairsOK(text: string, code: Code, segs: seq<Seg>) {
    && (forall k {:trigger PairOK(text, code, segs, k)} ::
          0 <= k < |segs| && segs[k].sym.SymLoop? && segs[k].mate >= 0 ==> PairOK(text, code, segs, k))
    && (forall k {:trigger EndOK(segs, k)} :: 0 <= k < |segs| && segs[k].sym.SymEndLoop? ==> EndOK(segs, k))
  }

  ghost predicate Layout(text: string, checked: bool, code: Code, segs: seq<Seg>) {
    SegsOK(text, checked, code, segs) && Chained(segs) && PairsOK(text, code, segs)
  }

  function HeaderCode(checked: bool, mem: nat): seq<Instr> {
    [Malloc(ARR), Memset(ARR, 0, mem)] + (if checked then [Gep(ARRMAX, ARR, mem)] else []) + [Gep(HEAD, ARR, mem / 2)]
  }

  function StartLoc(checked: bool): Loc { Loc(ENTRYBB, if checked then 4 else 3, HEAD) }

  ghost predicate HeaderOK(code: Code, checked: bool, mem: nat) {
    |code| >= 2 && (checked ==> |code| >= 3) &&
    NoPhis(code, ENTRYBB) && HeaderCode(checked, mem) <= code[ENTRYBB].code &&
    code[ENDBB] == Block([], [Free(ARR)], Ret) &&
    (checked ==> code[ABERRORBB] == Block([], [Puts], Br(ENDBB)))
  }

  /** The whole program is compiled: every loop closed, the last segment at the end of the text. */
  ghost predicate Complete(text: string, checked: bool, mem: nat, code: Code, segs: seq<Seg>) {
    && HeaderOK(code, checked, mem) && Layout(text, checked, code, segs)
    && |segs| > 0 && segs[0].start == 0 && segs[0].loc == StartLoc(checked)
    && (forall k :: 0 <= k < |segs| ==> (segs[k].sym.SymEof? <==> k == |segs| - 1))
    && (forall k :: 0 <= k < |segs| && segs[k].sym.SymLoop? ==> segs[k].mate >= 0)
  }

  // ---- growth of the code ------------------------------------------------

  /** Code only grows, and a block with a terminator is final. */
  ghost predicate Extends(a: Code, b: Code) {
    |a| <= |b| && forall l :: 0 <= l < |a| ==> BlockExtends(a[l], b[l])
  }

  ghost predicate BlockExtends(a: Block, b: Block) {
    if a.term.Open? then
      a.code <= b.code && |a.phis| == |b.phis| &&
      forall i :: 0 <= i < |a.phis| ==> a.phis[i].dst == b.phis[i].dst && a.phis[i].incoming <= b.phis[i].incoming
    else a == b
  }

  lemma ExtendsTrans(a: Code, b: Code, c: Code)
    requires Extends(a, b) && Extends(b, c)
    ensures Extends(a, c)
  {
    forall l | 0 <= l < |a| ensures BlockExtends(a[l], c[l]) {
      assert BlockExtends(a[l], b[l]) && BlockExtends(b[l], c[l]);
    }
  }

  lemma HasCodeStable(a: Code, b: Code, loc: Loc, ins: seq<Instr>)
    requires Extends(a, b) && HasCode(a, loc, ins)
    ensures HasCode(b, loc, ins)
  {
    assert BlockExtends(a[loc.at], b[loc.at]);
    assert a[loc.at].code == b[loc.at].code[..|a[loc.at].code|];
    assert b[loc.at].code[loc.idx..loc.idx + |ins|] == a[loc.at].code[loc.idx..loc.idx + |ins|];
  }

  lemma SegStable(a: Code, b: Code, checked: bool, s: Seg)
    requires Extends(a, b) && SegOK(a, checked, s)
    ensures SegOK(b, checked, s)
  {
    assert BlockExtends(a[s.loc.at], b[s.loc.at]) && BlockExtends(a[s.to.at], b[s.to.at]);
    if Plain(s.sym) {
      HasCodeStable(a, b, s.loc, PlainCode(checked, s.sym, s.val, s.loc.head, s.r));
    }
    if s.sym.SymLoop? {
      assert BlockExtends(a[s.loop.body], b[s.loop.body]);
    }
  }

  lemma LayoutStable(text: string, checked: bool, a: Code, b: Code, segs: seq<Seg>)
    requires Extends(a, b) && Layout(text, checked, a, segs)
    ensures Layout(text, checked, b, segs)
  {
    forall k | 0 <= k < |segs| ensures SegOK(b, checked, segs[k]) {
      SegStable(a, b, checked, segs[k]);
    }
    forall k | 0 <= k < |segs| && segs[k].sym.SymLoop? && segs[k].mate >= 0 ensures PairOK(text, b, segs, k) {
      assert PairOK(text, a, segs, k);
      assert BlockExtends(a[segs[k].loop.test], b[segs[k].loop.test]);
    }
  }

  lemma SegsAppend(text: string, checked: bool, code: Code, segs: seq<Seg>, segs': seq<Seg>)
    requires SegsOK(text, checked, code, segs)
    requires |segs'| == |segs| + 1 && SegOK(code, checked, segs'[|segs|]) && SegText(text, segs'[|segs|])
    requires forall j :: 0 <= j < |segs| ==> segs'[j] == segs[j].(mate := segs'[j].mate)
    ensures SegsOK(text, checked, code, segs')
  {
    forall j | 0 <= j < |segs'| ensures SegOK(code, checked, segs'[j]) && SegText(text, segs'[j]) {
      if j < |segs| {
        assert SegOK(code, checked, segs[j]) && SegText(text, segs[j]);
      }
    }
  }

  lemma ChainAppend(segs: seq<Seg>, segs': seq<Seg>)
    requires Chained(segs)
    requires |segs'| == |segs| + 1
    requires forall j :: 0 <= j < |segs| ==> segs'[j] == segs[j].(mate := segs'[j].mate)
    requires segs != [] ==> segs[|segs| - 1].to == segs'[|segs|].loc && segs[|segs| - 1].end == segs'[|segs|].start
    ensures Chained(segs')
  {
    forall k | 0 <= k < |segs'| - 1 ensures segs'[k].to == segs'[k + 1].loc && segs'[k].end == segs'[k + 1].start {
      assert segs'[k] == segs[k].(mate := segs'[k].mate);
      if k + 1 < |segs| {
        assert segs'[k + 1] == segs[k + 1].(mate := segs'[k + 1].mate);
      }
    }
  }

  lemma PairsAppend(text: string, code: Code, segs: seq<Seg>, s: Seg)
    requires PairsOK(text, code, segs) && !s.sym.SymEndLoop? && s.mate == -1
    ensures PairsOK(text, code, segs + [s])
  {
    var segs' := segs + [s];
    forall k | 0 <= k < |segs'| && segs'[k].sym.SymLoop? && segs'[k].mate >= 0 ensures PairOK(text, code, segs', k) {
      assert PairOK(text, code, segs, k);
    }
    forall k | 0 <= k < |segs'| && segs'[k].sym.SymEndLoop? ensures EndOK(segs', k) {
      assert EndOK(segs, k);
    }
  }

  /** Appending one more segment that is not a loop end. */
  lemma LayoutAppend(text: string, checked: bool, code: Code, segs: seq<Seg>, s: Seg)
    requires Layout(text, checked, code, segs) && SegOK(code, checked, s) && SegText(text, s)
    requires segs != [] ==> segs[|segs| - 1].to == s.loc && segs[|segs| - 1].end == s.start
    requires !s.sym.SymEndLoop? && s.mate == -1
    ensures Layout(text, checked, code, segs + [s])
  {
    assert SegsOK(text, checked, code, segs + [s]) by { SegsAppend(text, checked, code, segs, segs + [s]); }
    assert Chained(segs + [s]) by { ChainAppend(segs, segs + [s]); }
    assert PairsOK(text, code, segs + [s]) by { PairsAppend(text, code, segs, s); }
  }

  lemma PairsClose(text: string, code: Code, segs: seq<Seg>, k: nat, e: Seg)
    requires PairsOK(text, code, segs)
    requires k < |segs| && segs[k].sym.SymLoop? && segs[k].mate == -1
    requires e.sym.SymEndLoop? && e.mate == k && TestOK(code, segs[k], e)
    requires 0 < segs[k].end <= e.end <= |text|
    requires CloseOf(text, segs[k].end, 0) == e.end - 1 && OpenOf(text, e.end - 1, 0) == segs[k].end - 1
    ensures PairsOK(text, code, segs[k := segs[k].(mate := |segs|)] + [e])
  {
    var segs' := segs[k := segs[k].(mate := |segs|)] + [e];
    forall j | 0 <= j < |segs'| && segs'[j].sym.SymLoop? && segs'[j].mate >= 0 ensures PairOK(text, code, segs', j) {
      if j != k { assert PairOK(text, code, segs, j); }
    }
    forall j | 0 <= j < |segs'| && segs'[j].sym.SymEndLoop? ensures EndOK(segs', j) {
      if j < |segs| { assert EndOK(segs, j); }
    }
  }

  /** Appending the segment that ends the loop opened by segment k. */
  lemma LayoutClose(text: string, checked: bool, code: Code, segs: seq<Seg>, k: nat, e: Seg)
    requires Layout(text, checked, code, segs) && SegOK(code, checked, e) && SegText(text, e)
    requires k < |segs| && segs[k].sym.SymLoop? && segs[k].mate == -1
    requires segs[|segs| - 1].to == e.loc && segs[|segs| - 1].end == e.start
    requires e.sym.SymEndLoop? && e.mate == k && TestOK(code, segs[k], e)
    requires 0 < segs[k].end <= e.end <= |text|
    requires CloseOf(text, segs[k].end, 0) == e.end - 1 && OpenOf(text, e.end - 1, 0) == segs[k].end - 1
    ensures Layout(text, checked, code, segs[k := segs[k].(mate := |segs|)] + [e])
  {
    var segs' := segs[k := segs[k].(mate := |segs|)] + [e];
    assert SegsOK(text, checked, code, segs') by { SegsAppend(text, checked, code, segs, segs'); }
    assert Chained(segs') by { ChainAppend(segs, segs'); }
    assert PairsOK(text, code, segs') by { PairsClose(text, code, segs, k, e); }
  }

  ghost function HereOf(code: Code, insert: Label, curhead: Reg): Loc {
    Loc(insert, if insert < |code| then |code[insert].code| else 0, curhead)
  }

  ghost function EndOf(segs: seq<Seg>): nat {
    if segs == [] then 0 else segs[|segs| - 1].end
  }

  /** The emitted segments lead from the header to the insert point. */
  ghost predicate Reaches(checked: bool, segs: seq<Seg>, here: Loc) {
    if segs == [] then here == StartLoc(checked)
    else segs[0].start == 0 && segs[0].loc == StartLoc(checked) && segs[|segs| - 1].to == here
  }

  ghost predicate NoEof(segs: seq<Seg>) {
    forall k :: 0 <= k < |segs| ==> !segs[k].sym.SymEof?
  }

  /** The class invariant, on the field values. */
  ghost predicate ValidState(text: string, checked: bool, mem: nat, pos: nat, code: Code, insert: Label,
                             curhead: Reg, nextReg: Reg, segs: seq<Seg>) {
    && EndOf(segs) <= pos <= |text|
    && Writable(code, checked, insert) && HEAD <= curhead < nextReg
    && HeaderOK(code, checked, mem) && Layout(text, checked, code, segs)
    && Reaches(checked, segs, HereOf(code, insert, curhead)) && NoEof(segs)
  }

  ghost predicate Writable(code: Code, checked: bool, insert: Label) {
    insert < |code| && code[insert].term == Open && insert != ENDBB && (checked ==> insert != ABERRORBB)
  }

  /** One more segment, not a loop end, keeps the invariant. */
  lemma ExtendState(text: string, checked: bool, mem: nat, pos: nat, a: Code, b: Code, insert: Label, curhead: Reg,
                    nextReg: Reg, segs: seq<Seg>, s: Seg, insert': Label, curhead': Reg, nextReg': Reg)
    requires ValidState(text, checked, mem, pos, a, insert, curhead, nextReg, segs)
    requires Extends(a, b) && SegOK(b, checked, s) && SegText(text, s) && s.end <= pos
    requires s.start == EndOf(segs) && s.loc == HereOf(a, insert, curhead) && s.to == HereOf(b, insert', curhead')
    requires !s.sym.SymEndLoop? && !s.sym.SymEof? && s.mate == -1
    requires Writable(b, checked, insert') && HEAD <= curhead' < nextReg'
    ensures ValidState(text, checked, mem, pos, b, insert', curhead', nextReg', segs + [s])
  {
    assert Layout(text, checked, b, segs + [s]) by {
      LayoutStable(text, checked, a, b, segs);
      LayoutAppend(text, checked, b, segs, s);
    }
    HeaderStable(a, b, checked, mem);
  }

  /** The compiler object. `pos` is how much of the text has been read; `segs`
      records, in text order, what has been emitted so far. */
  class BrainF {
    const text: string
    const memtotal: nat
    const checked: bool
    var pos: nat
    var code: Code
    var insert: Label
    var curhead: Reg
    var nextReg: Reg
    ghost var segs: seq<Seg>

    ghost function Here(): Loc
      reads this
    {
      HereOf(code, insert, curhead)
    }

    /** The text position up to which code has been emitted. */
    ghost function Emitted(): nat
      reads this
    {
      EndOf(segs)
    }

    ghost predicate Valid()
      reads this
    {
      ValidState(text, checked, memtotal, pos, code, insert, curhead, nextReg, segs)
    }

    /** Everything but the current block and the new blocks is as before. */
    twostate predicate OnlyGrew(test: Label)
      reads this
    {
      |old(code)| <= |code| &&
      (forall l {:trigger code[l]} {:trigger old(code)[l]} ::
         0 <= l < |old(code)| && l != old(insert) && l != test ==> code[l] == old(code)[l])
    }

    constructor (text: string, mem: nat, cf: bool)
      ensures this.text == text && memtotal == mem && checked == cf
      ensures Valid() && pos == 0 && segs == []
    {
      this.text, memtotal, checked := text, mem, cf;
      pos, segs := 0, [];
      insert, curhead, nextReg := ENTRYBB, HEAD, HEAD + 1;
      // the entry block, brainf.end and, with bounds tests, brainf.aberror
      code := [Block([], HeaderCode(cf, mem), Open), Block([], [Free(ARR)], Ret)]
              + (if cf then [Block([], [Puts], Br(ENDBB))] else []);
    }

    /** builder->CreateX(...): append to the block at the insert point. */
    method Create(i: Instr)
      requires insert < |code| && code[insert].term == Open
      modifies this`code
      ensures code == old(code)[insert := old(code)[insert].(code := old(code)[insert].code + [i])]
    {
      code := code[insert := code[insert].(code := code[insert].code + [i])];
    }

    method Terminate(t: Terminator)
      requires insert < |code| && code[insert].term == Open
      modifies this`code
      ensures code == old(code)[insert := old(code)[insert].(term := t)]
    {
      code := code[insert := code[insert].(term := t)];
    }

    method NewReg() returns (r: Reg)
      modifies this`nextReg
      ensures r == old(nextReg) && nextReg == old(nextReg) + 1
    {
      r, nextReg := nextReg, nextReg + 1;
    }

    /** What emitting one straight-line symbol does. */
    twostate predicate EmittedPlain(sym: Symbol, val: int, q: nat)
      reads this
    {
      Valid() && pos == old(pos) && nextReg >= old(nextReg) && segs != [] && segs == old(segs) + [segs[|segs| - 1]] &&
      OnlyGrew(|old(code)|) &&
      (insert == old(insert) || insert >= |old(code)|) &&
      segs[|segs| - 1].sym == sym && segs[|segs| - 1].mate == -1 && Emitted() == q
    }

    method EmitRead(ghost q: nat)
      requires Valid() && q <= pos && Spells(text, Emitted(), q, SymRead, 0)
      modifies this
      ensures EmittedPlain(SymRead, 0, q)
    {
      hide Layout, Spells, HeaderOK, Reaches, NoEof;
      ghost var was, here := code, Here();
      var tape0 := NewReg();
      Create(GetChar(tape0));
      var tape1 := NewReg();
      Create(Trunc8(tape1, tape0));
      Create(Store(tape1, curhead));
      AppendThree(was[insert].code, GetChar(tape0), Trunc8(tape1, tape0), Store(tape1, curhead));
      PlainState(text, checked, memtotal, pos, was, code, insert, curhead, tape0, segs, SymRead, 0, q);
      segs := segs + [Seg(Emitted(), q, SymRead, 0, here, Here(), tape0, NoLoop, -1)];
    }

    method EmitWrite(ghost q: nat)
      requires Valid() && q <= pos && Spells(text, Emitted(), q, SymWrite, 0)
      modifies this
      ensures EmittedPlain(SymWrite, 0, q)
    {
      hide Layout, Spells, HeaderOK, Reaches, NoEof;
      ghost var was, here := code, Here();
      var tape0 := NewReg();
      Create(Load(tape0, curhead));
      var tape1 := NewReg();
      Create(SExt32(tape1, tape0));
      Create(PutChar(tape1));
      AppendThree(was[insert].code, Load(tape0, curhead), SExt32(tape1, tape0), PutChar(tape1));
      PlainState(text, checked, memtotal, pos, was, code, insert, curhead, tape0, segs, SymWrite, 0, q);
      segs := segs + [Seg(Emitted(), q, SymWrite, 0, here, Here(), tape0, NoLoop, -1)];
    }

    method EmitChange(curvalue: int, ghost q: nat)
      requires Valid() && q <= pos && Spells(text, Emitted(), q, SymChange, curvalue)
      modifies this
      ensures EmittedPlain(SymChange, curvalue, q)
    {
      hide Layout, Spells, HeaderOK, Reaches, NoEof;
      ghost var was, here := code, Here();
      var tape0 := NewReg();
      Create(Load(tape0, curhead));
      var tape1 := NewReg();
      Create(Add8(tape1, tape0, curvalue));
      Create(Store(tape1, curhead));
      AppendThree(was[insert].code, Load(tape0, curhead), Add8(tape1, tape0, curvalue), Store(tape1, curhead));
      PlainState(text, checked, memtotal, pos, was, code, insert, curhead, tape0, segs, SymChange, curvalue, q);
      segs := segs + [Seg(Emitted(), q, SymChange, curvalue, here, Here(), tape0, NoLoop, -1)];
    }

    method EmitMove(curvalue: int, ghost q: nat)
      requires Valid() && q <= pos && Spells(text, Emitted(), q, SymMove, curvalue) && RunEnds(text, q)
      modifies this
      ensures EmittedPlain(SymMove, curvalue, q)
    {
      hide Layout, Spells, HeaderOK, Reaches, NoEof;
      ghost var was, here := code, Here();
      var head := NewReg();
      Create(Gep(head, curhead, curvalue));
      if checked {
        var nextbb := EmitTest(head);
        CheckedMoveState(text, memtotal, pos, was, code, here.at, curhead, head, segs, curvalue, q);
      } else {
        FreeMoveState(text, memtotal, pos, was, code, insert, curhead, head, segs, curvalue, q);
      }
      curhead := head;
      segs := segs + [Seg(Emitted(), q, SymMove, curvalue, here, Here(), head, NoLoop, -1)];
    }

    /** '[': branch to a new test block whose phi is left half-finished, go on in the body. */
    method BeginLoop(ghost q: nat) returns (phi: Reg, oldbb: Label, testbb: Label)
      requires Valid() && q <= pos && Spells(text, Emitted(), q, SymLoop, 0)
      modifies this
      ensures EmittedPlain(SymLoop, 0, q)
      ensures OpenLoop(segs, |segs| - 1, code, phi, oldbb, testbb)
      ensures testbb >= |old(code)| && insert == oldbb >= |old(code)| && oldbb != testbb && phi < nextReg
    {
      hide Layout, Spells, HeaderOK, Reaches, NoEof;
      ghost var was, here := code, Here();
      testbb := |code|;
      code := code + [Block([], [], Open)];
      Terminate(Br(testbb));
      var bb0 := insert;
      oldbb := |code|;
      code := code + [Block([], [], Open)];
      insert := oldbb;
      phi := NewReg();
      code := code[testbb := code[testbb].(phis := [Phi(phi, [Incoming(curhead, bb0)])])];
      BeginState(text, checked, memtotal, pos, was, code, bb0, curhead, phi, segs, q);
      curhead := phi;
      segs := segs + [Seg(Emitted(), q, SymLoop, 0, here, Here(), phi, LoopInfo(testbb, phi, oldbb), -1)];
    }

    /** ']': finish the phi and the test block, go on in a new block behind the loop. */
    method FinishLoop(phi: Reg, oldbb: Label, testbb: Label, ghost k: nat, ghost q: nat)
      requires Valid() && q <= pos && Spells(text, Emitted(), q, SymEndLoop, 0)
      requires OpenLoop(segs, k, code, phi, oldbb, testbb) && testbb != insert && phi < nextReg
      requires 0 < segs[k].end <= q
      requires CloseOf(text, segs[k].end, 0) == q - 1 && OpenOf(text, q - 1, 0) == segs[k].end - 1
      modifies this
      ensures Valid() && pos == old(pos) && OnlyGrew(testbb) && Emitted() == q && insert >= |old(code)|
      ensures nextReg >= old(nextReg) && |segs| == |old(segs)| + 1
      ensures segs == old(segs)[k := old(segs)[k].(mate := |old(segs)|)] + [segs[|old(segs)|]]
      ensures segs[|old(segs)|].sym == SymEndLoop
    {
      hide Layout, Spells, HeaderOK, Reaches, NoEof;
      ghost var was, here := code, Here();
      Terminate(Br(testbb));
      var edge := Incoming(curhead, insert);
      code := code[testbb := code[testbb].(phis := [Phi(phi, code[testbb].phis[0].incoming + [edge])])];
      var tape0 := NewReg();
      var test0 := NewReg();
      code := code[testbb := code[testbb].(code := [Load(tape0, phi), CmpZero(test0, tape0)])];
      var bb0 := |code|;
      code := code + [Block([], [], Open)];
      code := code[testbb := code[testbb].(term := CondBr(test0, bb0, oldbb))];
      insert := bb0;
      var phi1 := NewReg();
      code := code[bb0 := code[bb0].(phis := [Phi(phi1, [Incoming(phi, testbb)])])];
      FinishState(text, checked, memtotal, pos, was, code, here.at, curhead, tape0, segs, k, phi, oldbb, testbb, q);
      curhead := phi1;
      segs := segs[k := segs[k].(mate := |segs|)]
              + [Seg(Emitted(), q, SymEndLoop, 0, here, Here(), tape0, LoopInfo(testbb, phi, oldbb), k)];
    }

    /** The stdin loop of readloop: complete the current symbol, looking at most one symbol ahead.
        The current symbol spells text[e..q] and the lookahead, if any, text[q..pos]. */
    method ReadSymbol(sym: Symbol, val: int, ghost e: nat)
      returns (cursym: Symbol, curvalue: int, nextsym: Symbol, nextvalue: int, ghost q: nat)
      requires pos <= |text| && Spells(text, e, pos, sym, val)
      modifies this`pos
      ensures old(pos) <= pos <= |text| && e <= q <= pos
      ensures Spells(text, e, q, cursym, curvalue) && !cursym.SymNone? && (cursym.SymMove? ==> RunEnds(text, q))
      ensures Spells(text, q, pos, nextsym, nextvalue) && (nextsym.SymNone? ==> q == pos)
      ensures !nextsym.SymNone? ==> cursym.SymMove? || cursym.SymChange?
      ensures e < q || cursym.SymEof?
    {
      hide Spells, RunEnds;
      cursym, curvalue, nextsym, nextvalue := sym, val, SymNone, 0;
      q := pos;
      var loop := cursym == SymNone || cursym == SymMove || cursym == SymChange;
      SpellsFacts(text, e, pos, sym, val);
      while loop
        invariant e <= q <= pos <= |text| && old(pos) <= pos
        invariant Spells(text, e, q, cursym, curvalue)
        invariant Spells(text, q, pos, nextsym, nextvalue) && (nextsym.SymNone? ==> q == pos)
        invariant loop ==> nextsym.SymNone? && nextvalue == 0 && (cursym.SymNone? || cursym.SymMove? || cursym.SymChange?)
        invariant !loop ==> !cursym.SymNone? && (cursym.SymMove? ==> RunEnds(text, q))
        invariant !nextsym.SymNone? ==> cursym.SymMove? || cursym.SymChange?
        decreases |text| - pos, loop
      {
        if pos == |text| {
          AtEof(text, e, cursym, curvalue, nextvalue);
          if cursym == SymNone { cursym := SymEof; } else { nextsym := SymEof; }
          loop := false;
        } else {
          var c := text[pos];
          pos := pos + 1;
          if c == '-' || c == '+' {
            var direction := if c == '-' then -1 else 1;
            OneChange(text, e, pos, cursym, curvalue, direction);
            if cursym == SymChange {
              curvalue := curvalue + direction;
              q := pos;
            } else if cursym == SymNone {
              cursym, curvalue := SymChange, direction;
              q := pos;
            } else {
              nextsym, nextvalue := SymChange, direction;
              loop := false;
            }
          } else if c == '<' || c == '>' {
            var direction := if c == '<' then -1 else 1;
            OneMove(text, e, pos, cursym, curvalue, direction);
            if cursym == SymMove {
              curvalue := curvalue + direction;
              q := pos;
            } else if cursym == SymNone {
              cursym, curvalue := SymMove, direction;
              q := pos;
            } else {
              nextsym, nextvalue := SymMove, direction;
              loop := false;
            }
          } else if c == ',' || c == '.' || c == '[' || c == ']' {
            var s := if c == ',' then SymRead else if c == '.' then SymWrite else if c == '[' then SymLoop else SymEndLoop;
            OneOther(text, e, pos, cursym, curvalue, s, nextvalue);
            if cursym == SymNone { cursym := s; q := pos; } else { nextsym := s; }
            loop := false;
          } else {
            OneComment(text, e, pos, cursym, curvalue);
            q := pos;
          }
        }
      }
      SpellsFacts(text, e, q, cursym, curvalue);
    }

    /** What a completed readloop call guarantees about the loop it was called for. */
    twostate predicate LoopClosed(testbb: Label, o: nat)
      requires old(segs) != []
      reads this
    {
      var n := |old(segs)|;
      Valid() && OnlyGrew(testbb) && old(pos) <= pos && Emitted() == pos && nextReg >= old(nextReg) &&
      (insert == old(insert) || insert >= |old(code)|) &&
      |segs| > n && segs[..n - 1] == old(segs)[..n - 1] && segs[n - 1] == old(segs)[n - 1].(mate := segs[n - 1].mate) &&
      AllClosed(segs, n - 1) &&
      0 < pos && CloseOf(text, o, 0) == pos - 1 && OpenOf(text, pos - 1, 0) == o - 1
    }

    /** readloop: compile up to the matching ']' (inLoop) or to the end of the text.
        `o` is the position just behind the '[' and `d` the number of open brackets. */
    method ReadLoop(inLoop: bool, phi: Reg, oldbb: Label, testbb: Label, ghost o: nat, ghost d: nat)
      returns (status: Status)
      requires Valid() && Emitted() == pos && (inLoop <==> d > 0)
      requires Nesting(text, 0, 0) == Nesting(text, pos, d)
      requires inLoop ==> |segs| > 0 && OpenLoop(segs, |segs| - 1, code, phi, oldbb, testbb) && phi < nextReg &&
                          testbb != insert && segs[|segs| - 1].end == o == pos > 0 && OpenOf(text, o, 0) == o - 1
      requires !inLoop ==> segs == []
      modifies this
      ensures status != Ok ==> Nesting(text, 0, 0) == status
      ensures status == Ok && inLoop ==>
                LoopClosed(testbb, o) && Nesting(text, 0, 0) == Nesting(text, pos, d - 1)
      ensures status == Ok && !inLoop ==>
                Nesting(text, 0, 0) == Ok && Complete(text, checked, memtotal, code, segs)
      decreases |text| - pos, 1
    {
      hide ValidState, Spells, CloseOf, OpenOf, Nesting, RunEnds, Complete;
      ghost var e, q;
      var cursym;
      status, cursym, e, q := ReadBody(d);
      if status != Ok { return; }
      if cursym == SymEndLoop {
        EndChunk(text, e, q, d);
        if !inLoop { return ExtraClose; }
        FinishLoop(phi, oldbb, testbb, |old(segs)| - 1, q);
        return Ok;
      }
      EofChunk(text, e, d);
      status := FinishProgram(d, inLoop);
    }

    /** The while loop of readloop: everything up to an unmatched ']' or the end of the text. */
    method ReadBody(ghost d: nat) returns (status: Status, cursym: Symbol, ghost e: nat, ghost q: nat)
      requires Valid() && Emitted() == pos && Nesting(text, 0, 0) == Nesting(text, pos, d)
      modifies this
      ensures status != Ok ==> Nesting(text, 0, 0) == status
      ensures status == Ok ==> BodyRead(e) && (cursym.SymEof? || cursym.SymEndLoop?) && e <= q == pos <= |text|
      ensures status == Ok ==> Spells(text, e, q, cursym, 0) && (cursym.SymEof? ==> q == |text|)
      ensures status == Ok ==> Nesting(text, 0, 0) == Nesting(text, e, d)
      decreases |text| - pos, 0
    {
      hide ValidState, Spells, CloseOf, OpenOf, Nesting, RunEnds, EndOf, AllClosed;
      PosInText(text, checked, memtotal, pos, code, insert, curhead, nextReg, segs);
      var curvalue, nextsym, nextvalue := 0, SymNone, 0;
      cursym, status, e, q := SymNone, Ok, pos, pos;
      EmptySpells(text, pos);
      ClosedOn(segs, segs, |segs|);
      while cursym != SymEof && cursym != SymEndLoop
        invariant BodyRead(e) && e <= q <= pos <= |text|
        invariant Spells(text, e, q, cursym, curvalue) && (cursym.SymMove? ==> RunEnds(text, q))
        invariant Spells(text, q, pos, nextsym, nextvalue) && (nextsym.SymNone? ==> q == pos)
        invariant !nextsym.SymNone? ==> cursym.SymMove? || cursym.SymChange?
        invariant e < q || cursym.SymEof? || cursym.SymNone?
        invariant cursym.SymNone? ==> e == old(pos) == pos
        invariant status == Ok && Nesting(text, 0, 0) == Nesting(text, e, d)
        decreases |text| - e, cursym.SymNone?
      {
        if cursym != SymNone {
          ghost var segs0 := segs;
          status := CompileSymbol(cursym, curvalue, e, q, d);
          if status != Ok { return; }
          ClosedOn(segs0, segs, |old(segs)|);
          if cursym == SymLoop { q := pos; }
        }
        e := q;
        ghost var at := pos;
        PosInText(text, checked, memtotal, at, code, insert, curhead, nextReg, segs);
        if cursym == SymLoop { EmptySpells(text, pos); }
        cursym, curvalue, nextsym, nextvalue, q := ReadSymbol(nextsym, nextvalue, q);
        PosMoves(text, checked, memtotal, at, pos, code, insert, curhead, nextReg, segs);
      }
      AnyValue(text, e, q, cursym, curvalue);
    }

    /** text[old(pos)..e] has been compiled; brackets in it are matched. */
    twostate predicate BodyRead(e: nat)
      reads this
    {
      Valid() && Emitted() == e && old(pos) <= e <= |text| && old(pos) <= |text| && nextReg >= old(nextReg) &&
      OnlyGrew(|old(code)|) && (insert == old(insert) || insert >= |old(code)|) &&
      |segs| >= |old(segs)| && segs[..|old(segs)|] == old(segs) && AllClosed(segs, |old(segs)|) &&
      CloseOf(text, old(pos), 0) == CloseOf(text, e, 0) && OpenOf(text, e, 0) == OpenOf(text, old(pos), 0)
    }

    /** The switch of readloop: write out one symbol. */
    method CompileSymbol(cursym: Symbol, curvalue: int, ghost e: nat, ghost q: nat, ghost d: nat)
      returns (status: Status)
      requires Valid() && Emitted() == e < q <= pos && Spells(text, e, q, cursym, curvalue)
      requires Plain(cursym) || (cursym.SymLoop? && q == pos)
      requires cursym.SymMove? ==> RunEnds(text, q)
      requires Nesting(text, 0, 0) == Nesting(text, e, d)
      modifies this
      ensures status != Ok ==> Nesting(text, 0, 0) == status
      ensures status == Ok ==> Compiled(e, if cursym.SymLoop? then pos else q)
      ensures status == Ok ==> Nesting(text, 0, 0) == Nesting(text, Emitted(), d)
      ensures status == Ok && !cursym.SymLoop? ==> pos == old(pos)
      decreases |text| - pos, 3
    {
      hide ValidState, Spells, CloseOf, OpenOf, Nesting, RunEnds;
      PosInText(text, checked, memtotal, pos, code, insert, curhead, nextReg, segs);
      if !cursym.SymMove? && !cursym.SymChange? { AnyValue(text, e, q, cursym, curvalue); }
      status := Ok;
      match cursym {
        case SymRead => EmitRead(q);
        case SymWrite => EmitWrite(q);
        case SymMove => EmitMove(curvalue, q);
        case SymChange => EmitChange(curvalue, q);
        case SymLoop => status := CompileLoop(e, q, d);
      }
      if Plain(cursym) { PlainChunk(text, e, q, cursym, curvalue, d); }
    }

    /** The SYM_LOOP case of readloop. */
    method CompileLoop(ghost e: nat, ghost q: nat, ghost d: nat) returns (status: Status)
      requires Valid() && Emitted() == e < q == pos && Spells(text, e, q, SymLoop, 0)
      requires Nesting(text, 0, 0) == Nesting(text, e, d)
      modifies this
      ensures status != Ok ==> Nesting(text, 0, 0) == status
      ensures status == Ok ==> Compiled(e, pos) && Nesting(text, 0, 0) == Nesting(text, pos, d)
      decreases |text| - pos, 2
    {
      hide Layout, Spells, HeaderOK, Reaches, NoEof, CloseOf, OpenOf, Nesting;
      LoopChunk(text, e, q, d);
      var phi, oldbb, testbb := BeginLoop(q);
      status := ReadLoop(true, phi, oldbb, testbb, q, d + 1);
      if status == Ok {
        CloseBounds(text, q, 0);
        LoopSkipped(text, e, q, pos - 1);
      }
    }

    /** text[e..x] has been compiled without disturbing what was there. */
    twostate predicate Compiled(e: nat, x: nat)
      reads this
    {
      Valid() && OnlyGrew(|old(code)|) && old(pos) <= pos && e < Emitted() == x && nextReg >= old(nextReg) &&
      (insert == old(insert) || insert >= |old(code)|) &&
      |segs| >= |old(segs)| && segs[..|old(segs)|] == old(segs) && AllClosed(segs, |old(segs)|) &&
      x <= |text| && CloseOf(text, e, 0) == CloseOf(text, x, 0) && OpenOf(text, x, 0) == OpenOf(text, e, 0)
    }

    /** The end of the text: branch to brainf.end, then complain if a loop is still open. */
    method FinishProgram(ghost d: nat, inLoop: bool) returns (status: Status)
      requires Valid() && Spells(text, Emitted(), |text|, SymEof, 0) && pos == |text|
      requires !inLoop ==> AllClosed(segs, 0)
      modifies this
      ensures status == if inLoop then MissingClose else Ok
      ensures !inLoop ==> Complete(text, checked, memtotal, code, segs)
    {
      hide Layout, Spells, HeaderOK;
      ghost var was, here := code, Here();
      Terminate(Br(ENDBB));
      if inLoop { return MissingClose; }
      EofState(text, checked, memtotal, pos, was, code, insert, curhead, nextReg, segs);
      segs := segs + [Seg(Emitted(), |text|, SymEof, 0, here, here, nextReg, NoLoop, -1)];
      return Ok;
    }

    /** parse, after the constructor has run header: compile the text, or abort on unbalanced brackets. */
    method Parse() returns (status: Status)
      requires Valid() && pos == 0 && segs == []
      modifies this
      ensures status == Ok <==> Balanced(text)
      ensures status == Nesting(text, 0, 0)
      ensures status == Ok ==> Complete(text, checked, memtotal, code, segs)
    {
      status := ReadLoop(false, 0, 0, 0, 0, 0);
      NestingIsBalance(text);
    }

    /** The bounds test after a move: leave for brainf.aberror or go on in a new block. */
    method EmitTest(head: Reg) returns (nextbb: Label)
      requires insert < |code| && code[insert].term == Open && head + 1 == nextReg
      modifies this`code, this`nextReg, this`insert
      ensures nextbb == |old(code)| == insert && nextReg == old(nextReg) + 3
      ensures |code| == |old(code)| + 1 && code[nextbb] == Block([], [], Open)
      ensures code[old(insert)] ==
              old(code)[old(insert)].(code := old(code)[old(insert)].code + TestCode(head),
                                      term := CondBr(head + 3, ABERRORBB, nextbb))
      ensures forall l :: 0 <= l < |old(code)| && l != old(insert) ==> code[l] == old(code)[l]
    {
      ghost var was := code[insert].code;
      var test0 := NewReg();
      Create(CmpUGE(test0, head, ARRMAX));
      var test1 := NewReg();
      Create(CmpULT(test1, head, ARR));
      var test2 := NewReg();
      Create(Or(test2, test0, test1));
      AppendThree(was, CmpUGE(test0, head, ARRMAX), CmpULT(test1, head, ARR), Or(test2, test0, test1));
      nextbb := |code|;
      Terminate(CondBr(test2, ABERRORBB, nextbb));
      code := code + [Block([], [], Open)];
      insert := nextbb;
    }
  }

  function TestCode(head: Reg): seq<Instr> {
    [CmpUGE(head + 1, head, ARRMAX), CmpULT(head + 2, head, ARR), Or(head + 3, head + 1, head + 2)]
  }

  lemma MovedInto(a: Code, b: Code, here: Loc, nextbb: Label, val: int, head: Reg)
    requires here.at < |a| && a[here.at].term == Open && here.idx == |a[here.at].code|
    requires nextbb == |a| && |b| == |a| + 1 && b[nextbb] == Block([], [], Open)
    requires b[here.at] == a[here.at].(code := a[here.at].code + [Gep(head, here.head, val)] + TestCode(head),
                                       term := CondBr(head + 3, ABERRORBB, nextbb))
    requires forall l :: 0 <= l < |a| && l != here.at ==> b[l] == a[l]
    ensures Extends(a, b) && HasCode(b, here, PlainCode(true, SymMove, val, here.head, head))
  {
    assert [Gep(head, here.head, val)] + TestCode(head) == PlainCode(true, SymMove, val, here.head, head);
    assert a[here.at].code + [Gep(head, here.head, val)] + TestCode(head)
        == a[here.at].code + PlainCode(true, SymMove, val, here.head, head);
  }

  lemma HeaderStable(a: Code, b: Code, checked: bool, mem: nat)
    requires Extends(a, b) && HeaderOK(a, checked, mem)
    ensures HeaderOK(b, checked, mem)
  {
    assert BlockExtends(a[ENTRYBB], b[ENTRYBB]) && BlockExtends(a[ENDBB], b[ENDBB]);
    if checked { assert BlockExtends(a[ABERRORBB], b[ABERRORBB]); }
  }

  /** Code appended at the insert point is where it should be. */
  lemma Grown(a: Code, b: Code, here: Loc, ins: seq<Instr>)
    requires here.at < |a| && a[here.at].term == Open && here.idx == |a[here.at].code|
    requires |b| == |a| && b[here.at] == a[here.at].(code := a[here.at].code + ins)
    requires forall l :: 0 <= l < |a| && l != here.at ==> b[l] == a[l]
    ensures Extends(a, b) && HasCode(b, here, ins)
  {}

  lemma AppendThree(s: seq<Instr>, a: Instr, b: Instr, c: Instr)
    ensures s + [a] + [b] + [c] == s + [a, b, c]
  {}

  lemma PlainState(text: string, checked: bool, mem: nat, pos: nat, a: Code, b: Code, insert: Label, curhead: Reg,
                   r: Reg, segs: seq<Seg>, sym: Symbol, val: int, q: nat)
    requires ValidState(text, checked, mem, pos, a, insert, curhead, r, segs)
    requires sym.SymRead? || sym.SymWrite? || sym.SymChange?
    requires q <= pos && Spells(text, EndOf(segs), q, sym, val)
    requires |b| == |a| && b[insert] == a[insert].(code := a[insert].code + PlainCode(checked, sym, val, curhead, r))
    requires forall l :: 0 <= l < |a| && l != insert ==> b[l] == a[l]
    ensures ValidState(text, checked, mem, pos, b, insert, curhead, r + 2,
                       segs + [Seg(EndOf(segs), q, sym, val, HereOf(a, insert, curhead), HereOf(b, insert, curhead), r, NoLoop, -1)])
  {
    var s := Seg(EndOf(segs), q, sym, val, HereOf(a, insert, curhead), HereOf(b, insert, curhead), r, NoLoop, -1);
    Grown(a, b, s.loc, PlainCode(checked, sym, val, curhead, r));
    ExtendState(text, checked, mem, pos, a, b, insert, curhead, r, segs, s, insert, curhead, r + 2);
  }

  lemma FreeMoveState(text: string, mem: nat, pos: nat, a: Code, b: Code, insert: Label, curhead: Reg,
                      r: Reg, segs: seq<Seg>, val: int, q: nat)
    requires ValidState(text, false, mem, pos, a, insert, curhead, r, segs)
    requires q <= pos && Spells(text, EndOf(segs), q, SymMove, val) && RunEnds(text, q)
    requires |b| == |a| && b[insert] == a[insert].(code := a[insert].code + [Gep(r, curhead, val)])
    requires forall l :: 0 <= l < |a| && l != insert ==> b[l] == a[l]
    ensures ValidState(text, false, mem, pos, b, insert, r, r + 1,
                       segs + [Seg(EndOf(segs), q, SymMove, val, HereOf(a, insert, curhead), HereOf(b, insert, r), r, NoLoop, -1)])
  {
    var s := Seg(EndOf(segs), q, SymMove, val, HereOf(a, insert, curhead), HereOf(b, insert, r), r, NoLoop, -1);
    Grown(a, b, s.loc, PlainCode(false, SymMove, val, curhead, r));
    ExtendState(text, false, mem, pos, a, b, insert, curhead, r, segs, s, insert, r, r + 1);
  }

  lemma CheckedMoveState(text: string, mem: nat, pos: nat, a: Code, b: Code, insert: Label, curhead: Reg,
                         r: Reg, segs: seq<Seg>, val: int, q: nat)
    requires ValidState(text, true, mem, pos, a, insert, curhead, r, segs)
    requires q <= pos && Spells(text, EndOf(segs), q, SymMove, val) && RunEnds(text, q)
    requires |b| == |a| + 1 && b[|a|] == Block([], [], Open)
    requires b[insert] == a[insert].(code := a[insert].code + [Gep(r, curhead, val)] + TestCode(r),
                                     term := CondBr(r + 3, ABERRORBB, |a|))
    requires forall l :: 0 <= l < |a| && l != insert ==> b[l] == a[l]
    ensures ValidState(text, true, mem, pos, b, |a|, r, r + 4,
                       segs + [Seg(EndOf(segs), q, SymMove, val, HereOf(a, insert, curhead), HereOf(b, |a|, r), r, NoLoop, -1)])
  {
    var s := Seg(EndOf(segs), q, SymMove, val, HereOf(a, insert, curhead), HereOf(b, |a|, r), r, NoLoop, -1);
    MovedInto(a, b, s.loc, |a|, val, r);
    ExtendState(text, true, mem, pos, a, b, insert, curhead, r, segs, s, |a|, r, r + 4);
  }

  /** Segment k is a loop whose end has not been compiled yet. */
  ghost predicate OpenLoop(segs: seq<Seg>, k: nat, code: Code, phi: Reg, oldbb: Label, testbb: Label) {
    k < |segs| && segs[k].sym.SymLoop? && segs[k].mate == -1 && segs[k].loop == LoopInfo(testbb, phi, oldbb) &&
    testbb < |code| && code[testbb] == Block([Phi(phi, [Incoming(segs[k].loc.head, segs[k].loc.at)])], [], Open)
  }

  lemma BeginState(text: string, checked: bool, mem: nat, pos: nat, a: Code, b: Code, insert: Label, curhead: Reg,
                   r: Reg, segs: seq<Seg>, q: nat)
    requires ValidState(text, checked, mem, pos, a, insert, curhead, r, segs)
    requires q <= pos && Spells(text, EndOf(segs), q, SymLoop, 0)
    requires |b| == |a| + 2 && b[insert] == a[insert].(term := Br(|a|)) && b[|a| + 1] == Block([], [], Open)
    requires b[|a|] == Block([Phi(r, [Incoming(curhead, insert)])], [], Open)
    requires forall l :: 0 <= l < |a| && l != insert ==> b[l] == a[l]
    ensures ValidState(text, checked, mem, pos, b, |a| + 1, r, r + 1,
                       segs + [Seg(EndOf(segs), q, SymLoop, 0, HereOf(a, insert, curhead), HereOf(b, |a| + 1, r), r,
                                   LoopInfo(|a|, r, |a| + 1), -1)])
  {
    hide Layout;
    var s := Seg(EndOf(segs), q, SymLoop, 0, HereOf(a, insert, curhead), HereOf(b, |a| + 1, r), r,
                 LoopInfo(|a|, r, |a| + 1), -1);
    assert Extends(a, b) by {
      forall l | 0 <= l < |a| ensures BlockExtends(a[l], b[l]) {
        if l != insert { assert b[l] == a[l]; }
      }
    }
    ExtendState(text, checked, mem, pos, a, b, insert, curhead, r, segs, s, |a| + 1, r, r + 1);
  }

  /** What FinishLoop does to the code. */
  ghost predicate Finished(a: Code, b: Code, insert: Label, curhead: Reg, r: Reg, phi: Reg, oldbb: Label, testbb: Label) {
    |b| == |a| + 1 && insert < |a| && testbb < |a| && testbb != insert &&
    b[insert] == a[insert].(term := Br(testbb)) &&
    |a[testbb].phis| == 1 &&
    b[testbb] == Block([Phi(phi, a[testbb].phis[0].incoming + [Incoming(curhead, insert)])],
                       [Load(r, phi), CmpZero(r + 1, r)], CondBr(r + 1, |a|, oldbb)) &&
    b[|a|] == Block([Phi(r + 2, [Incoming(phi, testbb)])], [], Open) &&
    forall l :: 0 <= l < |a| && l != insert && l != testbb ==> b[l] == a[l]
  }

  lemma FinishExtends(a: Code, b: Code, insert: Label, curhead: Reg, r: Reg, phi: Reg, oldbb: Label, testbb: Label)
    requires Finished(a, b, insert, curhead, r, phi, oldbb, testbb)
    requires a[insert].term == Open && a[testbb].term == Open && a[testbb].code == [] && a[testbb].phis[0].dst == phi
    ensures Extends(a, b)
  {
    forall l | 0 <= l < |a| ensures BlockExtends(a[l], b[l]) {
      if l != insert && l != testbb { assert b[l] == a[l]; }
    }
  }

  lemma FinishState(text: string, checked: bool, mem: nat, pos: nat, a: Code, b: Code, insert: Label, curhead: Reg,
                    r: Reg, segs: seq<Seg>, k: nat, phi: Reg, oldbb: Label, testbb: Label, q: nat)
    requires ValidState(text, checked, mem, pos, a, insert, curhead, r, segs)
    requires q <= pos && Spells(text, EndOf(segs), q, SymEndLoop, 0)
    requires OpenLoop(segs, k, a, phi, oldbb, testbb) && testbb != insert && phi < r
    requires 0 < segs[k].end <= q
    requires CloseOf(text, segs[k].end, 0) == q - 1 && OpenOf(text, q - 1, 0) == segs[k].end - 1
    requires Finished(a, b, insert, curhead, r, phi, oldbb, testbb)
    ensures ValidState(text, checked, mem, pos, b, |a|, r + 2, r + 3,
                       segs[k := segs[k].(mate := |segs|)]
                       + [Seg(EndOf(segs), q, SymEndLoop, 0, HereOf(a, insert, curhead), HereOf(b, |a|, r + 2), r,
                              LoopInfo(testbb, phi, oldbb), k)])
  {
    hide Layout, NoEof;
    var e := Seg(EndOf(segs), q, SymEndLoop, 0, HereOf(a, insert, curhead), HereOf(b, |a|, r + 2), r,
                 LoopInfo(testbb, phi, oldbb), k);
    var segs' := segs[k := segs[k].(mate := |segs|)] + [e];
    FinishExtends(a, b, insert, curhead, r, phi, oldbb, testbb);
    HeaderStable(a, b, checked, mem);
    OpenSegFacts(text, checked, a, segs, k);
    assert TestOK(b, segs[k], e) by {
      assert [Incoming(segs[k].loc.head, segs[k].loc.at)] + [Incoming(curhead, insert)]
          == [Incoming(segs[k].loc.head, segs[k].loc.at), Incoming(curhead, insert)];
    }
    assert Layout(text, checked, b, segs') by {
      LayoutStable(text, checked, a, b, segs);
      LayoutClose(text, checked, b, segs, k, e);
    }
    NoEofClose(segs, k, e);
  }

  lemma NoEofClose(segs: seq<Seg>, k: nat, e: Seg)
    requires NoEof(segs) && k < |segs| && !e.sym.SymEof?
    ensures NoEof(segs[k := segs[k].(mate := |segs|)] + [e])
  {}

  lemma OpenSegFacts(text: string, checked: bool, code: Code, segs: seq<Seg>, k: nat)
    requires Layout(text, checked, code, segs) && k < |segs| && segs[k].sym.SymLoop?
    ensures SegOK(code, checked, segs[k])
  {}

  ghost predicate AllClosed(segs: seq<Seg>, from: int) {
    forall k :: 0 <= k < |segs| && k >= from && segs[k].sym.SymLoop? ==> segs[k].mate >= 0
  }

  lemma ClosedOn(segs: seq<Seg>, segs': seq<Seg>, n: nat)
    requires n <= |segs| <= |segs'| && segs'[..|segs|] == segs
    ensures AllClosed(segs, |segs|)
    ensures AllClosed(segs, n) && AllClosed(segs', |segs|) ==> AllClosed(segs', n)
  {}

  lemma EmptySpells(text: string, p: nat)
    requires p <= |text|
    ensures forall v :: Spells(text, p, p, SymNone, v)
  {}

  lemma EofState(text: string, checked: bool, mem: nat, pos: nat, a: Code, b: Code, insert: Label, curhead: Reg,
                 r: Reg, segs: seq<Seg>)
    requires ValidState(text, checked, mem, pos, a, insert, curhead, r, segs) && AllClosed(segs, 0)
    requires Spells(text, EndOf(segs), |text|, SymEof, 0)
    requires |b| == |a| && b[insert] == a[insert].(term := Br(ENDBB))
    requires forall l :: 0 <= l < |a| && l != insert ==> b[l] == a[l]
    ensures Complete(text, checked, mem, b,
                     segs + [Seg(EndOf(segs), |text|, SymEof, 0, HereOf(a, insert, curhead), HereOf(a, insert, curhead),
                                 r, NoLoop, -1)])
  {
    hide Layout, Spells;
    var here := HereOf(a, insert, curhead);
    var s := Seg(EndOf(segs), |text|, SymEof, 0, here, here, r, NoLoop, -1);
    assert Extends(a, b) by {
      forall l | 0 <= l < |a| ensures BlockExtends(a[l], b[l]) {
        if l != insert { assert b[l] == a[l]; }
      }
    }
    assert Layout(text, checked, b, segs + [s]) by {
      LayoutStable(text, checked, a, b, segs);
      LayoutAppend(text, checked, b, segs, s);
    }
    HeaderStable(a, b, checked, mem);
  }

  lemma PosInText(text: string, checked: bool, mem: nat, pos: nat, code: Code, insert: Label, curhead: Reg,
                  nextReg: Reg, segs: seq<Seg>)
    requires ValidState(text, checked, mem, pos, code, insert, curhead, nextReg, segs)
    ensures pos <= |text| && insert < |code|
  {}

  lemma PosMoves(text: string, checked: bool, mem: nat, pos: nat, pos': nat, code: Code, insert: Label, curhead: Reg,
                 nextReg: Reg, segs: seq<Seg>)
    requires ValidState(text, checked, mem, pos, code, insert, curhead, nextReg, segs) && pos <= pos' <= |text|
    ensures ValidState(text, checked, mem, pos', code, insert, curhead, nextReg, segs)
  {}

  /** Only moves and changes carry a value. */
  lemma AnyValue(text: string, p: nat, q: nat, sym: Symbol, val: int)
    requires Spells(text, p, q, sym, val) && !sym.SymMove? && !sym.SymChange?
    ensures Spells(text, p, q, sym, 0)
    ensures sym.SymEof? ==> q == |text|
  {}

  // ---- brackets met on the way ---------------------------------------------

  lemma PlainChunk(text: string, e: nat, q: nat, sym: Symbol, val: int, d: nat)
    requires Spells(text, e, q, sym, val) && Plain(sym)
    ensures Nesting(text, e, d) == Nesting(text, q, d)
    ensures CloseOf(text, e, 0) == CloseOf(text, q, 0) && OpenOf(text, q, 0) == OpenOf(text, e, 0)
  {
    assert NoBrackets(text, e, q);
    SkipPlain(text, e, q, d);
    SkipPlain(text, e, q, 0);
  }

  lemma LoopChunk(text: string, e: nat, q: nat, d: nat)
    requires Spells(text, e, q, SymLoop, 0)
    ensures 0 < q && Nesting(text, e, d) == Nesting(text, q, d + 1)
    ensures CloseOf(text, e, 0) == CloseOf(text, q, 1)
    ensures OpenOf(text, q, 0) == q - 1 && OpenOf(text, q - 1, 0) == OpenOf(text, e, 0)
  {
    SkipPlain(text, e, q - 1, d);
    SkipPlain(text, e, q - 1, 0);
  }

  lemma EndChunk(text: string, e: nat, q: nat, d: nat)
    requires Spells(text, e, q, SymEndLoop, 0)
    ensures 0 < q && Nesting(text, e, d) == if d == 0 then ExtraClose else Nesting(text, q, d - 1)
    ensures CloseOf(text, e, 0) == q - 1 && OpenOf(text, q - 1, 0) == OpenOf(text, e, 0)
  {
    SkipPlain(text, e, q - 1, d);
    SkipPlain(text, e, q - 1, 0);
  }

  lemma EofChunk(text: string, e: nat, d: nat)
    requires Spells(text, e, |text|, SymEof, 0)
    ensures Nesting(text, e, d) == if d == 0 then Ok else MissingClose
  {
    SkipPlain(text, e, |text|, d);
  }

  /** A loop text[e..j] that opens at q - 1 and closes at j is invisible from outside. */
  lemma LoopSkipped(text: string, e: nat, q: nat, j: nat)
    requires Spells(text, e, q, SymLoop, 0) && q <= j < |text|
    requires CloseOf(text, q, 0) == j && OpenOf(text, j, 0) == q - 1
    ensures CloseOf(text, e, 0) == CloseOf(text, j + 1, 0) && OpenOf(text, j + 1, 0) == OpenOf(text, e, 0)
  {
    LoopChunk(text, e, q, 0);
    CloseBounds(text, q, 0);
    SkipClosed(text, q, 0, 0);
    SkipOpened(text, j, 0, 0);
  }

  // ---- how spelled symbols grow by one character --------------------------

  lemma SpellsFacts(text: string, e: nat, q: nat, sym: Symbol, val: int)
    requires Spells(text, e, q, sym, val)
    ensures e <= q && Spells(text, q, q, SymNone, 0)
    ensures e < q || sym.SymNone? || sym.SymEof?
  {
    if sym.SymMove? {
      var i :| e <= i < q && IsMove(text[i]);
    }
  }

  lemma AtEof(text: string, e: nat, sym: Symbol, val: int, v: int)
    requires Spells(text, e, |text|, sym, val)
    ensures RunEnds(text, |text|) && Spells(text, |text|, |text|, SymEof, v)
    ensures sym.SymNone? ==> Spells(text, e, |text|, SymEof, val)
  {}

  lemma OneComment(text: string, e: nat, q: nat, sym: Symbol, val: int)
    requires 0 < q <= |text| && Spells(text, e, q - 1, sym, val) && !IsCommand(text[q - 1])
    requires sym.SymNone? || sym.SymMove? || sym.SymChange?
    ensures Spells(text, e, q, sym, val) && Spells(text, q, q, SymNone, 0)
  {}

  lemma OneChange(text: string, e: nat, q: nat, sym: Symbol, val: int, direction: int)
    requires 0 < q <= |text| && Spells(text, e, q - 1, sym, val)
    requires IsChange(text[q - 1]) && direction == Delta(text[q - 1])
    ensures Spells(text, q, q, SymNone, 0)
    ensures sym.SymChange? ==> Spells(text, e, q, SymChange, val + direction)
    ensures sym.SymNone? ==> Spells(text, e, q, SymChange, direction)
    ensures Spells(text, q - 1, q, SymChange, direction) && RunEnds(text, q - 1)
  {
    assert Sum(text, q - 1, q) == Sum(text, q - 1, q - 1) + direction;
  }

  lemma OneMove(text: string, e: nat, q: nat, sym: Symbol, val: int, direction: int)
    requires 0 < q <= |text| && Spells(text, e, q - 1, sym, val)
    requires IsMove(text[q - 1]) && direction == Delta(text[q - 1])
    ensures Spells(text, q, q, SymNone, 0)
    ensures sym.SymMove? ==> Spells(text, e, q, SymMove, val + direction)
    ensures sym.SymNone? ==> Spells(text, e, q, SymMove, direction)
    ensures Spells(text, q - 1, q, SymMove, direction)
  {
    assert HasMove(text, q - 1, q) && HasMove(text, e, q);
    assert Sum(text, q - 1, q) == Sum(text, q - 1, q - 1) + direction;
  }

  lemma OneOther(text: string, e: nat, q: nat, sym: Symbol, val: int, s: Symbol, v: int)
    requires 0 < q <= |text| && Spells(text, e, q - 1, sym, val)
    requires s == (if text[q - 1] == ',' then SymRead else if text[q - 1] == '.' then SymWrite
                   else if text[q - 1] == '[' then SymLoop else SymEndLoop)
    requires text[q - 1] in ",.[]"
    ensures Spells(text, q, q, SymNone, 0) && RunEnds(text, q - 1)
    ensures Spells(text, q - 1, q, s, v)
    ensures sym.SymNone? ==> Spells(text, e, q, s, val)
  {}
}
