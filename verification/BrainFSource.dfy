/** The BrainF language itself: the character-by-character meaning of a program text. */
module BrainFSource {

  type Byte = x: int | 0 <= x < 256

  /** What a run leaves behind: the tape, the number of input bytes consumed and
      the bytes written. */
  datatype Obs = Obs(tape: seq<Byte>, used: nat, out: seq<Byte>)

  datatype State =
    | Running(pc: nat, head: int, obs: Obs)
    | Halted(obs: Obs)      // fell off the end of the program
    | OffTape(obs: Obs)     // a bounds test found the head outside the tape
    | Fault(obs: Obs)       // a cell outside the tape was read or written

  /** `checked` is the compiler's array-bounds flag. */
  datatype Program = Program(text: string, input: seq<Byte>, checked: bool)

  predicate IsMove(c: char) { c == '<' || c == '>' }
  predicate IsChange(c: char) { c == '+' || c == '-' }
  predicate IsBracket(c: char) { c == '[' || c == ']' }
  predicate IsCommand(c: char) { IsMove(c) || IsChange(c) || IsBracket(c) || c == ',' || c == '.' }

  function Delta(c: char): int {
    if c == '+' || c == '>' then 1 else if c == '-' || c == '<' then -1 else 0
  }

  predicate InTape(head: int, tape: seq<Byte>) { 0 <= head < |tape| }

  /** No further head move follows before the next command of another kind. */
  predicate RunEnds(text: string, p: nat)
    decreases |text| - p
  {
    p >= |text| || (!IsMove(text[p]) && (IsCommand(text[p]) || RunEnds(text, p + 1)))
  }

  /** The ']' at or after `p` that closes `d` brackets opened since; |text| if there is none. */
  function CloseOf(text: string, p: nat, d: nat): nat
    decreases |text| - p
  {
    if p >= |text| then |text|
    else if text[p] == '[' then CloseOf(text, p + 1, d + 1)
    else if text[p] == ']' then if d == 0 then p else CloseOf(text, p + 1, d - 1)
    else CloseOf(text, p + 1, d)
  }

  /** The '[' before `p` that matches a ']' at `p`; |text| if there is none. */
  function OpenOf(text: string, p: nat, d: nat): nat
    requires p <= |text|
  {
    if p == 0 then |text|
    else if text[p - 1] == ']' then OpenOf(text, p - 1, d + 1)
    else if text[p - 1] == '[' then if d == 0 then p - 1 else OpenOf(text, p - 1, d - 1)
    else OpenOf(text, p - 1, d)
  }

  function SetCell(o: Obs, head: int, v: Byte): Obs
    requires InTape(head, o.tape)
  {
    o.(tape := o.tape[head := v])
  }

  /** The byte ',' delivers: 255 at the end of the input. */
  function NextInput(input: seq<Byte>, used: nat): Byte {
    if used < |input| then input[used] else 255
  }

  function Consume(input: seq<Byte>, o: Obs): Obs {
    if o.used < |input| then o.(used := o.used + 1) else o
  }

  /** One command of the table at the head of BrainF.cpp. */
  function Step(prog: Program, s: State): State {
    if !s.Running? then s
    else if s.pc >= |prog.text| then Halted(s.obs)
    else
      var c, h, o := prog.text[s.pc], s.head, s.obs;
      if IsMove(c) then
        if prog.checked && RunEnds(prog.text, s.pc + 1) && !InTape(h + Delta(c), o.tape) then OffTape(o)
        else Running(s.pc + 1, h + Delta(c), o)
      else if !IsCommand(c) then Running(s.pc + 1, h, o)
      else if c == ']' then Running(OpenOf(prog.text, s.pc, 0), h, o)
      else if c == ',' then
        var o' := Consume(prog.input, o);  // getchar runs before its result is stored
        if InTape(h, o.tape) then Running(s.pc + 1, h, SetCell(o', h, NextInput(prog.input, o.used))) else Fault(o')
      else if !InTape(h, o.tape) then Fault(o)
      else if IsChange(c) then Running(s.pc + 1, h, SetCell(o, h, (o.tape[h] + Delta(c)) % 256))
      else if c == '.' then Running(s.pc + 1, h, o.(out := o.out + [o.tape[h]]))
      else if o.tape[h] == 0 then Running(CloseOf(prog.text, s.pc + 1, 0) + 1, h, o)
      else Running(s.pc + 1, h, o)
  }

  function Run(prog: Program, s: State, n: nat): State {
    if n == 0 then s else Step(prog, Run(prog, s, n - 1))
  }

  function Zeros(mem: nat): (t: seq<Byte>)
    ensures |t| == mem && forall i :: 0 <= i < mem ==> t[i] == 0
  {
    seq(mem, _ => 0)
  }

  function Initial(mem: nat): State {
    Running(0, mem / 2, Obs(Zeros(mem), 0, []))
  }

  // ---- runs -------------------------------------------------------------

  lemma {:induction false} RunSplit(prog: Program, s: State, a: nat, b: nat)
    ensures Run(prog, s, a + b) == Run(prog, Run(prog, s, a), b)
  {
    if b > 0 {
      RunSplit(prog, s, a, b - 1);
    }
  }

  lemma {:induction false} RunStays(prog: Program, s: State, n: nat)
    requires !s.Running?
    ensures Run(prog, s, n) == s
  {
    if n > 0 {
      RunStays(prog, s, n - 1);
    }
  }

  // ---- brackets ---------------------------------------------------------

  datatype Status = Ok | ExtraClose | MissingClose

  /** The nesting verdict of the text from `p` on, with `d` brackets open. */
  function Nesting(text: string, p: nat, d: nat): Status
    decreases |text| - p
  {
    if p >= |text| then if d == 0 then Ok else MissingClose
    else if text[p] == '[' then Nesting(text, p + 1, d + 1)
    else if text[p] == ']' then if d == 0 then ExtraClose else Nesting(text, p + 1, d - 1)
    else Nesting(text, p + 1, d)
  }

  /** Brackets opened minus brackets closed in text[..q]. */
  function Depth(text: string, q: nat): int
    requires q <= |text|
  {
    if q == 0 then 0
    else Depth(text, q - 1) + (if text[q - 1] == '[' then 1 else if text[q - 1] == ']' then -1 else 0)
  }

  /** Bracket-balanced in the usual sense: no prefix closes more than it opens,
      and everything opened is closed. */
  ghost predicate Balanced(text: string) {
    (forall q :: 0 <= q <= |text| ==> Depth(text, q) >= 0) && Depth(text, |text|) == 0
  }

  lemma {:induction false} NestingMeaning(text: string, p: nat)
    requires p <= |text| && Depth(text, p) >= 0
    ensures Nesting(text, p, Depth(text, p)) == Ok <==>
            (forall q :: p <= q <= |text| ==> Depth(text, q) >= 0) && Depth(text, |text|) == 0
    decreases |text| - p
  {
    if p < |text| {
      var d := Depth(text, p);
      if Depth(text, p + 1) >= 0 {
        NestingMeaning(text, p + 1);
        assert Nesting(text, p, d) == Nesting(text, p + 1, Depth(text, p + 1));
        assert (forall q :: p <= q <= |text| ==> Depth(text, q) >= 0) <==>
               (forall q :: p + 1 <= q <= |text| ==> Depth(text, q) >= 0);
      } else {
        assert Nesting(text, p, d) == ExtraClose;
        var q := p + 1;
        assert q <= |text| && Depth(text, q) < 0;
      }
    }
  }

  lemma NestingIsBalance(text: string)
    ensures Nesting(text, 0, 0) == Ok <==> Balanced(text)
  {
    NestingMeaning(text, 0);
    var d: nat := Depth(text, 0);
    assert d == 0 && Nesting(text, 0, d) == Nesting(text, 0, 0);
    assert Nesting(text, 0, 0) == Ok ==> forall q :: 0 <= q <= |text| ==> Depth(text, q) >= 0;
  }

  ghost predicate NoBrackets(text: string, p: nat, q: nat) {
    p <= q <= |text| && forall i :: p <= i < q ==> !IsBracket(text[i])
  }

  /** Text without brackets is invisible to all three bracket functions. */
  lemma {:induction false} SkipPlain(text: string, p: nat, q: nat, d: nat)
    requires NoBrackets(text, p, q)
    ensures CloseOf(text, p, d) == CloseOf(text, q, d)
    ensures Nesting(text, p, d) == Nesting(text, q, d)
    ensures OpenOf(text, q, d) == OpenOf(text, p, d)
    decreases q - p
  {
    if p < q {
      SkipPlain(text, p, q - 1, d);
    }
  }

  lemma {:induction false} CloseBounds(text: string, p: nat, d: nat)
    requires p <= |text|
    ensures p <= CloseOf(text, p, d) <= |text|
    ensures CloseOf(text, p, d) < |text| ==> text[CloseOf(text, p, d)] == ']'
    decreases |text| - p
  {
    if p < |text| {
      if text[p] == '[' {
        CloseBounds(text, p + 1, d + 1);
      } else if text[p] == ']' {
        if d > 0 { CloseBounds(text, p + 1, d - 1); }
      } else {
        CloseBounds(text, p + 1, d);
      }
    }
  }

  /** A closed block inside does not disturb an outer search for ']'. */
  lemma {:induction false} SkipClosed(text: string, p: nat, e: nat, d: nat)
    requires p <= |text| && CloseOf(text, p, e) < |text|
    ensures CloseOf(text, p, e + 1 + d) == CloseOf(text, CloseOf(text, p, e) + 1, d)
    decreases |text| - p
  {
    if text[p] == '[' {
      SkipClosed(text, p + 1, e + 1, d);
    } else if text[p] == ']' {
      if e > 0 { SkipClosed(text, p + 1, e - 1, d); }
    } else {
      SkipClosed(text, p + 1, e, d);
    }
  }

  /** The mirror image for the search for '['. */
  lemma {:induction false} SkipOpened(text: string, p: nat, e: nat, d: nat)
    requires p <= |text| && OpenOf(text, p, e) < |text|
    ensures OpenOf(text, p, e + 1 + d) == OpenOf(text, OpenOf(text, p, e), d)
  {
    if text[p - 1] == ']' {
      SkipOpened(text, p - 1, e + 1, d);
    } else if text[p - 1] == '[' {
      if e > 0 { SkipOpened(text, p - 1, e - 1, d); }
    } else {
      SkipOpened(text, p - 1, e, d);
    }
  }

  // ---- runs of moves and changes ----------------------------------------

  /** The net effect of the characters of text[p..q]. */
  function Sum(text: string, p: nat, q: nat): int
    requires p <= q <= |text|
    decreases q
  {
    if p == q then 0 else Sum(text, p, q - 1) + Delta(text[q - 1])
  }

  lemma {:induction false} SumBound(text: string, p: nat, q: nat)
    requires p <= q <= |text|
    ensures -(q - p) <= Sum(text, p, q) <= q - p
    decreases q
  {
    if p < q { SumBound(text, p, q - 1); }
  }

  ghost predicate Comments(text: string, p: nat, q: nat) {
    p <= q <= |text| && forall i :: p <= i < q ==> !IsCommand(text[i])
  }

  lemma {:induction false} CommentsDoNothing(prog: Program, p: nat, q: nat, h: int, o: Obs)
    requires Comments(prog.text, p, q)
    ensures Run(prog, Running(p, h, o), q - p) == Running(q, h, o)
    decreases q
  {
    if p < q {
      CommentsDoNothing(prog, p, q - 1, h, o);
    }
  }

  ghost predicate Changes(text: string, p: nat, q: nat) {
    p <= q <= |text| && forall i :: p <= i < q ==> IsChange(text[i]) || !IsCommand(text[i])
  }

  lemma ModAdd(a: int, b: int, c: int)
    ensures ((a + b) % 256 + c) % 256 == (a + (b + c)) % 256
  {}

  lemma SetTwice(o: Obs, h: int, a: Byte, b: Byte)
    requires InTape(h, o.tape)
    ensures SetCell(o, h, a).tape[h] == a && InTape(h, SetCell(o, h, a).tape)
    ensures SetCell(SetCell(o, h, a), h, b) == SetCell(o, h, b) && SetCell(o, h, o.tape[h]) == o
  {
    assert o.tape[h := a][h := b] == o.tape[h := b];
    assert o.tape[h := o.tape[h]] == o.tape;
  }

  /** One character of such a run; other characters add nothing. */
  lemma ChangeStep(prog: Program, q: nat, h: int, o: Obs)
    requires q < |prog.text| && (IsChange(prog.text[q]) || !IsCommand(prog.text[q])) && InTape(h, o.tape)
    ensures Step(prog, Running(q, h, o)) == Running(q + 1, h, SetCell(o, h, (o.tape[h] + Delta(prog.text[q])) % 256))
  {
    hide RunEnds, CloseOf, OpenOf, SetCell, Consume, NextInput;
    SetTwice(o, h, 0, 0);
  }

  /** A run of '+' and '-' on a tape cell adds its net count modulo 256. */
  lemma {:induction false} ChangesAdd(prog: Program, p: nat, q: nat, h: int, o: Obs)
    requires Changes(prog.text, p, q) && InTape(h, o.tape)
    ensures Run(prog, Running(p, h, o), q - p)
            == Running(q, h, SetCell(o, h, (o.tape[h] + Sum(prog.text, p, q)) % 256))
    decreases q
  {
    hide Step, SetCell, Delta, IsChange, IsCommand;
    SetTwice(o, h, 0, 0);
    if p < q {
      ChangesAdd(prog, p, q - 1, h, o);
      var sum, d := Sum(prog.text, p, q - 1), Delta(prog.text[q - 1]);
      SetTwice(o, h, (o.tape[h] + sum) % 256, (o.tape[h] + (sum + d)) % 256);
      ChangeStep(prog, q - 1, h, SetCell(o, h, (o.tape[h] + sum) % 256));
      ModAdd(o.tape[h], sum, d);
    }
  }

  ghost predicate Moves(text: string, p: nat, q: nat) {
    p <= q <= |text| && forall i :: p <= i < q ==> IsMove(text[i]) || !IsCommand(text[i])
  }

  ghost predicate HasMove(text: string, p: nat, q: nat) {
    exists i :: p <= i < q <= |text| && IsMove(text[i])
  }

  /** Inside a maximal run of moves, RunEnds says that no move is left. */
  lemma {:induction false} RunEndsInside(text: string, j: nat, q: nat)
    requires Moves(text, j, q) && RunEnds(text, q)
    ensures RunEnds(text, j) <==> !HasMove(text, j, q)
    ensures RunEnds(text, j) ==> Sum(text, j, q) == 0
    decreases q - j
  {
    if j < q {
      RunEndsInside(text, j + 1, q);
      SumSplit(text, j, j + 1, q);
      if HasMove(text, j, q) && !IsMove(text[j]) {
        var i :| j <= i < q && IsMove(text[i]);
        assert HasMove(text, j + 1, q);
      }
    }
  }

  lemma {:induction false} SumSplit(text: string, p: nat, m: nat, q: nat)
    requires p <= m <= q <= |text|
    ensures Sum(text, p, q) == Sum(text, p, m) + Sum(text, m, q)
    decreases q
  {
    if m < q { SumSplit(text, p, m, q - 1); }
  }

  /** A run of moves taken up to `j`: the test, if there is one, happens at the
      last move and looks at the run's net displacement. */
  lemma {:induction false} MovesPartway(prog: Program, p: nat, j: nat, q: nat, h: int, o: Obs)
    requires Moves(prog.text, p, q) && p <= j <= q && RunEnds(prog.text, q)
    ensures Run(prog, Running(p, h, o), j - p)
            == if prog.checked && HasMove(prog.text, p, j) && RunEnds(prog.text, j)
                  && !InTape(h + Sum(prog.text, p, q), o.tape)
               then OffTape(o) else Running(j, h + Sum(prog.text, p, j), o)
    decreases j
  {
    var text := prog.text;
    if p < j {
      MovesPartway(prog, p, j - 1, q, h, o);
      RunEndsInside(text, j, q);
      RunEndsInside(text, j - 1, q);
      SumSplit(text, p, j, q);
      var i := j - 1;
      if IsMove(text[i]) {
        assert HasMove(text, p, j) && HasMove(text, i, q);
      } else if HasMove(text, p, j) {
        var m :| p <= m < j && IsMove(text[m]);
        assert HasMove(text, p, i);
      }
    }
  }

  // ---- the head never leaves the tape by an access when bounds are tested --

  /** With bounds tests on, the head is on the tape except inside a run of moves. */
  ghost predicate OnTape(prog: Program, s: State, mem: nat) {
    match s
    case Running(pc, h, o) => |o.tape| == mem && (RunEnds(prog.text, pc) ==> 0 <= h < mem)
    case Fault(_) => false
    case _ => true
  }

  lemma OnTapeStep(prog: Program, s: State, mem: nat)
    requires prog.checked && OnTape(prog, s, mem)
    ensures OnTape(prog, Step(prog, s), mem)
  {
    if s.Running? && s.pc < |prog.text| {
      var c := prog.text[s.pc];
      if IsCommand(c) && !IsMove(c) {
        assert RunEnds(prog.text, s.pc);
      }
    }
  }

  lemma {:induction false} CheckedRunsNeverFault(prog: Program, mem: nat, n: nat)
    requires prog.checked && mem > 0
    ensures OnTape(prog, Run(prog, Initial(mem), n), mem)
  {
    if n > 0 {
      CheckedRunsNeverFault(prog, mem, n - 1);
      OnTapeStep(prog, Run(prog, Initial(mem), n - 1), mem);
    }
  }
}
