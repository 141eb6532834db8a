/** What the commands come to in small programs, and which brackets belong together. */
module BrainFIdioms {
  import opened BrainFSource

  // ---- brackets ----------------------------------------------------------------------------------

  /** The bracket that closes is the first at which more are closed than d beyond those opened since p. */
  lemma {:induction false} CloseMeans(text: string, p: nat, d: nat)
    requires p <= |text|
    ensures var c := CloseOf(text, p, d);
      p <= c <= |text| && (forall q :: p <= q <= c ==> Depth(text, q) >= Depth(text, p) - d) &&
      (c < |text| ==> text[c] == ']' && Depth(text, c) == Depth(text, p) - d)
    decreases |text| - p
  {
    if p < |text| {
      var step := Depth(text, p + 1) - Depth(text, p);
      if text[p] == ']' && d == 0 {
      } else {
        var d': nat := if text[p] == '[' then d + 1 else if text[p] == ']' then d - 1 else d;
        CloseMeans(text, p + 1, d');
        assert Depth(text, p + 1) - d' == Depth(text, p) - d;
      }
    }
  }

  /** The bracket that opens is the last before p with d fewer open behind it than at p. */
  lemma {:induction false} OpenMeans(text: string, p: nat, d: nat)
    requires p <= |text|
    ensures var b := OpenOf(text, p, d);
      if b < |text| then
        b < p && text[b] == '[' && Depth(text, b + 1) == Depth(text, p) - d &&
        (forall q :: b < q <= p ==> Depth(text, q) >= Depth(text, p) - d)
      else
        b == |text| && forall q :: 0 <= q <= p ==> Depth(text, q) >= Depth(text, p) - d
    decreases p
  {
    if p > 0 {
      if text[p - 1] == '[' && d == 0 {
      } else {
        var d': nat := if text[p - 1] == ']' then d + 1 else if text[p - 1] == '[' then d - 1 else d;
        OpenMeans(text, p - 1, d');
        assert Depth(text, p - 1) - d' == Depth(text, p) - d;
      }
    }
  }

  // ---- echo ----------------------------------------------------------------------------------------

  /** A byte that is read can be written: 255 at the end of the input, which is not consumed any further. */
  lemma Echo(prog: Program, h: int, o: Obs)
    requires prog.text == ",." && InTape(h, o.tape)
    ensures var byte := if o.used < |prog.input| then prog.input[o.used] else 255;
      Run(prog, Running(0, h, o), 3) ==
        Halted(Obs(o.tape[h := byte], if o.used < |prog.input| then o.used + 1 else o.used, o.out + [byte]))
  {
    var byte := if o.used < |prog.input| then prog.input[o.used] else 255;
    var used := if o.used < |prog.input| then o.used + 1 else o.used;
    assert Run(prog, Running(0, h, o), 0) == Running(0, h, o);
    assert Run(prog, Running(0, h, o), 1) == Running(1, h, Obs(o.tape[h := byte], used, o.out));
    assert Run(prog, Running(0, h, o), 2) == Running(2, h, Obs(o.tape[h := byte], used, o.out + [byte]));
  }

  // ---- adding one cell to the next -------------------------------------------------------------------

  function Sum(a: int, b: int): Byte { (a + b) % 256 }

  const ADD: string := "[->+<]"

  lemma AddBrackets()
    ensures CloseOf(ADD, 1, 0) == 5 && OpenOf(ADD, 5, 0) == 0
  {
    assert CloseOf(ADD, 5, 0) == 5 && CloseOf(ADD, 3, 0) == CloseOf(ADD, 5, 0);
    assert OpenOf(ADD, 1, 0) == 0 && OpenOf(ADD, 3, 0) == OpenOf(ADD, 1, 0);
  }

  /** How many steps the loop takes from a cell of this value. */
  function AddSteps(value: nat): nat { if value == 0 then 2 else 6 + AddSteps(value - 1) }

  /** One round: the cell loses one and the next one gains one. */
  lemma AddRound(prog: Program, h: int, o: Obs)
    requires prog.text == ADD && InTape(h, o.tape) && InTape(h + 1, o.tape) && o.tape[h] > 0
    ensures var o' := o.(tape := o.tape[h := o.tape[h] - 1][h + 1 := Sum(o.tape[h + 1], 1)]);
      Run(prog, Running(0, h, o), 6) == Running(0, h, o')
  {
    AddBrackets();
    hide OpenOf, CloseOf;
    var s := Running(0, h, o);
    var o1 := o.(tape := o.tape[h := o.tape[h] - 1]);
    var o2 := o1.(tape := o1.tape[h + 1 := Sum(o.tape[h + 1], 1)]);
    assert Run(prog, s, 0) == s;
    assert Run(prog, s, 1) == Running(1, h, o);
    assert Run(prog, s, 2) == Running(2, h, o1);
    assert Run(prog, s, 3) == Running(3, h + 1, o1);
    assert Run(prog, s, 4) == Running(4, h + 1, o2);
    assert Run(prog, s, 5) == Running(5, h, o2);
  }

  lemma AddEnds(prog: Program, h: int, o: Obs)
    requires prog.text == ADD && InTape(h, o.tape) && o.tape[h] == 0
    ensures Run(prog, Running(0, h, o), 2) == Halted(o)
  {
    AddBrackets();
    hide OpenOf, CloseOf;
    var s := Running(0, h, o);
    assert Run(prog, s, 0) == s;
    assert Run(prog, s, 1) == Running(6, h, o);
  }

  /** With or without tests, the loop adds the cell to the next one modulo 256 and leaves zero behind. */
  lemma {:induction false} AddLoop(prog: Program, h: int, o: Obs)
    requires prog.text == ADD && InTape(h, o.tape) && InTape(h + 1, o.tape)
    ensures Run(prog, Running(0, h, o), AddSteps(o.tape[h])) ==
      Halted(o.(tape := o.tape[h := 0][h + 1 := Sum(o.tape[h], o.tape[h + 1])]))
    decreases o.tape[h]
  {
    hide Run;
    if o.tape[h] == 0 {
      AddEnds(prog, h, o);
      assert o.tape[h := 0][h + 1 := Sum(o.tape[h], o.tape[h + 1])] == o.tape;
    } else {
      AddRound(prog, h, o);
      var o' := o.(tape := o.tape[h := o.tape[h] - 1][h + 1 := Sum(o.tape[h + 1], 1)]);
      AddLoop(prog, h, o');
      RunSplit(prog, Running(0, h, o), 6, AddSteps(o'.tape[h]));
      assert o'.tape[h := 0][h + 1 := Sum(o'.tape[h], o'.tape[h + 1])] ==
             o.tape[h := 0][h + 1 := Sum(o.tape[h], o.tape[h + 1])];
    }
  }
}
