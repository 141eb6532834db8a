/** CALL_ONCE_INITIALIZATION: threads race to run an initializer, by compare-and-swap on a flag. */
module OnceInit {

  /** Where a thread is: about to try the swap; running the function; about to set the flag to two; about to
      read the flag; about to compare what it read; past the macro. */
  datatype Pc = Enter | Running | Publish | Load | Spin(tmp: nat) | Out

  /** The flag, the threads, and how often the function was started and finished. */
  datatype State = State(flag: nat, pcs: seq<Pc>, started: nat, finished: nat)

  function Initial(threads: nat): State { State(0, seq(threads, _ => Enter), 0, 0) }

  /** One step of thread i. A thread that is out may come again. */
  function Next(s: State, i: nat): (s': State)
    requires i < |s.pcs|
    ensures |s'.pcs| == |s.pcs|
  {
    match s.pcs[i]
    case Enter =>
      if s.flag == 0 then s.(flag := 1, pcs := s.pcs[i := Running], started := s.started + 1)
      else s.(pcs := s.pcs[i := Load])
    case Running => s.(pcs := s.pcs[i := Publish], finished := s.finished + 1)
    case Publish => s.(flag := 2, pcs := s.pcs[i := Out])
    case Load => s.(pcs := s.pcs[i := Spin(s.flag)])
    case Spin(tmp) => s.(pcs := s.pcs[i := if tmp != 2 then Spin(s.flag) else Out])
    case Out => s.(pcs := s.pcs[i := Enter])
  }

  /** The threads take steps in the given order. */
  function Run(s: State, order: seq<nat>): (s': State)
    requires forall k :: 0 <= k < |order| ==> order[k] < |s.pcs|
    ensures |s'.pcs| == |s.pcs|
  {
    if order == [] then s else Next(Run(s, order[..|order| - 1]), order[|order| - 1])
  }

  ghost predicate Winning(pc: Pc) { pc.Running? || pc.Publish? }

  /** Thread j's place agrees with the flag. */
  ghost predicate Fits(s: State, pc: Pc) {
    match pc
    case Enter => true
    case Running => s.flag == 1 && s.started == 1 && s.finished == 0
    case Publish => s.flag == 1 && s.started == 1 && s.finished == 1
    case Load => s.flag != 0
    case Spin(tmp) => s.flag != 0 && (tmp == 2 ==> s.flag == 2)
    case Out => s.flag == 2
  }

  ghost predicate Inv(s: State) {
    && s.flag <= 2
    && (s.flag == 0 ==> s.started == 0 && s.finished == 0)
    && (s.flag == 1 ==> exists i :: 0 <= i < |s.pcs| && Winning(s.pcs[i]))
    && (s.flag == 2 ==> s.started == 1 && s.finished == 1)
    && (forall j :: 0 <= j < |s.pcs| ==> Fits(s, s.pcs[j]))
    && (forall i, j :: 0 <= i < j < |s.pcs| ==> !(Winning(s.pcs[i]) && Winning(s.pcs[j])))
  }

  lemma NextKeeps(s: State, i: nat)
    requires Inv(s) && i < |s.pcs|
    ensures Inv(Next(s, i))
  {
    var s' := Next(s, i);
    assert Fits(s, s.pcs[i]);
    forall j | 0 <= j < |s'.pcs| ensures Fits(s', s'.pcs[j]) {
      assert Fits(s, s.pcs[j]);
      if j != i { assert !(Winning(s.pcs[i]) && Winning(s.pcs[j])); }
    }
    if s'.flag == 1 {
      if s.flag == 0 {
        assert Winning(s'.pcs[i]);
      } else {
        var w :| 0 <= w < |s.pcs| && Winning(s.pcs[w]);
        assert Winning(s'.pcs[w]);
      }
    }
    forall a, b | 0 <= a < b < |s'.pcs| ensures !(Winning(s'.pcs[a]) && Winning(s'.pcs[b])) {
      assert Fits(s, s.pcs[a]) && Fits(s, s.pcs[b]);
      assert !(Winning(s.pcs[a]) && Winning(s.pcs[b]));
    }
  }

  lemma {:induction false} RunKeeps(s: State, order: seq<nat>)
    requires Inv(s) && forall k :: 0 <= k < |order| ==> order[k] < |s.pcs|
    ensures Inv(Run(s, order))
  {
    hide Inv, Next;
    if order != [] {
      RunKeeps(s, order[..|order| - 1]);
      NextKeeps(Run(s, order[..|order| - 1]), order[|order| - 1]);
    }
  }

  lemma InitialInv(threads: nat)
    ensures Inv(Initial(threads))
  {}

  /** For any number of threads and any interleaving: the function is started at most once; once any thread is
      past the macro it has been run exactly once, to its end. */
  lemma ExactlyOnce(threads: nat, order: seq<nat>)
    requires forall k :: 0 <= k < |order| ==> order[k] < threads
    ensures var s := Run(Initial(threads), order);
      s.finished <= s.started <= 1 &&
      forall i :: 0 <= i < threads && s.pcs[i].Out? ==> s.started == 1 && s.finished == 1
  {
    InitialInv(threads);
    RunKeeps(Initial(threads), order);
    var s := Run(Initial(threads), order);
    forall i | 0 <= i < threads && s.pcs[i].Out? ensures s.started == 1 && s.finished == 1 {
      assert Fits(s, s.pcs[i]);
    }
    if s.flag == 1 {
      var w :| 0 <= w < |s.pcs| && Winning(s.pcs[w]);
      assert Fits(s, s.pcs[w]);
    }
  }

  /** Threads wait only while another one is on its way to setting the flag: if a thread has passed the swap
      and no thread is running the function or about to publish, every waiting thread leaves within two steps
      of its own. */
  lemma NobodyWaitsForNothing(threads: nat, order: seq<nat>, i: nat)
    requires (forall k :: 0 <= k < |order| ==> order[k] < threads) && i < threads
    requires var s := Run(Initial(threads), order);
      (s.pcs[i].Load? || s.pcs[i].Spin?) && forall j :: 0 <= j < threads ==> !Winning(s.pcs[j])
    ensures var s := Run(Initial(threads), order);
      s.flag == 2 && (Next(s, i).pcs[i].Out? || Next(Next(s, i), i).pcs[i].Out?)
  {
    InitialInv(threads);
    RunKeeps(Initial(threads), order);
    var s := Run(Initial(threads), order);
    assert Fits(s, s.pcs[i]);
  }

  /** The winner itself needs two more steps, whatever the others do. */
  lemma WinnerLeaves(s: State, i: nat)
    requires Inv(s) && i < |s.pcs| && s.pcs[i].Running?
    ensures var s1 := Next(s, i); s1.pcs[i].Publish? && Next(s1, i).pcs[i].Out? && Next(s1, i).flag == 2
  {}
}
