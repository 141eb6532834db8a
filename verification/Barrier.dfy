/** WaitForThreads: a barrier that one controlling thread opens for num workers. */
module Barrier {
  // Each critical section, up to the wait or the unlock, is one step; a broadcast wakes every waiter, and a woken
  // thread leaves in a step of its own.

  datatype Pc = Before | Waiting | Woken | Past

  /** The counters of the object, the workers and the controller. */
  datatype State = State(n: nat, waitFor: nat, workers: seq<Pc>, main: Pc)

  function Initial(num: nat): State { State(0, 0, seq(num, _ => Before), Before) }

  function WakeAll(pcs: seq<Pc>): (r: seq<Pc>)
    ensures |r| == |pcs| && forall i :: 0 <= i < |pcs| ==> r[i] == Wake(pcs[i])
  {
    seq(|pcs|, i requires 0 <= i < |pcs| => Wake(pcs[i]))
  }

  function Wake(pc: Pc): Pc { if pc == Waiting then Woken else pc }

  /** unblockThreads: counters back to zero and a broadcast. */
  function Unblock(s: State): State { State(0, 0, WakeAll(s.workers), Wake(s.main)) }

  /** What block asserts about the counters once it has counted the caller. */
  predicate BlockAssertion(s: State) { s.waitFor == 0 || s.n + 1 <= s.waitFor }

  function Block(s: State, i: nat): State
    requires i < |s.workers| && s.workers[i] == Before
  {
    var s1 := s.(n := s.n + 1);
    if s1.waitFor > 0 && s1.n == s1.waitFor then
      var s2 := Unblock(s1);
      s2.(workers := s2.workers[i := Past])
    else s1.(workers := s1.workers[i := Waiting])
  }

  function Release(s: State): State
    requires s.main == Before
  {
    if s.n >= |s.workers| then Unblock(s).(main := Past) else s.(waitFor := |s.workers|, main := Waiting)
  }

  /** Who moves: worker i, or the controller. */
  datatype Who = Worker(i: nat) | Main

  predicate Enabled(s: State, w: Who) {
    match w
    case Worker(i) => i < |s.workers| && (s.workers[i] == Before || s.workers[i] == Woken)
    case Main => s.main == Before || s.main == Woken
  }

  function Next(s: State, w: Who): (s': State)
    requires Enabled(s, w)
    ensures |s'.workers| == |s.workers|
  {
    match w
    case Worker(i) => if s.workers[i] == Before then Block(s, i) else s.(workers := s.workers[i := Past])
    case Main => if s.main == Before then Release(s) else s.(main := Past)
  }

  /** A run: each mover could move when its turn came. */
  ghost predicate CanRun(s: State, run: seq<Who>)
    decreases |run|
  {
    run == [] || (Enabled(s, run[0]) && CanRun(Next(s, run[0]), run[1..]))
  }

  function Run(s: State, run: seq<Who>): (s': State)
    requires CanRun(s, run)
    ensures |s'.workers| == |s.workers|
    decreases |run|
  {
    if run == [] then s else Run(Next(s, run[0]), run[1..])
  }

  function CountWaiting(pcs: seq<Pc>): nat {
    if pcs == [] then 0 else CountWaiting(pcs[..|pcs| - 1]) + (if pcs[|pcs| - 1] == Waiting then 1 else 0)
  }

  ghost predicate Early(pc: Pc) { pc == Before || pc == Waiting }

  /** Before the release everyone who has arrived waits and is counted; after it everyone has arrived. */
  ghost predicate Inv(s: State) {
    if Early(s.main) then
      (forall i :: 0 <= i < |s.workers| ==> Early(s.workers[i])) && s.n == CountWaiting(s.workers) &&
      (if s.main == Before then s.waitFor == 0 else s.waitFor == |s.workers| && s.n < |s.workers|)
    else
      (forall i :: 0 <= i < |s.workers| ==> !Early(s.workers[i])) && s.n == 0 && s.waitFor == 0
  }

  lemma {:induction false} CountUpdate(pcs: seq<Pc>, i: nat)
    requires i < |pcs| && pcs[i] == Before
    ensures CountWaiting(pcs[i := Waiting]) == CountWaiting(pcs) + 1 && CountWaiting(pcs) < |pcs|
    decreases |pcs|
  {
    var k := |pcs| - 1;
    if i < k {
      assert pcs[i := Waiting][..k] == pcs[..k][i := Waiting];
      CountUpdate(pcs[..k], i);
    } else {
      assert pcs[i := Waiting][..k] == pcs[..k];
      CountAtMost(pcs[..k]);
    }
  }

  lemma {:induction false} CountAtMost(pcs: seq<Pc>)
    ensures CountWaiting(pcs) <= |pcs|
    ensures CountWaiting(pcs) == |pcs| <==> forall i :: 0 <= i < |pcs| ==> pcs[i] == Waiting
  {
    if pcs != [] {
      var k := |pcs| - 1;
      CountAtMost(pcs[..k]);
      assert forall i :: 0 <= i < k ==> pcs[..k][i] == pcs[i];
    }
  }

  /** All the others wait when the last worker arrives. */
  lemma LastArrives(pcs: seq<Pc>, i: nat)
    requires i < |pcs| && pcs[i] == Before && CountWaiting(pcs) + 1 == |pcs|
    ensures forall j :: 0 <= j < |pcs| && j != i ==> pcs[j] == Waiting
  {
    CountUpdate(pcs, i);
    CountAtMost(pcs[i := Waiting]);
    forall j | 0 <= j < |pcs| && j != i ensures pcs[j] == Waiting { assert pcs[i := Waiting][j] == Waiting; }
  }

  lemma BlockKeeps(s: State, i: nat)
    requires Inv(s) && i < |s.workers| && s.workers[i] == Before
    ensures Inv(Block(s, i)) && BlockAssertion(s)
  {
    CountUpdate(s.workers, i);
    if s.waitFor > 0 && s.n + 1 == s.waitFor {
      LastArrives(s.workers, i);
    }
  }

  lemma ReleaseKeeps(s: State)
    requires Inv(s) && s.main == Before
    ensures Inv(Release(s))
  {
    CountAtMost(s.workers);
  }

  lemma NextKeeps(s: State, w: Who)
    requires Inv(s) && Enabled(s, w)
    ensures Inv(Next(s, w))
  {
    match w
    case Worker(i) => if s.workers[i] == Before { BlockKeeps(s, i); }
    case Main => if s.main == Before { ReleaseKeeps(s); }
  }

  lemma {:induction false} RunKeeps(s: State, run: seq<Who>)
    requires Inv(s) && CanRun(s, run)
    ensures Inv(Run(s, run))
    decreases |run|
  {
    hide Inv, Next;
    if run != [] {
      NextKeeps(s, run[0]);
      RunKeeps(Next(s, run[0]), run[1..]);
    }
  }

  lemma {:induction false} InitialInv(num: nat)
    ensures Inv(Initial(num))
  {
    CountNone(num);
  }

  lemma {:induction false} CountNone(num: nat)
    ensures CountWaiting(seq(num, _ => Before)) == 0
  {
    if num > 0 {
      assert seq<Pc>(num, _ => Before)[..num - 1] == seq(num - 1, _ => Before);
      CountNone(num - 1);
    }
  }

  // ---- safety ------------------------------------------------------------------------------------------

  /** In no run does a worker get past the barrier before all workers have arrived and the controller has
      called releaseThreads. */
  lemma NobodyPassesEarly(num: nat, run: seq<Who>, i: nat)
    requires CanRun(Initial(num), run) && i < num
    ensures var s := Run(Initial(num), run);
      s.workers[i] == Past ==> s.main != Before && forall j :: 0 <= j < num ==> s.workers[j] != Before
  {
    InitialInv(num);
    RunKeeps(Initial(num), run);
  }

  /** The controller does not get past it early either. */
  lemma ControllerWaits(num: nat, run: seq<Who>)
    requires CanRun(Initial(num), run)
    ensures var s := Run(Initial(num), run); s.main == Past ==> forall j :: 0 <= j < num ==> s.workers[j] != Before
  {
    InitialInv(num);
    RunKeeps(Initial(num), run);
  }

  /** The assertion on the counters holds whenever a worker arrives. */
  lemma AssertionNeverFails(num: nat, run: seq<Who>, i: nat)
    requires CanRun(Initial(num), run) && i < num
    ensures var s := Run(Initial(num), run); s.workers[i] == Before ==> BlockAssertion(s)
  {
    InitialInv(num);
    RunKeeps(Initial(num), run);
    var s := Run(Initial(num), run);
    if s.workers[i] == Before { BlockKeeps(s, i); }
  }

  // ---- progress ----------------------------------------------------------------------------------------

  /** Steps a thread may still take. */
  function Left(pc: Pc): nat { match pc case Before => 3 case Waiting => 2 case Woken => 1 case Past => 0 }

  function LeftAll(pcs: seq<Pc>): nat { if pcs == [] then 0 else LeftAll(pcs[..|pcs| - 1]) + Left(pcs[|pcs| - 1]) }

  function Measure(s: State): nat { LeftAll(s.workers) + Left(s.main) }

  /** Going through the states thread by thread, nothing goes back. */
  lemma {:induction false} LeftFalls(a: seq<Pc>, b: seq<Pc>)
    requires |a| == |b| && forall i :: 0 <= i < |a| ==> Left(b[i]) <= Left(a[i])
    ensures LeftAll(b) <= LeftAll(a) && (LeftAll(b) == LeftAll(a) ==> forall i :: 0 <= i < |a| ==> Left(b[i]) == Left(a[i]))
  {
    if a != [] {
      var k := |a| - 1;
      LeftFalls(a[..k], b[..k]);
      if LeftAll(b) == LeftAll(a) {
        forall i | 0 <= i < k ensures Left(b[i]) == Left(a[i]) { assert a[..k][i] == a[i] && b[..k][i] == b[i]; }
      }
    }
  }

  lemma StepProgresses(s: State, w: Who)
    requires Enabled(s, w)
    ensures Measure(Next(s, w)) < Measure(s)
  {
    hide LeftAll;
    LeftFalls(s.workers, Next(s, w).workers);
  }

  lemma {:induction false} RunsEnd(s: State, run: seq<Who>)
    requires CanRun(s, run)
    ensures |run| + Measure(Run(s, run)) <= Measure(s)
    decreases |run|
  {
    hide Measure, Next;
    if run != [] {
      StepProgresses(s, run[0]);
      RunsEnd(Next(s, run[0]), run[1..]);
    }
  }

  lemma {:induction false} InitialMeasure(num: nat)
    ensures Measure(Initial(num)) == 3 * num + 3
  {
    if num == 0 {
    } else {
      InitialMeasure(num - 1);
      assert seq<Pc>(num, _ => Before)[..num - 1] == seq(num - 1, _ => Before);
    }
  }

  /** Every run ends after at most 3 (num + 1) steps; and where no thread can move, every thread is past the
      barrier: none is left waiting. */
  lemma EveryoneGetsThrough(num: nat, run: seq<Who>)
    requires CanRun(Initial(num), run)
    ensures |run| <= 3 * (num + 1)
    ensures var s := Run(Initial(num), run);
      (forall w :: !Enabled(s, w)) ==> s.main == Past && forall i :: 0 <= i < num ==> s.workers[i] == Past
  {
    InitialMeasure(num);
    RunsEnd(Initial(num), run);
    InitialInv(num);
    RunKeeps(Initial(num), run);
    StuckIsThrough(Run(Initial(num), run));
  }

  lemma StuckIsThrough(s: State)
    requires Inv(s)
    ensures (forall w :: !Enabled(s, w)) ==> s.main == Past && forall i :: 0 <= i < |s.workers| ==> s.workers[i] == Past
  {
    if forall w :: !Enabled(s, w) {
      assert !Enabled(s, Main);
      forall i | 0 <= i < |s.workers| ensures s.workers[i] == Waiting || s.workers[i] == Past { assert !Enabled(s, Worker(i)); }
      CountAtMost(s.workers);
    }
  }
}
