/** Many files into one shared table, and what the checks on a line do and do not find out. */
module ParseFiles {
  import opened Options
  import opened Terms
  import opened TreeMatch
  import opened TreeLanguage
  import opened SharedTerms
  import opened DeclaredGraph
  import opened Consing
  import opened Naming

  /** File i was read as ats[i], starting where the file before it had left the names and signatures. */
  ghost predicate AllRead(s: FileState, files: seq<seq<Line>>, ats: seq<FileState>) {
    |ats| <= |files| &&
    forall i :: 0 <= i < |ats| ==> ReadFrom(s, files, ats, i)
  }

  ghost predicate ReadFrom(s: FileState, files: seq<seq<Line>>, ats: seq<FileState>, i: nat)
    requires i < |ats| <= |files|
  {
    Reads(if i == 0 then s else Cleared(ats[i - 1]), files[i], ats[i])
  }

  /** Where the last file has left the names and signatures. */
  ghost function EndState(s: FileState, ats: seq<FileState>): FileState {
    if ats == [] then s else Cleared(ats[|ats| - 1])
  }

  ghost predicate AllShared(nodes: Graph, ats: seq<FileState>) {
    forall i :: 0 <= i < |ats| ==> Shared(nodes, ats[i])
  }

  lemma SharedStays(nodes: Graph, nodes': Graph, s: FileState)
    requires Shared(nodes, s) && Grounded(nodes') && Extends(nodes, nodes')
    ensures Shared(nodes', s)
  {
    hide Translates, Ranks, Full, IsRootOf, CyclicRoot, Grounded, Extends;
    forall r | IsRootOf(s, r) && Full(s.defs, r) ensures HasTranslation(nodes', s, r) {
      assert HasTranslation(nodes, s, r);
      var u :| Translates(s.defs, Ranks(s.defs), nodes, r, u);
      TranslatesStays(s.defs, Ranks(s.defs), nodes, nodes', r, u);
    }
  }

  lemma AllSharedStay(nodes: Graph, nodes': Graph, ats: seq<FileState>)
    requires AllShared(nodes, ats) && Grounded(nodes') && Extends(nodes, nodes')
    ensures AllShared(nodes', ats)
  {
    hide Shared, Grounded, Extends;
    forall i | 0 <= i < |ats| ensures Shared(nodes', ats[i]) { SharedStays(nodes, nodes', ats[i]); }
  }

  lemma OneMoreRead(s: FileState, files: seq<seq<Line>>, ats: seq<FileState>, at: FileState, from: FileState)
    requires AllRead(s, files, ats) && |ats| < |files| && Reads(from, files[|ats|], at)
    requires from == EndState(s, ats)
    ensures AllRead(s, files, ats + [at])
  {
    hide Reads;
    var ats' := ats + [at];
    forall i | 0 <= i < |ats'| ensures ReadFrom(s, files, ats', i) {
      if i < |ats| { assert ReadFrom(s, files, ats, i); }
    }
  }

  lemma OneMoreShared(nodes: Graph, ats: seq<FileState>, at: FileState)
    requires AllShared(nodes, ats) && Shared(nodes, at)
    ensures AllShared(nodes, ats + [at])
  {
    hide Shared;
  }

  lemma TableGrounded(table: SharedTable)
    requires table.Valid()
    ensures Grounded(table.nodes)
  {}

  /** The loop over the files of a directory, with one parser, one table and one set of names. */
  method ParseAll(p: DepParser, files: seq<seq<Line>>, table: SharedTable)
    returns (verdict: Verdict, ghost ats: seq<FileState>)
    requires p.Valid() && p.Clean() && table.Valid() && Arities(table.nodes, p.signatures)
    modifies p, table
    ensures p.Valid() && SignaturesKept(old(p.signatures), p.signatures)
    ensures table.Valid() && Arities(table.nodes, p.signatures) && Extends(old(table.nodes), table.nodes)
    ensures AllRead(old(p.State()), files, ats) && AllShared(table.nodes, ats)
    ensures verdict == Go ==> |ats| == |files| && p.Clean() && p.State() == EndState(old(p.State()), ats)
    ensures verdict != Go ==> StoppedAt(old(p.State()), files, ats, verdict)
  {
    hide *;
    ats, verdict := [], Go;
    ghost var start, nodes0, sig0 := p.State(), table.nodes, p.signatures;
    ExtendsSelf(nodes0);
    KeptSelf(sig0);
    NoFiles(start, files, table.nodes);
    var i := 0;
    while i < |files|
      invariant i == |ats| <= |files| && verdict == Go && p.Valid() && p.Clean()
      invariant SignaturesKept(sig0, p.signatures)
      invariant table.Valid() && Arities(table.nodes, p.signatures) && Extends(nodes0, table.nodes)
      invariant AllRead(start, files, ats) && AllShared(table.nodes, ats)
      invariant p.State() == EndState(start, ats)
    {
      ghost var nodes1, sig1, from := table.nodes, p.signatures, p.State();
      ghost var at;
      verdict, at := p.Parse(files[i], table);
      KeptTrans(sig0, sig1, p.signatures);
      ExtendsTrans(nodes0, nodes1, table.nodes);
      TableGrounded(table);
      AllSharedStay(nodes1, table.nodes, ats);
      if verdict != Go {
        Stopped(start, files, ats, at, verdict);
        return;
      }
      OneMoreRead(start, files, ats, at, from);
      OneMoreShared(table.nodes, ats, at);
      EndMoves(start, ats, at);
      ats := ats + [at];
      i := i + 1;
    }
  }

  /** The next file was refused, for a reason of its own. */
  ghost predicate StoppedAt(s: FileState, files: seq<seq<Line>>, ats: seq<FileState>, verdict: Verdict) {
    |ats| < |files| && exists at :: Refused(EndState(s, ats), files[|ats|], at, verdict)
  }

  lemma Stopped(s: FileState, files: seq<seq<Line>>, ats: seq<FileState>, at: FileState, verdict: Verdict)
    requires |ats| < |files| && Refused(EndState(s, ats), files[|ats|], at, verdict)
    ensures StoppedAt(s, files, ats, verdict)
  {
    hide Refused;
  }

  lemma NoFiles(s: FileState, files: seq<seq<Line>>, nodes: Graph)
    ensures AllRead(s, files, []) && AllShared(nodes, []) && EndState(s, []) == s
  {}

  lemma EndMoves(s: FileState, ats: seq<FileState>, at: FileState)
    ensures EndState(s, ats + [at]) == Cleared(at)
  {}

  /** The tree that a root of a file spells out. */
  ghost function TreeAt(s: FileState, r: Term): Tree
    requires Full(s.defs, r) && r in Ranks(s.defs)
  {
    RanksAreRanks(s.defs);
    FullIsComplete(s.defs, Ranks(s.defs), r);
    DefTree(s.defs, Ranks(s.defs), r)
  }

  lemma RootHasTree(s: FileState, r: Term)
    requires !CyclicRoot(s) && IsRootOf(s, r) && Full(s.defs, r)
    ensures r in Ranks(s.defs)
  {}

  /** The shared term of a root with nothing missing. */
  lemma SharedTermOf(table: SharedTable, s: FileState, r: Term) returns (u: Term)
    requires table.Valid() && Shared(table.nodes, s) && IsRootOf(s, r) && Full(s.defs, r)
    ensures r in Ranks(s.defs) && u in table.nodes && Grounded(table.nodes) && Spelled(table.nodes, u) == TreeAt(s, r)
  {
    hide IsRootOf, Full, Grounded, Spelled, CyclicRoot, Ranks, DefTree, HashConsed, Labelled, Filed;
    RootHasTree(s, r);
    assert HasTranslation(table.nodes, s, r);
    u :| Translates(s.defs, Ranks(s.defs), table.nodes, r, u);
  }

  /** Two roots of any two files, with nothing missing: their shared terms are one term exactly when their trees are
      equal. */
  lemma SameTreeAnywhere(table: SharedTable, ats: seq<FileState>, i: nat, r: Term, j: nat, q: Term)
    returns (u: Term, w: Term)
    requires table.Valid() && AllShared(table.nodes, ats) && i < |ats| && j < |ats|
    requires IsRootOf(ats[i], r) && Full(ats[i].defs, r) && IsRootOf(ats[j], q) && Full(ats[j].defs, q)
    ensures r in Ranks(ats[i].defs) && q in Ranks(ats[j].defs) && Grounded(table.nodes) && u in table.nodes && w in table.nodes
    ensures Spelled(table.nodes, u) == TreeAt(ats[i], r) && Spelled(table.nodes, w) == TreeAt(ats[j], q)
    ensures u == w <==> TreeAt(ats[i], r) == TreeAt(ats[j], q)
  {
    hide IsRootOf, Full, Grounded, Spelled, TreeAt, Ranks, Shared, SharedTable.Valid;
    u := SharedTermOf(table, ats[i], r);
    w := SharedTermOf(table, ats[j], q);
    OneTermPerTree(table, u, w);
  }

  // ---- what the checks find out ----------------------------------------------------------------------------

  /** The check of a node number passes, for declared and undeclared numbers alike, if and only if some node has been
      named in this or any earlier file. */
  lemma CheckMeansSomeName(p: DepParser, number: nat)
    requires p.Valid()
    ensures p.CheckNodeId(LocalOf(p.local, number)) <==> p.names != map[]
  {
    assert |p.names| > 0 <==> p.names != map[];
  }

  /** One node with one operand, and an edge to it from a number that was never declared. */
  function UndeclaredSource(): seq<Line> { [CountLine(1), NodeLine(1, "f", 1), EdgeLine(0, 1, 0)] }

  /** So every edge from an undeclared number to an existing port passes the checks. */
  lemma UndeclaredPasses(p: DepParser, from: nat, to: nat, port: nat)
    requires p.Valid() && from !in p.partialDefs
    requires to in p.partialDefs && p.partialDefs[to] in p.defs && port < |p.defs[p.partialDefs[to]].ops|
    ensures VerdictOn(p.State(), EdgeLine(from, to, port)) == Broken
  {
    assert p.defs[p.partialDefs[to]].id in p.signatures;
    CheckMeansSomeName(p, from);
  }

  /** The edge passes all checks and is refused by an assertion only. */
  method ReadUndeclaredSource() returns (verdict: Verdict, p: DepParser)
    ensures verdict == Broken
  {
    hide NamesOK, DefArities, OperandsKnown, UsersKnown, FirstFit, Underscored;
    EmptyNames();
    p := new DepParser(map[], map[]);
    verdict := p.ReadLine(UndeclaredSource()[0]);
    verdict := p.ReadLine(UndeclaredSource()[1]);
    verdict := p.ReadLine(UndeclaredSource()[2]);
  }

  lemma EmptyNames()
    ensures NamesOK(map[], map[])
  {}

  ghost predicate HasCount(lines: seq<Line>) { exists i :: 0 <= i < |lines| && lines[i].CountLine? }

  /** The table of nodes has room exactly if this file has told how many there are. */
  lemma {:induction false} RoomAfter(s: FileState, lines: seq<Line>, s': FileState)
    requires Reads(s, lines, s') && s.slots == 0
    ensures if HasCount(lines) then s'.declared >= 0 && s'.slots == s'.declared + 1
            else s'.declared == s.declared && s'.slots == 0
    decreases |lines|
  {
    hide FirstFit, Underscored, Supplied;
    if lines != [] {
      var front := lines[..|lines| - 1];
      var mid :| Reads(s, front, mid) && LastLine(mid, lines, s');
      RoomAfter(s, front, mid);
      assert lines == front + [lines[|lines| - 1]];
      assert HasCount(lines) <==> HasCount(front) || lines[|lines| - 1].CountLine?;
    }
  }

  /** The number of nodes survives from file to file, the table does not: a node line is written outside the table
      if and only if an earlier file allowed its number and this one has not yet said how many nodes it has. */
  lemma ForgottenCount(s: FileState, lines: seq<Line>, at: FileState, number: nat, name: string, arity: nat)
    requires Reads(s, lines, at) && s.slots == 0
    ensures VerdictOn(at, NodeLine(number, name, arity)) == Broken <==> !HasCount(lines) && number <= s.declared
  {
    hide Reads, HasCount;
    RoomAfter(s, lines, at);
  }

  /** A file that announces one node, and a file with a node line only. */
  method ReadForgottenCount() returns (verdict: Verdict, p: DepParser)
    ensures verdict == Broken
  {
    hide NamesOK, DefArities, OperandsKnown, UsersKnown, FirstFit, Underscored, LocalsOK, PartialOK;
    EmptyNames();
    p := new DepParser(map[], map[]);
    verdict := p.ReadLine(CountLine(1));
    p.EndFile();
    verdict := p.ReadLine(NodeLine(1, "f", 0));
  }

  /** Three nodes, the last with one operand. */
  method DeclareThree(arity: nat) returns (p: DepParser)
    ensures fresh(p) && p.Valid() && p.partialDefs == map[0 := 0, 1 := 1, 2 := 2] && p.uses == map[0 := {}, 1 := {}, 2 := {}]
    ensures p.defs.Keys == {0, 1, 2} && p.defs[2].ops == [Nothing]
    ensures p.defs[0].ops == p.defs[1].ops == seq(arity, _ => Nothing)
  {
    hide NamesOK, DefArities, OperandsKnown, UsersKnown, FirstFit, Underscored, LocalsOK, PartialOK, DepParser.Valid;
    EmptyNames();
    p := new DepParser(map[], map[]);
    ghost var k := p.RegisterNode(0, "a", arity);
    k := p.RegisterNode(1, "b", arity);
    k := p.RegisterNode(2, "f", 1);
  }

  /** Two nodes that are each other's operand, below a third. */
  method DeclareCycle() returns (p: DepParser)
    ensures fresh(p) && p.Valid() && p.partialDefs == map[0 := 0, 1 := 1, 2 := 2] && 2 in p.uses && p.uses[2] == {}
    ensures p.defs.Keys == {0, 1, 2} && p.defs[0].ops == [Just(1)] && p.defs[1].ops == [Just(0)] && p.defs[2].ops == [Just(0)]
  {
    hide NamesOK, DepParser.Valid, DropsOperand, UsersExact;
    p := DeclareThree(1);
    p.RegisterEdge(1, 0, 0);
    p.RegisterEdge(0, 1, 0);
    p.RegisterEdge(0, 2, 0);
  }

  /** Translation stops at exactly those files that have a root with nothing missing whose operands lead on for ever. */
  lemma CyclicRootMeans(p: DepParser)
    requires p.Valid()
    ensures CyclicRoot(p.State()) <==>
      exists r, s :: IsRootOf(p.State(), r) && Full(p.defs, r) && r in s && Endless(p.defs, s)
  {
    hide NamesOK, DefArities, UsersKnown, LocalsOK, PartialOK, Ranks, Endless, IsRootOf, OperandsKnown;
    KnownOperands(p);
    forall r | IsRootOf(p.State(), r) && Full(p.defs, r) ensures r !in Ranks(p.defs) <==> exists s :: r in s && Endless(p.defs, s) {
      UnrankedIsEndless(p.defs, r);
    }
  }

  /** The translation of the file stops at the cycle. */
  method ShareCycle(mix: Mix) returns (ok: bool)
    ensures !ok
  {
    hide NamesOK, DefArities, OperandsKnown, UsersKnown, LocalsOK, PartialOK, DepParser.Valid, Ranks;
    var p := DeclareCycle();
    var table := new SharedTable(mix);
    NoTerms(p.signatures);
    KnownOperands(p);
    CycleIsUnranked(p.defs);
    assert p.State().partial[2] == 2 && IsRootOf(p.State(), 2);
    ok := p.ShareRoots(table);
  }

  lemma NoTerms(sig: map<nat, nat>)
    ensures Arities(map[], sig)
  {}

  lemma KnownOperands(p: DepParser)
    requires p.Valid()
    ensures OperandsKnown(p.defs)
  {}

  lemma CycleIsUnranked(d: Defs)
    requires d.Keys == {0, 1, 2} && d[0].ops == [Just(1)] && d[1].ops == [Just(0)] && d[2].ops == [Just(0)]
    ensures Full(d, 2) && 2 !in Ranks(d)
  {
    hide Ranks, RankedAll;
    assert AllSupplied(d, {0, 1, 2});
    RanksAreRanks(d);
    forall t | t in d ensures HasOperandIn(d, t, {0, 1, 2}) { assert d[t].ops[0].Just?; }
    assert Endless(d, {0, 1, 2});
    if 2 in Ranks(d) { RankedEnds(d, Ranks(d), {0, 1, 2}, 2); }
  }

  /** Two leaves supplied to one operand in turn: the first keeps a user that it is no operand of. */
  method SupplyTwice() returns (p: DepParser)
    ensures p.Valid() && !UsersExact(p.defs, p.uses)
  {
    hide NamesOK, DepParser.Valid, DropsOperand;
    p := DeclareThree(0);
    p.RegisterEdge(0, 2, 0);
    p.RegisterEdge(1, 2, 0);
    assert 2 in p.uses[0] && p.defs[2].ops[0] == Just(1);
    assert !HasOperand(p.defs, 2, 0);
  }
}
