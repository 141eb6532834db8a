/** DepParser: names, ids and signatures shared by all files, and the nodes and edges of one file. */
module Naming {
  import opened Options
  import opened Terms
  import opened SharedTerms
  import opened DeclaredGraph
  import opened Consing

  /** Ids are dense: n names have the ids below n, each its own. */
  ghost predicate NamesOK(names: map<string, nat>, signatures: map<nat, nat>) {
    && (forall n :: n in names ==> names[n] < |names|)
    && (forall n, m :: n in names && m in names && names[n] == names[m] ==> n == m)
    && (forall i :: i in signatures <==> 0 <= i < |names|)
  }

  /** The name with k underscores behind it. */
  function Underscored(name: string, k: nat): string { if k == 0 then name else Underscored(name, k - 1) + "_" }

  lemma {:induction false} UnderscoredShift(name: string, k: nat)
    ensures Underscored(name + "_", k) == Underscored(name, k + 1)
  {
    if k > 0 { UnderscoredShift(name, k - 1); }
  }

  lemma {:induction false} UnderscoredIs(name: string, k: nat)
    ensures var n := Underscored(name, k);
      |n| == |name| + k && name <= n && forall i :: |name| <= i < |n| ==> n[i] == '_'
  {
    if k > 0 { UnderscoredIs(name, k - 1); }
  }

  /** The name is taken by nodes with another number of operands. */
  ghost predicate Taken(names: map<string, nat>, signatures: map<nat, nat>, name: string, arity: nat) {
    name in names && names[name] in signatures && signatures[names[name]] != arity
  }

  /** The k-th candidate is the first name that is free or has the arity. */
  ghost predicate FirstFit(names: map<string, nat>, signatures: map<nat, nat>, name: string, arity: nat, k: nat) {
    !Taken(names, signatures, Underscored(name, k), arity) &&
    forall j :: 0 <= j < k ==> Taken(names, signatures, Underscored(name, j), arity)
  }

  lemma FitAfterRename(names: map<string, nat>, signatures: map<nat, nat>, name: string, arity: nat, k: nat)
    requires Taken(names, signatures, name, arity) && FirstFit(names, signatures, name + "_", arity, k)
    ensures FirstFit(names, signatures, name, arity, k + 1)
  {
    UnderscoredShift(name, k);
    forall j | 0 <= j < k + 1 ensures Taken(names, signatures, Underscored(name, j), arity) {
      if j > 0 {
        UnderscoredShift(name, j - 1);
        assert Taken(names, signatures, Underscored(name + "_", j - 1), arity);
      }
    }
  }

  /** The names at least as long as n. */
  ghost function AsLong(names: map<string, nat>, n: nat): set<string> { set m | m in names && |m| >= n }

  lemma RenamingEnds(names: map<string, nat>, name: string)
    requires name in names
    ensures AsLong(names, |name| + 1) < AsLong(names, |name|)
  {
    assert name in AsLong(names, |name|) && name !in AsLong(names, |name| + 1);
  }

  /** Every operand knows its user. */
  ghost predicate UsersKnown(defs: Defs, uses: map<Term, set<Term>>) {
    uses.Keys == defs.Keys &&
    forall t, i {:trigger defs[t].ops[i]} :: t in defs && 0 <= i < |defs[t].ops| && defs[t].ops[i].Just? ==>
      defs[t].ops[i].value in uses && t in uses[defs[t].ops[i].value]
  }

  ghost predicate HasOperand(defs: Defs, t: Term, x: Term) {
    t in defs && exists i :: 0 <= i < |defs[t].ops| && defs[t].ops[i] == Just(x)
  }

  /** And there are no other users. */
  ghost predicate UsersExact(defs: Defs, uses: map<Term, set<Term>>) {
    forall x, t {:trigger HasOperand(defs, t, x)} :: x in uses && t in uses[x] ==> HasOperand(defs, t, x)
  }

  // ---- one line of a file --------------------------------------------------------------------

  datatype Line =
    | CountLine(count: int)
    | NodeLine(number: nat, name: string, arity: nat)
    | EdgeLine(from: nat, to: nat, port: nat)

  /** Reject: the parser reports an error and exits. Broken: it goes on and leaves its tables, where the assertions
      of a debug build stop it. */
  datatype Verdict = Go | Reject | Broken

  /** Everything that reading lines changes. */
  datatype FileState = FileState(names: map<string, nat>, signatures: map<nat, nat>, local: map<nat, nat>,
                                 partial: map<nat, Term>, defs: Defs, uses: map<Term, set<Term>>, next: Term,
                                 declared: int, slots: nat)

  /** What looking up a number gives: an absent one reads as id 0. */
  function LocalOf(local: map<nat, nat>, number: nat): nat { if number in local then local[number] else 0 }

  /** The table after the look-up, which makes an entry. */
  function LookedUp(local: map<nat, nat>, number: nat): map<nat, nat> { local[number := LocalOf(local, number)] }

  ghost function VerdictOn(s: FileState, line: Line): Verdict {
    match line
    case CountLine(count) => if count < 0 then Reject else Go
    case NodeLine(number, _, _) =>
      if s.declared < 0 || number > s.declared then Reject else if number >= s.slots then Broken else Go
    case EdgeLine(from, to, port) =>
      var source, target := LocalOf(s.local, from), LocalOf(s.local, to);
      if source !in s.signatures || target !in s.signatures || port >= s.signatures[target] then Reject
      else if from !in s.partial || to !in s.partial then Broken
      else Go
  }

  ghost predicate LineStep(s: FileState, line: Line, s': FileState) {
    match line
    case CountLine(count) => count >= 0 && s' == s.(declared := count, slots := count + 1, partial := map[])
    case NodeLine(number, name, arity) => exists k: nat :: NodeDeclared(s, number, name, arity, k, s')
    case EdgeLine(from, to, port) => EdgeConnected(s, from, to, port, s')
  }

  /** A node with all operands missing, under the id of the k-th candidate for its name. */
  ghost predicate NodeDeclared(s: FileState, number: nat, name: string, arity: nat, k: nat, s': FileState) {
    FirstFit(s.names, s.signatures, name, arity, k) &&
    var n := Underscored(name, k);
    var id := if n in s.names then s.names[n] else |s.names|;
    s' == s.(names := if n in s.names then s.names else s.names[n := id], signatures := s.signatures[id := arity],
             local := s.local[number := id], partial := s.partial[number := s.next],
             defs := s.defs[s.next := Def(id, seq(arity, _ => Nothing))], uses := s.uses[s.next := {}],
             next := s.next + 1)
  }

  ghost predicate EdgeConnected(s: FileState, from: nat, to: nat, port: nat, s': FileState) {
    from in s.partial && to in s.partial && s.partial[to] in s.defs && s.partial[from] in s.uses &&
    port < |s.defs[s.partial[to]].ops| &&
    var (src, dst) := (s.partial[from], s.partial[to]);
    s' == s.(local := LookedUp(LookedUp(s.local, from), to), defs := Supplied(s.defs, src, dst, port),
             uses := s.uses[src := s.uses[src] + {dst}])
  }

  /** The lines led, one by one, from s to s'. */
  ghost predicate Reads(s: FileState, lines: seq<Line>, s': FileState)
    decreases |lines|
  {
    if lines == [] then s' == s
    else exists mid :: Reads(s, lines[..|lines| - 1], mid) && LastLine(mid, lines, s')
  }

  ghost predicate LastLine(s: FileState, lines: seq<Line>, s': FileState)
    requires lines != []
  {
    LineStep(s, lines[|lines| - 1], s')
  }

  lemma ReadsOn(s: FileState, lines: seq<Line>, i: nat, mid: FileState, s': FileState)
    requires i < |lines| && Reads(s, lines[..i], mid) && LineStep(mid, lines[i], s')
    ensures Reads(s, lines[..i + 1], s')
  {
    hide LineStep;
    assert lines[..i + 1][..i] == lines[..i];
    assert LastLine(mid, lines[..i + 1], s');
  }

  /** A number known to this file stands for a declared id, or was only looked up. */
  ghost predicate LocalsOK(local: map<nat, nat>, partial: map<nat, Term>, signatures: map<nat, nat>) {
    partial.Keys <= local.Keys && forall l :: l in local ==> local[l] in signatures || local[l] == 0
  }

  ghost predicate PartialOK(local: map<nat, nat>, partial: map<nat, Term>, defs: Defs) {
    forall l {:trigger partial[l]} :: l in partial ==>
      l in local && partial[l] in defs && defs[partial[l]].id == local[l]
  }

  /** A parser that has read nothing. */
  function Fresh(names: map<string, nat>, signatures: map<nat, nat>): FileState {
    FileState(names, signatures, map[], map[], map[], map[], 0, -1, 0)
  }

  /** What the end of a file leaves. */
  function Cleared(s: FileState): FileState {
    s.(local := map[], partial := map[], defs := map[], uses := map[], slots := 0)
  }

  ghost predicate IsRootOf(s: FileState, r: Term) { r in s.partial.Values && r in s.uses && s.uses[r] == {} }

  /** Some root with nothing missing leads to a cycle. */
  ghost predicate CyclicRoot(s: FileState) {
    exists r :: IsRootOf(s, r) && Full(s.defs, r) && r !in Ranks(s.defs)
  }

  /** Every root with nothing missing has its shared term. */
  ghost predicate Shared(nodes: Graph, s: FileState) {
    !CyclicRoot(s) && forall r :: IsRootOf(s, r) && Full(s.defs, r) ==> HasTranslation(nodes, s, r)
  }

  ghost predicate HasTranslation(nodes: Graph, s: FileState, r: Term) {
    exists u :: Translates(s.defs, Ranks(s.defs), nodes, r, u)
  }

  /** The lines have been read as far as `at`, and what comes next ends the reading: a bad line, no line that gives the
      number of nodes, or a complete root above a cycle, which the assertions of the translation stop at. */
  ghost predicate Refused(s: FileState, lines: seq<Line>, at: FileState, verdict: Verdict) {
    exists good: nat :: good <= |lines| && Reads(s, lines[..good], at) && RefusedAt(lines, good, at, verdict)
  }

  ghost predicate RefusedAt(lines: seq<Line>, good: nat, at: FileState, verdict: Verdict)
    requires good <= |lines|
  {
    if good < |lines| then verdict != Go && VerdictOn(at, lines[good]) == verdict
    else if at.declared == -1 then verdict == Reject
    else verdict == Broken && CyclicRoot(at)
  }

  class DepParser {
    var names: map<string, nat>
    var signatures: map<nat, nat>
    var local: map<nat, nat>
    var partialDefs: map<nat, Term>
    var defs: Defs
    var uses: map<Term, set<Term>>
    var next: Term
    var nodesDeclared: int
    var slots: nat

    /** A parser of its own, with the names and signatures of earlier ones. */
    constructor (names: map<string, nat>, signatures: map<nat, nat>)
      requires NamesOK(names, signatures)
      ensures Valid() && Clean() && this.names == names && this.signatures == signatures
      ensures State() == Fresh(names, signatures)
    {
      this.names, this.signatures := names, signatures;
      local, partialDefs, defs, uses, next := map[], map[], map[], map[], 0;
      nodesDeclared, slots := -1, 0;
    }

    /** Between two files. */
    ghost predicate Clean()
      reads this
    {
      local == map[] && partialDefs == map[] && defs == map[] && uses == map[] && slots == 0
    }

    ghost function State(): FileState
      reads this
    {
      FileState(names, signatures, local, partialDefs, defs, uses, next, nodesDeclared, slots)
    }

    ghost predicate Valid()
      reads this
    {
      && NamesOK(names, signatures) && DefsOK()
      && LocalsOK(local, partialDefs, signatures) && PartialOK(local, partialDefs, defs)
    }

    ghost predicate DefsOK()
      reads this
    {
      DefArities(defs, signatures) && OperandsKnown(defs) && UsersKnown(defs, uses) && forall t :: t in defs ==> t < next
    }

    /** The id for a node's name: the one the name has, if the number of operands agrees, or a new one for a
        new name; else an underscore is appended and the search goes on. Ids keep one arity for all files. */
    method GlobalId(name: string, inArity: nat) returns (globid: nat, ghost k: nat)
      requires NamesOK(names, signatures)
      modifies `names, `signatures
      ensures NamesOK(names, signatures) && FirstFit(old(names), old(signatures), name, inArity, k)
      ensures names == if Underscored(name, k) in old(names) then old(names) else old(names)[Underscored(name, k) := |old(names)|]
      ensures Underscored(name, k) in names && globid == names[Underscored(name, k)] && signatures == old(signatures)[globid := inArity]
      ensures forall i :: i in old(signatures) ==> i in signatures && signatures[i] == old(signatures)[i]
      ensures forall n :: n in old(names) ==> n in names && names[n] == old(names)[n]
      decreases AsLong(names, |name|)
    {
      hide NamesOK, FirstFit;
      k := 0;
      if name !in names {
        globid := |names|;
        NewName(names, signatures, name, inArity);
        FitsAtOnce(names, signatures, name, inArity);
        signatures := signatures[globid := inArity];
        names := names[name := globid];
      } else {
        KnownName(names, signatures, name);
        globid := names[name];
        if inArity != signatures[globid] {
          var newName := name + "_";
          RenamingEnds(names, name);
          ghost var names0, signatures0 := names, signatures;
          globid, k := GlobalId(newName, inArity);
          UnderscoredShift(name, k);
          FitAfterRename(names0, signatures0, name, inArity, k);
          k := k + 1;
        } else {
          FitsAtOnce(names, signatures, name, inArity);
        }
      }
    }

    /** Declares a node under its name's id. */
    method RegisterNode(locid: nat, name: string, inArity: nat) returns (ghost k: nat)
      requires Valid()
      modifies `names, `signatures, `local, `partialDefs, `defs, `uses, `next
      ensures Valid() && FirstFit(old(names), old(signatures), name, inArity, k)
      ensures Underscored(name, k) in names && local == old(local)[locid := names[Underscored(name, k)]]
      ensures forall n :: n in old(names) ==> n in names && names[n] == old(names)[n]
      ensures forall i :: i in old(signatures) ==> i in signatures && signatures[i] == old(signatures)[i]
      ensures names == if Underscored(name, k) in old(names) then old(names) else old(names)[Underscored(name, k) := |old(names)|]
      ensures signatures == old(signatures)[names[Underscored(name, k)] := inArity]
      ensures next == old(next) + 1
      ensures partialDefs == old(partialDefs)[locid := old(next)] && uses == old(uses)[old(next) := {}]
      ensures defs == old(defs)[old(next) := Def(names[Underscored(name, k)], seq(inArity, _ => Nothing))]
    {
      hide NamesOK, FirstFit, Underscored, DefArities, OperandsKnown, UsersKnown, LocalsOK, PartialOK;
      var globid;
      ghost var signatures0 := signatures;
      globid, k := GlobalId(name, inArity);
      AritiesStay(defs, signatures0, signatures);
      NodeEntered(local, partialDefs, signatures0, signatures, defs, locid, globid, inArity, next);
      NewDef(globid, inArity);
      local := local[locid := globid];
      partialDefs := partialDefs[locid := next - 1];
    }

    /** A new term, with all operands missing. */
    method NewDef(id: nat, arity: nat)
      requires DefsOK() && id in signatures && signatures[id] == arity
      modifies `defs, `uses, `next
      ensures DefsOK() && next == old(next) + 1 && uses == old(uses)[old(next) := {}]
      ensures defs == old(defs)[old(next) := Def(id, seq(arity, _ => Nothing))]
    {
      hide NamesOK;
      defs := defs[next := Def(id, seq(arity, _ => Nothing))];
      uses := uses[next := {}];
      next := next + 1;
    }

    /** Supplies operand number port of the destination. The users stay exact unless that drops the last
        mention of another operand, whose use of the destination is not taken back. */
    method RegisterEdge(src: nat, dst: nat, port: nat)
      requires Valid() && src in partialDefs && dst in partialDefs && port < |defs[partialDefs[dst]].ops|
      modifies `defs, `uses
      ensures Valid()
      ensures var t := partialDefs[dst];
        defs == old(defs)[t := Def(old(defs)[t].id, old(defs)[t].ops[port := Just(partialDefs[src])])]
      ensures uses == old(uses)[partialDefs[src] := old(uses)[partialDefs[src]] + {partialDefs[dst]}]
      ensures UsersExact(old(defs), old(uses)) ==>
                (UsersExact(defs, uses) <==> !DropsOperand(old(defs)[partialDefs[dst]].ops, port, partialDefs[src]))
    {
      hide NamesOK, UsersExact, DropsOperand, DefArities, OperandsKnown, UsersKnown, PartialOK;
      var s, t := partialDefs[src], partialDefs[dst];
      EdgeKeeps(port, src, dst);
      UsersAfter(defs, uses, s, t, port);
      defs := defs[t := defs[t].(ops := defs[t].ops[port := Just(s)])];
      uses := uses[s := uses[s] + {t}];
    }

    /** What one more edge leaves as it was. */
    lemma EdgeKeeps(port: nat, src: nat, dst: nat)
      requires Valid() && src in partialDefs && dst in partialDefs && port < |defs[partialDefs[dst]].ops|
      ensures var (s, t) := (partialDefs[src], partialDefs[dst]);
        s in uses && t in defs && UsersKnown(defs, uses) && DefArities(Supplied(defs, s, t, port), signatures) &&
        OperandsKnown(Supplied(defs, s, t, port)) && UsersKnown(Supplied(defs, s, t, port), uses[s := uses[s] + {t}]) &&
        PartialOK(local, partialDefs, Supplied(defs, s, t, port)) && Supplied(defs, s, t, port).Keys == defs.Keys
    {
      hide NamesOK, LocalsOK;
    }

    /** local[number], which makes an entry for a number that has none. */
    method LocalId(number: nat) returns (id: nat)
      requires Valid()
      modifies `local
      ensures Valid() && local == LookedUp(old(local), number) && id == LocalOf(old(local), number)
    {
      hide NamesOK, DefArities, OperandsKnown, UsersKnown;
      if number !in local { local := local[number := 0]; }
      id := local[number];
    }

    predicate CheckNodeId(id: nat)
      reads this
    {
      id in signatures
    }

    predicate CheckNodeInPort(id: nat, port: nat)
      reads this
    {
      id in signatures && port < signatures[id]
    }

    /** The line that gives the number of nodes empties the table of nodes, but not the local numbers. */
    method ReadCount(count: int) returns (verdict: Verdict)
      requires Valid()
      modifies `nodesDeclared, `slots, `partialDefs
      ensures Valid() && verdict == VerdictOn(old(State()), CountLine(count))
      ensures verdict == Go ==> LineStep(old(State()), CountLine(count), State())
    {
      hide NamesOK, DefArities, OperandsKnown, UsersKnown;
      if count < 0 { return Reject; }
      nodesDeclared, partialDefs, slots := count, map[], count + 1;
      verdict := Go;
    }

    method ReadNode(number: nat, name: string, arity: nat) returns (verdict: Verdict)
      requires Valid()
      modifies `names, `signatures, `local, `partialDefs, `defs, `uses, `next
      ensures Valid() && verdict == VerdictOn(old(State()), NodeLine(number, name, arity))
      ensures verdict == Go ==> LineStep(old(State()), NodeLine(number, name, arity), State())
      ensures SignaturesKept(old(signatures), signatures)
    {
      hide NamesOK, DefArities, OperandsKnown, UsersKnown, FirstFit, Underscored, LocalsOK, PartialOK;
      if nodesDeclared < 0 || number > nodesDeclared { return Reject; }
      if number >= slots { return Broken; }
      ghost var s := State();
      ghost var k := RegisterNode(number, name, arity);
      assert NodeDeclared(s, number, name, arity, k, State());
      verdict := Go;
    }

    /** The two look-ups of an edge line and the checks on them. */
    method CheckEdge(from: nat, to: nat, port: nat) returns (verdict: Verdict)
      requires Valid()
      modifies `local
      ensures Valid() && verdict == VerdictOn(old(State()), EdgeLine(from, to, port))
      ensures verdict == Go ==> local == LookedUp(LookedUp(old(local), from), to)
    {
      hide NamesOK, DefArities, OperandsKnown, UsersKnown, LocalsOK, PartialOK;
      var source := LocalId(from);
      if !CheckNodeId(source) { return Reject; }
      var target := LocalId(to);
      if !CheckNodeId(target) || !CheckNodeInPort(target, port) { return Reject; }
      verdict := if from !in partialDefs || to !in partialDefs then Broken else Go;
    }

    /** An edge line: the checks, then the edge. */
    method ReadEdge(from: nat, to: nat, port: nat) returns (verdict: Verdict)
      requires Valid()
      modifies `local, `defs, `uses
      ensures Valid() && verdict == VerdictOn(old(State()), EdgeLine(from, to, port))
      ensures verdict == Go ==> LineStep(old(State()), EdgeLine(from, to, port), State())
    {
      hide NamesOK, UsersExact, DropsOperand, LocalsOK, PartialOK, VerdictOn, LookedUp;
      if VerdictOn(State(), EdgeLine(from, to, port)) == Go { PortExists(from, to, port); }
      verdict := CheckEdge(from, to, port);
      if verdict == Go { RegisterEdge(from, to, port); }
    }

    lemma PortExists(from: nat, to: nat, port: nat)
      requires Valid() && VerdictOn(State(), EdgeLine(from, to, port)) == Go
      ensures from in partialDefs && to in partialDefs && partialDefs[to] in defs && partialDefs[from] in uses
      ensures port < |defs[partialDefs[to]].ops|
    {
      hide NamesOK, OperandsKnown;
      assert partialDefs[from] in defs;
    }

    method ReadLine(line: Line) returns (verdict: Verdict)
      requires Valid()
      modifies this
      ensures Valid() && verdict == VerdictOn(old(State()), line)
      ensures verdict == Go ==> LineStep(old(State()), line, State())
      ensures SignaturesKept(old(signatures), signatures)
    {
      hide *;
      KeptSelf(signatures);
      match line
      case CountLine(count) => verdict := ReadCount(count);
      case NodeLine(number, name, arity) => verdict := ReadNode(number, name, arity);
      case EdgeLine(from, to, port) => verdict := ReadEdge(from, to, port);
    }

    /** All lines, up to the first that is not good. */
    method ReadLines(lines: seq<Line>) returns (verdict: Verdict, ghost good: nat, ghost at: FileState)
      requires Valid()
      modifies this
      ensures Valid() && SignaturesKept(old(signatures), signatures) && good <= |lines|
      ensures Reads(old(State()), lines[..good], at)
      ensures verdict == Go ==> good == |lines| && at == State()
      ensures verdict != Go ==> good < |lines| && VerdictOn(at, lines[good]) == verdict
    {
      hide *;
      StartReading(State(), lines);
      KeptSelf(signatures);
      good, at, verdict := 0, State(), Go;
      var i := 0;
      while i < |lines|
        invariant i <= |lines| && good == i && at == State() && verdict == Go
        invariant Valid() && SignaturesKept(old(signatures), signatures)
        invariant Reads(old(State()), lines[..i], State())
      {
        ghost var sig, s := signatures, State();
        verdict := ReadLine(lines[i]);
        KeptTrans(old(signatures), sig, signatures);
        if verdict != Go { return; }
        ReadsOn(old(State()), lines, i, s, State());
        i := i + 1;
        good, at := i, State();
      }
      assert lines[..i] == lines;
    }

    method EndFile()
      requires Valid()
      modifies `local, `partialDefs, `defs, `uses, `slots
      ensures Valid() && Clean() && State() == Cleared(old(State()))
    {
      hide NamesOK, DefArities, OperandsKnown, UsersKnown, LocalsOK, PartialOK;
      NothingDeclared(signatures);
      local, partialDefs, defs, uses, slots := map[], map[], map[], map[], 0;
    }

    lemma DefsParts()
      requires Valid()
      ensures DefArities(defs, signatures) && OperandsKnown(defs)
      ensures forall t :: t in partialDefs.Values ==> t in defs && t in uses
    {
      hide NamesOK, LocalsOK, DefArities, OperandsKnown;
      Declared(defs, uses, partialDefs);
    }

    lemma StateFields()
      ensures State().defs == defs && State().signatures == signatures && State().uses == uses
      ensures State().declared == nodesDeclared && State().partial == partialDefs
    {}

    /** Moves the complete roots into the shared table. It gets through exactly if none of them leads to a cycle. */
    method ShareRoots(table: SharedTable) returns (ok: bool)
      requires Valid() && table.Valid() && Arities(table.nodes, signatures)
      modifies table
      ensures table.Valid() && Arities(table.nodes, signatures) && Extends(old(table.nodes), table.nodes)
      ensures ok <==> !CyclicRoot(State())
      ensures ok ==> Shared(table.nodes, State())
    {
      hide *;
      var roots := GetRoots();
      StateFields();
      DefsParts();
      RanksAreRanks(defs);
      RootsOf(State(), roots);
      var cse, incomplete;
      ok, cse, incomplete := TranslateRoots(table, defs, Ranks(defs), signatures, roots);
      RootsCycle(State(), roots);
      if ok { RootsShared(State(), roots, cse); }
    }

    /** parse: read the lines, move the complete roots into the shared table, forget the file. */
    method Parse(lines: seq<Line>, table: SharedTable) returns (verdict: Verdict, ghost at: FileState)
      requires Valid() && Clean() && table.Valid() && Arities(table.nodes, signatures)
      modifies this, table
      ensures Valid() && SignaturesKept(old(signatures), signatures)
      ensures table.Valid() && Arities(table.nodes, signatures) && Extends(old(table.nodes), table.nodes)
      ensures verdict == Go ==> Reads(old(State()), lines, at) && at.declared != -1 && State() == Cleared(at) && Clean()
      ensures verdict == Go ==> Shared(table.nodes, at)
      ensures verdict != Go ==> Refused(old(State()), lines, at, verdict)
      ensures table.nodes == old(table.nodes) || (at.declared != -1 && Reads(old(State()), lines, at))
    {
      hide *;
      ghost var good;
      ExtendsSelf(table.nodes);
      verdict, good, at := ReadLines(lines);
      TableArities(table.nodes, old(signatures), signatures);
      if verdict != Go {
        RefusedHere(old(State()), lines, good, at, verdict);
        return;
      }
      assert lines[..good] == lines;
      StateFields();
      if nodesDeclared == -1 {
        RefusedHere(old(State()), lines, good, at, Reject);
        return Reject, at;
      }
      var ok := ShareRoots(table);
      if !ok {
        RefusedHere(old(State()), lines, good, at, Broken);
        return Broken, at;
      }
      EndFile();
    }

    /** The final terms among those declared last under each number: no roots have users. */
    method GetRoots() returns (roots: seq<Term>)
      requires Valid()
      ensures forall t :: t in roots <==> t in partialDefs.Values && uses[t] == {}
      ensures NoRepeats(roots)
      ensures forall r :: r in roots ==> r in defs && !IsArgument(defs, r)
    {
      hide NamesOK, DefArities, OperandsKnown, UsersKnown, IsArgument;
      Declared(defs, uses, partialDefs);
      roots := Finals(partialDefs.Values, uses);
      forall r | r in roots ensures !IsArgument(defs, r) { NoUserNoArgument(defs, uses, r); }
    }
  }

  /** The terms without users, each once. */
  method Finals(terms: set<Term>, uses: map<Term, set<Term>>) returns (roots: seq<Term>)
    requires terms <= uses.Keys
    ensures forall t :: t in roots <==> t in terms && uses[t] == {}
    ensures NoRepeats(roots)
  {
    roots := [];
    var todo := terms;
    while todo != {}
      invariant todo <= terms
      invariant forall t :: t in roots <==> t in terms && t !in todo && uses[t] == {}
      invariant NoRepeats(roots)
      decreases |todo|
    {
      var t :| t in todo;
      if uses[t] == {} {
        roots := roots + [t];
      }
      todo := todo - {t};
    }
  }

  ghost predicate SignaturesKept(sig: map<nat, nat>, sig': map<nat, nat>) {
    forall i :: i in sig ==> i in sig' && sig'[i] == sig[i]
  }

  lemma TableArities(g: Graph, sig: map<nat, nat>, sig': map<nat, nat>)
    requires Arities(g, sig) && SignaturesKept(sig, sig')
    ensures Arities(g, sig')
  {}

  lemma RefusedHere(s: FileState, lines: seq<Line>, good: nat, at: FileState, verdict: Verdict)
    requires good <= |lines| && Reads(s, lines[..good], at) && verdict != Go
    requires if good < |lines| then VerdictOn(at, lines[good]) == verdict
             else if at.declared == -1 then verdict == Reject else verdict == Broken && CyclicRoot(at)
    ensures Refused(s, lines, at, verdict)
  {
    hide Reads, VerdictOn, CyclicRoot;
    assert RefusedAt(lines, good, at, verdict);
  }

  /** The roots found are the roots of the state. */
  lemma RootsOf(s: FileState, roots: seq<Term>)
    requires forall r :: r in roots <==> r in s.partial.Values && r in s.uses && s.uses[r] == {}
    ensures forall r :: r in roots <==> IsRootOf(s, r)
  {}

  lemma RootsCycle(s: FileState, roots: seq<Term>)
    requires forall r :: r in roots <==> IsRootOf(s, r)
    ensures CycleBelow(s.defs, Ranks(s.defs), roots) <==> CyclicRoot(s)
  {
    hide IsRootOf, Full, Ranks;
  }

  lemma RootsShared(s: FileState, roots: seq<Term>, cse: CSE)
    requires cse.defs == s.defs && cse.rank == Ranks(s.defs) && !CyclicRoot(s)
    requires forall r :: r in roots <==> IsRootOf(s, r)
    requires forall r :: r in roots && Full(s.defs, r) ==> cse.Done(r)
    ensures Shared(cse.table.nodes, s)
  {
    hide IsRootOf, Full, Translates, Ranks, CyclicRoot, HashOf, DepthOf, DefTree;
    forall r | IsRootOf(s, r) && Full(s.defs, r) ensures HasTranslation(cse.table.nodes, s, r) {
      assert cse.Done(r);
    }
  }

  lemma KeptSelf(sig: map<nat, nat>)
    ensures SignaturesKept(sig, sig)
  {}

  lemma KeptTrans(a: map<nat, nat>, b: map<nat, nat>, c: map<nat, nat>)
    requires SignaturesKept(a, b) && SignaturesKept(b, c)
    ensures SignaturesKept(a, c)
  {}

  lemma StartReading(s: FileState, lines: seq<Line>)
    ensures Reads(s, lines[..0], s)
  {}

  lemma NodeEntered(local: map<nat, nat>, partial: map<nat, Term>, signatures: map<nat, nat>, signatures': map<nat, nat>,
                    defs: Defs, number: nat, id: nat, arity: nat, t: Term)
    requires LocalsOK(local, partial, signatures) && PartialOK(local, partial, defs) && t !in defs
    requires id in signatures' && forall i :: i in signatures ==> i in signatures'
    ensures LocalsOK(local[number := id], partial[number := t], signatures')
    ensures PartialOK(local[number := id], partial[number := t], defs[t := Def(id, seq(arity, _ => Nothing))])
  {}

  lemma AritiesStay(defs: Defs, sig: map<nat, nat>, sig': map<nat, nat>)
    requires DefArities(defs, sig) && forall i :: i in sig ==> i in sig' && sig'[i] == sig[i]
    ensures DefArities(defs, sig')
  {}

  /** Supplying s at the port drops the only mention of another operand. */
  ghost predicate DropsOperand(ops: seq<Maybe<Term>>, port: nat, s: Term)
    requires port < |ops|
  {
    ops[port].Just? && ops[port].value != s && forall i :: 0 <= i < |ops| && i != port ==> ops[i] != ops[port]
  }

  function Supplied(defs: Defs, s: Term, t: Term, port: nat): Defs
    requires t in defs && port < |defs[t].ops|
  {
    defs[t := defs[t].(ops := defs[t].ops[port := Just(s)])]
  }

  lemma NewUser(defs: Defs, uses: map<Term, set<Term>>, s: Term, t: Term, port: nat)
    requires UsersExact(defs, uses) && s in uses && t in defs && port < |defs[t].ops| && !DropsOperand(defs[t].ops, port, s)
    ensures UsersExact(Supplied(defs, s, t, port), uses[s := uses[s] + {t}])
  {
    var defs', uses' := Supplied(defs, s, t, port), uses[s := uses[s] + {t}];
    forall x, u | x in uses' && u in uses'[x] ensures HasOperand(defs', u, x) {
      if x == s && u == t {
        assert defs'[t].ops[port] == Just(s);
      } else {
        assert u in uses[x] && HasOperand(defs, u, x);
        var i :| 0 <= i < |defs[u].ops| && defs[u].ops[i] == Just(x);
        if u == t && i == port {
          var k :| 0 <= k < |defs[t].ops| && k != port && defs[t].ops[k] == defs[t].ops[port];
          assert defs'[t].ops[k] == Just(x);
        } else {
          assert defs'[u].ops[i] == Just(x);
        }
      }
    }
  }

  lemma StaleUser(defs: Defs, uses: map<Term, set<Term>>, s: Term, t: Term, port: nat)
    requires UsersKnown(defs, uses) && s in uses && t in defs && port < |defs[t].ops| && DropsOperand(defs[t].ops, port, s)
    ensures !UsersExact(Supplied(defs, s, t, port), uses[s := uses[s] + {t}])
  {
    var x := defs[t].ops[port].value;
    assert t in uses[x];
    assert !HasOperand(Supplied(defs, s, t, port), t, x);
  }

  lemma NothingDeclared(sig: map<nat, nat>)
    ensures DefArities(map[], sig) && OperandsKnown(map[]) && UsersKnown(map[], map[])
    ensures LocalsOK(map[], map[], sig) && PartialOK(map[], map[], map[])
  {}

  /** Exact users stay exact if and only if no operand loses its last mention. */
  lemma UsersAfter(defs: Defs, uses: map<Term, set<Term>>, s: Term, t: Term, port: nat)
    requires UsersKnown(defs, uses) && s in uses && t in defs && port < |defs[t].ops|
    ensures UsersExact(defs, uses) ==>
      (UsersExact(Supplied(defs, s, t, port), uses[s := uses[s] + {t}]) <==> !DropsOperand(defs[t].ops, port, s))
  {
    hide UsersExact, DropsOperand, UsersKnown;
    if UsersExact(defs, uses) {
      if DropsOperand(defs[t].ops, port, s) {
        StaleUser(defs, uses, s, t, port);
      } else {
        NewUser(defs, uses, s, t, port);
      }
    }
  }

  lemma FitsAtOnce(names: map<string, nat>, signatures: map<nat, nat>, name: string, arity: nat)
    requires !Taken(names, signatures, name, arity)
    ensures FirstFit(names, signatures, name, arity, 0)
  {}

  lemma KnownName(names: map<string, nat>, signatures: map<nat, nat>, name: string)
    requires NamesOK(names, signatures) && name in names
    ensures names[name] in signatures
  {}

  lemma NameCount(names: map<string, nat>, name: string)
    requires name !in names
    ensures |names[name := |names|]| == |names| + 1
  {
    var names' := names[name := |names|];
    assert names'.Keys == names.Keys + {name};
    assert |names'| == |names'.Keys| && |names| == |names.Keys|;
  }

  lemma NewName(names: map<string, nat>, signatures: map<nat, nat>, name: string, arity: nat)
    requires NamesOK(names, signatures) && name !in names
    ensures NamesOK(names[name := |names|], signatures[|names| := arity]) && |names| !in signatures
  {
    NameCount(names, name);
    NamesGrow(names, signatures, name, arity, |names|, |names| + 1);
  }

  lemma NamesGrow(names: map<string, nat>, signatures: map<nat, nat>, name: string, arity: nat, n: nat, n': nat)
    requires NamesOK(names, signatures) && name !in names && n == |names| && n' == n + 1 == |names[name := n]|
    ensures NamesOK(names[name := n], signatures[n := arity]) && n !in signatures
  {
    var names', signatures' := names[name := n], signatures[n := arity];
    forall a, b | a in names' && b in names' && names'[a] == names'[b] ensures a == b {
      if a != name && b != name { assert names[a] == names[b]; }
    }
  }

  lemma Declared(defs: Defs, uses: map<Term, set<Term>>, partialDefs: map<nat, Term>)
    requires UsersKnown(defs, uses)
    requires forall l {:trigger partialDefs[l]} :: l in partialDefs ==> partialDefs[l] in defs
    ensures forall t :: t in partialDefs.Values ==> t in defs && t in uses
  {}

  lemma NoUserNoArgument(defs: Defs, uses: map<Term, set<Term>>, r: Term)
    requires UsersKnown(defs, uses) && r in uses && uses[r] == {}
    ensures !IsArgument(defs, r)
  {}

  /** One arity per id, whatever has been declared. */
  lemma OneArityPerId(p: DepParser, t: Term, u: Term)
    requires p.Valid() && t in p.defs && u in p.defs && p.defs[t].id == p.defs[u].id
    ensures |p.defs[t].ops| == |p.defs[u].ops|
  {
    hide NamesOK;
  }
}
