/** What a file that is read says: which node each line declares, what its operands are and who its users are,
    told from the lines alone. */
module FileMeaning {
  import opened Options
  import opened Terms
  import opened DeclaredGraph
  import opened Naming

  predicate IsNode(lines: seq<Line>, i: nat) { i < |lines| && lines[i].NodeLine? }

  /** Node lines before line i. */
  function NodesBefore(lines: seq<Line>, i: nat): nat
    requires i <= |lines|
  {
    if i == 0 then 0 else NodesBefore(lines, i - 1) + if lines[i - 1].NodeLine? then 1 else 0
  }

  /** Each node line has a term of its own, numbered in the order of the lines. */
  function TermOf(base: Term, lines: seq<Line>, i: nat): Term
    requires i <= |lines|
  {
    base + NodesBefore(lines, i)
  }

  /** Before line k the number stands for what line i declared: that is the last one of this number, and no line since
      has given a number of nodes. */
  ghost predicate StandsFor(lines: seq<Line>, k: nat, number: nat, i: nat) {
    i < k <= |lines| && lines[i].NodeLine? && lines[i].number == number &&
    forall j :: i < j < k ==> !Ends(lines[j], number)
  }

  predicate Ends(line: Line, number: nat) { line.CountLine? || (line.NodeLine? && line.number == number) }

  /** Line j connects something to this operand of the node of line i. */
  ghost predicate Supplies(lines: seq<Line>, j: nat, i: nat, port: nat) {
    j < |lines| && lines[j].EdgeLine? && lines[j].port == port && StandsFor(lines, j, lines[j].to, i)
  }

  ghost predicate SuppliesLast(lines: seq<Line>, k: nat, j: nat, i: nat, port: nat) {
    j < k && Supplies(lines, j, i, port) && forall j' :: j < j' < k ==> !Supplies(lines, j', i, port)
  }

  /** Line j makes the node of line i' a user of the node of line i. */
  ghost predicate Connects(lines: seq<Line>, j: nat, i: nat, i': nat) {
    j < |lines| && lines[j].EdgeLine? && StandsFor(lines, j, lines[j].from, i) && StandsFor(lines, j, lines[j].to, i')
  }

  ghost predicate Uses(base: Term, lines: seq<Line>, k: nat, i: nat, u: Term)
  {
    exists j, i' :: 0 <= j < k && Connects(lines, j, i, i') && TermIs(base, lines, i', u)
  }

  predicate TermIs(base: Term, lines: seq<Line>, i: nat, t: Term) { i <= |lines| && t == TermOf(base, lines, i) }

  /** The numbers that can be connected are those that stand for a node. */
  ghost predicate NumbersMean(base: Term, lines: seq<Line>, k: nat, partial: map<nat, Term>) {
    && (forall n, i :: StandsFor(lines, k, n, i) ==> n in partial && TermIs(base, lines, i, partial[n]))
    && (forall n :: n in partial ==> exists i :: StandsFor(lines, k, n, i))
  }

  /** A node has the name's id: that of the first name with underscores that fits its number of operands. */
  ghost predicate HasName(names: map<string, nat>, signatures: map<nat, nat>, name: string, arity: nat, id: nat) {
    exists k: nat :: FirstFit(names, signatures, name, arity, k) && IsNamed(names, Underscored(name, k), id)
  }

  ghost predicate IsNamed(names: map<string, nat>, name: string, id: nat) { name in names && names[name] == id }

  ghost predicate OperandMeans(base: Term, lines: seq<Line>, k: nat, i: nat, port: nat, op: Maybe<Term>) {
    && (forall j, i' :: SuppliesLast(lines, k, j, i, port) && Connects(lines, j, i', i) ==>
          op.Just? && TermIs(base, lines, i', op.value))
    && ((forall j :: 0 <= j < k ==> !Supplies(lines, j, i, port)) ==> op.Nothing?)
  }

  ghost predicate NodeMeans(base: Term, lines: seq<Line>, k: nat, i: nat, s: FileState)
    requires IsNode(lines, i)
  {
    var t := TermOf(base, lines, i);
    t in s.defs && |s.defs[t].ops| == lines[i].arity && HasArity(s.signatures, s.defs[t].id, lines[i].arity) &&
    HasName(s.names, s.signatures, lines[i].name, lines[i].arity, s.defs[t].id) &&
    OpsMean(base, lines, k, i, s.defs[t].ops) && t in s.uses && UsesMean(base, lines, k, i, s.uses[t])
  }

  ghost predicate OpsMean(base: Term, lines: seq<Line>, k: nat, i: nat, ops: seq<Maybe<Term>>) {
    forall port :: 0 <= port < |ops| ==> OperandMeans(base, lines, k, i, port, ops[port])
  }

  ghost predicate UsesMean(base: Term, lines: seq<Line>, k: nat, i: nat, uses: set<Term>) {
    forall u :: u in uses <==> Uses(base, lines, k, i, u)
  }

  ghost predicate HasArity(signatures: map<nat, nat>, id: nat, arity: nat) {
    id in signatures && signatures[id] == arity
  }

  /** The state after the first k lines. */
  ghost predicate Means(base: Term, lines: seq<Line>, k: nat, s: FileState)
    requires k <= |lines|
  {
    && NamesOK(s.names, s.signatures) && s.next == TermOf(base, lines, k)
    && NumbersMean(base, lines, k, s.partial) && Sourced(lines, k)
    && (forall t :: t in s.defs || t in s.uses ==> base <= t < s.next)
    && forall i :: 0 <= i < k && IsNode(lines, i) ==> NodeMeans(base, lines, k, i, s)
  }

  /** An operand is connected to a node by each line that supplies it. */
  ghost predicate Sourced(lines: seq<Line>, k: nat) {
    forall j :: 0 <= j < k <= |lines| && lines[j].EdgeLine? ==>
      exists i, i' :: Connects(lines, j, i, i')
  }

  // ---- one line more -------------------------------------------------------------------------------

  lemma {:induction false} CountGrows(lines: seq<Line>, i: nat, k: nat)
    requires i <= k <= |lines|
    ensures NodesBefore(lines, i) <= NodesBefore(lines, k)
    ensures i < k && lines[i].NodeLine? ==> NodesBefore(lines, i) < NodesBefore(lines, k)
    decreases k
  {
    if i < k {
      CountGrows(lines, i, k - 1);
      assert NodesBefore(lines, i + 1) == NodesBefore(lines, i) + if lines[i].NodeLine? then 1 else 0;
    }
  }

  lemma StandsNext(lines: seq<Line>, k: nat, n: nat, i: nat)
    requires k < |lines|
    ensures StandsFor(lines, k + 1, n, i) <==>
      if lines[k].NodeLine? && lines[k].number == n then i == k else !lines[k].CountLine? && StandsFor(lines, k, n, i)
  {}

  lemma OneStands(lines: seq<Line>, k: nat, n: nat, i: nat, i': nat)
    requires StandsFor(lines, k, n, i) && StandsFor(lines, k, n, i')
    ensures i == i'
  {
    assert Ends(lines[i], n) && Ends(lines[i'], n);
  }

  lemma OperandStays(base: Term, lines: seq<Line>, k: nat, i: nat, port: nat, op: Maybe<Term>)
    requires OperandMeans(base, lines, k, i, port, op) && k < |lines| && !Supplies(lines, k, i, port)
    ensures OperandMeans(base, lines, k + 1, i, port, op)
  {
    hide Supplies, Connects;
    forall j, i' | SuppliesLast(lines, k + 1, j, i, port) && Connects(lines, j, i', i)
      ensures op.Just? && TermIs(base, lines, i', op.value)
    {
      assert SuppliesLast(lines, k, j, i, port);
    }
  }

  lemma UsesStay(base: Term, lines: seq<Line>, k: nat, i: nat, u: Term)
    requires k < |lines| && forall i' :: !Connects(lines, k, i, i')
    ensures Uses(base, lines, k + 1, i, u) <==> Uses(base, lines, k, i, u)
  {
    hide Connects;
  }

  /** Names and arities that are there stay, so a node keeps its name's meaning. */
  lemma NameStays(names: map<string, nat>, signatures: map<nat, nat>, names': map<string, nat>,
                  signatures': map<nat, nat>,
                  name: string, arity: nat, id: nat)
    requires HasName(names, signatures, name, arity, id) && HasArity(signatures, id, arity)
    requires forall n :: n in names ==> IsNamed(names', n, names[n])
    requires SignaturesKept(signatures, signatures')
    ensures HasName(names', signatures', name, arity, id)
  {
    var k: nat :| FirstFit(names, signatures, name, arity, k) && IsNamed(names, Underscored(name, k), id);
    forall j | 0 <= j < k ensures Taken(names', signatures', Underscored(name, j), arity) {
      assert Taken(names, signatures, Underscored(name, j), arity);
      assert IsNamed(names', Underscored(name, j), names[Underscored(name, j)]);
    }
    assert IsNamed(names', Underscored(name, k), id);
  }

  lemma NodeStays(base: Term, lines: seq<Line>, k: nat, i: nat, s: FileState, s': FileState)
    requires k < |lines| && IsNode(lines, i) && NodeMeans(base, lines, k, i, s)
    requires var t := TermOf(base, lines, i);
      t in s'.defs && s'.defs[t] == s.defs[t] && t in s'.uses && s'.uses[t] == s.uses[t]
    requires (forall port :: !Supplies(lines, k, i, port)) && forall i' :: !Connects(lines, k, i, i')
    requires forall n :: n in s.names ==> IsNamed(s'.names, n, s.names[n])
    requires SignaturesKept(s.signatures, s'.signatures)
    ensures NodeMeans(base, lines, k + 1, i, s')
  {
    hide OperandMeans, Uses, Supplies, Connects, HasName, IsNamed;
    var t := TermOf(base, lines, i);
    NameStays(s.names, s.signatures, s'.names, s'.signatures, lines[i].name, lines[i].arity, s.defs[t].id);
    forall port | 0 <= port < |s.defs[t].ops| ensures OperandMeans(base, lines, k + 1, i, port, s.defs[t].ops[port]) {
      OperandStays(base, lines, k, i, port, s.defs[t].ops[port]);
    }
    var after := k + 1;
    forall u ensures Uses(base, lines, after, i, u) <==> Uses(base, lines, k, i, u) { UsesStay(base, lines, k, i, u); }
  }

  lemma NotAnEdge(lines: seq<Line>, k: nat)
    requires k < |lines| && !lines[k].EdgeLine?
    ensures (forall i, port :: !Supplies(lines, k, i, port)) && forall i, i' :: !Connects(lines, k, i, i')
  {}

  lemma CountMeans(base: Term, lines: seq<Line>, k: nat, s: FileState, s': FileState)
    requires k < |lines| && lines[k].CountLine? && Means(base, lines, k, s) && LineStep(s, lines[k], s')
    ensures Means(base, lines, k + 1, s')
  {
    hide NodeMeans, Supplies, Connects, StandsFor, NamesOK;
    NotAnEdge(lines, k);
    var after := k + 1;
    forall n, i ensures !StandsFor(lines, after, n, i) { StandsNext(lines, k, n, i); }
    forall i | 0 <= i < k + 1 && IsNode(lines, i) ensures NodeMeans(base, lines, k + 1, i, s') {
      TermThere(base, lines, k, i, s);
      NodeStays(base, lines, k, i, s, s');
    }
  }

  lemma TermThere(base: Term, lines: seq<Line>, k: nat, i: nat, s: FileState)
    requires i < k <= |lines| && IsNode(lines, i) && Means(base, lines, k, s)
    ensures NodeMeans(base, lines, k, i, s)
    ensures var t := TermOf(base, lines, i); t in s.defs && t in s.uses && t < s.next
  {
    hide OpsMean, UsesMean, HasName, NumbersMean, NamesOK;
  }

  // ---- a node line ---------------------------------------------------------------------------------

  lemma NamesAfterNode(s: FileState, number: nat, name: string, arity: nat, k: nat, s': FileState)
    requires NamesOK(s.names, s.signatures) && NodeDeclared(s, number, name, arity, k, s')
    ensures NamesOK(s'.names, s'.signatures) && SignaturesKept(s.signatures, s'.signatures)
    ensures forall n :: n in s.names ==> IsNamed(s'.names, n, s.names[n])
    ensures HasName(s'.names, s'.signatures, name, arity, s'.defs[s.next].id)
    ensures HasArity(s'.signatures, s'.defs[s.next].id, arity)
  {
    hide FirstFit, Underscored, Taken;
    var n := Underscored(name, k);
    if n in s.names {
      KnownFits(s.names, s.signatures, name, arity, k);
    } else {
      NewName(s.names, s.signatures, n, arity);
    }
    StillFits(s.names, s.signatures, name, arity, k, s'.names, s'.signatures);
    assert IsNamed(s'.names, n, s'.defs[s.next].id);
  }

  lemma KnownFits(names: map<string, nat>, signatures: map<nat, nat>, name: string, arity: nat, k: nat)
    requires NamesOK(names, signatures) && FirstFit(names, signatures, name, arity, k) && Underscored(name, k) in names
    ensures HasArity(signatures, names[Underscored(name, k)], arity)
    ensures signatures[names[Underscored(name, k)] := arity] == signatures
  {
    hide Underscored;
    KnownName(names, signatures, Underscored(name, k));
    hide NamesOK;
  }

  lemma StillFits(names: map<string, nat>, signatures: map<nat, nat>, name: string, arity: nat, k: nat,
                  names': map<string, nat>, signatures': map<nat, nat>)
    requires FirstFit(names, signatures, name, arity, k) && SignaturesKept(signatures, signatures')
    requires forall n :: n in names ==> IsNamed(names', n, names[n])
    requires Underscored(name, k) in names' && HasArity(signatures', names'[Underscored(name, k)], arity)
    ensures FirstFit(names', signatures', name, arity, k)
  {
    hide Underscored;
    forall j | 0 <= j < k ensures Taken(names', signatures', Underscored(name, j), arity) {
      assert Taken(names, signatures, Underscored(name, j), arity);
      assert IsNamed(names', Underscored(name, j), names[Underscored(name, j)]);
    }
  }

  /** A new node has no operands and no users yet. */
  lemma NewNode(base: Term, lines: seq<Line>, k: nat, s': FileState)
    requires IsNode(lines, k) && var t := TermOf(base, lines, k);
      t in s'.defs && s'.defs[t].ops == seq(lines[k].arity, _ => Nothing) && t in s'.uses && s'.uses[t] == {} &&
      HasArity(s'.signatures, s'.defs[t].id, lines[k].arity) &&
      HasName(s'.names, s'.signatures, lines[k].name, lines[k].arity, s'.defs[t].id)
    ensures NodeMeans(base, lines, k + 1, k, s')
  {
    hide HasName, HasArity, Supplies, Connects;
    NotYetConnected(lines, k);
  }

  lemma NotYetConnected(lines: seq<Line>, k: nat)
    ensures forall j, port :: 0 <= j <= k ==> !Supplies(lines, j, k, port)
    ensures forall j, i' :: 0 <= j <= k ==> !Connects(lines, j, k, i')
  {}

  lemma NumbersAfterNode(base: Term, lines: seq<Line>, k: nat, partial: map<nat, Term>)
    requires k < |lines| && lines[k].NodeLine? && NumbersMean(base, lines, k, partial)
    ensures NumbersMean(base, lines, k + 1, partial[lines[k].number := TermOf(base, lines, k)])
  {
    hide StandsFor;
    var partial', after := partial[lines[k].number := TermOf(base, lines, k)], k + 1;
    forall n, i | StandsFor(lines, after, n, i) ensures n in partial' && TermIs(base, lines, i, partial'[n]) {
      StandsNext(lines, k, n, i);
    }
    forall n | n in partial' ensures exists i :: StandsFor(lines, after, n, i) {
      if n == lines[k].number {
        StandsNext(lines, k, n, k);
      } else {
        var i :| StandsFor(lines, k, n, i);
        StandsNext(lines, k, n, i);
      }
    }
  }

  lemma NodeLineMeans(base: Term, lines: seq<Line>, k: nat, s: FileState, s': FileState)
    requires k < |lines| && lines[k].NodeLine? && Means(base, lines, k, s) && LineStep(s, lines[k], s')
    ensures Means(base, lines, k + 1, s')
  {
    hide NodeMeans, Supplies, Connects, NamesOK, HasName, HasArity, FirstFit, Underscored, NumbersMean, IsNamed, SignaturesKept;
    var c: nat :| NodeDeclared(s, lines[k].number, lines[k].name, lines[k].arity, c, s');
    NamesAfterNode(s, lines[k].number, lines[k].name, lines[k].arity, c, s');
    NumbersAfterNode(base, lines, k, s.partial);
    NewNode(base, lines, k, s');
    NotAnEdge(lines, k);
    forall i | 0 <= i < k + 1 && IsNode(lines, i) ensures NodeMeans(base, lines, k + 1, i, s') {
      if i < k {
        TermThere(base, lines, k, i, s);
        NodeStays(base, lines, k, i, s, s');
      }
    }
  }

  // ---- an edge line --------------------------------------------------------------------------------

  /** The operand supplied is the new one from now on. */
  lemma OperandSupplied(base: Term, lines: seq<Line>, k: nat, i: nat, from: nat, src: Term)
    requires k < |lines| && lines[k].EdgeLine? && Connects(lines, k, from, i) && TermIs(base, lines, from, src)
    ensures OperandMeans(base, lines, k + 1, i, lines[k].port, Just(src))
  {
    var port := lines[k].port;
    assert Supplies(lines, k, i, port);
    forall j, i' | SuppliesLast(lines, k + 1, j, i, port) && Connects(lines, j, i', i) ensures TermIs(base, lines, i', src) {
      assert j == k;
      OneStands(lines, k, lines[k].from, from, i');
    }
  }

  lemma UsesMore(base: Term, lines: seq<Line>, k: nat, i: nat, to: nat, dst: Term, u: Term)
    requires k < |lines| && Connects(lines, k, i, to) && TermIs(base, lines, to, dst)
    ensures Uses(base, lines, k + 1, i, u) <==> Uses(base, lines, k, i, u) || u == dst
  {
    hide StandsFor;
    forall i' | Connects(lines, k, i, i') ensures i' == to { OneStands(lines, k, lines[k].to, to, i'); }
  }

  lemma SuppliesOne(lines: seq<Line>, k: nat, i: nat, port: nat, from: nat, to: nat)
    requires Connects(lines, k, from, to)
    ensures Supplies(lines, k, i, port) <==> i == to && port == lines[k].port
  {
    hide StandsFor;
    if Supplies(lines, k, i, port) { OneStands(lines, k, lines[k].to, to, i); }
  }

  lemma ConnectsOne(lines: seq<Line>, k: nat, i: nat, i': nat, from: nat, to: nat)
    requires Connects(lines, k, from, to)
    ensures Connects(lines, k, i, i') <==> i == from && i' == to
  {
    hide StandsFor;
    if Connects(lines, k, i, i') {
      OneStands(lines, k, lines[k].from, from, i);
      OneStands(lines, k, lines[k].to, to, i');
    }
  }

  lemma ConnectsNodes(lines: seq<Line>, k: nat, from: nat, to: nat)
    requires Connects(lines, k, from, to)
    ensures k < |lines| && lines[k].EdgeLine? && from < k && to < k && IsNode(lines, from) && IsNode(lines, to)
  {}

  /** What an edge line does to the node of line i. */
  lemma EdgeNode(base: Term, lines: seq<Line>, k: nat, i: nat, s: FileState, s': FileState, from: nat, to: nat)
    requires IsNode(lines, i) && i < k < |lines| && NodeMeans(base, lines, k, i, s) && Connects(lines, k, from, to)
    requires lines[k].EdgeLine? && from < k && to < k
    requires var (src, dst) := (TermOf(base, lines, from), TermOf(base, lines, to));
      dst in s.defs && src in s.uses && lines[k].port < |s.defs[dst].ops| &&
      s'.defs == Supplied(s.defs, src, dst, lines[k].port) && s'.uses == s.uses[src := s.uses[src] + {dst}]
    requires s'.names == s.names && s'.signatures == s.signatures
    ensures NodeMeans(base, lines, k + 1, i, s')
  {
    hide StandsFor, HasName, HasArity, Connects, Supplies, Uses, OperandMeans;
    var (t, src, dst) := (TermOf(base, lines, i), TermOf(base, lines, from), TermOf(base, lines, to));
    ConnectsNodes(lines, k, from, to);
    Distinct(base, lines, k, i, from);
    Distinct(base, lines, k, i, to);
    forall port | 0 <= port < |s'.defs[t].ops| ensures OperandMeans(base, lines, k + 1, i, port, s'.defs[t].ops[port]) {
      SuppliesOne(lines, k, i, port, from, to);
      if i == to && port == lines[k].port {
        OperandSupplied(base, lines, k, i, from, src);
      } else {
        assert s'.defs[t].ops[port] == s.defs[t].ops[port];
        OperandStays(base, lines, k, i, port, s.defs[t].ops[port]);
      }
    }
    forall u ensures u in s'.uses[t] <==> Uses(base, lines, k + 1, i, u) {
      if i == from {
        UsesMore(base, lines, k, i, to, dst, u);
      } else {
        forall i' ensures !Connects(lines, k, i, i') { ConnectsOne(lines, k, i, i', from, to); }
        UsesStay(base, lines, k, i, u);
      }
    }
  }

  /** Different node lines have different terms. */
  lemma Distinct(base: Term, lines: seq<Line>, k: nat, i: nat, i': nat)
    requires IsNode(lines, i) && i < k <= |lines| && IsNode(lines, i')
    ensures (TermOf(base, lines, i) == TermOf(base, lines, i') <==> i == i')
  {
    if i < i' { CountGrows(lines, i, i'); }
    if i' < i { CountGrows(lines, i', i); }
  }

  lemma EdgeLineMeans(base: Term, lines: seq<Line>, k: nat, s: FileState, s': FileState)
    requires k < |lines| && lines[k].EdgeLine? && Means(base, lines, k, s) && LineStep(s, lines[k], s')
    ensures Means(base, lines, k + 1, s')
  {
    hide NodeMeans, Supplies, NamesOK, Supplied, StandsFor;
    var from :| StandsFor(lines, k, lines[k].from, from);
    var to :| StandsFor(lines, k, lines[k].to, to);
    assert Connects(lines, k, from, to);
    ConnectsNodes(lines, k, from, to);
    EdgeKeys(s.defs, s.partial[lines[k].from], s.partial[lines[k].to], lines[k].port);
    var after := k + 1;
    forall n, i ensures StandsFor(lines, after, n, i) <==> StandsFor(lines, k, n, i) { StandsNext(lines, k, n, i); }
    forall i | 0 <= i < k + 1 && IsNode(lines, i) ensures NodeMeans(base, lines, k + 1, i, s') {
      EdgeNode(base, lines, k, i, s, s', from, to);
    }
  }

  lemma EdgeKeys(defs: Defs, s: Term, t: Term, port: nat)
    requires t in defs && port < |defs[t].ops|
    ensures Supplied(defs, s, t, port).Keys == defs.Keys
  {}

  // ---- the whole file --------------------------------------------------------------------------------

  lemma NothingRead(lines: seq<Line>, s: FileState)
    requires NamesOK(s.names, s.signatures) && s.partial == map[] && s.defs == map[] && s.uses == map[]
    ensures Means(s.next, lines, 0, s)
  {}

  /** Whatever lines a parser reads from between two files, its tables say what the lines say. */
  lemma {:induction false} ReadsMeans(s0: FileState, lines: seq<Line>, k: nat, s: FileState)
    requires NamesOK(s0.names, s0.signatures) && s0.partial == map[] && s0.defs == map[] && s0.uses == map[]
    requires k <= |lines| && Reads(s0, lines[..k], s)
    ensures Means(s0.next, lines, k, s)
    decreases k
  {
    hide LineStep, Means;
    if k == 0 {
      NothingRead(lines, s);
    } else {
      assert lines[..k][..k - 1] == lines[..k - 1];
      var mid :| Reads(s0, lines[..k - 1], mid) && LastLine(mid, lines[..k], s);
      ReadsMeans(s0, lines, k - 1, mid);
      assert LineStep(mid, lines[k - 1], s);
      match lines[k - 1]
      case CountLine(_) => CountMeans(s0.next, lines, k - 1, mid, s);
      case NodeLine(_, _, _) => NodeLineMeans(s0.next, lines, k - 1, mid, s);
      case EdgeLine(_, _, _) => EdgeLineMeans(s0.next, lines, k - 1, mid, s);
    }
  }

  ghost predicate IsLast(lines: seq<Line>, i: nat) { exists n :: StandsFor(lines, |lines|, n, i) }

  ghost predicate NeverUsed(lines: seq<Line>, i: nat) {
    forall j, i' :: 0 <= j < |lines| ==> !Connects(lines, j, i, i')
  }

  /** The roots of a file are the nodes that some number still stands for at its end and that no line has connected
      to anything. */
  lemma RootsMean(s0: FileState, lines: seq<Line>, s: FileState, r: Term)
    requires NamesOK(s0.names, s0.signatures) && s0.partial == map[] && s0.defs == map[] && s0.uses == map[]
    requires Reads(s0, lines, s)
    ensures IsRootOf(s, r) <==> exists i :: TermIs(s0.next, lines, i, r) && IsLast(lines, i) && NeverUsed(lines, i)
  {
    hide Reads, NamesOK, StandsFor, Connects, OpsMean, HasName, HasArity;
    var k, base := |lines|, s0.next;
    assert lines[..k] == lines;
    ReadsMeans(s0, lines, k, s);
    if IsRootOf(s, r) {
      var n :| n in s.partial && s.partial[n] == r;
      var i :| StandsFor(lines, k, n, i);
      UnusedNode(base, lines, i, s, n);
    }
    if i :| TermIs(base, lines, i, r) && IsLast(lines, i) && NeverUsed(lines, i) {
      var n :| StandsFor(lines, k, n, i);
      UnusedNode(base, lines, i, s, n);
      assert s.partial[n] == r;
    }
  }

  lemma UnusedNode(base: Term, lines: seq<Line>, i: nat, s: FileState, n: nat)
    requires Means(base, lines, |lines|, s) && StandsFor(lines, |lines|, n, i)
    ensures IsNode(lines, i) && n in s.partial && TermIs(base, lines, i, s.partial[n])
    ensures var t := TermOf(base, lines, i); t in s.uses && (s.uses[t] == {} <==> NeverUsed(lines, i))
  {
    hide NamesOK, OpsMean, HasName, HasArity, Connects;
    assert IsNode(lines, i) && NodeMeans(base, lines, |lines|, i, s);
    var t := TermOf(base, lines, i);
    if NeverUsed(lines, i) {
      forall u ensures u !in s.uses[t] { assert u in s.uses[t] <==> Uses(base, lines, |lines|, i, u); }
    }
    forall j, i' | 0 <= j < |lines| && Connects(lines, j, i, i') ensures s.uses[t] != {} {
      ConnectedIsUsed(base, lines, |lines|, i, s.uses[t], j, i');
    }
  }

  lemma ConnectedIsUsed(base: Term, lines: seq<Line>, k: nat, i: nat, uses: set<Term>, j: nat, i': nat)
    requires j < k <= |lines| && Connects(lines, j, i, i') && UsesMean(base, lines, k, i, uses)
    ensures i' <= |lines| && TermOf(base, lines, i') in uses
  {
    ConnectsNodes(lines, j, i, i');
    assert TermIs(base, lines, i', TermOf(base, lines, i'));
    assert Uses(base, lines, k, i, TermOf(base, lines, i'));
  }
}
