/** BuildAutomaton: a post-order walk that splices in a state for every class it finds by its representative. */
module Build {
  import opened Options
  import opened Terms
  import opened Partition
  import opened Splice
  import opened TreeLanguage
  import opened SharedTerms

  /** The members of each class, in the order of the class's list. */
  ghost predicate Lists(rep: Rep, members: map<Term, seq<Term>>) {
    forall r :: IsRoot(rep, r) ==> r in members && Members(members[r]) == ClassOf(rep, r) && NoRepeats(members[r])
  }

  ghost predicate ReplacedPart(g0: Graph, g: Graph, s: Term, node: Node, c: set<Term>, m: Term, done: set<Term>) {
    && g.Keys == g0.Keys + {s} && g[s] == node
    && (forall u {:trigger g[u]} :: u in g0 ==>
          g[u] == Node(g0[u].id, Put(g0[u].ops, if u in done then c + {m} else c, s)))
  }

  ghost predicate RedirectedPart(uses0: Uses, uses: Uses, s: Term, cls: set<Term>, c: set<Term>, done: set<Term>) {
    && uses.Keys == uses0.Keys + {s} && uses[s] == Users(uses0, c) + done
    && (forall x {:trigger uses[x]} :: x in uses0 ==>
          uses[x] == if x in c then {s} else if x in cls then uses0[x] + {s} else uses0[x])
  }

  lemma PutTwice(ops: seq<Term>, c: set<Term>, m: Term, s: Term)
    requires s != m
    ensures Put(Put(ops, c, s), {m}, s) == Put(ops, c + {m}, s)
  {}

  lemma PutAbsent(ops: seq<Term>, c: set<Term>, m: Term, s: Term)
    requires m !in ops
    ensures Put(ops, c, s) == Put(ops, c + {m}, s)
  {}

  lemma PutNothing(ops: seq<Term>, s: Term)
    ensures Put(ops, {}, s) == ops
  {}

  lemma UserPut(g0: Graph, uses0: Uses, s: Term, c: set<Term>, m: Term, u: Term)
    requires Inverse(g0, uses0) && m in g0 && s !in g0 && m !in c && u in uses0[m]
    ensures u in g0 && m in Put(g0[u].ops, c, s) && Put(Put(g0[u].ops, c, s), {m}, s) == Put(g0[u].ops, c + {m}, s)
  {
    assert IsUse(g0, uses0, m, u);
    PutTwice(g0[u].ops, c, m, s);
    PutKeeps(g0[u].ops, c, s, m);
  }

  lemma PartUpdate(g0: Graph, g: Graph, s: Term, node: Node, c: set<Term>, m: Term, done: set<Term>, u: Term, ops: seq<Term>)
    requires ReplacedPart(g0, g, s, node, c, m, done) && u in g0 && s !in g0 && ops == Put(g0[u].ops, c + {m}, s)
    ensures ReplacedPart(g0, g[u := Node(g[u].id, ops)], s, node, c, m, done + {u})
  {
    hide Put;
    var g' := g[u := Node(g[u].id, ops)];
    forall x | x in g0
      ensures g'[x] == Node(g0[x].id, Put(g0[x].ops, if x in done + {u} then c + {m} else c, s))
    {
      assert g[x] == Node(g0[x].id, Put(g0[x].ops, if x in done then c + {m} else c, s));
    }
  }

  lemma PartAt(g0: Graph, g: Graph, s: Term, node: Node, c: set<Term>, m: Term, done: set<Term>, u: Term)
    requires ReplacedPart(g0, g, s, node, c, m, done) && u in g0 && u !in done
    ensures u in g && g[u] == Node(g0[u].id, Put(g0[u].ops, c, s))
  {}

  /** One user's operand becomes the state. */
  lemma PartStep(g0: Graph, uses0: Uses, g: Graph, s: Term, node: Node, c: set<Term>, m: Term, done: set<Term>, u: Term)
    requires ReplacedPart(g0, g, s, node, c, m, done) && Inverse(g0, uses0) && m in g0 && s !in g0 && m !in c
    requires u in uses0[m] && u !in done
    ensures u in g && m in g[u].ops
    ensures ReplacedPart(g0, g[u := Node(g[u].id, Put(g[u].ops, {m}, s))], s, node, c, m, done + {u})
  {
    hide ReplacedPart, Put, Inverse;
    UserPut(g0, uses0, s, c, m, u);
    PartAt(g0, g, s, node, c, m, done, u);
    PartUpdate(g0, g, s, node, c, m, done, u, Put(g[u].ops, {m}, s));
  }

  lemma PartDone(g0: Graph, uses0: Uses, g: Graph, s: Term, node: Node, c: set<Term>, m: Term)
    requires Inverse(g0, uses0) && m in g0 && ReplacedPart(g0, g, s, node, c, m, uses0[m])
    ensures Replaced(g0, g, s, node, c + {m})
  {
    forall u | u in g0 ensures g[u] == Node(g0[u].id, Put(g0[u].ops, c + {m}, s)) {
      assert IsUse(g0, uses0, m, u);
      PutUnlessUsed(g0[u].ops, c, m, s, u in uses0[m]);
    }
  }

  lemma PutUnlessUsed(ops: seq<Term>, c: set<Term>, m: Term, s: Term, used: bool)
    requires used <==> m in ops
    ensures !used ==> Put(ops, c, s) == Put(ops, c + {m}, s)
  {
    if !used { PutAbsent(ops, c, m, s); }
  }

  lemma PartBegin(g0: Graph, g: Graph, s: Term, node: Node, c: set<Term>, m: Term)
    requires Replaced(g0, g, s, node, c)
    ensures ReplacedPart(g0, g, s, node, c, m, {})
  {}

  lemma UsersMore(uses0: Uses, c: set<Term>, m: Term)
    requires m in uses0
    ensures Users(uses0, c + {m}) == Users(uses0, c) + uses0[m]
  {
    forall u | u in Users(uses0, c) + uses0[m] ensures u in Users(uses0, c + {m}) {
      if u in uses0[m] {
        assert m in c + {m};
      } else {
        var x :| x in c && x in uses0 && u in uses0[x];
        assert x in c + {m};
      }
    }
  }

  lemma RedirectDone(uses0: Uses, uses: Uses, s: Term, cls: set<Term>, c: set<Term>, m: Term)
    requires m in uses0 && m in cls && m != s && RedirectedPart(uses0, uses, s, cls, c, uses0[m]) && s !in uses0
    ensures Redirected(uses0, uses[m := {s}], s, cls, c + {m})
  {
    UsersMore(uses0, c, m);
    hide Users;
  }

  /** Operands of terms change only into states. */
  ghost predicate OnlyStatesAdded(original: Graph, g: Graph, terms: set<Term>, states: set<Term>) {
    terms == original.Keys && terms <= g.Keys &&
    forall u {:trigger g[u]} :: u in terms ==>
      g[u].id == original[u].id && |g[u].ops| == |original[u].ops| &&
      forall i :: 0 <= i < |g[u].ops| ==> g[u].ops[i] in states || g[u].ops[i] == original[u].ops[i]
  }

  /** What has become of an operand: the state of its class, once there is one. */
  ghost function Now(rep: Rep, stateOf: map<Term, Term>, x: Term): Term {
    if x in rep && rep[x] in stateOf then stateOf[rep[x]] else x
  }

  ghost predicate OpsByState(rep: Rep, original: Graph, g: Graph, stateOf: map<Term, Term>) {
    OpsIn(original) && original.Keys == rep.Keys && rep.Keys <= g.Keys &&
    forall u, i {:trigger g[u].ops[i]} :: u in rep && 0 <= i < |g[u].ops| && |g[u].ops| == |original[u].ops| ==>
      g[u].ops[i] == Now(rep, stateOf, original[u].ops[i])
  }

  lemma OpsMove(rep: Rep, original: Graph, g0: Graph, g: Graph, states: set<Term>, stateOf: map<Term, Term>,
                t: Term, s: Term, node: Node, cls: set<Term>)
    requires OpsByState(rep, original, g0, stateOf) && Replaced(g0, g, s, node, cls) && cls == ClassOf(rep, t)
    requires t !in stateOf && rep.Keys !! states && s !in rep && forall r :: r in stateOf ==> stateOf[r] in states
    ensures OpsByState(rep, original, g, stateOf[t := s])
  {
    forall u, i | u in rep && 0 <= i < |g[u].ops| && |g[u].ops| == |original[u].ops|
      ensures g[u].ops[i] == Now(rep, stateOf[t := s], original[u].ops[i])
    {
      assert g[u] == Node(g0[u].id, Put(g0[u].ops, cls, s));
      assert original[u].ops[i] in original;
      assert g0[u].ops[i] == Now(rep, stateOf, original[u].ops[i]);
    }
  }

  lemma StatesOf(rep: Rep, members: map<Term, seq<Term>>, g: Graph, uses: Uses, states: set<Term>, stateOf: map<Term, Term>)
    requires StateForClass(rep, members, g, uses, states, stateOf)
    ensures forall r :: r in stateOf ==> stateOf[r] in states
  {}

  ghost predicate IsStateFor(members: seq<Term>, g: Graph, uses: Uses, s: Term) {
    s in g && g[s].ops == members && forall m :: m in members ==> m in uses && uses[m] == {s}
  }

  /** A class that has a state is the state's operands, and each of its members is used by the state alone. */
  ghost predicate StateForClass(rep: Rep, members: map<Term, seq<Term>>, g: Graph, uses: Uses,
                                states: set<Term>, stateOf: map<Term, Term>) {
    forall r {:trigger stateOf[r]} :: r in stateOf ==>
      IsRoot(rep, r) && r in members && stateOf[r] in states && IsStateFor(members[r], g, uses, stateOf[r])
  }

  ghost predicate Domains(graph: set<Term>, terms: set<Term>, states: set<Term>,
                          visited: set<Term>, next: Term, served: set<Term>) {
    && graph == terms + states && terms !! states
    && (forall t :: t in graph ==> t < next)
    && states <= visited <= graph && served <= visited
  }

  lemma DomainsMore(graph: set<Term>, terms: set<Term>, states: set<Term>,
                    visited: set<Term>, next: Term, served: set<Term>, t: Term)
    requires Domains(graph, terms, states, visited, next, served) && t in visited
    ensures graph == terms + states && next !in graph && next !in states
    ensures Domains(graph + {next}, terms, states + {next}, visited + {next}, next + 1, served + {t})
  {}

  lemma NeededMore(members: map<Term, seq<Term>>, stateOf: map<Term, Term>, t: Term, s: Term)
    requires OnlyNeeded(members, stateOf) && t in members && |members[t]| > 1
    ensures OnlyNeeded(members, stateOf[t := s])
  {}

  lemma KeysMore(m: map<Term, Term>, t: Term, s: Term)
    ensures m[t := s].Keys == m.Keys + {t}
  {}

  /** Every state stands for a class. */
  ghost predicate AllServe(states: set<Term>, stateOf: map<Term, Term>) {
    forall s :: s in states ==> exists r :: r in stateOf && stateOf[r] == s
  }

  lemma ServeMore(states: set<Term>, stateOf: map<Term, Term>, t: Term, s: Term)
    requires AllServe(states, stateOf) && t !in stateOf
    ensures AllServe(states + {s}, stateOf[t := s])
  {
    var stateOf' := stateOf[t := s];
    forall x | x in states + {s} ensures exists r :: r in stateOf' && stateOf'[r] == x {
      if x == s {
        assert stateOf'[t] == s;
      } else {
        var r :| r in stateOf && stateOf[r] == x;
        assert stateOf'[r] == x;
      }
    }
  }

  /** The counter numbers the states, from base on. */
  ghost predicate Numbered(counter: nat, base: nat, states: set<Term>) { counter == base + |states| }

  lemma CountMore(counter: nat, base: nat, states: set<Term>, s: Term)
    requires Numbered(counter, base, states) && s !in states
    ensures Numbered(counter + 1, base, states + {s})
  {}

  lemma CountResult(counter: nat, base: nat, states: set<Term>)
    requires Numbered(counter, base, states)
    ensures counter - base == |states|
  {}

  /** The labels of the terms, and the hash table of the automaton. */
  datatype Labels = Labels(hash: map<Term, nat>, depth: map<Term, nat>, tm: map<nat, seq<Term>>)

  /** Every term is labelled and filed under its hash; nothing else is filed. */
  ghost predicate LabelsOK(terms: set<Term>, labels: Labels) {
    && labels.hash.Keys == labels.depth.Keys == terms
    && (forall t {:trigger labels.hash[t]} :: t in labels.hash ==> t in Bucket(labels.tm, labels.hash[t]))
    && (forall h, i {:trigger Bucket(labels.tm, h)[i]} :: 0 <= i < |Bucket(labels.tm, h)| ==> Bucket(labels.tm, h)[i] in terms)
  }

  /** The labels of the terms learned from are never recomputed. */
  ghost predicate LabelsKept(terms: set<Term>, labels0: Labels, labels: Labels) {
    forall t {:trigger labels.hash[t]} :: t in terms ==>
      t in labels0.hash && t in labels.hash && labels.hash[t] == labels0.hash[t]
  }

  predicate HasLabels(labels: Labels, t: Term) { t in labels.hash && t in labels.depth }

  /** A new state is labelled like any term, from its operands, and filed under that hash. */
  ghost function WithState(labels: Labels, mix: Mix, s: Term, id: nat, ops: seq<Term>): Labels
    requires forall m :: m in ops ==> HasLabels(labels, m)
  {
    var hashes := seq(|ops|, i requires 0 <= i < |ops| && HasLabels(labels, ops[i]) => labels.hash[ops[i]]);
    var depths := seq(|ops|, i requires 0 <= i < |ops| && HasLabels(labels, ops[i]) => labels.depth[ops[i]]);
    var d := if depths == [] then 0 else 1 + MaxAll(depths);
    var h := mix(id, hashes, d);
    Labels(labels.hash[s := h], labels.depth[s := d], labels.tm[h := Bucket(labels.tm, h) + [s]])
  }

  method LabelState(mix: Mix, labels: Labels, s: Term, id: nat, ops: seq<Term>) returns (labels': Labels)
    requires forall m :: m in ops ==> HasLabels(labels, m)
    ensures labels' == WithState(labels, mix, s, id, ops)
  {
    var hashes := seq(|ops|, i requires 0 <= i < |ops| && HasLabels(labels, ops[i]) => labels.hash[ops[i]]);
    var depths := seq(|ops|, i requires 0 <= i < |ops| && HasLabels(labels, ops[i]) => labels.depth[ops[i]]);
    var h, d := Label(mix, id, hashes, depths);
    labels' := Labels(labels.hash[s := h], labels.depth[s := d], labels.tm[h := Bucket(labels.tm, h) + [s]]);
  }

  lemma LabelsMore(keys: set<Term>, terms: set<Term>, labels0: Labels, labels: Labels, mix: Mix, s: Term, id: nat, ops: seq<Term>)
    requires LabelsOK(keys, labels) && LabelsKept(terms, labels0, labels) && s !in keys && s !in terms
    requires forall m :: m in ops ==> HasLabels(labels, m)
    ensures LabelsOK(keys + {s}, WithState(labels, mix, s, id, ops))
    ensures LabelsKept(terms, labels0, WithState(labels, mix, s, id, ops))
  {
    hide Bucket, MaxAll;
    var labels' := WithState(labels, mix, s, id, ops);
    var h := labels'.hash[s];
    forall t | t in labels'.hash ensures t in Bucket(labels'.tm, labels'.hash[t]) {
      BucketMore(labels.tm, h, s, labels'.hash[t], t);
    }
    forall k, i | 0 <= i < |Bucket(labels'.tm, k)| ensures Bucket(labels'.tm, k)[i] in keys + {s} {
      BucketMore(labels.tm, h, s, k, Bucket(labels'.tm, k)[i]);
    }
    forall t | t in terms ensures t in labels0.hash && t in labels'.hash && labels'.hash[t] == labels0.hash[t] {
      assert labels.hash[t] == labels0.hash[t];
    }
  }

  /** States are numbered after all names, each by itself. */
  ghost predicate StateIds(g: Graph, states: set<Term>, base: nat, counter: nat) {
    && (forall s :: s in states ==> s in g && base < g[s].id <= counter)
    && (forall s, t {:trigger g[s].id, g[t].id} :: s in states && t in states && s != t ==> g[s].id != g[t].id)
  }

  lemma StateIdsMore(g0: Graph, uses0: Uses, g: Graph, uses: Uses, states: set<Term>, base: nat, s: Term, id: nat, ops: seq<Term>)
    requires Spliced(g0, uses0, g, uses, s, id, ops) && id > base && StateIds(g0, states, base, id - 1)
    ensures StateIds(g, states + {s}, base, id)
  {
    hide Put, Redirected, Members;
    forall x | x in states + {s} ensures x in g && base < g[x].id <= id {
      if x != s { assert g[x] == Node(g0[x].id, Put(g0[x].ops, Members(ops), s)) && base < g0[x].id <= id - 1; }
    }
    forall x | x in states && x != s ensures g[x].id == g0[x].id && g0[x].id < g[s].id {
      assert g[x] == Node(g0[x].id, Put(g0[x].ops, Members(ops), s)) && base < g0[x].id <= id - 1;
    }
  }

  lemma NothingBuilt(rep: Rep, members: map<Term, seq<Term>>, g: Graph, uses: Uses, labels: Labels)
    requires OpsIn(g) && g.Keys == rep.Keys && LabelsOK(g.Keys, labels)
    ensures OnlyStatesAdded(g, g, rep.Keys, {}) && OpsByState(rep, g, g, map[]) && LabelsKept(rep.Keys, labels, labels)
    ensures StateForClass(rep, members, g, uses, {}, map[]) && AllServe({}, map[])
  {}

  /** Only classes of several terms have states. */
  ghost predicate OnlyNeeded(members: map<Term, seq<Term>>, stateOf: map<Term, Term>) {
    forall r :: r in stateOf ==> r in members && |members[r]| > 1
  }

  // ---- how far a walk gets --------------------------------------------------------------------------

  datatype Moment = Moment(graph: Graph, states: set<Term>, visited: set<Term>, stateOf: map<Term, Term>)

  ghost predicate MomentOK(rep: Rep, original: Graph, m: Moment) {
    && OpsByState(rep, original, m.graph, m.stateOf) && OnlyStatesAdded(original, m.graph, rep.Keys, m.states)
    && (forall r :: r in m.stateOf ==> m.stateOf[r] in m.states)
    && m.states <= m.visited <= m.graph.Keys && m.graph.Keys == rep.Keys + m.states && rep.Keys !! m.states
    && m.stateOf.Keys <= m.visited
  }

  ghost predicate Later(m0: Moment, m: Moment) {
    && m0.states <= m.states && m0.visited <= m.visited
    && (forall r :: r in m0.stateOf ==> r in m.stateOf && m.stateOf[r] == m0.stateOf[r])
  }

  /** The terms visited since then have all their operands visited. */
  ghost predicate VisitedBelow(terms: set<Term>, g: Graph, visited0: set<Term>, visited: set<Term>) {
    forall u, i {:trigger g[u].ops[i]} :: u in terms && u in g && u in visited && u !in visited0 && 0 <= i < |g[u].ops| ==>
      g[u].ops[i] in visited
  }

  /** A term other than t was visited since then only as an operand, in the graph as it was then, of another such one. */
  ghost predicate Along(g0: Graph, visited0: set<Term>, visited: set<Term>, states: set<Term>, t: Term) {
    forall v :: v in visited && v !in visited0 && v !in states && v != t ==> HasFreshUser(g0, visited0, visited, v)
  }

  ghost predicate HasFreshUser(g0: Graph, visited0: set<Term>, visited: set<Term>, v: Term) {
    exists u :: u in g0 && u in visited && u !in visited0 && v in g0[u].ops
  }

  /** Operands of terms change into states only. */
  lemma LaterOps(rep: Rep, original: Graph, m0: Moment, m: Moment, u: Term, i: nat)
    requires MomentOK(rep, original, m0) && MomentOK(rep, original, m) && Later(m0, m) && u in rep && i < |m.graph[u].ops|
    ensures |m.graph[u].ops| == |m0.graph[u].ops|
    ensures m.graph[u].ops[i] in m.states || m.graph[u].ops[i] == m0.graph[u].ops[i]
  {
    assert m.graph[u].id == original[u].id && m0.graph[u].id == original[u].id;
    assert m.graph[u].ops[i] == Now(rep, m.stateOf, original[u].ops[i]);
    assert m0.graph[u].ops[i] == Now(rep, m0.stateOf, original[u].ops[i]);
  }

  lemma StartWalk(terms: set<Term>, g: Graph, visited0: set<Term>, states: set<Term>, t: Term)
    ensures VisitedBelow(terms, g, visited0 + {t}, visited0 + {t}) && Along(g, visited0, visited0 + {t}, states, t)
  {}

  lemma BelowOn(rep: Rep, original: Graph, m0: Moment, m: Moment, visited0: set<Term>)
    requires MomentOK(rep, original, m0) && MomentOK(rep, original, m) && Later(m0, m)
    requires VisitedBelow(rep.Keys, m0.graph, visited0, m0.visited) && VisitedBelow(rep.Keys, m.graph, m0.visited, m.visited)
    ensures VisitedBelow(rep.Keys, m.graph, visited0, m.visited)
  {
    hide MomentOK;
    MomentSets(rep, original, m0);
    MomentSets(rep, original, m);
    forall u, i | u in rep && u in m.graph && u in m.visited && u !in visited0 && 0 <= i < |m.graph[u].ops|
      ensures m.graph[u].ops[i] in m.visited
    {
      LaterOps(rep, original, m0, m, u, i);
    }
  }

  lemma MomentSets(rep: Rep, original: Graph, m: Moment)
    requires MomentOK(rep, original, m)
    ensures m.states <= m.visited <= m.graph.Keys && m.graph.Keys == rep.Keys + m.states && rep.Keys !! m.states
    ensures m.stateOf.Keys <= m.visited
  {}

  /** An operand is a state by now, or has been an operand from the start. */
  lemma OperandThen(rep: Rep, original: Graph, m: Moment, t: Term, i: nat)
    requires MomentOK(rep, original, m) && t in rep && i < |m.graph[t].ops|
    ensures m.graph[t].ops[i] in m.states || IsOperand(original, m.graph[t].ops[i])
  {
    assert m.graph[t].id == original[t].id;
  }

  /** Edges to terms are as old as the graph. */
  lemma OldEdge(rep: Rep, original: Graph, m0: Moment, m: Moment, u: Term, v: Term)
    requires MomentOK(rep, original, m0) && MomentOK(rep, original, m) && Later(m0, m)
    requires u in m.graph && u in rep && v in m.graph[u].ops && v !in m.states
    ensures u in m0.graph && v in m0.graph[u].ops
  {
    hide MomentOK;
    MomentSets(rep, original, m0);
    var i :| 0 <= i < |m.graph[u].ops| && m.graph[u].ops[i] == v;
    LaterOps(rep, original, m0, m, u, i);
  }

  lemma AlongOn(rep: Rep, original: Graph, m0: Moment, m1: Moment, m: Moment, t: Term, op: Term)
    requires MomentOK(rep, original, m0) && MomentOK(rep, original, m1) && MomentOK(rep, original, m)
    requires Later(m0, m1) && Later(m1, m) && t in rep && t in m1.visited && t !in m0.visited
    requires t in m1.graph && op in m1.graph[t].ops
    requires Along(m0.graph, m0.visited, m1.visited, m1.states, t) && Along(m1.graph, m1.visited, m.visited, m.states, op)
    ensures Along(m0.graph, m0.visited, m.visited, m.states, t)
  {
    hide MomentOK;
    MomentSets(rep, original, m1);
    forall v | v in m.visited && v !in m0.visited && v !in m.states && v != t ensures HasFreshUser(m0.graph, m0.visited, m.visited, v) {
      if v in m1.visited {
        assert HasFreshUser(m0.graph, m0.visited, m1.visited, v);
      } else if v == op {
        OldEdge(rep, original, m0, m1, t, v);
      } else {
        assert HasFreshUser(m1.graph, m1.visited, m.visited, v);
        var u :| u in m1.graph && u in m.visited && u !in m1.visited && v in m1.graph[u].ops;
        OldEdge(rep, original, m0, m1, u, v);
      }
    }
  }

  /** One operand further. */
  lemma WalkOn(rep: Rep, original: Graph, m0: Moment, m1: Moment, m: Moment, t: Term, i: nat)
    requires MomentOK(rep, original, m0) && MomentOK(rep, original, m1) && MomentOK(rep, original, m)
    requires Later(m0, m1) && Later(m1, m) && t in rep && t in m1.visited && t !in m0.visited
    requires t in m1.graph && i < |m1.graph[t].ops| && m1.graph[t].ops[i] in m.visited
    requires VisitedBelow(rep.Keys, m1.graph, m0.visited + {t}, m1.visited)
    requires VisitedBelow(rep.Keys, m.graph, m1.visited, m.visited)
    requires Along(m0.graph, m0.visited, m1.visited, m1.states, t)
    requires Along(m1.graph, m1.visited, m.visited, m.states, m1.graph[t].ops[i])
    requires forall j :: 0 <= j < i ==> m1.graph[t].ops[j] in m1.visited
    ensures VisitedBelow(rep.Keys, m.graph, m0.visited + {t}, m.visited) && Along(m0.graph, m0.visited, m.visited, m.states, t)
    ensures t in m.graph && |m.graph[t].ops| == |m1.graph[t].ops|
    ensures forall j :: 0 <= j <= i ==> m.graph[t].ops[j] in m.visited
  {
    hide MomentOK, Along, VisitedBelow;
    BelowOn(rep, original, m1, m, m0.visited + {t});
    AlongOn(rep, original, m0, m1, m, t, m1.graph[t].ops[i]);
    SameOps(rep, original, m1, m, t);
    MomentSets(rep, original, m);
    forall j | 0 <= j <= i ensures m.graph[t].ops[j] in m.visited { LaterOps(rep, original, m1, m, t, j); }
  }

  lemma SameOps(rep: Rep, original: Graph, m0: Moment, m: Moment, u: Term)
    requires MomentOK(rep, original, m0) && MomentOK(rep, original, m) && u in rep
    ensures u in m0.graph && u in m.graph && |m.graph[u].ops| == |m0.graph[u].ops|
  {
    assert m.graph[u].id == original[u].id && m0.graph[u].id == original[u].id;
  }

  /** All operands are visited, and at most a state is spliced in. */
  lemma WalkEnd(rep: Rep, original: Graph, m0: Moment, m1: Moment, m: Moment, t: Term)
    requires MomentOK(rep, original, m0) && MomentOK(rep, original, m1) && MomentOK(rep, original, m)
    requires Later(m0, m1) && Later(m1, m) && t in rep && t !in m0.visited && m.visited <= m1.visited + m.states
    requires VisitedBelow(rep.Keys, m1.graph, m0.visited + {t}, m1.visited)
    requires Along(m0.graph, m0.visited, m1.visited, m1.states, t)
    requires t in m1.graph && forall j :: 0 <= j < |m1.graph[t].ops| ==> m1.graph[t].ops[j] in m1.visited
    ensures VisitedBelow(rep.Keys, m.graph, m0.visited, m.visited) && Along(m0.graph, m0.visited, m.visited, m.states, t)
  {
    hide MomentOK;
    MomentSets(rep, original, m);
    BelowOn(rep, original, m1, m, m0.visited);
    forall v | v in m.visited && v !in m0.visited && v !in m.states && v != t ensures HasFreshUser(m0.graph, m0.visited, m.visited, v) {
      assert HasFreshUser(m0.graph, m0.visited, m1.visited, v);
    }
  }

  class BuildAutomaton {
    const rep: Rep
    const members: map<Term, seq<Term>>
    var graph: Graph
    var uses: Uses
    var states: set<Term>
    var counter: nat
    var next: Term
    var visited: set<Term>
    var labels: Labels
    const mix: Mix
    ghost const labels0: Labels

    ghost const original: Graph
    ghost var stateOf: map<Term, Term>
    const base: nat

    /** The terms are those that the closure knows, and the states; addresses from next on are free. */
    ghost predicate Valid()
      reads this
    {
      && Idem(rep) && Lists(rep, members)
      && Inverse(graph, uses) && OpsIn(graph)
      && Domains(graph.Keys, rep.Keys, states, visited, next, stateOf.Keys)
      && Numbered(counter, base, states) && StateIds(graph, states, base, counter)
      && LabelsOK(graph.Keys, labels) && LabelsKept(rep.Keys, labels0, labels)
      && OnlyStatesAdded(original, graph, rep.Keys, states)
      && StateForClass(rep, members, graph, uses, states, stateOf) && AllServe(states, stateOf)
      && OpsByState(rep, original, graph, stateOf) && OnlyNeeded(members, stateOf)
    }

    /** The term graph as the closure leaves it. */
    constructor (rep: Rep, members: map<Term, seq<Term>>, graph: Graph, uses: Uses, mix: Mix, labels: Labels,
                 counter: nat, next: Term)
      requires LabelsOK(graph.Keys, labels) && Idem(rep) && Lists(rep, members) && Inverse(graph, uses) && OpsIn(graph) && graph.Keys == rep.Keys
      requires forall t :: t in graph ==> t < next
      ensures Valid() && this.rep == rep && this.members == members && original == graph && this.graph == graph
      ensures this.mix == mix && this.labels == labels0 == labels && base == counter
      ensures this.uses == uses && this.counter == counter && states == {} && visited == {} && stateOf == map[]
    {
      this.rep, this.members, this.graph, this.uses, this.counter, this.next := rep, members, graph, uses, counter, next;
      hide Idem, Lists, Inverse, LabelsOK, OnlyStatesAdded, OpsByState, StateForClass, AllServe, OpsIn, LabelsKept;
      NothingBuilt(rep, members, graph, uses, labels);
      this.mix, this.labels, labels0 := mix, labels, labels;
      states, visited, original, stateOf, base := {}, {}, graph, map[], counter;
    }

    method SubstOp(u: Term, del: Term, repl: Term) returns (some: bool)
      requires u in graph && repl in uses
      modifies `graph, `uses
      ensures graph == old(graph)[u := Node(old(graph)[u].id, Put(old(graph)[u].ops, {del}, repl))]
      ensures some <==> del in old(graph)[u].ops
      ensures uses == if some then old(uses)[repl := old(uses)[repl] + {u}] else old(uses)
    {
      some := false;
      var ops, i := graph[u].ops, 0;
      while i < |ops|
        invariant i <= |ops| == |graph[u].ops| && (some <==> del in graph[u].ops[..i])
        invariant forall j :: 0 <= j < |ops| ==> ops[j] == if j < i && graph[u].ops[j] == del then repl else graph[u].ops[j]
        invariant graph == old(graph) && uses == old(uses)
      {
        if ops[i] == del {
          ops := ops[i := repl];
          some := true;
        }
        i := i + 1;
      }
      assert graph[u].ops[..i] == graph[u].ops;
      assert ops == Put(graph[u].ops, {del}, repl);
      graph := graph[u := graph[u].(ops := ops)];
      if some {
        uses := uses[repl := uses[repl] + {u}];
      }
    }

    lemma AreLabelled(ops: seq<Term>)
      requires Valid() && forall m :: m in ops ==> m in rep
      ensures forall m :: m in ops ==> HasLabels(labels, m)
    {
      hide Idem, Lists, Inverse, OpsIn, OnlyStatesAdded, StateForClass, Numbered, AllServe, OpsByState, StateIds;
    }

    /** A state whose operands are the given terms; they get it as a use. */
    method NewState(ops: seq<Term>) returns (s: Term)
      requires Valid() && NoRepeats(ops) && forall m :: m in ops ==> m in rep
      modifies this
      ensures (forall m :: m in ops ==> HasLabels(old(labels), m)) && labels == WithState(old(labels), mix, s, counter, ops)
      ensures s == old(next) && s !in old(graph) && next == s + 1
      ensures counter == old(counter) + 1 && states == old(states) + {s} && visited == old(visited) + {s}
      ensures stateOf == old(stateOf)
      ensures Replaced(old(graph), graph, s, Node(counter, ops), {})
      ensures Redirected(old(uses), uses, s, Members(ops), {})
    {
      hide Put, Users, Idem, Lists, Inverse, OnlyStatesAdded, StateForClass, AddedTo, Replaced, Redirected, Members, OpsIn,
        Numbered, AllServe, OpsByState, LabelsOK, LabelsKept, WithState, HasLabels, StateIds;
      ghost var g0, uses0 := graph, uses;
      KnownTerms(g0, uses0, ops);
      AreLabelled(ops);
      s := next;
      next := next + 1;
      counter := counter + 1;
      labels := LabelState(mix, labels, s, counter, ops);
      ghost var labels1 := labels;
      graph := graph[s := Node(counter, ops)];
      uses := uses[s := {}];
      AddNone(uses0, s, ops);
      var i := 0;
      while i < |ops|
        invariant i <= |ops| && AddedTo(uses0, uses, s, Members(ops[..i]))
        invariant graph == g0[s := Node(counter, ops)] && counter == old(counter) + 1 && next == s + 1
        invariant states == old(states) && visited == old(visited) && labels == labels1 && stateOf == old(stateOf)
      {
        AddOne(uses0, uses, s, ops, i);
        uses := uses[ops[i] := uses[ops[i]] + {s}];
        i := i + 1;
      }
      assert ops[..i] == ops;
      states := states + {s};
      visited := visited + {s};
      NothingReplaced(g0, s, graph[s]);
      NothingRedirected(uses0, uses, s, Members(ops));
    }

    method RedirectOne(ghost g0: Graph, ghost uses0: Uses, m: Term, s: Term, ghost node: Node,
                       ghost cls: set<Term>, ghost c: set<Term>, ghost done: set<Term>, u: Term)
      requires Inverse(g0, uses0) && m in g0 && s !in g0 && m !in c && u in uses0[m] && u !in done
      requires ReplacedPart(g0, graph, s, node, c, m, done) && RedirectedPart(uses0, uses, s, cls, c, done)
      modifies `graph, `uses
      ensures ReplacedPart(g0, graph, s, node, c, m, done + {u}) && RedirectedPart(uses0, uses, s, cls, c, done + {u})
    {
      hide Inverse, ReplacedPart, RedirectedPart, Put;
      OutsideUses(g0, uses0, s);
      PartStep(g0, uses0, graph, s, node, c, m, done, u);
      MoreRedirected(uses0, uses, s, cls, c, done, u);
      var _ := SubstOp(u, m, s);
    }

    /** The users of one member, except the state, take the state as an operand in its place. */
    method RedirectUses(ghost g0: Graph, ghost uses0: Uses, m: Term, s: Term, ghost node: Node, ghost cls: set<Term>, ghost c: set<Term>)
      requires Inverse(g0, uses0) && m in g0 && s !in g0 && m in cls && m !in c
      requires Replaced(g0, graph, s, node, c) && Redirected(uses0, uses, s, cls, c)
      modifies `graph, `uses
      ensures Replaced(g0, graph, s, node, c + {m}) && Redirected(uses0, uses, s, cls, c + {m})
    {
      hide Inverse, Replaced, Users, Redirected, ReplacedPart, RedirectedPart, Put;
      MemberUses(g0, uses0, uses, s, cls, c, m);
      PartBegin(g0, graph, s, node, c, m);
      var todo := uses[m];
      ghost var all := uses0[m];
      TodoBegin(all, s);
      while todo != {}
        invariant todo <= all + {s}
        invariant ReplacedPart(g0, graph, s, node, c, m, all - todo)
        invariant RedirectedPart(uses0, uses, s, cls, c, all - todo)
        decreases |todo|
      {
        var u :| u in todo;
        TodoStep(all, s, todo, u);
        if u != s {
          RedirectOne(g0, uses0, m, s, node, cls, c, all - todo, u);
        }
        todo := todo - {u};
      }
      TodoEnd(all);
      PartDone(g0, uses0, graph, s, node, c, m);
      RedirectDone(uses0, uses, s, cls, c, m);
      uses := uses[m := {s}];
    }

    /** Whether t is the representative of a class of more than one term. */
    ghost predicate NeedsState(t: Term)
    {
      IsRoot(rep, t) && t in members && |members[t]| > 1
    }

    /** Splices in a state for the class that t represents. The state is used if and only if some member was. */
    method SpliceState(t: Term)
      requires Valid() && NeedsState(t) && t !in stateOf
      modifies this
      ensures SplicedIn(old(graph), old(uses), t, old(next), old(counter) + 1)
      ensures Inverse(graph, uses) && OpsIn(graph)
      ensures states == old(states) + {old(next)} && visited == old(visited) + {old(next)} && next == old(next) + 1
      ensures counter == old(counter) + 1 && stateOf == old(stateOf)
      ensures (forall m :: m in members[t] ==> HasLabels(old(labels), m)) &&
        labels == WithState(old(labels), mix, old(next), old(counter) + 1, members[t])
    {
      hide Put, Users, Idem, Inverse, OnlyStatesAdded, StateForClass, Replaced, Redirected, OpsIn, Spliced, Members,
        NoRepeats, Lists, Numbered, AllServe, OpsByState, LabelsOK, LabelsKept, WithState, HasLabels, StateIds;
      ClassesListed(rep, members, t);
      var ops := members[t];
      ghost var g0, uses0 := graph, uses;
      KnownTerms(g0, uses0, ops);
      var s := NewState(ops);
      ghost var node, cls := Node(counter, ops), Members(ops);
      EmptyStart(ops);
      var i := 0;
      while i < |ops|
        invariant i <= |ops|
        invariant Replaced(g0, graph, s, node, Members(ops[..i])) && Redirected(uses0, uses, s, cls, Members(ops[..i]))
        modifies `graph, `uses
      {
        NextMember(ops, i);
        RedirectUses(g0, uses0, ops[i], s, node, cls, Members(ops[..i]));
        i := i + 1;
      }
      assert ops[..i] == ops;
      SplicedIs(g0, uses0, graph, uses, s, counter, ops);
      SplicedInverse(g0, uses0, graph, uses, s, counter, ops);
      SplicedFinal(g0, uses0, graph, uses, s, counter, ops);
    }

    ghost predicate SplicedIn(g0: Graph, uses0: Uses, t: Term, s: Term, id: nat)
      requires t in members
      reads this
    {
      Spliced(g0, uses0, graph, uses, s, id, members[t]) &&
      s in uses && (uses[s] == {} <==> forall m :: m in members[t] ==> m in uses0 && uses0[m] == {})
    }

    ghost predicate Unchanged(g0: Graph, uses0: Uses, labels0: Labels, states0: set<Term>, visited0: set<Term>,
                              stateOf0: map<Term, Term>)
      reads this
    {
      labels == labels0 && graph == g0 && uses == uses0 && states == states0 && visited == visited0 && stateOf == stateOf0
    }

    /** The visit of one term: a representative of a class of several terms has a state spliced in, and no
        other term changes anything. Either way no term loses a tree. */
    method VisitNode(t: Term)
      requires Valid() && t in rep && t !in stateOf && t in visited
      modifies this
      ensures Valid()
      ensures !NeedsState(t) ==> Unchanged(old(graph), old(uses), old(labels), old(states), old(visited), old(stateOf))
      ensures NeedsState(t) ==>
        (SplicedIn(old(graph), old(uses), t, old(next), old(counter) + 1) && states == old(states) + {old(next)} &&
         visited == old(visited) + {old(next)} && stateOf == old(stateOf)[t := old(next)])
      ensures old(graph).Keys <= graph.Keys && KeepsTrees(old(graph), old(states), graph, states)
    {
      hide Put, Users, Idem, Inverse, OnlyStatesAdded, StateForClass, Replaced, Redirected, OpsIn, Spliced, Members,
        KeepsTrees, NoRepeats, Lists, Numbered, Domains, AllServe, OpsByState, LabelsOK, LabelsKept, WithState, HasLabels, StateIds;
      SameTrees(graph, states);
      ClassesListed(rep, members, t);
      var r := rep[t];
      if |members[r]| == 1 || r != t {
        return;
      }
      ghost var g0, uses0, labels1, states0, stateOf0, s, id := graph, uses, labels, states, stateOf, next, counter + 1;
      DomainsMore(graph.Keys, rep.Keys, states, visited, next, stateOf.Keys, t);
      CountMore(counter, base, states, s);
      SpliceState(t);
      StateIdsMore(g0, uses0, graph, uses, states0, base, s, id, members[t]);
      LabelsMore(g0.Keys, rep.Keys, labels0, labels1, mix, s, id, members[t]);
      WholeSplice(rep, members, original, g0, uses0, states0, stateOf0, t, graph, uses, s, id);
      KeysMore(stateOf, t, s);
      ServeMore(states0, stateOf, t, s);
      NeededMore(members, stateOf, t, s);
      stateOf := stateOf[t := s];
    }

    ghost function Here(): Moment
      reads this
    {
      Moment(graph, states, visited, stateOf)
    }

    lemma HereIsOK()
      requires Valid()
      ensures MomentOK(rep, original, Here())
    {
      hide Idem, Lists, Inverse, OpsIn, OnlyStatesAdded, Numbered, AllServe, OpsByState, LabelsOK, LabelsKept, StateIds;
    }

    /** The representatives visited since then have their states. */
    ghost predicate Served(visited0: set<Term>)
      reads this
    {
      forall v :: v in visited && v !in visited0 && NeedsState(v) ==> v in stateOf
    }

    /** A walk that has begun at t and is among its operands: nothing is lost, what has been visited has its state and
        has its operands visited, and was met along edges that were there when the walk began. */
    ghost predicate Partway(m0: Moment, m: Moment, t: Term) {
      && Later(m0, m) && m0.graph.Keys <= m.graph.Keys && KeepsTrees(m0.graph, m0.states, m.graph, m.states)
      && (forall r :: r in m.stateOf && r in m0.visited + {t} ==> r in m0.stateOf)
      && (forall v :: v in m.visited && v !in m0.visited + {t} && NeedsState(v) ==> v in m.stateOf)
      && (forall v :: v in m.visited && v !in m0.visited ==> v == t || v in m.states || IsOperand(original, v))
      && VisitedBelow(rep.Keys, m.graph, m0.visited + {t}, m.visited)
      && Along(m0.graph, m0.visited, m.visited, m.states, t)
    }

    /** A walk that has ended at t as well. */
    ghost predicate Walked(m0: Moment, m: Moment, t: Term) {
      && Later(m0, m) && m0.graph.Keys <= m.graph.Keys && KeepsTrees(m0.graph, m0.states, m.graph, m.states)
      && (forall r :: r in m.stateOf && r in m0.visited ==> r in m0.stateOf)
      && (forall v :: v in m.visited && v !in m0.visited && NeedsState(v) ==> v in m.stateOf)
      && (forall v :: v in m.visited && v !in m0.visited ==> v == t || v in m.states || IsOperand(original, v))
      && VisitedBelow(rep.Keys, m.graph, m0.visited, m.visited)
      && Along(m0.graph, m0.visited, m.visited, m.states, t)
    }

    /** What a walk has met lies below something else that it has met. */
    lemma MetAlong(m0: Moment, m: Moment, t: Term, v: Term) returns (u: Term)
      requires Walked(m0, m, t) && MomentOK(rep, original, m0) && MomentOK(rep, original, m)
      requires v in rep && v in m.visited && v !in m0.visited && v != t
      ensures u in m0.graph && u in m.visited && u !in m0.visited && u !in m0.states && v in m0.graph[u].ops
    {
      hide KeepsTrees, VisitedBelow, NeedsState;
      assert HasFreshUser(m0.graph, m0.visited, m.visited, v);
      u :| u in m0.graph && u in m.visited && u !in m0.visited && v in m0.graph[u].ops;
    }

    lemma Begun(m0: Moment, t: Term)
      requires t in rep && t !in m0.visited && m0.stateOf.Keys <= m0.visited
      ensures Partway(m0, m0.(visited := m0.visited + {t}), t)
    {
      hide KeepsTrees, VisitedBelow, Along;
      SameTrees(m0.graph, m0.states);
      StartWalk(rep.Keys, m0.graph, m0.visited, m0.states, t);
    }

    lemma OneMore(m0: Moment, m1: Moment, m: Moment, t: Term, i: nat)
      requires MomentOK(rep, original, m0) && MomentOK(rep, original, m1) && MomentOK(rep, original, m)
      requires t in rep && t in m1.visited && t !in m0.visited && t in m1.graph && i < |m1.graph[t].ops|
      requires m1.graph[t].ops[i] in m.visited && forall j :: 0 <= j < i ==> m1.graph[t].ops[j] in m1.visited
      requires Partway(m0, m1, t) && Walked(m1, m, m1.graph[t].ops[i])
      ensures Partway(m0, m, t) && t in m.graph && |m.graph[t].ops| == |m1.graph[t].ops|
      ensures forall j :: 0 <= j <= i ==> m.graph[t].ops[j] in m.visited
    {
      hide KeepsTrees, VisitedBelow, Along, MomentOK, IsOperand;
      TreesTrans(m0.graph, m0.states, m1.graph, m1.states, m.graph, m.states);
      WalkOn(rep, original, m0, m1, m, t, i);
      OperandThen(rep, original, m1, t, i);
    }

    lemma Ended(m0: Moment, m1: Moment, m: Moment, t: Term)
      requires MomentOK(rep, original, m0) && MomentOK(rep, original, m1) && MomentOK(rep, original, m)
      requires t in rep && t !in m0.visited && t in m1.graph && forall j :: 0 <= j < |m1.graph[t].ops| ==> m1.graph[t].ops[j] in m1.visited
      requires Partway(m0, m1, t) && Later(m1, m) && m1.graph.Keys <= m.graph.Keys && m.visited <= m1.visited + m.states
      requires KeepsTrees(m1.graph, m1.states, m.graph, m.states)
      requires (NeedsState(t) ==> t in m.stateOf) && forall r :: r in m.stateOf ==> r == t || r in m1.stateOf
      ensures Walked(m0, m, t)
    {
      hide KeepsTrees, VisitedBelow, Along, MomentOK, IsOperand, NeedsState;
      TreesTrans(m0.graph, m0.states, m1.graph, m1.states, m.graph, m.states);
      MomentSets(rep, original, m);
      WalkEnd(rep, original, m0, m1, m, t);
      forall v | v in m.visited && v !in m0.visited && NeedsState(v) ensures v in m.stateOf {
        if v in m.states { StatesNeedNone(m, v); }
      }
    }

    lemma StatesNeedNone(m: Moment, v: Term)
      requires MomentOK(rep, original, m) && v in m.states
      ensures !NeedsState(v)
    {}

    lemma ServedAreNeeded()
      requires Valid()
      ensures forall r :: r in stateOf ==> r in visited && NeedsState(r)
    {
      hide Idem, Lists, Inverse, OpsIn, OnlyStatesAdded, Numbered, AllServe, OpsByState, LabelsOK, LabelsKept, StateIds;
    }

    method Mark(t: Term)
      requires Valid() && t in graph && t !in visited
      modifies `visited
      ensures Valid() && visited == old(visited) + {t} && t in rep && t !in stateOf
    {
      hide Idem, Lists, Inverse, OpsIn, OnlyStatesAdded, StateForClass, Numbered, AllServe, OpsByState, LabelsOK, LabelsKept,
        StateIds, OnlyNeeded;
      visited := visited + {t};
    }

    lemma InGraph(t: Term)
      requires Valid() && t in rep
      ensures t in graph && forall j :: 0 <= j < |graph[t].ops| ==> graph[t].ops[j] in graph
    {
      hide Idem, Lists, Inverse, OnlyStatesAdded, StateForClass, Numbered, AllServe, OpsByState, LabelsOK, LabelsKept,
        StateIds, OnlyNeeded;
    }

    /** Operands first, then the term itself; operands may turn into states meanwhile. The walk reaches everything
        that is left below the term, and nothing but along edges that were there when it began. */
    method Visit(t: Term)
      requires Valid() && t in graph && t !in visited
      modifies this
      ensures Valid() && t in visited && Walked(old(Here()), Here(), t)
      decreases rep.Keys - visited, 0
    {
      hide BuildAutomaton.Valid, Partway, Walked, KeepsTrees, SplicedIn, WithState, HasLabels, MomentOK;
      ghost var m0 := Here();
      HereIsOK();
      MomentSets(rep, original, m0);
      Mark(t);
      Begun(m0, t);
      VisitPost(t, m0);
      ghost var m1 := Here();
      HereIsOK();
      NotYetServed(m0, m1, t);
      VisitNode(t);
      HereIsOK();
      MomentSets(rep, original, Here());
      Ended(m0, m1, Here(), t);
    }

    lemma NotYetServed(m0: Moment, m: Moment, t: Term)
      requires Partway(m0, m, t) && m0.stateOf.Keys <= m0.visited && t !in m0.visited
      ensures t !in m.stateOf
    {
      hide KeepsTrees, VisitedBelow, Along;
    }

    /** The operands in turn. */
    method VisitPost(t: Term, ghost m0: Moment)
      requires Valid() && MomentOK(rep, original, m0) && t in rep && t in visited && t !in m0.visited && Partway(m0, Here(), t)
      modifies this
      ensures Valid() && t in visited && t in graph && Partway(m0, Here(), t)
      ensures forall j :: 0 <= j < |graph[t].ops| ==> graph[t].ops[j] in visited
      decreases rep.Keys - visited, 1
    {
      hide BuildAutomaton.Valid, Partway, Walked, MomentOK;
      var i := 0;
      InGraph(t);
      ghost var n := |graph[t].ops|;
      while i < |graph[t].ops|
        invariant Valid() && t in graph && |graph[t].ops| == n && t in visited && old(visited) <= visited
        invariant Partway(m0, Here(), t)
        invariant i <= |graph[t].ops| && forall j :: 0 <= j < i ==> graph[t].ops[j] in visited
        decreases n - i
      {
        InGraph(t);
        var op := graph[t].ops[i];
        if op !in visited {
          ghost var m1 := Here();
          HereIsOK();
          Visit(op);
          HereIsOK();
          Grown(m1, Here(), op);
          OneMore(m0, m1, Here(), t, i);
        }
        i := i + 1;
      }
    }

    lemma Grown(m0: Moment, m: Moment, t: Term)
      requires Walked(m0, m, t)
      ensures m0.visited <= m.visited && m0.graph.Keys <= m.graph.Keys
    {
      hide KeepsTrees, VisitedBelow, Along;
    }

    /** Closure::rebuildAutomaton: a walk from every final term of the graph. Every representative that the
        walk meets gets its state, uses and operands stay inverse, and no term loses a tree. */
    method RebuildAutomaton(roots: seq<Term>) returns (numStatesCreated: nat, ghost run: seq<Moment>)
      requires Valid() && graph == original && states == {} && visited == {} && stateOf == map[]
      requires NoRepeats(roots) && forall r :: r in roots ==> r in uses && uses[r] == {}
      modifies this
      ensures Valid() && KeepsTrees(original, {}, graph, states)
      ensures forall r :: r in roots ==> r in visited
      ensures Served({}) && numStatesCreated == |states|
      ensures VisitedBelow(rep.Keys, graph, {}, visited) && forall r :: r in stateOf <==> r in visited && NeedsState(r)
      ensures |run| == |roots| + 1 && WalkedAll(roots, run) && run[0] == old(Here()) && run[|roots|] == Here()
    {
      hide BuildAutomaton.Valid, Walked, KeepsTrees, IsOperand, NoRepeats, VisitedBelow, MomentOK, SoFar, WalkedAll;
      RootsAreFinal(roots);
      StartRun(roots);
      run := [Here()];
      HereIsOK();
      var i := 0;
      while i < |roots|
        invariant i <= |roots| && Valid() && SoFar(roots[..i], Here())
        invariant |run| == i + 1 && WalkedAll(roots[..i], run) && run[0] == old(Here()) && run[i] == Here()
      {
        ghost var m0 := Here();
        HereIsOK();
        NextIsNew(roots, i);
        RootIsFresh(roots, i, m0);
        Visit(roots[i]);
        HereIsOK();
        NextRoot(roots, i, m0, Here());
        RunOn(roots, i, run, Here());
        run := run + [Here()];
        i := i + 1;
      }
      ServedAreNeeded();
      assert roots[..i] == roots;
      RunIsOver(roots);
      Counted();
      numStatesCreated := counter - base;
    }

    lemma StartRun(roots: seq<Term>)
      requires Valid() && graph == original && states == {} && visited == {}
      ensures SoFar(roots[..0], Here()) && WalkedAll(roots[..0], [Here()])
    {
      hide BuildAutomaton.Valid, KeepsTrees, Walked;
      HereIsOK();
      hide MomentOK;
      SameTrees(graph, states);
      NothingBelow(rep.Keys, graph);
    }

    /** The run leaves what it promises. */
    lemma RunIsOver(roots: seq<Term>)
      requires SoFar(roots, Here())
      ensures KeepsTrees(original, {}, graph, states) && (forall r :: r in roots ==> r in visited)
      ensures Served({}) && VisitedBelow(rep.Keys, graph, {}, visited)
    {
      hide KeepsTrees, VisitedBelow;
    }

    lemma Counted()
      requires Valid()
      ensures counter - base == |states|
    {
      CountResult(counter, base, states);
    }

    lemma RootsAreFinal(roots: seq<Term>)
      requires Valid() && graph == original && forall r :: r in roots ==> r in uses && uses[r] == {}
      ensures forall r :: r in roots ==> r in original && r in rep && !IsOperand(original, r)
    {
      hide Idem, Lists, Inverse, OpsIn, StateForClass, IsOperand, Numbered, AllServe, OpsByState, LabelsOK, LabelsKept, StateIds;
      Finals(graph, uses, roots);
    }

    /** The walks from the roots, one after the other. */
    ghost predicate WalkedAll(roots: seq<Term>, run: seq<Moment>) {
      |run| == |roots| + 1 && (forall i :: 0 <= i < |run| ==> MomentOK(rep, original, run[i])) &&
      forall i :: 0 <= i < |roots| ==> WalkedOne(roots, run, i)
    }

    ghost predicate WalkedOne(roots: seq<Term>, run: seq<Moment>, i: nat)
      requires i < |roots| && i + 1 < |run|
    {
      Walked(run[i], run[i + 1], roots[i]) && roots[i] in run[i + 1].visited
    }

    lemma RunOn(roots: seq<Term>, i: nat, run: seq<Moment>, m: Moment)
      requires i < |roots| && WalkedAll(roots[..i], run) && MomentOK(rep, original, m)
      requires Walked(run[i], m, roots[i]) && roots[i] in m.visited
      ensures WalkedAll(roots[..i + 1], run + [m])
    {
      hide Walked, MomentOK;
      var roots', run' := roots[..i + 1], run + [m];
      forall j | 0 <= j < i + 1 ensures WalkedOne(roots', run', j) {
        if j < i { assert WalkedOne(roots[..i], run, j); }
      }
    }

    /** What the walks from some of the roots have done. */
    ghost predicate SoFar(roots: seq<Term>, m: Moment) {
      && KeepsTrees(original, {}, m.graph, m.states) && (forall r :: r in roots ==> r in m.visited)
      && (forall v :: v in m.visited ==> v in roots || v in m.states || IsOperand(original, v))
      && (forall v :: v in m.visited && NeedsState(v) ==> v in m.stateOf)
      && VisitedBelow(rep.Keys, m.graph, {}, m.visited)
    }

    lemma RootIsFresh(roots: seq<Term>, i: nat, m: Moment)
      requires i < |roots| && roots[i] !in roots[..i] && SoFar(roots[..i], m) && MomentOK(rep, original, m)
      requires roots[i] in rep && !IsOperand(original, roots[i])
      ensures roots[i] in m.graph && roots[i] !in m.visited
    {
      hide KeepsTrees, IsOperand, VisitedBelow;
    }

    lemma NextRoot(roots: seq<Term>, i: nat, m0: Moment, m: Moment)
      requires i < |roots| && SoFar(roots[..i], m0) && Walked(m0, m, roots[i]) && roots[i] in m.visited
      requires MomentOK(rep, original, m0) && MomentOK(rep, original, m)
      ensures SoFar(roots[..i + 1], m)
    {
      hide KeepsTrees, IsOperand, VisitedBelow, Along, MomentOK, NeedsState;
      assert roots[..i + 1] == roots[..i] + [roots[i]];
      TreesTrans(original, {}, m0.graph, m0.states, m.graph, m.states);
      BelowOn(rep, original, m0, m, {});
    }
  }

  lemma NothingBelow(terms: set<Term>, g: Graph)
    ensures VisitedBelow(terms, g, {}, {})
  {}

  ghost predicate IsOperand(g: Graph, x: Term) { exists u :: u in g && x in g[u].ops }

  lemma TreesTrans(g0: Graph, s0: set<Term>, g1: Graph, s1: set<Term>, g2: Graph, s2: set<Term>)
    requires KeepsTrees(g0, s0, g1, s1) && KeepsTrees(g1, s1, g2, s2)
    ensures KeepsTrees(g0, s0, g2, s2)
  {
    hide Generates;
    forall t, tree | Generates(g0, s0, t, tree) ensures Generates(g2, s2, t, tree) {
      assert Generates(g1, s1, t, tree);
    }
  }

  ghost predicate KeepsTrees(g0: Graph, states0: set<Term>, g: Graph, states: set<Term>) {
    forall t, tree {:trigger Generates(g, states, t, tree)} ::
      Generates(g0, states0, t, tree) ==> Generates(g, states, t, tree)
  }

  lemma SameTrees(g: Graph, states: set<Term>)
    ensures KeepsTrees(g, states, g, states)
  {}

  lemma ClassesListed(rep: Rep, members: map<Term, seq<Term>>, t: Term)
    requires Idem(rep) && Lists(rep, members) && t in rep
    ensures IsRoot(rep, rep[t]) && rep[t] in members && NoRepeats(members[rep[t]])
    ensures forall m :: m in members[rep[t]] <==> m in rep && rep[m] == rep[t]
    ensures |members[rep[t]]| > 0
  {
    var r := rep[t];
    assert IsRoot(rep, r);
    assert forall m :: m in members[r] <==> m in Members(members[r]);
    assert t in members[r];
  }

  lemma EmptyStart(ops: seq<Term>)
    ensures Members(ops[..0]) == {}
  {}

  lemma NextMember(ops: seq<Term>, i: nat)
    requires i < |ops| && NoRepeats(ops)
    ensures ops[i] in Members(ops) && ops[i] !in Members(ops[..i])
    ensures Members(ops[..i + 1]) == Members(ops[..i]) + {ops[i]}
  {
    assert ops[..i + 1] == ops[..i] + [ops[i]];
  }

  lemma SplicedIs(g0: Graph, uses0: Uses, g: Graph, uses: Uses, s: Term, id: nat, ops: seq<Term>)
    requires s !in g0 && Replaced(g0, g, s, Node(id, ops), Members(ops)) && Redirected(uses0, uses, s, Members(ops), Members(ops))
    ensures Spliced(g0, uses0, g, uses, s, id, ops)
  {}

  lemma SplicedKeys(g0: Graph, uses0: Uses, g: Graph, uses: Uses, s: Term, id: nat, ops: seq<Term>)
    requires Spliced(g0, uses0, g, uses, s, id, ops)
    ensures g.Keys == g0.Keys + {s} && s in uses && Replaced(g0, g, s, Node(id, ops), Members(ops))
  {}

  /** The state has a use if and only if a member had one. */
  lemma SplicedFinal(g0: Graph, uses0: Uses, g: Graph, uses: Uses, s: Term, id: nat, ops: seq<Term>)
    requires Spliced(g0, uses0, g, uses, s, id, ops) && uses0.Keys == g0.Keys && forall m :: m in ops ==> m in g0
    ensures s in uses && (uses[s] == {} <==> forall m :: m in ops ==> m in uses0 && uses0[m] == {})
  {
    if uses[s] == {} {
      forall m | m in ops ensures uses0[m] == {} {
        forall u | u in uses0[m] ensures u in Users(uses0, Members(ops)) {}
      }
    }
  }

  lemma AfterSplice(g0: Graph, uses0: Uses, g: Graph, uses: Uses, s: Term, id: nat, ops: seq<Term>, states: set<Term>)
    requires Spliced(g0, uses0, g, uses, s, id, ops) && states <= g0.Keys
    ensures After(g0, states, g, s, id, ops)
  {}

  lemma SpliceKeepsAllTrees(g0: Graph, states: set<Term>, g: Graph, s: Term, id: nat, ops: seq<Term>)
    requires After(g0, states, g, s, id, ops) && OpsIn(g0) && (forall m :: m in ops ==> m in g0)
    ensures KeepsTrees(g0, states, g, states + {s})
  {
    hide After, OpsIn, Generates;
    forall t, tree | Generates(g0, states, t, tree) ensures Generates(g, states + {s}, t, tree) {
      SpliceKeepsTrees(g0, states, g, s, id, ops, t, tree);
    }
  }

  lemma OnlyStates(original: Graph, g0: Graph, g: Graph, terms: set<Term>, states: set<Term>, s: Term, node: Node, cls: set<Term>)
    requires OnlyStatesAdded(original, g0, terms, states) && Replaced(g0, g, s, node, cls)
    ensures OnlyStatesAdded(original, g, terms, states + {s})
  {
    forall u | u in terms ensures g[u].id == original[u].id && |g[u].ops| == |original[u].ops| &&
      forall i :: 0 <= i < |g[u].ops| ==> g[u].ops[i] in states + {s} || g[u].ops[i] == original[u].ops[i]
    {
      assert g[u] == Node(g0[u].id, Put(g0[u].ops, cls, s));
      assert g0[u].id == original[u].id;
    }
  }

  lemma OtherState(g0: Graph, uses0: Uses, g: Graph, uses: Uses, s: Term, id: nat, ops: seq<Term>, other: seq<Term>, x: Term)
    requires Spliced(g0, uses0, g, uses, s, id, ops) && IsStateFor(other, g0, uses0, x)
    requires forall m :: m in other ==> m !in ops
    ensures IsStateFor(other, g, uses, x)
  {
    hide Users;
    var cls := Members(ops);
    assert g[x] == Node(g0[x].id, Put(g0[x].ops, cls, s));
    forall m | m in other ensures m in uses && uses[m] == {x} {
      assert uses0[m] == {x};
    }
    assert Put(other, cls, s) == other;
  }

  lemma NewestState(g0: Graph, uses0: Uses, g: Graph, uses: Uses, s: Term, id: nat, ops: seq<Term>)
    requires Spliced(g0, uses0, g, uses, s, id, ops) && uses0.Keys == g0.Keys && forall m :: m in ops ==> m in g0
    ensures IsStateFor(ops, g, uses, s)
  {
    hide Users;
  }

  /** Everything a splice keeps, together. */
  lemma WholeSplice(rep: Rep, members: map<Term, seq<Term>>, original: Graph, g0: Graph, uses0: Uses,
                    states: set<Term>, stateOf: map<Term, Term>, t: Term, g: Graph, uses: Uses, s: Term, id: nat)
    requires Idem(rep) && Lists(rep, members) && IsRoot(rep, t) && t in members && t !in stateOf
    requires Inverse(g0, uses0) && OpsIn(g0) && g0.Keys == rep.Keys + states
    requires OnlyStatesAdded(original, g0, rep.Keys, states) && StateForClass(rep, members, g0, uses0, states, stateOf)
    requires Spliced(g0, uses0, g, uses, s, id, members[t])
    requires OpsByState(rep, original, g0, stateOf) && rep.Keys !! states
    ensures OpsByState(rep, original, g, stateOf[t := s])
    ensures g.Keys == g0.Keys + {s} && KeepsTrees(g0, states, g, states + {s})
    ensures OnlyStatesAdded(original, g, rep.Keys, states + {s})
    ensures StateForClass(rep, members, g, uses, states + {s}, stateOf[t := s])
  {
    hide Put, Users, Idem, Inverse, OnlyStatesAdded, StateForClass, Replaced, Redirected, OpsIn, Spliced, Members,
      KeepsTrees, NoRepeats, Lists, OpsByState, ClassOf;
    var ops := members[t];
    ClassesListed(rep, members, t);
    KnownTerms(g0, uses0, ops);
    SplicedKeys(g0, uses0, g, uses, s, id, ops);
    AfterSplice(g0, uses0, g, uses, s, id, ops, states);
    SpliceKeepsAllTrees(g0, states, g, s, id, ops);
    OnlyStates(original, g0, g, rep.Keys, states, s, Node(id, ops), Members(ops));
    StatesStay(rep, members, g0, uses0, g, uses, states, stateOf, t, s, id);
    StatesOf(rep, members, g0, uses0, states, stateOf);
    ClassMembers(rep, members, t);
    OpsMove(rep, original, g0, g, states, stateOf, t, s, Node(id, ops), Members(ops));
  }

  lemma ClassMembers(rep: Rep, members: map<Term, seq<Term>>, t: Term)
    requires Lists(rep, members) && IsRoot(rep, t)
    ensures t in members && Members(members[t]) == ClassOf(rep, t)
  {}

  lemma StatesStay(rep: Rep, members: map<Term, seq<Term>>, g0: Graph, uses0: Uses, g: Graph, uses: Uses,
                   states: set<Term>, stateOf: map<Term, Term>, t: Term, s: Term, id: nat)
    requires Idem(rep) && Lists(rep, members) && IsRoot(rep, t) && t in members
    requires StateForClass(rep, members, g0, uses0, states, stateOf) && uses0.Keys == g0.Keys && rep.Keys <= g0.Keys
    requires Spliced(g0, uses0, g, uses, s, id, members[t]) && t !in stateOf
    ensures StateForClass(rep, members, g, uses, states + {s}, stateOf[t := s])
  {
    hide Spliced, Lists, Idem, IsStateFor;
    ClassesListed(rep, members, t);
    NewestState(g0, uses0, g, uses, s, id, members[t]);
    forall r | r in stateOf ensures IsStateFor(members[r], g, uses, stateOf[r]) {
      ClassesListed(rep, members, r);
      OtherState(g0, uses0, g, uses, s, id, members[t], members[r], stateOf[r]);
    }
  }

  lemma NothingReplaced(g0: Graph, s: Term, node: Node)
    requires s !in g0
    ensures Replaced(g0, g0[s := node], s, node, {})
  {
    forall u | u in g0 ensures g0[u] == Node(g0[u].id, Put(g0[u].ops, {}, s)) {
      PutNothing(g0[u].ops, s);
    }
  }

  lemma NothingRedirected(uses0: Uses, uses: Uses, s: Term, c: set<Term>)
    requires s !in uses0 && AddedTo(uses0, uses, s, c)
    ensures Redirected(uses0, uses, s, c, {})
  {
    NoUsers(uses0);
    hide Users;
  }

  lemma NoUsers(uses: Uses)
    ensures Users(uses, {}) == {}
  {}

  lemma TodoBegin(all: set<Term>, s: Term)
    ensures all - (all + {s}) == {}
  {}

  lemma TodoEnd(all: set<Term>)
    ensures all - {} == all
  {}

  lemma TodoStep(all: set<Term>, s: Term, todo: set<Term>, u: Term)
    requires u in todo && todo <= all + {s} && s !in all
    ensures todo - {u} <= all + {s} && |todo - {u}| < |todo|
    ensures if u == s then all - (todo - {u}) == all - todo
            else u in all && u !in all - todo && all - (todo - {u}) == all - todo + {u}
  {}

  lemma OutsideUses(g0: Graph, uses0: Uses, s: Term)
    requires Inverse(g0, uses0) && s !in g0
    ensures s !in uses0
  {}

  lemma MoreRedirected(uses0: Uses, uses: Uses, s: Term, cls: set<Term>, c: set<Term>, done: set<Term>, u: Term)
    requires RedirectedPart(uses0, uses, s, cls, c, done) && s !in uses0
    ensures s in uses && RedirectedPart(uses0, uses[s := uses[s] + {u}], s, cls, c, done + {u})
  {
    hide Users;
  }

  lemma MemberUses(g0: Graph, uses0: Uses, uses: Uses, s: Term, cls: set<Term>, c: set<Term>, m: Term)
    requires Inverse(g0, uses0) && m in g0 && s !in g0 && m in cls && m !in c && Redirected(uses0, uses, s, cls, c)
    ensures m in uses0 && m in uses && uses[m] == uses0[m] + {s} && s !in uses0[m] && s !in uses0 && m != s
    ensures RedirectedPart(uses0, uses, s, cls, c, {})
  {
    hide Users;
  }

  lemma Finals(g: Graph, uses: Uses, roots: seq<Term>)
    requires Inverse(g, uses) && forall r :: r in roots ==> r in uses && uses[r] == {}
    ensures forall r :: r in roots ==> r in g && !IsOperand(g, r)
  {
    forall r | r in roots ensures !IsOperand(g, r) {
      forall u | u in g ensures r !in g[u].ops { assert IsUse(g, uses, r, u); }
    }
  }
}
