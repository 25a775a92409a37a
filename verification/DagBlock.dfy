/**
  Rewriting the straight-line segments of a block by way of the graph, and when it
  preserves what the block does.
  */
module DagBlock {
  import opened Quadr
  import opened Dag
  import opened DagEmit
  import opened DagOrder
  import opened DagLabels

  lemma EmptyValid(m: Machine, addr: Id -> int, env: Env)
    ensures Valid(EmptyGraph) && Clean(EmptyGraph) && Ordered(addr, EmptyGraph.nodes)
    ensures Tracks(m, EmptyGraph, env, env)
  {}

  // ---------- variables of the program are below `vars` ----------

  predicate ArgBelow(a: Arg, vars: Var) { a.VarArg? ==> a.v < vars }

  predicate QuadBelow(q: Quad, vars: Var) { ArgBelow(q.result, vars) && ArgBelow(q.arg1, vars) && ArgBelow(q.arg2, vars) }

  predicate AllQuadsBelow(qs: seq<Quad>, vars: Var) { forall i :: 0 <= i < |qs| ==> QuadBelow(qs[i], vars) }

  predicate NodeBelow(n: Node, vars: Var) { AllBelow(n.vars, vars) && (n.Leaf? ==> ArgBelow(n.arg, vars)) }

  predicate NodesBelow(nodes: seq<Node>, vars: Var) { forall i :: 0 <= i < |nodes| ==> NodeBelow(nodes[i], vars) }

  lemma GetNodeBelow(g: Graph, a: Arg, vars: Var)
    requires IsOperand(a) && NodesBelow(g.nodes, vars) && ArgBelow(a, vars)
    ensures NodesBelow(GetNode(g, a).g.nodes, vars)
  {
    var nodes := GetNode(g, a).g.nodes;
    forall i | 0 <= i < |nodes| ensures NodeBelow(nodes[i], vars) {
      if i < |g.nodes| { assert NodeBelow(g.nodes[i], vars); }
    }
  }

  lemma NewNodeBelow(addr: Id -> int, g: Graph, op: Op, left: Id, right: Id, vars: Var)
    requires left < |g.nodes| && right < |g.nodes| && NodesBelow(g.nodes, vars)
    ensures NodesBelow(NewNode(addr, g, op, left, right).g.nodes, vars)
  {
    var nodes := NewNode(addr, g, op, left, right).g.nodes;
    forall i | 0 <= i < |nodes| ensures NodeBelow(nodes[i], vars) {
      if i < |g.nodes| { assert NodeBelow(g.nodes[i], vars); }
    }
  }

  lemma {:induction false} EraseSubset(vs: seq<Var>, v: Var)
    ensures forall w :: w in Erase(vs, v) ==> w in vs
  {
    if vs != [] && vs[0] != v { EraseSubset(vs[1..], v); }
  }

  lemma RebindBelow(g: Graph, v: Var, i: Id, vars: Var)
    requires i < |g.nodes| && (v in g.at ==> g.at[v] < |g.nodes|) && NodesBelow(g.nodes, vars) && v < vars
    ensures NodesBelow(Rebind(g, v, i).nodes, vars)
  {
    var nodes := Rebind(g, v, i).nodes;
    RebindNodes(g, v, i);
    forall k | 0 <= k < |nodes| ensures NodeBelow(nodes[k], vars) {
      assert NodeBelow(g.nodes[k], vars) && SameValue(g.nodes[k], nodes[k]);
      EraseSubset(g.nodes[k].vars, v);
    }
  }

  lemma ReadQuadBelow(addr: Id -> int, g: Graph, q: Quad, vars: Var)
    requires Valid(g) && IsPure(q) && |g.nodes| + 2 <= MaxNodes && NodesBelow(g.nodes, vars) && QuadBelow(q, vars)
    ensures NodesBelow(ReadQuad(addr, g, q).nodes, vars)
  {
    ReadValueValid(addr, g, q);
    GetNodeValid(g, q.arg1);
    GetNodeBelow(g, q.arg1, vars);
    var f := ReadValue(addr, g, q);
    if !q.op.Copy? {
      var a := GetNode(g, q.arg1);
      GetNodeValid(a.g, q.arg2);
      GetNodeBelow(a.g, q.arg2, vars);
      NewNodeBelow(addr, GetNode(a.g, q.arg2).g, q.op, a.i, GetNode(a.g, q.arg2).i, vars);
    }
    RebindBelow(f.g, q.result.v, f.i, vars);
  }

  ghost predicate SameBelow(a: Env, b: Env, vars: Var) { forall x: Var :: x < vars ==> a[x] == b[x] }

  lemma {:induction false} DenoteSame(m: Machine, nodes: seq<Node>, i: Id, a: Env, b: Env, vars: Var)
    requires Shape(nodes) && i < |nodes| && NodesBelow(nodes, vars) && SameBelow(a, b, vars)
    ensures Denote(m, nodes, i, a) == Denote(m, nodes, i, b)
    decreases i
  {
    assert NodeShape(nodes[i], i) && NodeBelow(nodes[i], vars);
    if nodes[i].Apply? {
      DenoteSame(m, nodes, nodes[i].left, a, b, vars);
      DenoteSame(m, nodes, nodes[i].right, a, b, vars);
    }
  }

  // ---------- one segment ----------

  /** The rewritten segment gives a variable its value if and only if what the code copies to it last has the value of its node. */
  lemma SegmentIff(m: Machine, fold: Folding, addr: Id -> int, qs: seq<Quad>, order: seq<Id>, s: State, vars: Var)
    requires Commutes(m) && Agrees(m, fold)
    requires AllPure(qs) && AllQuadsBelow(qs, vars) && Valid(EmptyGraph) && Fits(addr, EmptyGraph, qs)
    requires IsOrder(ReadAll(addr, EmptyGraph, qs), order)
    ensures var g := ReadAll(addr, EmptyGraph, qs);
            var t, u := RunBlock(m, Emission(fold, g, order, vars).code, s), RunBlock(m, qs, s);
            && t.trace == u.trace
            && (forall x: Var :: x < vars ==>
                  (t.env[x] == u.env[x] <==> FinalValue(m, fold, g.nodes, CopyOrder(g, order), x, s.env) == CurrentValue(m, g, x, s.env)))
            && (Clean(g) && !SomeZeroDivision(fold, g.nodes) ==> SameBelow(t.env, u.env, vars))
  {
    EmptyValid(m, addr, s.env);
    ReadSound(m, addr, EmptyGraph, qs, s.env, s);
    ReadAllBelow(addr, EmptyGraph, qs, vars);
    var g := ReadAll(addr, EmptyGraph, qs);
    EmissionRuns(m, fold, g, order, s, vars);
    EmissionFollows(fold, g, order, vars);
    if Clean(g) && !SomeZeroDivision(fold, g.nodes) {
      forall x: Var | x < vars
        ensures FinalValue(m, fold, g.nodes, CopyOrder(g, order), x, s.env) == CurrentValue(m, g, x, s.env)
      {
        FinalIsCurrent(m, fold, g, CopyOrder(g, order), x, s.env);
      }
    }
  }

  lemma {:induction false} ReadAllBelow(addr: Id -> int, g: Graph, qs: seq<Quad>, vars: Var)
    requires Valid(g) && AllPure(qs) && Fits(addr, g, qs) && AllQuadsBelow(qs, vars) && NodesBelow(g.nodes, vars)
    ensures NodesBelow(ReadAll(addr, g, qs).nodes, vars) && ListsBelow(ReadAll(addr, g, qs).nodes, vars)
    decreases |qs|
  {
    if qs == [] {
      forall i | 0 <= i < |g.nodes| ensures AllBelow(g.nodes[i].vars, vars) { assert NodeBelow(g.nodes[i], vars); }
    } else {
      ReadQuadBelow(addr, g, qs[0], vars);
      ReadQuadValid(addr, g, qs[0]);
      ReadAllBelow(addr, ReadQuad(addr, g, qs[0]), qs[1..], vars);
    }
  }

  // ---------- segments that are safe ----------

  /** A variable assigned by a copy is not assigned again. */
  predicate CopiesStand(qs: seq<Quad>) {
    forall i, j :: 0 <= i < j < |qs| && qs[i].op.Copy? ==> qs[i].result != qs[j].result
  }

  predicate OnOtherLeaf(g: Graph, v: Var)
    requires v in g.at ==> g.at[v] < |g.nodes|
  {
    v in g.at && g.nodes[g.at[v]].Leaf? && OwnVar(g.nodes[g.at[v]]) != Some(v)
  }

  /** Variables whose value is a constant or the input of another variable are not assigned by the rest of the segment. */
  ghost predicate LeavesStand(g: Graph, qs: seq<Quad>)
    requires AtOk(g)
  {
    forall v, j :: OnOtherLeaf(g, v) && 0 <= j < |qs| ==> qs[j].result != VarArg(v)
  }

  lemma RebindClean(g: Graph, v: Var, i: Id)
    requires Valid(g) && Clean(g) && i < |g.nodes|
    requires !OnOtherLeaf(g, v)
    ensures Clean(Rebind(g, v, i))
  {
    var g' := Rebind(g, v, i);
    RebindNodes(g, v, i);
    forall k | 0 <= k < |g'.nodes| && g'.nodes[k].Leaf? ensures CleanLeaf(g', k) {
      assert SameValue(g.nodes[k], g'.nodes[k]) && CleanLeaf(g, k);
      RebindLists(g, v, i, k);
    }
  }

  lemma ReadValueClean(addr: Id -> int, g: Graph, q: Quad)
    requires Valid(g) && IsPure(q) && |g.nodes| + 2 <= MaxNodes && Clean(g)
    ensures Clean(ReadValue(addr, g, q).g)
  {
    GetNodeValid(g, q.arg1);
    GetNodeClean(g, q.arg1);
    if !q.op.Copy? {
      var a := GetNode(g, q.arg1);
      GetNodeValid(a.g, q.arg2);
      GetNodeClean(a.g, q.arg2);
      NewNodeClean(addr, GetNode(a.g, q.arg2).g, q.op, a.i, GetNode(a.g, q.arg2).i);
    }
  }

  lemma GetNodeClean(g: Graph, a: Arg)
    requires Valid(g) && IsOperand(a) && Clean(g)
    ensures Clean(GetNode(g, a).g)
  {
    var f := GetNode(g, a);
    forall k | 0 <= k < |f.g.nodes| && f.g.nodes[k].Leaf? ensures CleanLeaf(f.g, k) {
      if k < |g.nodes| { assert CleanLeaf(g, k); }
    }
  }

  lemma NewNodeClean(addr: Id -> int, g: Graph, op: Op, left: Id, right: Id)
    requires Valid(g) && Clean(g) && left < |g.nodes| && right < |g.nodes|
    ensures Clean(NewNode(addr, g, op, left, right).g)
  {
    var f := NewNode(addr, g, op, left, right);
    MarkedShape(g.nodes, left, right);
    MarkedShape(g.nodes, right, left);
    forall k | 0 <= k < |f.g.nodes| && f.g.nodes[k].Leaf? ensures CleanLeaf(f.g, k) {
      assert CleanLeaf(g, k);
    }
  }

  lemma {:induction false} CopiesStandClean(addr: Id -> int, g: Graph, qs: seq<Quad>)
    requires Valid(g) && AllPure(qs) && Fits(addr, g, qs) && Clean(g) && CopiesStand(qs) && LeavesStand(g, qs)
    ensures Clean(ReadAll(addr, g, qs))
    decreases |qs|
  {
    if qs != [] {
      var f := ReadValue(addr, g, qs[0]);
      var v := qs[0].result.v;
      ReadValueValid(addr, g, qs[0]);
      ReadValueClean(addr, g, qs[0]);
      ReadStand(addr, g, qs);
      RebindClean(f.g, v, f.i);
      ReadQuadValid(addr, g, qs[0]);
      CopiesStandClean(addr, ReadQuad(addr, g, qs[0]), qs[1..]);
    }
  }

  lemma GrowsStand(g: Graph, g': Graph, v: Var)
    requires AtOk(g) && AtOk(g') && Grows(g, g') && OnOtherLeaf(g', v)
    ensures OnOtherLeaf(g, v)
  {
    if v in g.at { assert SameValue(g.nodes[g.at[v]], g'.nodes[g.at[v]]); }
  }

  lemma RebindStand(g: Graph, v: Var, i: Id, w: Var)
    requires Valid(g) && i < |g.nodes| && AtOk(Rebind(g, v, i)) && OnOtherLeaf(Rebind(g, v, i), w)
    ensures if w == v then g.nodes[i].Leaf? else OnOtherLeaf(g, w)
  {
    RebindNodes(g, v, i);
    var g' := Rebind(g, v, i);
    assert SameValue(g.nodes[g'.at[w]], g'.nodes[g'.at[w]]);
  }

  lemma ReadStand(addr: Id -> int, g: Graph, qs: seq<Quad>)
    requires Valid(g) && AllPure(qs) && qs != [] && |g.nodes| + 2 <= MaxNodes && CopiesStand(qs) && LeavesStand(g, qs)
    ensures var f := ReadValue(addr, g, qs[0]);
            Valid(f.g) && !OnOtherLeaf(f.g, qs[0].result.v)
    ensures Valid(ReadQuad(addr, g, qs[0])) && LeavesStand(ReadQuad(addr, g, qs[0]), qs[1..])
  {
    var f := ReadValue(addr, g, qs[0]);
    var v := qs[0].result.v;
    ReadValueValid(addr, g, qs[0]);
    ReadQuadValid(addr, g, qs[0]);
    if OnOtherLeaf(f.g, v) { GrowsStand(g, f.g, v); }
    var g' := ReadQuad(addr, g, qs[0]);
    if !qs[0].op.Copy? { ReadsOperator(addr, g, qs[0]); }
    forall w, j | OnOtherLeaf(g', w) && 0 <= j < |qs[1..]| ensures qs[1..][j].result != VarArg(w) {
      RebindStand(f.g, v, f.i, w);
      if w != v { GrowsStand(g, f.g, w); }
      assert qs[1..][j] == qs[j + 1];
    }
  }

  lemma ReadsOperator(addr: Id -> int, g: Graph, q: Quad)
    requires Valid(g) && IsPure(q) && |g.nodes| + 2 <= MaxNodes && !q.op.Copy?
    ensures var f := ReadValue(addr, g, q); f.i < |f.g.nodes| && f.g.nodes[f.i].Apply?
  {
    GetNodeValid(g, q.arg1);
    var a := GetNode(g, q.arg1);
    GetNodeValid(a.g, q.arg2);
    var b := GetNode(a.g, q.arg2);
    NewNodeValid(addr, b.g, q.op, a.i, b.i);
  }

  // ---------- whole blocks ----------

  /** What the rewriting depends on: constant arithmetic, addresses of nodes, and the order in which the table lists roots. */
  datatype Config = Config(fold: Folding, addr: Id -> int, order: Graph -> seq<Id>)

  ghost predicate OrderOk(cfg: Config) { forall g :: Valid(g) ==> IsOrder(g, cfg.order(g)) }

  /** The first `n` nodes from which the code of a graph can start, in the order they were made. */
  function Starts(nodes: seq<Node>, n: nat): seq<Id>
    requires n <= |nodes|
  {
    if n == 0 then [] else Starts(nodes, n - 1) + if IsStart(nodes[n - 1]) then [n - 1] else []
  }

  lemma {:induction false} StartsListed(nodes: seq<Node>, n: nat)
    requires n <= |nodes|
    ensures forall i: Id :: i in Starts(nodes, n) <==> i < n && IsStart(nodes[i])
  {
    if n > 0 { StartsListed(nodes, n - 1); }
  }

  /** Listing roots and constants as they were made is an order. */
  lemma OrderMet(fold: Folding, addr: Id -> int)
    ensures OrderOk(Config(fold, addr, (g: Graph) => Starts(g.nodes, |g.nodes|)))
  {
    forall g | Valid(g) ensures IsOrder(g, Starts(g.nodes, |g.nodes|)) {
      StartsListed(g.nodes, |g.nodes|);
      var order := Starts(g.nodes, |g.nodes|);
      forall k | 0 <= k < |order| ensures order[k] < |g.nodes| { assert order[k] in order; }
    }
  }

  datatype Rewritten = Rewritten(code: seq<Quad>, nextVar: Var, failed: bool)

  ghost function Flush(cfg: Config, g: Graph, nextVar: Var): Out
    requires Valid(g) && OrderOk(cfg)
  {
    assert IsOrder(g, cfg.order(g));
    Emission(cfg.fold, g, cfg.order(g), nextVar)
  }

  /** Ids stay small enough for keys. */
  ghost predicate Room(cfg: Config, g: Graph, qs: seq<Quad>)
    requires Valid(g)
    decreases |qs|
  {
    qs == [] ||
    if IsPure(qs[0]) then
      |g.nodes| + 2 <= MaxNodes && (ReadQuadValid(cfg.addr, g, qs[0]); Room(cfg, ReadQuad(cfg.addr, g, qs[0]), qs[1..]))
    else Valid(EmptyGraph) && Room(cfg, EmptyGraph, qs[1..])
  }

  /** A block of up to 2730 quadruples always has room: each makes at most three nodes. */
  lemma {:induction false} ShortRoom(cfg: Config, g: Graph, qs: seq<Quad>)
    requires Valid(g) && |g.nodes| + 3 * |qs| <= 8192
    ensures Room(cfg, g, qs)
    decreases |qs|
  {
    if qs != [] {
      if IsPure(qs[0]) {
        ReadQuadValid(cfg.addr, g, qs[0]);
        ShortRoom(cfg, ReadQuad(cfg.addr, g, qs[0]), qs[1..]);
      } else {
        ShortRoom(cfg, EmptyGraph, qs[1..]);
      }
    }
  }

  /** optimize_local */
  ghost function Rewrite(cfg: Config, g: Graph, qs: seq<Quad>, nextVar: Var): Rewritten
    requires OrderOk(cfg) && Valid(g) && Room(cfg, g, qs)
    decreases |qs|
  {
    if qs == [] then
      var out := Flush(cfg, g, nextVar);
      Rewritten(out.code, out.nextVar, out.failed)
    else if IsPure(qs[0]) then
      ReadQuadValid(cfg.addr, g, qs[0]);
      Rewrite(cfg, ReadQuad(cfg.addr, g, qs[0]), qs[1..], nextVar)
    else
      var out := Flush(cfg, g, nextVar);
      var r := Rewrite(cfg, EmptyGraph, qs[1..], out.nextVar);
      Rewritten(out.code + [qs[0]] + r.code, r.nextVar, out.failed || r.failed)
  }

  /** At the end of every segment the lists of leaves are clean. */
  ghost predicate AllClean(cfg: Config, g: Graph, qs: seq<Quad>)
    requires Valid(g) && Room(cfg, g, qs)
    decreases |qs|
  {
    if qs == [] then Clean(g)
    else if IsPure(qs[0]) then
      ReadQuadValid(cfg.addr, g, qs[0]);
      AllClean(cfg, ReadQuad(cfg.addr, g, qs[0]), qs[1..])
    else Clean(g) && AllClean(cfg, EmptyGraph, qs[1..])
  }

  /** At the end of every segment, the code gives every variable of the program the label of its node. */
  ghost predicate AllMatch(cfg: Config, g: Graph, qs: seq<Quad>, vars: Var)
    requires OrderOk(cfg) && Valid(g) && Room(cfg, g, qs)
    decreases |qs|
  {
    assert IsOrder(g, cfg.order(g));
    if qs == [] then LabelsMatch(cfg.fold, g, cfg.order(g), vars)
    else if IsPure(qs[0]) then
      ReadQuadValid(cfg.addr, g, qs[0]);
      AllMatch(cfg, ReadQuad(cfg.addr, g, qs[0]), qs[1..], vars)
    else LabelsMatch(cfg.fold, g, cfg.order(g), vars) && AllMatch(cfg, EmptyGraph, qs[1..], vars)
  }

  /** No segment divides a constant by zero. */
  ghost predicate NoZeroDivisions(cfg: Config, g: Graph, qs: seq<Quad>)
    requires Valid(g) && Room(cfg, g, qs)
    decreases |qs|
  {
    if qs == [] then !SomeZeroDivision(cfg.fold, g.nodes)
    else if IsPure(qs[0]) then
      ReadQuadValid(cfg.addr, g, qs[0]);
      NoZeroDivisions(cfg, ReadQuad(cfg.addr, g, qs[0]), qs[1..])
    else !SomeZeroDivision(cfg.fold, g.nodes) && NoZeroDivisions(cfg, EmptyGraph, qs[1..])
  }

  /** An error is reported for a block exactly when a segment of it divides a constant by zero. */
  lemma {:induction false} RewriteFailsIff(cfg: Config, g: Graph, qs: seq<Quad>, nextVar: Var)
    requires OrderOk(cfg) && Valid(g) && Room(cfg, g, qs)
    ensures Rewrite(cfg, g, qs, nextVar).failed <==> !NoZeroDivisions(cfg, g, qs)
    decreases |qs|
  {
    if qs != [] && IsPure(qs[0]) {
      ReadQuadValid(cfg.addr, g, qs[0]);
      RewriteFailsIff(cfg, ReadQuad(cfg.addr, g, qs[0]), qs[1..], nextVar);
    } else {
      assert IsOrder(g, cfg.order(g));
      FailsIff(cfg.fold, g, cfg.order(g), nextVar);
      if qs != [] { RewriteFailsIff(cfg, EmptyGraph, qs[1..], Flush(cfg, g, nextVar).nextVar); }
    }
  }

  lemma {:induction false} CleanAllMatch(cfg: Config, g: Graph, qs: seq<Quad>, vars: Var)
    requires OrderOk(cfg) && Valid(g) && Room(cfg, g, qs) && AllClean(cfg, g, qs) && NoZeroDivisions(cfg, g, qs)
    ensures AllMatch(cfg, g, qs, vars)
    decreases |qs|
  {
    if qs != [] && IsPure(qs[0]) {
      ReadQuadValid(cfg.addr, g, qs[0]);
      CleanAllMatch(cfg, ReadQuad(cfg.addr, g, qs[0]), qs[1..], vars);
    } else {
      assert IsOrder(g, cfg.order(g));
      CleanMatches(cfg.fold, g, cfg.order(g), vars);
      if qs != [] { CleanAllMatch(cfg, EmptyGraph, qs[1..], vars); }
    }
  }

  /** The segment that `qs` begins with. */
  function Segment(qs: seq<Quad>): seq<Quad> {
    if qs == [] || !IsPure(qs[0]) then [] else [qs[0]] + Segment(qs[1..])
  }

  predicate SegmentsStand(qs: seq<Quad>) {
    CopiesStand(Segment(qs)) && (qs != [] ==> SegmentsStand(qs[1..]))
  }

  lemma {:induction false} SegmentIs(qs: seq<Quad>)
    ensures var n := |Segment(qs)|;
            n <= |qs| && Segment(qs) == qs[..n] && AllPure(qs[..n]) && (n < |qs| ==> !IsPure(qs[n]))
  {
    if qs != [] && IsPure(qs[0]) {
      SegmentIs(qs[1..]);
      var n := |Segment(qs[1..])|;
      assert qs[..n + 1] == [qs[0]] + qs[1..][..n];
    }
  }

  /** A copy at `i` and an assignment at `j` to the same variable, with nothing but copies and arithmetic from one to the other. */
  predicate AssignsCopied(qs: seq<Quad>, i: nat, j: nat) {
    i < j < |qs| && qs[i].op.Copy? && qs[i].result == qs[j].result && AllPure(qs[i..j + 1])
  }

  lemma PureWithin(qs: seq<Quad>, j: nat, n: nat)
    requires j < |qs| && AllPure(qs[0..j + 1]) && n <= |qs| && (n < |qs| ==> !IsPure(qs[n]))
    ensures j < n
  {
    var part := qs[0..j + 1];
    assert forall k :: 0 <= k < |part| ==> part[k] == qs[k];
  }

  lemma StandHere(qs: seq<Quad>)
    requires CopiesStand(Segment(qs))
    ensures forall j: nat :: !AssignsCopied(qs, 0, j)
  {
    var n := |Segment(qs)|;
    SegmentIs(qs);
    forall j: nat ensures !AssignsCopied(qs, 0, j) {
      if 0 < j < |qs| && AllPure(qs[0..j + 1]) {
        PureWithin(qs, j, n);
        assert Segment(qs)[0] == qs[0] && Segment(qs)[j] == qs[j];
      }
    }
  }

  lemma StandsNot(qs: seq<Quad>) returns (i: nat, j: nat)
    requires !CopiesStand(Segment(qs))
    ensures AssignsCopied(qs, i, j)
  {
    SegmentIs(qs);
    i, j :| 0 <= i < j < |Segment(qs)| && Segment(qs)[i].op.Copy? && Segment(qs)[i].result == Segment(qs)[j].result;
    assert qs[i] == Segment(qs)[i] && qs[j] == Segment(qs)[j];
    var part := qs[i..j + 1];
    forall k | 0 <= k < |part| ensures IsPure(part[k]) { assert part[k] == qs[..|Segment(qs)|][i + k]; }
  }

  lemma AssignsLater(qs: seq<Quad>, i: nat, j: nat)
    requires qs != []
    ensures AssignsCopied(qs, i + 1, j + 1) <==> AssignsCopied(qs[1..], i, j)
  {
    if i < j < |qs[1..]| { assert qs[1..][i..j + 1] == qs[i + 1..j + 2]; }
  }

  /** Segments stand if and only if no variable that was assigned by a copy is assigned again in the same segment. */
  lemma {:induction false} SegmentsStandIff(qs: seq<Quad>)
    ensures SegmentsStand(qs) <==> forall i: nat, j: nat :: !AssignsCopied(qs, i, j)
  {
    if qs != [] {
      SegmentsStandIff(qs[1..]);
      if SegmentsStand(qs) {
        StandHere(qs);
        forall i: nat, j: nat ensures !AssignsCopied(qs, i, j) {
          if i > 0 && j > 0 { AssignsLater(qs, i - 1, j - 1); }
        }
      } else if !CopiesStand(Segment(qs)) {
        var i, j := StandsNot(qs);
      } else {
        var i: nat, j: nat :| AssignsCopied(qs[1..], i, j);
        AssignsLater(qs, i, j);
        assert AssignsCopied(qs, i + 1, j + 1);
      }
    }
  }

  lemma {:induction false} SegmentPure(qs: seq<Quad>)
    ensures AllPure(Segment(qs))
  {
    if qs != [] && IsPure(qs[0]) { SegmentPure(qs[1..]); }
  }

  /** It is enough that within a segment no variable that was assigned by a copy is assigned again. */
  lemma {:induction false} StandingIsClean(cfg: Config, g: Graph, qs: seq<Quad>)
    requires Valid(g) && Room(cfg, g, qs) && Clean(g) && SegmentsStand(qs) && LeavesStand(g, Segment(qs))
    ensures AllClean(cfg, g, qs)
    decreases |qs|
  {
    if qs != [] {
      if IsPure(qs[0]) {
        var f := ReadValue(cfg.addr, g, qs[0]);
        SegmentPure(qs);
        assert Segment(qs)[1..] == Segment(qs[1..]);
        ReadStand(cfg.addr, g, Segment(qs));
        ReadValueValid(cfg.addr, g, qs[0]);
        ReadValueClean(cfg.addr, g, qs[0]);
        RebindClean(f.g, qs[0].result.v, f.i);
        StandingIsClean(cfg, ReadQuad(cfg.addr, g, qs[0]), qs[1..]);
      } else {
        StandingIsClean(cfg, EmptyGraph, qs[1..]);
      }
    }
  }

  /** Equal variables and effects, as far as the program's own variables go. */
  ghost predicate Alike(a: State, b: State, vars: Var) { a.trace == b.trace && SameBelow(a.env, b.env, vars) }

  lemma ExecAlike(m: Machine, q: Quad, a: State, b: State, vars: Var)
    requires QuadBelow(q, vars) && Alike(a, b, vars)
    ensures Alike(Exec(m, q, a), Exec(m, q, b), vars)
  {
    assert Eval(q.arg1, a.env) == Eval(q.arg1, b.env) && Eval(q.arg2, a.env) == Eval(q.arg2, b.env);
    assert Eval(q.result, a.env) == Eval(q.result, b.env);
    assert Trace(q, a) == Trace(q, b);
    assert Result(m, q, a) == Result(m, q, b);
    var a', b' := Exec(m, q, a), Exec(m, q, b);
    forall x: Var | x < vars ensures a'.env[x] == b'.env[x] {}
  }

  /** The state `now` that reading has reached, and the state `t` before the code of the segment. */
  ghost predicate Behind(m: Machine, g: Graph, before: State, now: State, t: State, vars: Var)
    requires Valid(g)
  {
    Tracks(m, g, before.env, now.env) && now.trace == before.trace && Alike(before, t, vars)
  }

  lemma FlushAlike(m: Machine, cfg: Config, g: Graph, before: State, now: State, t: State, vars: Var, nextVar: Var)
    requires Valid(g) && OrderOk(cfg) && IsOrder(g, cfg.order(g)) && Commutes(m) && Agrees(m, cfg.fold)
    requires LabelsMatch(cfg.fold, g, cfg.order(g), vars) && NodesBelow(g.nodes, vars) && vars <= nextVar
    requires Behind(m, g, before, now, t, vars)
    ensures Alike(now, RunBlock(m, Flush(cfg, g, nextVar).code, t), vars) && nextVar <= Flush(cfg, g, nextVar).nextVar
  {
    forall i | 0 <= i < |g.nodes| ensures AllBelow(g.nodes[i].vars, nextVar) { assert NodeBelow(g.nodes[i], vars); }
    EmissionRuns(m, cfg.fold, g, cfg.order(g), t, nextVar);
    EmissionFollows(cfg.fold, g, cfg.order(g), nextVar);
    var copies := CopyOrder(g, cfg.order(g));
    forall x: Var | x < vars ensures now.env[x] == RunBlock(m, Flush(cfg, g, nextVar).code, t).env[x] {
      assert LabelMatches(cfg.fold, g, copies, x);
      MatchShows(m, cfg.fold, g, copies, x, t.env);
      if x in g.at { DenoteSame(m, g.nodes, g.at[x], before.env, t.env, vars); }
    }
  }

  lemma ReadPast(m: Machine, cfg: Config, g: Graph, q: Quad, before: State, now: State, t: State, vars: Var)
    requires Commutes(m) && Valid(g) && IsPure(q) && |g.nodes| + 2 <= MaxNodes
    requires NodesBelow(g.nodes, vars) && QuadBelow(q, vars) && Behind(m, g, before, now, t, vars)
    ensures Valid(ReadQuad(cfg.addr, g, q)) && NodesBelow(ReadQuad(cfg.addr, g, q).nodes, vars)
    ensures Behind(m, ReadQuad(cfg.addr, g, q), before, Exec(m, q, now), t, vars)
  {
    ReadQuadTracks(m, cfg.addr, g, q, before.env, now);
    ReadQuadBelow(cfg.addr, g, q, vars);
  }

  /** At the end of a segment, reading starts again behind the quadruple that ends it. */
  lemma FlushPast(m: Machine, cfg: Config, g: Graph, q: Quad, before: State, now: State, t: State, vars: Var, nextVar: Var)
    requires Valid(g) && OrderOk(cfg) && IsOrder(g, cfg.order(g)) && Commutes(m) && Agrees(m, cfg.fold)
    requires LabelsMatch(cfg.fold, g, cfg.order(g), vars) && NodesBelow(g.nodes, vars) && vars <= nextVar
    requires Behind(m, g, before, now, t, vars) && QuadBelow(q, vars)
    ensures var out := Flush(cfg, g, nextVar);
            var now' := Exec(m, q, now);
            && nextVar <= out.nextVar && Valid(EmptyGraph)
            && Behind(m, EmptyGraph, now', now', Exec(m, q, RunBlock(m, out.code, t)), vars)
  {
    FlushAlike(m, cfg, g, before, now, t, vars, nextVar);
    ExecAlike(m, q, now, RunBlock(m, Flush(cfg, g, nextVar).code, t), vars);
    EmptyValid(m, cfg.addr, Exec(m, q, now).env);
  }

  lemma RunThrough(m: Machine, a: seq<Quad>, q: Quad, b: seq<Quad>, s: State)
    ensures RunBlock(m, a + [q] + b, s) == RunBlock(m, b, Exec(m, q, RunBlock(m, a, s)))
  {
    RunBlockAppend(m, a + [q], b, s);
    RunBlockAppend(m, a, [q], s);
    assert [q][1..] == [];
  }

  /** Rewriting a block preserves its effects and every variable of the program. */
  lemma {:induction false} RewritePreserves(m: Machine, cfg: Config, g: Graph, qs: seq<Quad>, nextVar: Var,
                                            before: State, now: State, t: State, vars: Var)
    requires Commutes(m) && Agrees(m, cfg.fold) && OrderOk(cfg)
    requires Valid(g) && Room(cfg, g, qs) && AllMatch(cfg, g, qs, vars)
    requires NodesBelow(g.nodes, vars) && AllQuadsBelow(qs, vars) && vars <= nextVar
    requires Behind(m, g, before, now, t, vars)
    ensures Alike(RunBlock(m, qs, now), RunBlock(m, Rewrite(cfg, g, qs, nextVar).code, t), vars)
    decreases |qs|, 1
  {
    if qs == [] {
      FlushAlike(m, cfg, g, before, now, t, vars, nextVar);
    } else if IsPure(qs[0]) {
      PurePreserves(m, cfg, g, qs, nextVar, before, now, t, vars);
    } else {
      FlushPreserves(m, cfg, g, qs, nextVar, before, now, t, vars);
    }
  }

  lemma PurePreserves(m: Machine, cfg: Config, g: Graph, qs: seq<Quad>, nextVar: Var,
                      before: State, now: State, t: State, vars: Var)
    requires Commutes(m) && Agrees(m, cfg.fold) && OrderOk(cfg) && qs != [] && IsPure(qs[0])
    requires Valid(g) && Room(cfg, g, qs) && AllMatch(cfg, g, qs, vars)
    requires NodesBelow(g.nodes, vars) && AllQuadsBelow(qs, vars) && vars <= nextVar
    requires Behind(m, g, before, now, t, vars)
    ensures Alike(RunBlock(m, qs, now), RunBlock(m, Rewrite(cfg, g, qs, nextVar).code, t), vars)
    decreases |qs|, 0
  {
    ReadPast(m, cfg, g, qs[0], before, now, t, vars);
    RewritePreserves(m, cfg, ReadQuad(cfg.addr, g, qs[0]), qs[1..], nextVar, before, Exec(m, qs[0], now), t, vars);
  }

  lemma FlushPreserves(m: Machine, cfg: Config, g: Graph, qs: seq<Quad>, nextVar: Var,
                       before: State, now: State, t: State, vars: Var)
    requires Commutes(m) && Agrees(m, cfg.fold) && OrderOk(cfg) && qs != [] && !IsPure(qs[0])
    requires Valid(g) && Room(cfg, g, qs) && AllMatch(cfg, g, qs, vars)
    requires NodesBelow(g.nodes, vars) && AllQuadsBelow(qs, vars) && vars <= nextVar
    requires Behind(m, g, before, now, t, vars)
    ensures Alike(RunBlock(m, qs, now), RunBlock(m, Rewrite(cfg, g, qs, nextVar).code, t), vars)
    decreases |qs|, 0
  {
    var out := Flush(cfg, g, nextVar);
    var rest := Rewrite(cfg, EmptyGraph, qs[1..], out.nextVar).code;
    var now', t' := Exec(m, qs[0], now), Exec(m, qs[0], RunBlock(m, out.code, t));
    FlushPast(m, cfg, g, qs[0], before, now, t, vars, nextVar);
    RewritePreserves(m, cfg, EmptyGraph, qs[1..], out.nextVar, now', now', t', vars);
    RunThrough(m, out.code, qs[0], rest, t);
  }

  /** The whole of a block, if labels match at the end of every segment. */
  lemma BlockPreserved(m: Machine, cfg: Config, qs: seq<Quad>, s: State, vars: Var)
    requires Commutes(m) && Agrees(m, cfg.fold) && OrderOk(cfg) && AllQuadsBelow(qs, vars)
    requires Valid(EmptyGraph) && Room(cfg, EmptyGraph, qs) && AllMatch(cfg, EmptyGraph, qs, vars)
    ensures Alike(RunBlock(m, qs, s), RunBlock(m, Rewrite(cfg, EmptyGraph, qs, vars).code, s), vars)
  {
    EmptyValid(m, cfg.addr, s.env);
    RewritePreserves(m, cfg, EmptyGraph, qs, vars, s, s, s, vars);
  }

  /** Labels match if no segment assigns a copied variable again or divides a constant by zero. */
  lemma StandingMatches(cfg: Config, qs: seq<Quad>, vars: Var)
    requires OrderOk(cfg) && Valid(EmptyGraph) && Room(cfg, EmptyGraph, qs)
    requires SegmentsStand(qs) && NoZeroDivisions(cfg, EmptyGraph, qs)
    ensures AllMatch(cfg, EmptyGraph, qs, vars)
  {
    StandingIsClean(cfg, EmptyGraph, qs);
    CleanAllMatch(cfg, EmptyGraph, qs, vars);
  }

  // ---------- segments that are not preserved ----------

  /** A variable that is still on the list of another variable's leaf ends with that variable's value. */
  lemma StaleInputWins(m: Machine, fold: Folding, g: Graph, order: seq<Id>, i: Id, a: Var, x: Var, s: State, vars: Var)
    requires Valid(g) && Agrees(m, fold) && ListsBelow(g.nodes, vars) && IsOrder(g, order) && x < vars
    requires g.inputs != [] && i == g.inputs[|g.inputs| - 1] && IsLeafOf(g.nodes, i, VarArg(a)) && Sets(g.nodes, i, x)
    ensures RunBlock(m, Emission(fold, g, order, vars).code, s).env[x] == s.env[a]
  {
    EmissionRuns(m, fold, g, order, s, vars);
    EmissionEnds(fold, g, order, vars);
    var out := Emission(fold, g, order, vars);
    LastUpdateWins(m, fold, g.nodes, out.updates, i, x, s.env);
  }

  lemma LastUpdateWins(m: Machine, fold: Folding, nodes: seq<Node>, updates: seq<Id>, i: Id, x: Var, env: Env)
    requires Shape(nodes) && updates != [] && updates[|updates| - 1] == i && Sets(nodes, i, x) && nodes[i].Leaf?
    ensures FinalValue(m, fold, nodes, updates, x, env) == Eval(nodes[i].arg, env)
  {}

  lemma EmissionEnds(fold: Folding, g: Graph, order: seq<Id>, vars: Var)
    requires Valid(g) && (forall k :: 0 <= k < |order| ==> order[k] < |g.nodes|) && g.inputs != []
    ensures var us := Emission(fold, g, order, vars).updates;
            us != [] && us[|us| - 1] == g.inputs[|g.inputs| - 1]
  {
    InputsListed(g);
    GenInputsResults(g.nodes, Start(vars), g.inputs);
    UpdateAllFollows(g.nodes, GenAll(fold, g.nodes, GenInputs(g.nodes, Start(vars), g.inputs), order), g.inputs);
  }

  const CopyThenConstant := [Quad(Copy, VarArg(1), VarArg(0), NoArg), Quad(Copy, VarArg(1), IntArg(3), NoArg)]

  const CopyThenConstantGraph := Graph([Leaf(VarArg(0), [1, 0]), Leaf(IntArg(3), [1])], map[0 := 0, 1 := 1], map[3 := 1], map[], [0], map[])

  const AfterCopy := Graph([Leaf(VarArg(0), [1, 0])], map[0 := 0, 1 := 0], map[], map[], [0], map[])

  lemma FirstRead(addr: Id -> int)
    ensures Valid(EmptyGraph) && ReadQuad(addr, EmptyGraph, CopyThenConstant[0]) == AfterCopy
  {
    var g := Graph([Leaf(VarArg(0), [0])], map[0 := 0], map[], map[], [0], map[]);
    assert GetNode(EmptyGraph, VarArg(0)) == Found(g, 0);
    var nodes := Rebind(g, 1, 0).nodes;
    assert |nodes| == 1 && nodes[0] == Leaf(VarArg(0), [1] + [0]) && [1] + [0] == [1, 0];
    assert nodes == AfterCopy.nodes;
    assert Rebind(g, 1, 0).at == AfterCopy.at;
  }

  lemma SecondRead(addr: Id -> int)
    requires Valid(AfterCopy)
    ensures ReadQuad(addr, AfterCopy, CopyThenConstant[1]) == CopyThenConstantGraph
  {
    var g := Graph([Leaf(VarArg(0), [1, 0]), Leaf(IntArg(3), [])], map[0 := 0, 1 := 0], map[3 := 1], map[], [0], map[]);
    assert AfterCopy.ints == map[] && map[][3 := 1] == map[3 := 1];
    assert GetNode(AfterCopy, IntArg(3)) == Found(g, 1);
    var nodes := Rebind(g, 1, 1).nodes;
    assert RemoveVar(g.nodes, 0, 1) == g.nodes;
    assert |nodes| == 2 && nodes[0] == g.nodes[0] && nodes[1] == Leaf(IntArg(3), [1] + []) && [1] + [] == [1];
    assert nodes == CopyThenConstantGraph.nodes;
    assert Rebind(g, 1, 1).at == CopyThenConstantGraph.at;
  }

  /** The quadruple leads from one graph to the next. */
  ghost predicate Step(addr: Id -> int, g: Graph, q: Quad, g': Graph) {
    Valid(g) ==> IsPure(q) && |g.nodes| + 2 <= MaxNodes && ReadQuad(addr, g, q) == g'
  }

  ghost predicate StepAt(addr: Id -> int, qs: seq<Quad>, gs: seq<Graph>, k: nat)
    requires k < |qs| < |gs|
  {
    Step(addr, gs[k], qs[k], gs[k + 1])
  }

  lemma StepValid(addr: Id -> int, g: Graph, q: Quad, g': Graph)
    requires Valid(g) && Step(addr, g, q, g')
    ensures Valid(g')
  {
    ReadQuadValid(addr, g, q);
  }

  lemma StepReads(addr: Id -> int, g: Graph, qs: seq<Quad>, g': Graph)
    requires qs != [] && Valid(g) && Step(addr, g, qs[0], g') && Valid(g') && AllPure(qs[1..]) && Fits(addr, g', qs[1..])
    ensures AllPure(qs) && Fits(addr, g, qs) && ReadAll(addr, g, qs) == ReadAll(addr, g', qs[1..])
  {}

  lemma {:induction false} ReadFrom(addr: Id -> int, qs: seq<Quad>, gs: seq<Graph>, k: nat)
    requires k <= |qs| < |gs| && Valid(gs[k]) && forall i :: k <= i < |qs| ==> StepAt(addr, qs, gs, i)
    ensures Valid(gs[|qs|]) && AllPure(qs[k..]) && Fits(addr, gs[k], qs[k..]) && ReadAll(addr, gs[k], qs[k..]) == gs[|qs|]
    decreases |qs| - k
  {
    if k < |qs| {
      var rest := qs[k..];
      assert StepAt(addr, qs, gs, k) && rest[1..] == qs[k + 1..];
      StepValid(addr, gs[k], qs[k], gs[k + 1]);
      ReadFrom(addr, qs, gs, k + 1);
      StepReads(addr, gs[k], rest, gs[k + 1]);
    }
  }

  /** Reading a segment graph by graph. */
  lemma ReadGraphs(addr: Id -> int, qs: seq<Quad>, gs: seq<Graph>)
    requires |qs| < |gs| && gs[0] == EmptyGraph && forall i :: 0 <= i < |qs| ==> StepAt(addr, qs, gs, i)
    ensures Valid(EmptyGraph) && Valid(gs[|qs|])
    ensures AllPure(qs) && Fits(addr, EmptyGraph, qs) && ReadAll(addr, EmptyGraph, qs) == gs[|qs|]
  {
    ReadFrom(addr, qs, gs, 0);
    assert qs[0..] == qs;
  }

  lemma CopyThenConstantRead(addr: Id -> int)
    ensures Valid(EmptyGraph) && AllPure(CopyThenConstant) && Fits(addr, EmptyGraph, CopyThenConstant)
    ensures ReadAll(addr, EmptyGraph, CopyThenConstant) == CopyThenConstantGraph && Valid(CopyThenConstantGraph)
  {
    var gs := [EmptyGraph, AfterCopy, CopyThenConstantGraph];
    forall i | 0 <= i < 2 ensures StepAt(addr, CopyThenConstant, gs, i) {
      if i == 0 { FirstRead(addr); } else if Valid(AfterCopy) { SecondRead(addr); }
    }
    ReadGraphs(addr, CopyThenConstant, gs);
  }

  /** `x := a; x := 3` leaves `a` in `x`. */
  lemma CopyThenConstantLost(m: Machine, fold: Folding, addr: Id -> int, s: State)
    requires Agrees(m, fold)
    ensures Valid(EmptyGraph) && AllPure(CopyThenConstant) && Fits(addr, EmptyGraph, CopyThenConstant)
    ensures var g := ReadAll(addr, EmptyGraph, CopyThenConstant);
            && IsOrder(g, [1])
            && RunBlock(m, Emission(fold, g, [1], 2).code, s).env[1] == s.env[0]
            && RunBlock(m, CopyThenConstant, s).env[1] == IntV(3)
  {
    CopyThenConstantRead(addr);
    CopyThenConstantEmitted(m, fold, s);
    CopyThenConstantRun(m, s);
  }

  lemma CopyThenConstantEmitted(m: Machine, fold: Folding, s: State)
    requires Agrees(m, fold) && Valid(CopyThenConstantGraph)
    ensures IsOrder(CopyThenConstantGraph, [1])
    ensures RunBlock(m, Emission(fold, CopyThenConstantGraph, [1], 2).code, s).env[1] == s.env[0]
  {
    CopyThenConstantIs();
    StaleInputWins(m, fold, CopyThenConstantGraph, [1], 0, 0, 1, s, 2);
  }

  lemma CopyThenConstantIs()
    ensures var g := CopyThenConstantGraph;
            && IsOrder(g, [1]) && g.nodes[1].Leaf? && ListsBelow(g.nodes, 2) && IsLeafOf(g.nodes, 0, VarArg(0))
            && Sets(g.nodes, 0, 1) && g.inputs == [0]
  {}

  lemma CopyThenConstantRun(m: Machine, s: State)
    ensures RunBlock(m, CopyThenConstant, s).env[1] == IntV(3)
  {
    var q0, q1 := CopyThenConstant[0], CopyThenConstant[1];
    assert CopyThenConstant[1..] == [q1] && [q1][1..] == [];
    ExecPure(m, q1, Exec(m, q0, s));
    assert RunBlock(m, CopyThenConstant, s) == RunBlock(m, [q1], Exec(m, q0, s)) == Exec(m, q1, Exec(m, q0, s));
  }
}
