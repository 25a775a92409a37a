/**
  What code from the graph looks like: every node is computed by one quadruple into a variable
  of its own, no operation is done twice on the same operands, and none on two constants.
  */
module DagCode {
  import opened Quadr
  import opened Dag
  import opened DagEmit
  import opened DagOrder
  import opened DagBlock

  predicate IsConst(a: Arg) { a.IntArg? || a.DoubleArg? }

  /** Both operands of an operator are known to be integers, or doubles. */
  ghost predicate KnownOperands(fold: Folding, nodes: seq<Node>, i: Id)
    requires Shape(nodes) && i < |nodes| && nodes[i].Apply?
  {
    assert NodeShape(nodes[i], i);
    var a, b := FoldedTo(fold, nodes, nodes[i].left), FoldedTo(fold, nodes, nodes[i].right);
    (a.IntArg? && b.IntArg?) || (a.DoubleArg? && b.DoubleArg?)
  }

  /** `q` computes node `i` from its operands, or copies the constant it is folded to. */
  ghost predicate ComputesNode(fold: Folding, nodes: seq<Node>, results: map<Id, Var>, i: Id, q: Quad)
    requires Shape(nodes)
  {
    && i < |nodes| && i in results && q.result == VarArg(results[i])
    && match nodes[i]
       case Leaf(a, _) => q.op.Copy? && q.arg1 == a && q.arg2.NoArg?
       case Apply(op, l, r, _, _) =>
         if KnownOperands(fold, nodes, i) then q.op.Copy? && q.arg1 == FoldedTo(fold, nodes, i) && q.arg2.NoArg?
         else l in results && r in results && q.op == op && q.arg1 == VarArg(results[l]) && q.arg2 == VarArg(results[r])
  }

  /** `q` copies node `i` to a variable of its list. */
  predicate CopiesNode(nodes: seq<Node>, results: map<Id, Var>, i: Id, q: Quad) {
    && i < |nodes| && i in results && q.op.Copy? && q.arg1 == VarArg(results[i]) && q.arg2.NoArg?
    && q.result.VarArg? && q.result.v in nodes[i].vars && OwnVar(nodes[i]) != Some(q.result.v)
  }

  ghost predicate Explained(fold: Folding, nodes: seq<Node>, results: map<Id, Var>, q: Quad)
    requires Shape(nodes)
  {
    (exists i :: ComputesNode(fold, nodes, results, i, q)) || (exists i :: CopiesNode(nodes, results, i, q))
  }

  ghost predicate IsComputed(fold: Folding, nodes: seq<Node>, out: Out, i: Id)
    requires Shape(nodes)
  {
    exists k :: 0 <= k < |out.code| && ComputesNode(fold, nodes, out.results, i, out.code[k])
  }

  /** Variables from `vars` on are assigned at most once, and below `next`. */
  ghost predicate Single(code: seq<Quad>, vars: Var, next: Var) {
    && (forall k :: 0 <= k < |code| ==> code[k].result.VarArg? && code[k].result.v < next)
    && forall j, k :: 0 <= j < k < |code| && code[j].result == code[k].result ==> code[k].result.v < vars
  }

  /** What holds of the code at any time. */
  ghost predicate CodeOk(fold: Folding, nodes: seq<Node>, out: Out, vars: Var)
    requires Shape(nodes)
  {
    && vars <= out.nextVar && Apart(out) && Single(out.code, vars, out.nextVar) && Reports(fold, nodes, out)
    && (forall i :: i in out.results ==> vars <= out.results[i] && IsComputed(fold, nodes, out, i))
    && (forall k :: 0 <= k < |out.code| ==> Explained(fold, nodes, out.results, out.code[k]))
  }

  // ---------- steps ----------

  lemma ComputesLater(fold: Folding, nodes: seq<Node>, results: map<Id, Var>, results': map<Id, Var>, i: Id, q: Quad)
    requires Shape(nodes) && ComputesNode(fold, nodes, results, i, q)
    requires forall j :: j in results ==> j in results' && results'[j] == results[j]
    ensures ComputesNode(fold, nodes, results', i, q)
  {}

  lemma ExplainedLater(fold: Folding, nodes: seq<Node>, results: map<Id, Var>, results': map<Id, Var>, q: Quad)
    requires Shape(nodes) && Explained(fold, nodes, results, q)
    requires forall j :: j in results ==> j in results' && results'[j] == results[j]
    ensures Explained(fold, nodes, results', q)
  {
    if i :| ComputesNode(fold, nodes, results, i, q) {
      ComputesLater(fold, nodes, results, results', i, q);
    } else {
      var i :| CopiesNode(nodes, results, i, q);
      assert CopiesNode(nodes, results', i, q);
    }
  }

  /** One more node is computed, by one more quadruple. */
  lemma ResultCode(fold: Folding, nodes: seq<Node>, out: Out, out': Out, i: Id, q: Quad, vars: Var)
    requires Shape(nodes) && CodeOk(fold, nodes, out, vars) && Reports(fold, nodes, out') && i < |nodes| && i !in out.results
    requires out'.code == out.code + [q] && out'.results == out.results[i := out.nextVar] && out'.nextVar == out.nextVar + 1
    requires ComputesNode(fold, nodes, out'.results, i, q)
    ensures CodeOk(fold, nodes, out', vars)
  {
    ResultsComputed(fold, nodes, out, out', i, q, vars);
    ResultApart(out, out', i);
    ResultSingle(out.code, q, vars, out.nextVar);
    ResultExplained(fold, nodes, out, out', i, q);
  }

  lemma ResultExplained(fold: Folding, nodes: seq<Node>, out: Out, out': Out, i: Id, q: Quad)
    requires Shape(nodes) && forall k :: 0 <= k < |out.code| ==> Explained(fold, nodes, out.results, out.code[k])
    requires out'.code == out.code + [q] && out'.results == out.results[i := out.nextVar] && i !in out.results
    requires ComputesNode(fold, nodes, out'.results, i, q)
    ensures forall k :: 0 <= k < |out'.code| ==> Explained(fold, nodes, out'.results, out'.code[k])
  {
    forall k | 0 <= k < |out'.code| ensures Explained(fold, nodes, out'.results, out'.code[k]) {
      if k < |out.code| { ExplainedLater(fold, nodes, out.results, out'.results, out.code[k]); }
    }
  }

  lemma ResultApart(out: Out, out': Out, i: Id)
    requires Apart(out) && out'.results == out.results[i := out.nextVar] && out'.nextVar == out.nextVar + 1
    ensures Apart(out')
  {}

  lemma ResultSingle(code: seq<Quad>, q: Quad, vars: Var, next: Var)
    requires Single(code, vars, next) && q.result == VarArg(next)
    ensures Single(code + [q], vars, next + 1)
  {}

  lemma ResultsComputed(fold: Folding, nodes: seq<Node>, out: Out, out': Out, i: Id, q: Quad, vars: Var)
    requires Shape(nodes) && i < |nodes| && i !in out.results && vars <= out.nextVar
    requires forall j :: j in out.results ==> vars <= out.results[j] && IsComputed(fold, nodes, out, j)
    requires out'.code == out.code + [q] && out'.results == out.results[i := out.nextVar]
    requires ComputesNode(fold, nodes, out'.results, i, q)
    ensures forall j :: j in out'.results ==> vars <= out'.results[j] && IsComputed(fold, nodes, out', j)
  {
    forall j | j in out'.results ensures vars <= out'.results[j] && IsComputed(fold, nodes, out', j) {
      if j == i {
        assert out'.code[|out.code|] == q;
      } else {
        var k :| 0 <= k < |out.code| && ComputesNode(fold, nodes, out.results, j, out.code[k]);
        ComputesLater(fold, nodes, out.results, out'.results, j, out.code[k]);
        assert out'.code[k] == out.code[k];
      }
    }
  }

  lemma LeafCodeOk(fold: Folding, nodes: seq<Node>, out: Out, i: Id, vars: Var)
    requires Shape(nodes) && CodeOk(fold, nodes, out, vars) && i < |nodes| && i !in out.results && nodes[i].Leaf?
    ensures CodeOk(fold, nodes, GenLeaf(nodes, out, i), vars)
  {
    LeafReports(fold, nodes, out, i);
    ResultCode(fold, nodes, out, GenLeaf(nodes, out, i), i, Quad(Copy, VarArg(out.nextVar), nodes[i].arg, NoArg), vars);
  }

  lemma ComputeCodeOk(fold: Folding, nodes: seq<Node>, out: Out, i: Id, vars: Var)
    requires Shape(nodes) && CodeOk(fold, nodes, out, vars) && i < |nodes| && i !in out.results && nodes[i].Apply?
    requires nodes[i].left in out.results && nodes[i].right in out.results
    ensures CodeOk(fold, nodes, Compute(fold, nodes, out, i), vars)
  {
    var out' := Compute(fold, nodes, out, i);
    ComputeReports(fold, nodes, out, i);
    var q := ComputeQuad(fold, nodes, out, i);
    ResultCode(fold, nodes, out, out', i, q, vars);
  }

  lemma ComputeQuad(fold: Folding, nodes: seq<Node>, out: Out, i: Id) returns (q: Quad)
    requires Shape(nodes) && Reports(fold, nodes, out) && i < |nodes| && nodes[i].Apply?
    requires nodes[i].left < |nodes| && nodes[i].right < |nodes|
    requires i !in out.results && nodes[i].left in out.results && nodes[i].right in out.results
    ensures var out' := Compute(fold, nodes, out, i);
            && out'.code == out.code + [q] && out'.results == out.results[i := out.nextVar] && out'.nextVar == out.nextVar + 1
            && ComputesNode(fold, nodes, out'.results, i, q)
  {
    assert NodeShape(nodes[i], i);
    q := Compute(fold, nodes, out, i).code[|out.code|];
  }

  lemma {:induction false} CopiesListed(vs: seq<Var>, own: Option<Var>, r: Var, k: nat)
    requires k < |Copies(vs, own, r)|
    ensures var q := Copies(vs, own, r)[k];
            && q.op.Copy? && q.arg1 == VarArg(r) && q.arg2.NoArg? && q.result.VarArg?
            && q.result.v in vs && own != Some(q.result.v)
  {
    if own == Some(vs[0]) {
      CopiesListed(vs[1..], own, r, k);
    } else if k > 0 {
      CopiesListed(vs[1..], own, r, k - 1);
    }
  }

  lemma UpdateCodeOk(fold: Folding, nodes: seq<Node>, out: Out, i: Id, vars: Var)
    requires Shape(nodes) && CodeOk(fold, nodes, out, vars) && i < |nodes| && i in out.results && AllBelow(nodes[i].vars, vars)
    ensures CodeOk(fold, nodes, Update(nodes, out, i), vars)
  {
    var out' := Update(nodes, out, i);
    var cs := Copies(nodes[i].vars, OwnVar(nodes[i]), out.results[i]);
    UpdateReports(fold, nodes, out, i);
    forall k | 0 <= k < |cs| ensures CopiesNode(nodes, out.results, i, cs[k]) && cs[k].result.v < vars {
      CopiesListed(nodes[i].vars, OwnVar(nodes[i]), out.results[i], k);
    }
    MoreSingle(out.code, cs, vars, out.nextVar);
    forall k | 0 <= k < |out'.code| ensures Explained(fold, nodes, out'.results, out'.code[k]) {
      if k >= |out.code| { assert CopiesNode(nodes, out.results, i, cs[k - |out.code|]); }
    }
    forall j | j in out.results ensures IsComputed(fold, nodes, out', j) {
      var k :| 0 <= k < |out.code| && ComputesNode(fold, nodes, out.results, j, out.code[k]);
      assert out'.code[k] == out.code[k];
    }
  }

  lemma MoreSingle(code: seq<Quad>, cs: seq<Quad>, vars: Var, next: Var)
    requires Single(code, vars, next) && vars <= next && forall k :: 0 <= k < |cs| ==> cs[k].result.VarArg? && cs[k].result.v < vars
    ensures Single(code + cs, vars, next)
  {}

  // ---------- a whole graph ----------

  lemma {:induction false} GenNodeCode(fold: Folding, nodes: seq<Node>, out: Out, i: Id, vars: Var)
    requires Shape(nodes) && ListsBelow(nodes, vars) && i < |nodes| && CodeOk(fold, nodes, out, vars)
    ensures CodeOk(fold, nodes, GenNode(fold, nodes, out, i), vars)
    decreases i
  {
    assert NodeShape(nodes[i], i);
    if i !in out.results {
      if nodes[i].Leaf? {
        LeafCodeOk(fold, nodes, out, i, vars);
        UpdateCodeOk(fold, nodes, GenLeaf(nodes, out, i), i, vars);
      } else {
        var o1 := GenNode(fold, nodes, out, nodes[i].left);
        var o2 := GenNode(fold, nodes, o1, nodes[i].right);
        GenNodeCode(fold, nodes, out, nodes[i].left, vars);
        GenNodeCode(fold, nodes, o1, nodes[i].right, vars);
        GenNodeReports(fold, nodes, out, nodes[i].left);
        GenNodeReports(fold, nodes, o1, nodes[i].right);
        ComputeCodeOk(fold, nodes, o2, i, vars);
        UpdateCodeOk(fold, nodes, Compute(fold, nodes, o2, i), i, vars);
      }
    }
  }

  lemma {:induction false} GenAllCode(fold: Folding, nodes: seq<Node>, out: Out, ids: seq<Id>, vars: Var)
    requires Shape(nodes) && ListsBelow(nodes, vars) && CodeOk(fold, nodes, out, vars)
    requires forall k :: 0 <= k < |ids| ==> ids[k] < |nodes|
    ensures CodeOk(fold, nodes, GenAll(fold, nodes, out, ids), vars)
    decreases |ids|
  {
    if ids != [] {
      GenNodeCode(fold, nodes, out, ids[0], vars);
      GenAllCode(fold, nodes, GenNode(fold, nodes, out, ids[0]), ids[1..], vars);
    }
  }

  lemma {:induction false} UpdateAllCode(fold: Folding, nodes: seq<Node>, out: Out, ids: seq<Id>, vars: Var)
    requires Shape(nodes) && ListsBelow(nodes, vars) && CodeOk(fold, nodes, out, vars)
    requires forall k :: 0 <= k < |ids| ==> ids[k] < |nodes| && ids[k] in out.results
    ensures CodeOk(fold, nodes, UpdateAll(nodes, out, ids), vars) && UpdateAll(nodes, out, ids).results == out.results
    decreases |ids|
  {
    if ids != [] {
      UpdateCodeOk(fold, nodes, out, ids[0], vars);
      UpdateAllCode(fold, nodes, Update(nodes, out, ids[0]), ids[1..], vars);
    }
  }

  lemma {:induction false} GenInputsCode(fold: Folding, nodes: seq<Node>, out: Out, ids: seq<Id>, vars: Var)
    requires Shape(nodes) && CodeOk(fold, nodes, out, vars) && forall k :: 0 <= k < |ids| ==> ids[k] < |nodes| && nodes[ids[k]].Leaf?
    requires forall j, k :: 0 <= j < k < |ids| ==> ids[j] != ids[k]
    requires forall k :: 0 <= k < |ids| ==> ids[k] !in out.results
    ensures CodeOk(fold, nodes, GenInputs(nodes, out, ids), vars)
    decreases |ids|
  {
    if ids != [] {
      LeafCodeOk(fold, nodes, out, ids[0], vars);
      GenInputsCode(fold, nodes, GenLeaf(nodes, out, ids[0]), ids[1..], vars);
    }
  }

  /**
    Every node is computed, by one quadruple, into a variable of its own that is assigned nowhere
    else; all other quadruples copy a node to a variable of its list.
    */
  lemma EmissionCode(fold: Folding, g: Graph, order: seq<Id>, vars: Var)
    requires Valid(g) && ListsBelow(g.nodes, vars) && IsOrder(g, order)
    ensures var out := Emission(fold, g, order, vars);
            CodeOk(fold, g.nodes, out, vars) && forall i: Id :: i in out.results <==> i < |g.nodes|
  {
    var o1 := EmissionStarts(fold, g, vars);
    var o2 := GenAll(fold, g.nodes, o1, order);
    GenAllCode(fold, g.nodes, o1, order, vars);
    UpdateAllCode(fold, g.nodes, o2, g.inputs, vars);
    AllComputed(fold, g, order, vars);
  }

  lemma EmissionStarts(fold: Folding, g: Graph, vars: Var) returns (o1: Out)
    requires Valid(g)
    ensures (forall k :: 0 <= k < |g.inputs| ==> g.inputs[k] < |g.nodes| && g.nodes[g.inputs[k]].Leaf?)
    ensures o1 == GenInputs(g.nodes, Start(vars), g.inputs) && CodeOk(fold, g.nodes, o1, vars)
    ensures forall k :: 0 <= k < |g.inputs| ==> g.inputs[k] in o1.results
  {
    InputsListed(g);
    o1 := GenInputs(g.nodes, Start(vars), g.inputs);
    GenInputsResults(g.nodes, Start(vars), g.inputs);
    GenInputsCode(fold, g.nodes, Start(vars), g.inputs, vars);
  }

  lemma AllComputed(fold: Folding, g: Graph, order: seq<Id>, vars: Var)
    requires Valid(g) && IsOrder(g, order)
    ensures forall i: Id :: i < |g.nodes| ==> i in Emission(fold, g, order, vars).results
  {
    InputsListed(g);
    var o1 := GenInputs(g.nodes, Start(vars), g.inputs);
    GenInputsFollows(g.nodes, Start(vars), g.inputs);
    GenInputsResults(g.nodes, Start(vars), g.inputs);
    InputsFollow(g, vars);
    var o2 := GenAll(fold, g.nodes, o1, order);
    GenAllFollowed(fold, g.nodes, o1, order);
    UpdateAllKeeps(g.nodes, o2, g.inputs);
    OthersUpdated(fold, g, order, o1);
  }

  lemma {:induction false} GenAllFollowed(fold: Folding, nodes: seq<Node>, out: Out, ids: seq<Id>)
    requires Shape(nodes) && Follows(nodes, out) && forall k :: 0 <= k < |ids| ==> ids[k] < |nodes|
    ensures Follows(nodes, GenAll(fold, nodes, out, ids))
    decreases |ids|
  {
    if ids != [] {
      GenNodeFollows(fold, nodes, out, ids[0]);
      GenAllFollowed(fold, nodes, GenNode(fold, nodes, out, ids[0]), ids[1..]);
    }
  }

  lemma {:induction false} UpdateAllKeeps(nodes: seq<Node>, out: Out, ids: seq<Id>)
    requires forall k :: 0 <= k < |ids| ==> ids[k] < |nodes| && ids[k] in out.results
    ensures UpdateAll(nodes, out, ids).results == out.results
    decreases |ids|
  {
    if ids != [] { UpdateAllKeeps(nodes, Update(nodes, out, ids[0]), ids[1..]); }
  }

  // ---------- what the graph is for ----------

  /** The two quadruples do the same operation on the same variables, in either order for addition and multiplication. */
  predicate SameOperation(q: Quad, q': Quad) {
    && q.op == q'.op && !q.op.Copy?
    && ((q.arg1 == q'.arg1 && q.arg2 == q'.arg2) || ((q.op.Add? || q.op.Mul?) && q.arg1 == q'.arg2 && q.arg2 == q'.arg1))
  }

  lemma SameNode(addr: Id -> int, g: Graph, i: Id, j: Id)
    requires Valid(g) && Ordered(addr, g.nodes) && Distinct(addr) && i < |g.nodes| && j < |g.nodes|
    requires g.nodes[i].Apply? && Applies(g.nodes, j, g.nodes[i].op, g.nodes[i].left, g.nodes[i].right)
    ensures i == j
  {
    assert NodeOrdered(addr, g.nodes[i]) && NodeOrdered(addr, g.nodes[j]);
    assert g.table[KeyOf(g.nodes[i])] == i && g.table[KeyOf(g.nodes[j])] == j;
  }

  /** An operation on new variables is the one that computes some node. */
  lemma OperationIs(fold: Folding, nodes: seq<Node>, out: Out, vars: Var, k: nat) returns (i: Id)
    requires Shape(nodes) && CodeOk(fold, nodes, out, vars) && k < |out.code| && !out.code[k].op.Copy?
    ensures i < |nodes| && nodes[i].Apply? && !KnownOperands(fold, nodes, i) && ComputesNode(fold, nodes, out.results, i, out.code[k])
  {
    assert Explained(fold, nodes, out.results, out.code[k]);
    i :| ComputesNode(fold, nodes, out.results, i, out.code[k]);
  }

  /** No operation is done twice. */
  lemma NothingTwice(fold: Folding, addr: Id -> int, g: Graph, order: seq<Id>, vars: Var, j: nat, k: nat)
    requires Valid(g) && ListsBelow(g.nodes, vars) && IsOrder(g, order) && Ordered(addr, g.nodes) && Distinct(addr)
    requires j < k < |Emission(fold, g, order, vars).code|
    ensures var code := Emission(fold, g, order, vars).code; !SameOperation(code[j], code[k])
  {
    EmissionCode(fold, g, order, vars);
    var out := Emission(fold, g, order, vars);
    if SameOperation(out.code[j], out.code[k]) {
      var a := OperationIs(fold, g.nodes, out, vars, j);
      var b := OperationIs(fold, g.nodes, out, vars, k);
      SameResults(g.nodes, out, a, b);
      SameNode(addr, g, a, b);
    }
  }

  /** Operations on the same variables are operations on the same nodes. */
  lemma SameResults(nodes: seq<Node>, out: Out, a: Id, b: Id)
    requires Apart(out) && a < |nodes| && b < |nodes| && nodes[a].Apply? && nodes[b].Apply? && nodes[a].op == nodes[b].op
    requires nodes[a].left in out.results && nodes[a].right in out.results && nodes[b].left in out.results && nodes[b].right in out.results
    requires var l, r, l', r' := out.results[nodes[a].left], out.results[nodes[a].right], out.results[nodes[b].left], out.results[nodes[b].right];
             (l == l' && r == r') || ((nodes[a].op.Add? || nodes[a].op.Mul?) && l == r' && r == l')
    ensures Applies(nodes, b, nodes[a].op, nodes[a].left, nodes[a].right)
  {}

  /**
    The code of a segment does no operation twice on the same operands, and no operation on operands
    that are known to be constants: those are copies of the constant.
    */
  lemma SegmentCode(fold: Folding, addr: Id -> int, qs: seq<Quad>, order: seq<Id>, vars: Var)
    requires AllPure(qs) && AllQuadsBelow(qs, vars) && Valid(EmptyGraph) && Fits(addr, EmptyGraph, qs) && Distinct(addr)
    requires IsOrder(ReadAll(addr, EmptyGraph, qs), order)
    ensures var out := Emission(fold, ReadAll(addr, EmptyGraph, qs), order, vars);
            && CodeOk(fold, ReadAll(addr, EmptyGraph, qs).nodes, out, vars)
            && forall j, k :: 0 <= j < k < |out.code| ==> !SameOperation(out.code[j], out.code[k])
  {
    var g := ReadAll(addr, EmptyGraph, qs);
    ReadAllOrdered(addr, EmptyGraph, qs);
    ReadAllBelow(addr, EmptyGraph, qs, vars);
    EmissionCode(fold, g, order, vars);
    var code := Emission(fold, g, order, vars).code;
    forall j, k | 0 <= j < k < |code| ensures !SameOperation(code[j], code[k]) {
      NothingTwice(fold, addr, g, order, vars, j, k);
    }
  }

  // ---------- segments of a block ----------

  /** Exactly the arithmetic of the intermediate code, and copies. */
  predicate Collected(q: Quad) {
    && (q.op == Copy || q.op == Add || q.op == Sub || q.op == Mul || q.op == Div || q.op == Mod)
    && q.result.VarArg? && (q.arg1.VarArg? || q.arg1.IntArg? || q.arg1.DoubleArg?)
    && (q.op == Copy || q.arg2.VarArg? || q.arg2.IntArg? || q.arg2.DoubleArg?)
  }

  /** The first `n` quadruples lead from `g` to `last`. */
  ghost predicate ReadsTo(addr: Id -> int, g: Graph, qs: seq<Quad>, n: nat, last: Graph)
    requires n <= |qs|
  {
    Valid(g) && Valid(last) && AllPure(qs[..n]) && Fits(addr, g, qs[..n]) && last == ReadAll(addr, g, qs[..n])
  }

  /** The rest of the block is rewritten from there. */
  ghost predicate GoesOn(cfg: Config, last: Graph, qs: seq<Quad>, r: Rewritten, nextVar: Var) {
    OrderOk(cfg) && Valid(last) && Room(cfg, last, qs) && r == Rewrite(cfg, last, qs, nextVar)
  }

  /** One quadruple is read into the graph. */
  lemma OneRead(cfg: Config, g: Graph, qs: seq<Quad>, r: Rewritten, nextVar: Var) returns (g': Graph)
    requires GoesOn(cfg, g, qs, r, nextVar) && qs != [] && Collected(qs[0])
    ensures Step(cfg.addr, g, qs[0], g') && Valid(g') && GoesOn(cfg, g', qs[1..], r, nextVar)
  {
    ReadQuadValid(cfg.addr, g, qs[0]);
    g' := ReadQuad(cfg.addr, g, qs[0]);
  }

  lemma NoneRead(addr: Id -> int, g: Graph, qs: seq<Quad>)
    requires Valid(g)
    ensures ReadsTo(addr, g, qs, 0, g) && qs[0..] == qs
  {}

  lemma MoreRead(addr: Id -> int, g: Graph, g': Graph, qs: seq<Quad>, n: nat, last: Graph)
    requires Valid(g) && 0 < n <= |qs| && Step(addr, g, qs[0], g') && ReadsTo(addr, g', qs[1..], n - 1, last)
    ensures ReadsTo(addr, g, qs, n, last)
  {
    assert qs[1..][..n - 1] == qs[..n][1..] && qs[..n][0] == qs[0];
    StepReads(addr, g, qs[..n], g');
  }

  lemma {:induction false} SegmentRead(cfg: Config, g: Graph, qs: seq<Quad>, n: nat, r: Rewritten, nextVar: Var) returns (last: Graph)
    requires GoesOn(cfg, g, qs, r, nextVar) && n <= |qs| && forall i :: 0 <= i < n ==> Collected(qs[i])
    ensures ReadsTo(cfg.addr, g, qs, n, last) && GoesOn(cfg, last, qs[n..], r, nextVar)
    decreases n, 1
  {
    if n == 0 {
      last := g;
      NoneRead(cfg.addr, g, qs);
    } else {
      last := SegmentReadOn(cfg, g, qs, n, r, nextVar);
    }
  }

  lemma SegmentReadOn(cfg: Config, g: Graph, qs: seq<Quad>, n: nat, r: Rewritten, nextVar: Var) returns (last: Graph)
    requires GoesOn(cfg, g, qs, r, nextVar) && 0 < n <= |qs| && forall i :: 0 <= i < n ==> Collected(qs[i])
    ensures ReadsTo(cfg.addr, g, qs, n, last) && GoesOn(cfg, last, qs[n..], r, nextVar)
    decreases n, 0
  {
    var g' := OneRead(cfg, g, qs, r, nextVar);
    last := SegmentTail(cfg, g', qs, n, r, nextVar);
    MoreRead(cfg.addr, g, g', qs, n, last);
  }

  lemma SegmentTail(cfg: Config, g: Graph, qs: seq<Quad>, n: nat, r: Rewritten, nextVar: Var) returns (last: Graph)
    requires 0 < n <= |qs| && GoesOn(cfg, g, qs[1..], r, nextVar) && forall i :: 0 <= i < n ==> Collected(qs[i])
    ensures ReadsTo(cfg.addr, g, qs[1..], n - 1, last) && GoesOn(cfg, last, qs[n..], r, nextVar)
    decreases n - 1, 2
  {
    CollectedTail(qs, n);
    last := SegmentRead(cfg, g, qs[1..], n - 1, r, nextVar);
  }

  lemma CollectedTail(qs: seq<Quad>, n: nat)
    requires 0 < n <= |qs| && forall i :: 0 <= i < n ==> Collected(qs[i])
    ensures (forall i :: 0 <= i < n - 1 ==> Collected(qs[1..][i])) && qs[1..][n - 1..] == qs[n..]
  {}

  /** A segment at the end of a block is replaced by the code of its graph. */
  lemma LastSegment(cfg: Config, qs: seq<Quad>, nextVar: Var)
    requires OrderOk(cfg) && Valid(EmptyGraph) && Room(cfg, EmptyGraph, qs)
    requires forall i :: 0 <= i < |qs| ==> Collected(qs[i])
    ensures AllPure(qs) && Fits(cfg.addr, EmptyGraph, qs)
    ensures Rewrite(cfg, EmptyGraph, qs, nextVar).code == Flush(cfg, ReadAll(cfg.addr, EmptyGraph, qs), nextVar).code
  {
    var last := SegmentRead(cfg, EmptyGraph, qs, |qs|, Rewrite(cfg, EmptyGraph, qs, nextVar), nextVar);
    assert qs[..|qs|] == qs;
  }

  /** A maximal segment is replaced by the code of its graph, the quadruple behind it stays, and so on. */
  lemma FirstSegment(cfg: Config, qs: seq<Quad>, n: nat, nextVar: Var)
    requires OrderOk(cfg) && Valid(EmptyGraph) && Room(cfg, EmptyGraph, qs) && n < |qs|
    requires (forall i :: 0 <= i < n ==> Collected(qs[i])) && !Collected(qs[n])
    ensures AllPure(qs[..n]) && Fits(cfg.addr, EmptyGraph, qs[..n]) && Room(cfg, EmptyGraph, qs[n + 1..])
    ensures var out := Flush(cfg, ReadAll(cfg.addr, EmptyGraph, qs[..n]), nextVar);
            Rewrite(cfg, EmptyGraph, qs, nextVar).code
            == out.code + [qs[n]] + Rewrite(cfg, EmptyGraph, qs[n + 1..], out.nextVar).code
  {
    var last := SegmentRead(cfg, EmptyGraph, qs, n, Rewrite(cfg, EmptyGraph, qs, nextVar), nextVar);
    Flushed(cfg, last, qs[n..], nextVar);
    assert qs[n..][1..] == qs[n + 1..] && qs[n..][0] == qs[n];
  }

  lemma Flushed(cfg: Config, g: Graph, qs: seq<Quad>, nextVar: Var)
    requires OrderOk(cfg) && Valid(g) && Room(cfg, g, qs) && qs != [] && !Collected(qs[0])
    ensures Valid(EmptyGraph) && Room(cfg, EmptyGraph, qs[1..])
    ensures var out := Flush(cfg, g, nextVar);
            Rewrite(cfg, g, qs, nextVar).code == out.code + [qs[0]] + Rewrite(cfg, EmptyGraph, qs[1..], out.nextVar).code
  {}
}
