/**
  The graph as the program has it: nodes, lists of variables and leaf tables updated in place
  while a block is scanned. Every method is tied to the function that DagBlock reasons about.
  */
module GraphOpt {
  import opened Quadr
  import opened Dag
  import opened DagEmit
  import opened DagBlock

  lemma EraseStep(vs: seq<Var>, k: nat, v: Var)
    requires k < |vs|
    ensures vs[..k] + Erase(vs[k..], v) == if vs[k] == v then vs[..k] + vs[k + 1..] else vs[..k + 1] + Erase(vs[k + 1..], v)
  {
    assert vs[k..][1..] == vs[k + 1..];
    assert vs[..k + 1] == vs[..k] + [vs[k]];
  }

  class Optimizer {
    const cfg: Config

    var nodes: seq<Node>
    var at: map<Var, Id>
    var ints: map<int, Id>
    var doubles: map<real, Id>
    var inputs: seq<Id>
    var table: map<int, Id>

    var code: seq<Quad>
    var results: map<Id, Var>
    var folded: map<Id, Arg>
    var nextVar: Var
    var failed: bool
    ghost var updates: seq<Id>

    ghost function Now(): Graph
      reads this
    {
      Graph(nodes, at, ints, doubles, inputs, table)
    }

    ghost function Emit(): Out
      reads this
    {
      Out(code, results, folded, nextVar, updates, failed)
    }

    constructor (cfg: Config, nextVar: Var)
      ensures this.cfg == cfg && Now() == EmptyGraph && Emit() == Start(nextVar)
    {
      this.cfg, this.nextVar := cfg, nextVar;
      nodes, at, ints, doubles, inputs, table := [], map[], map[], map[], [], map[];
      code, results, folded, failed, updates := [], map[], map[], false, [];
    }

    /** reset_graph: the code of the segment is handed over. */
    method ResetGraph() returns (done: seq<Quad>, bad: bool)
      modifies this
      ensures Now() == EmptyGraph && Emit() == Start(old(nextVar)) && done == old(code) && bad == old(failed)
    {
      done, bad := code, failed;
      nodes, at, ints, doubles, inputs, table := [], map[], map[], map[], [], map[];
      code, results, folded, updates, failed := [], map[], map[], [], false;
    }

    // ---------- reading ----------

    method FindNode(a: Arg) returns (i: Id)
      requires IsOperand(a)
      modifies this`nodes, this`at, this`ints, this`doubles, this`inputs
      ensures Found(Now(), i) == GetNode(old(Now()), a)
    {
      match a
      case IntArg(n) =>
        if n in ints {
          i := ints[n];
        } else {
          i := |nodes|;
          nodes := nodes + [Leaf(a, [])];
          ints := ints[n := i];
        }
      case DoubleArg(r) =>
        if r in doubles {
          i := doubles[r];
        } else {
          i := |nodes|;
          nodes := nodes + [Leaf(a, [])];
          doubles := doubles[r := i];
        }
      case VarArg(v) =>
        if v in at {
          i := at[v];
        } else {
          i := |nodes|;
          nodes := nodes + [Leaf(a, [])];
          inputs := inputs + [i];
          AddVariable(i, v);
          assert [v] + [] == [v];
          assert nodes == old(nodes) + [Leaf(a, [v])];
        }
    }

    method AddVariable(i: Id, v: Var)
      requires i < |nodes|
      modifies this`nodes, this`at
      ensures Now() == AddVar(old(Now()), i, v)
    {
      nodes := nodes[i := WithVars(nodes[i], [v] + nodes[i].vars)];
      at := at[v := i];
    }

    method RemoveVariable(i: Id, v: Var)
      requires i < |nodes|
      modifies this`nodes
      ensures nodes == RemoveVar(old(nodes), i, v)
    {
      if nodes[i].Leaf? {
        return;
      }
      var vs := EraseFrom(nodes[i].vars, v);
      nodes := nodes[i := WithVars(nodes[i], vs)];
    }

    /** vl_erase: the first occurrence goes. */
    static method EraseFrom(vs: seq<Var>, v: Var) returns (r: seq<Var>)
      ensures r == Erase(vs, v)
    {
      var k := 0;
      while k < |vs| && vs[k] != v
        invariant 0 <= k <= |vs| && Erase(vs, v) == vs[..k] + Erase(vs[k..], v)
      {
        EraseStep(vs, k, v);
        k := k + 1;
      }
      r := vs;
      if k < |vs| {
        EraseStep(vs, k, v);
        r := vs[..k] + vs[k + 1..];
      }
    }

    method MarkOperand(i: Id)
      requires i < |nodes|
      modifies this`nodes
      ensures nodes == Mark(old(nodes), i)
    {
      nodes := nodes[i := MarkNode(nodes[i])];
    }

    /** new_graph_root, the search of the table, and the release of a node that is not needed. */
    method FindOperation(op: Op, left: Id, right: Id) returns (i: Id)
      requires left < |nodes| && right < |nodes|
      modifies this`nodes, this`table
      ensures Found(Now(), i) == NewNode(cfg.addr, old(Now()), op, left, right)
    {
      var l, r := left, right;
      if IsCommutative(op) && cfg.addr(left) > cfg.addr(right) {
        l, r := right, left;
      }
      MarkOperand(l);
      MarkOperand(r);
      i := |nodes|;
      ghost var marked := nodes;
      nodes := nodes + [Apply(op, l, r, [], true)];
      var key := MakeKey(op, l, r);
      if key in table {
        nodes := nodes[..i];
        assert nodes == marked;
        i := table[key];
      } else {
        table := table[key := i];
      }
    }

    /** `res` is the node the variable was at, if it had one. */
    method Bind(v: Var, i: Id, res: Option<Id>)
      requires i < |nodes| && (res.Some? ==> v in at && at[v] == res.value && res.value < |nodes|)
      requires res.None? && v in at ==> at[v] < |nodes| && nodes[at[v]].Leaf?
      modifies this`nodes, this`at
      ensures Now() == Rebind(old(Now()), v, i)
    {
      if res.Some? { RemoveVariable(res.value, v); }
      AddVariable(i, v);
    }

    method ReadCopy(q: Quad)
      requires Valid(Now()) && IsPure(q) && q.op.Copy? && |nodes| + 2 <= MaxNodes
      modifies this`nodes, this`at, this`ints, this`doubles, this`inputs
      ensures Now() == ReadQuad(cfg.addr, old(Now()), q)
    {
      GetNodeValid(Now(), q.arg1);
      var i := FindNode(q.arg1);
      Bind(q.result.v, i, if q.result.v in at then Some(at[q.result.v]) else None);
    }

    method FindValue(q: Quad) returns (i: Id)
      requires Valid(Now()) && IsPure(q) && !q.op.Copy? && |nodes| + 2 <= MaxNodes
      modifies this`nodes, this`at, this`ints, this`doubles, this`inputs, this`table
      ensures Found(Now(), i) == ReadValue(cfg.addr, old(Now()), q)
    {
      GetNodeValid(Now(), q.arg1);
      var a := FindNode(q.arg1);
      GetNodeValid(Now(), q.arg2);
      var b := FindNode(q.arg2);
      i := FindOperation(q.op, a, b);
    }

    /** The node of the result is looked up before the operands. */
    method ReadOperation(q: Quad)
      requires Valid(Now()) && IsPure(q) && !q.op.Copy? && |nodes| + 2 <= MaxNodes
      modifies this`nodes, this`at, this`ints, this`doubles, this`inputs, this`table
      ensures Now() == ReadQuad(cfg.addr, old(Now()), q)
    {
      ghost var g := Now();
      var v := q.result.v;
      var res := if v in at then Some(at[v]) else None;
      ReadValueValid(cfg.addr, g, q);
      var i := FindValue(q);
      OwnLeafOnly(g, Now(), v);
      Bind(v, i, res);
    }

    method ReadQuadr(q: Quad)
      requires Valid(Now()) && IsPure(q) && |nodes| + 2 <= MaxNodes
      modifies this`nodes, this`at, this`ints, this`doubles, this`inputs, this`table
      ensures Now() == ReadQuad(cfg.addr, old(Now()), q) && Valid(Now())
    {
      ReadQuadValid(cfg.addr, Now(), q);
      if q.op.Copy? {
        ReadCopy(q);
      } else {
        ReadOperation(q);
      }
    }

    // ---------- code ----------

    method LeafCode(i: Id)
      requires i < |nodes| && nodes[i].Leaf?
      modifies this`code, this`results, this`nextVar
      ensures Emit() == GenLeaf(nodes, old(Emit()), i)
    {
      results := results[i := nextVar];
      code := code + [Quad(Copy, VarArg(nextVar), nodes[i].arg, NoArg)];
      nextVar := nextVar + 1;
    }

    method UpdateNodeVars(i: Id)
      requires i < |nodes| && i in results
      modifies this`code, this`updates
      ensures Emit() == Update(nodes, old(Emit()), i)
    {
      var own := OwnVar(nodes[i]);
      var r := results[i];
      var vs := nodes[i].vars;
      var k := 0;
      while k < |vs|
        invariant 0 <= k <= |vs|
        invariant code + Copies(vs[k..], own, r) == old(code) + Copies(vs, own, r)
        modifies this`code
      {
        assert vs[k..][1..] == vs[k + 1..];
        if own != Some(vs[k]) {
          code := code + [Quad(Copy, VarArg(vs[k]), VarArg(r), NoArg)];
        }
        k := k + 1;
      }
      updates := updates + [i];
    }

    method OperationCode(i: Id)
      requires i < |nodes| && nodes[i].Apply? && nodes[i].left < |nodes| && nodes[i].right < |nodes|
      requires nodes[i].left in results && nodes[i].right in results
      modifies this`code, this`results, this`nextVar, this`folded, this`failed
      ensures Emit() == Compute(cfg.fold, nodes, old(Emit()), i)
    {
      var op, left, right := nodes[i].op, nodes[i].left, nodes[i].right;
      var a := if left in folded then folded[left] else if nodes[left].Leaf? then nodes[left].arg else NoArg;
      var b := if right in folded then folded[right] else if nodes[right].Leaf? then nodes[right].arg else NoArg;
      var var1, var2 := results[left], results[right];
      results := results[i := nextVar];
      if BothConst(a, b) {
        var k := Folded(cfg.fold, op, a, b);
        if DividesByZero(op, b) { failed := true; }
        folded := folded[i := k];
        code := code + [Quad(Copy, VarArg(nextVar), k, NoArg)];
      } else {
        code := code + [Quad(op, VarArg(nextVar), VarArg(var1), VarArg(var2))];
      }
      nextVar := nextVar + 1;
    }

    method NodeCode(i: Id)
      requires Shape(nodes) && i < |nodes|
      modifies this`code, this`results, this`nextVar, this`folded, this`failed, this`updates
      ensures Emit() == GenNode(cfg.fold, nodes, old(Emit()), i)
      decreases i
    {
      assert NodeShape(nodes[i], i);
      if i in results {
        return;
      }
      if nodes[i].Leaf? {
        LeafCode(i);
      } else {
        if nodes[i].left !in results { NodeCode(nodes[i].left); }
        if nodes[i].right !in results { NodeCode(nodes[i].right); }
        OperationCode(i);
      }
      UpdateNodeVars(i);
    }

    /** gencode_from_graph: leaves of variables, roots and constants, and then the lists of the leaves of variables. */
    method CodeFromGraph(order: seq<Id>)
      requires Valid(Now()) && forall k :: 0 <= k < |order| ==> order[k] < |nodes|
      requires code == [] && results == map[] && folded == map[] && updates == [] && !failed
      modifies this`code, this`results, this`nextVar, this`folded, this`failed, this`updates
      ensures Emit() == Emission(cfg.fold, Now(), order, old(nextVar))
    {
      InputsListed(Now());
      InputLeaves();
      GenInputsResults(nodes, Start(old(nextVar)), inputs);
      NodesInOrder(order);
      InputLists();
    }

    method NodesInOrder(order: seq<Id>)
      requires Shape(nodes) && forall k :: 0 <= k < |order| ==> order[k] < |nodes|
      modifies this`code, this`results, this`nextVar, this`folded, this`failed, this`updates
      ensures Emit() == GenAll(cfg.fold, nodes, old(Emit()), order)
    {
      var k := 0;
      while k < |order|
        invariant 0 <= k <= |order|
        invariant GenAll(cfg.fold, nodes, old(Emit()), order) == GenAll(cfg.fold, nodes, Emit(), order[k..])
        modifies this`code, this`results, this`nextVar, this`folded, this`failed, this`updates
      {
        assert order[k..][1..] == order[k + 1..];
        NodeCode(order[k]);
        k := k + 1;
      }
    }

    method InputLeaves()
      requires forall k :: 0 <= k < |inputs| ==> inputs[k] < |nodes| && nodes[inputs[k]].Leaf?
      modifies this`code, this`results, this`nextVar
      ensures Emit() == GenInputs(nodes, old(Emit()), inputs)
    {
      var k := 0;
      while k < |inputs|
        invariant 0 <= k <= |inputs|
        invariant GenInputs(nodes, old(Emit()), inputs) == GenInputs(nodes, Emit(), inputs[k..])
        modifies this`code, this`results, this`nextVar
      {
        assert inputs[k..][1..] == inputs[k + 1..];
        LeafCode(inputs[k]);
        k := k + 1;
      }
    }

    method InputLists()
      requires forall k :: 0 <= k < |inputs| ==> inputs[k] < |nodes| && inputs[k] in results
      modifies this`code, this`updates
      ensures Emit() == UpdateAll(nodes, old(Emit()), inputs)
    {
      var k := 0;
      while k < |inputs|
        invariant 0 <= k <= |inputs|
        invariant UpdateAll(nodes, old(Emit()), inputs) == UpdateAll(nodes, Emit(), inputs[k..])
        modifies this`code, this`updates
      {
        assert inputs[k..][1..] == inputs[k + 1..];
        UpdateNodeVars(inputs[k]);
        k := k + 1;
      }
    }

    /** The code of a segment, and an empty graph. */
    method FlushGraph() returns (done: seq<Quad>, bad: bool)
      requires Valid(Now()) && OrderOk(cfg) && Emit() == Start(nextVar)
      modifies this
      ensures Now() == EmptyGraph && Emit() == Start(nextVar)
      ensures var out := Flush(cfg, old(Now()), old(nextVar));
              done == out.code && nextVar == out.nextVar && bad == out.failed
    {
      assert IsOrder(Now(), cfg.order(Now()));
      CodeFromGraph(cfg.order(Graph(nodes, at, ints, doubles, inputs, table)));
      done, bad := ResetGraph();
    }

    /** One quadruple of a block; `rest` begins with it. */
    method OptimizeQuadr(q: Quad, done: seq<Quad>, bad: bool, ghost rest: seq<Quad>)
      returns (done': seq<Quad>, bad': bool)
      requires Valid(Now()) && OrderOk(cfg) && Emit() == Start(nextVar)
      requires rest != [] && rest[0] == q && Room(cfg, Now(), rest)
      modifies this
      ensures Valid(Now()) && Emit() == Start(nextVar) && Room(cfg, Now(), rest[1..])
      ensures Joined(done', bad', Rewrite(cfg, Now(), rest[1..], nextVar))
              == Joined(done, bad, Rewrite(cfg, old(Now()), rest, old(nextVar)))
    {
      if IsPure(q) {
        ReadQuadr(q);
        done', bad' := done, bad;
      } else {
        JoinedThrough(cfg, done, bad, Now(), rest, nextVar);
        var more, err := FlushGraph();
        done', bad' := done + more + [q], bad || err;
      }
    }

    /** optimize_local */
    method OptimizeLocal(block: seq<Quad>) returns (done: seq<Quad>, bad: bool)
      requires Now() == EmptyGraph && Valid(EmptyGraph) && Emit() == Start(nextVar)
      requires OrderOk(cfg) && Room(cfg, EmptyGraph, block)
      modifies this
      ensures Rewritten(done, nextVar, bad) == Rewrite(cfg, EmptyGraph, block, old(nextVar))
      ensures Now() == EmptyGraph && Emit() == Start(nextVar)
    {
      done, bad := ScanBlock(block);
      var more, err := FlushGraph();
      done, bad := done + more, bad || err;
    }

    /** The loop of optimize_local; the last segment is still in the graph. */
    method ScanBlock(block: seq<Quad>) returns (done: seq<Quad>, bad: bool)
      requires Now() == EmptyGraph && Valid(EmptyGraph) && Emit() == Start(nextVar)
      requires OrderOk(cfg) && Room(cfg, EmptyGraph, block)
      modifies this
      ensures Valid(Now()) && Emit() == Start(nextVar)
      ensures Joined(done, bad, Rewrite(cfg, Now(), [], nextVar)) == Rewrite(cfg, EmptyGraph, block, old(nextVar))
    {
      ghost var whole := Rewrite(cfg, EmptyGraph, block, nextVar);
      done, bad := [], false;
      var k := 0;
      while k < |block|
        invariant 0 <= k <= |block|
        invariant Valid(Now()) && Emit() == Start(nextVar) && Room(cfg, Now(), block[k..])
        invariant Joined(done, bad, Rewrite(cfg, Now(), block[k..], nextVar)) == whole
      {
        assert block[k..][1..] == block[k + 1..];
        done, bad := OptimizeQuadr(block[k], done, bad, block[k..]);
        k := k + 1;
      }
    }
  }

  /** Code that comes before more code. */
  function Joined(done: seq<Quad>, bad: bool, r: Rewritten): Rewritten {
    Rewritten(done + r.code, r.nextVar, bad || r.failed)
  }

  lemma JoinedThrough(cfg: Config, done: seq<Quad>, bad: bool, g: Graph, qs: seq<Quad>, nextVar: Var)
    requires OrderOk(cfg) && Valid(g) && Room(cfg, g, qs) && qs != [] && !IsPure(qs[0])
    ensures var out := Flush(cfg, g, nextVar);
            Joined(done, bad, Rewrite(cfg, g, qs, nextVar))
            == Joined(done + out.code + [qs[0]], bad || out.failed, Rewrite(cfg, EmptyGraph, qs[1..], out.nextVar))
  {
    var out := Flush(cfg, g, nextVar);
    var rest := Rewrite(cfg, EmptyGraph, qs[1..], out.nextVar).code;
    assert done + (out.code + [qs[0]] + rest) == done + out.code + [qs[0]] + rest;
  }

  /** Reading operands can only have given a variable its own leaf, so looking its node up early makes no difference. */
  lemma OwnLeafOnly(g: Graph, f: Graph, v: Var)
    requires Valid(g) && Valid(f) && Grows(g, f)
    ensures v in g.at ==> v in f.at && f.at[v] == g.at[v] && g.at[v] < |f.nodes|
    ensures v in f.at && v !in g.at ==> f.at[v] < |f.nodes| && f.nodes[f.at[v]].Leaf?
  {}
}
