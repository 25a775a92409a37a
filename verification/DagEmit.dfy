/**
  Code from the graph: every node is computed once, into a new variable, and then copied to
  the variables in its list. Operations on constants are folded.
  */
module DagEmit {
  import opened Quadr
  import opened Dag

  /** The compiler's own arithmetic on constants. */
  datatype Folding = Folding(ints: (Op, int, int) -> int, doubles: (Op, real, real) -> real)

  /**
    Code so far, the variable that holds each computed node, and the nodes that have become
    constants. `updates` records the order in which lists were copied; `failed` that a
    constant was divided by zero, which is reported as an error.
    */
  datatype Out = Out(
    code: seq<Quad>,
    results: map<Id, Var>,
    folded: map<Id, Arg>,
    nextVar: Var,
    updates: seq<Id>,
    failed: bool)

  function Start(nextVar: Var): Out { Out([], map[], map[], nextVar, [], false) }

  /** The variable that needs no copy from its own leaf. */
  function OwnVar(n: Node): Option<Var> { if n.Leaf? && n.arg.VarArg? then Some(n.arg.v) else None }

  function Copies(vs: seq<Var>, own: Option<Var>, r: Var): seq<Quad> {
    if vs == [] then []
    else (if own == Some(vs[0]) then [] else [Quad(Copy, VarArg(vs[0]), VarArg(r), NoArg)]) + Copies(vs[1..], own, r)
  }

  /** update_node_vars */
  function Update(nodes: seq<Node>, out: Out, i: Id): Out
    requires i < |nodes| && i in out.results
  {
    out.(code := out.code + Copies(nodes[i].vars, OwnVar(nodes[i]), out.results[i]), updates := out.updates + [i])
  }

  /** A node is computed into a new variable. */
  function AddResult(out: Out, i: Id, op: Op, a: Arg, b: Arg): Out {
    out.(code := out.code + [Quad(op, VarArg(out.nextVar), a, b)],
         results := out.results[i := out.nextVar],
         nextVar := out.nextVar + 1)
  }

  /** gencode_for_leaf */
  function GenLeaf(nodes: seq<Node>, out: Out, i: Id): Out
    requires i < |nodes| && nodes[i].Leaf?
  {
    AddResult(out, i, Copy, nodes[i].arg, NoArg)
  }

  function ConstOf(nodes: seq<Node>, out: Out, i: Id): Arg
    requires i < |nodes|
  {
    if i in out.folded then out.folded[i] else if nodes[i].Leaf? then nodes[i].arg else NoArg
  }

  predicate BothConst(a: Arg, b: Arg) { (a.IntArg? && b.IntArg?) || (a.DoubleArg? && b.DoubleArg?) }

  predicate DividesByZero(op: Op, b: Arg) { (op.Div? || op.Mod?) && (b == IntArg(0) || b == DoubleArg(0.0)) }

  function Folded(fold: Folding, op: Op, a: Arg, b: Arg): Arg
    requires BothConst(a, b)
  {
    match a
    case IntArg(n) => IntArg(if DividesByZero(op, b) then 1 else fold.ints(op, n, b.n))
    case DoubleArg(r) => DoubleArg(if DividesByZero(op, b) then 1.0 else fold.doubles(op, r, b.r))
  }

  function Compute(fold: Folding, nodes: seq<Node>, out: Out, i: Id): Out
    requires i < |nodes| && nodes[i].Apply? && nodes[i].left < |nodes| && nodes[i].right < |nodes|
    requires nodes[i].left in out.results && nodes[i].right in out.results
  {
    var n := nodes[i];
    var a, b := ConstOf(nodes, out, n.left), ConstOf(nodes, out, n.right);
    if BothConst(a, b) then
      var k := Folded(fold, n.op, a, b);
      AddResult(out.(folded := out.folded[i := k], failed := out.failed || DividesByZero(n.op, b)), i, Copy, k, NoArg)
    else AddResult(out, i, n.op, VarArg(out.results[n.left]), VarArg(out.results[n.right]))
  }

  /** Nodes that have been computed stay computed. */
  predicate Progress(out: Out, out': Out) {
    && (forall i :: i in out.results ==> i in out'.results && out'.results[i] == out.results[i])
    && (out.failed ==> out'.failed) && out.nextVar <= out'.nextVar
  }

  /** gencode_for_node: operands first, unless they have been computed. */
  function GenNode(fold: Folding, nodes: seq<Node>, out: Out, i: Id): (out': Out)
    requires Shape(nodes) && i < |nodes|
    ensures i in out'.results && Progress(out, out')
    decreases i
  {
    assert NodeShape(nodes[i], i);
    if i in out.results then out
    else if nodes[i].Leaf? then Update(nodes, GenLeaf(nodes, out, i), i)
    else
      var o1 := GenNode(fold, nodes, out, nodes[i].left);
      var o2 := GenNode(fold, nodes, o1, nodes[i].right);
      Update(nodes, Compute(fold, nodes, o2, i), i)
  }

  function GenInputs(nodes: seq<Node>, out: Out, ids: seq<Id>): Out
    requires forall k :: 0 <= k < |ids| ==> ids[k] < |nodes| && nodes[ids[k]].Leaf?
    decreases |ids|
  {
    if ids == [] then out else GenInputs(nodes, GenLeaf(nodes, out, ids[0]), ids[1..])
  }

  function GenAll(fold: Folding, nodes: seq<Node>, out: Out, ids: seq<Id>): (out': Out)
    requires Shape(nodes) && forall k :: 0 <= k < |ids| ==> ids[k] < |nodes|
    ensures Progress(out, out') && forall k :: 0 <= k < |ids| ==> ids[k] in out'.results
    decreases |ids|
  {
    if ids == [] then out else GenAll(fold, nodes, GenNode(fold, nodes, out, ids[0]), ids[1..])
  }

  function UpdateAll(nodes: seq<Node>, out: Out, ids: seq<Id>): Out
    requires forall k :: 0 <= k < |ids| ==> ids[k] < |nodes| && ids[k] in out.results
    decreases |ids|
  {
    if ids == [] then out else UpdateAll(nodes, Update(nodes, out, ids[0]), ids[1..])
  }

  // ---------- folding and the machine ----------

  predicate NonZero(op: Op, isZero: bool) { !((op.Div? || op.Mod?) && isZero) }

  /** Folding computes what the machine computes, except for division by zero. */
  ghost predicate Agrees(m: Machine, fold: Folding) {
    && (forall op: Op, a: int, b: int :: IsArith(op) && NonZero(op, b == 0) ==> m.alu(op, IntV(a), IntV(b)) == IntV(fold.ints(op, a, b)))
    && (forall op: Op, a: real, b: real :: IsArith(op) && NonZero(op, b == 0.0) ==> m.alu(op, RealV(a), RealV(b)) == RealV(fold.doubles(op, a, b)))
  }

  // ---------- what is computed ----------

  /** The constant a node is folded to, or else its own argument. */
  ghost function FoldedTo(fold: Folding, nodes: seq<Node>, i: Id): Arg
    requires Shape(nodes) && i < |nodes|
    decreases i
  {
    assert NodeShape(nodes[i], i);
    match nodes[i]
    case Leaf(a, _) => a
    case Apply(op, l, r, _, _) =>
      match (FoldedTo(fold, nodes, l), FoldedTo(fold, nodes, r))
      case (IntArg(a), IntArg(b)) => IntArg(if (op.Div? || op.Mod?) && b == 0 then 1 else fold.ints(op, a, b))
      case (DoubleArg(a), DoubleArg(b)) => DoubleArg(if (op.Div? || op.Mod?) && b == 0.0 then 1.0 else fold.doubles(op, a, b))
      case _ => NoArg
  }

  /** The node divides a constant by the constant zero. */
  ghost predicate ZeroDivision(fold: Folding, nodes: seq<Node>, i: Id)
    requires Shape(nodes) && i < |nodes|
  {
    assert NodeShape(nodes[i], i);
    nodes[i].Apply? && (nodes[i].op.Div? || nodes[i].op.Mod?) &&
    var a, b := FoldedTo(fold, nodes, nodes[i].left), FoldedTo(fold, nodes, nodes[i].right);
    (a.IntArg? && b == IntArg(0)) || (a.DoubleArg? && b == DoubleArg(0.0))
  }

  ghost predicate SomeZeroDivision(fold: Folding, nodes: seq<Node>)
    requires Shape(nodes)
  {
    exists i :: 0 <= i < |nodes| && ZeroDivision(fold, nodes, i)
  }

  /** What the code of a node leaves in its variable: a constant divided by zero gives one. */
  ghost function Computed(m: Machine, fold: Folding, nodes: seq<Node>, i: Id, env: Env): Value
    requires Shape(nodes) && i < |nodes|
    decreases i
  {
    assert NodeShape(nodes[i], i);
    match nodes[i]
    case Leaf(a, _) => Eval(a, env)
    case Apply(op, l, r, _, _) =>
      if ZeroDivision(fold, nodes, i) then Eval(FoldedTo(fold, nodes, i), env)
      else m.alu(op, Computed(m, fold, nodes, l, env), Computed(m, fold, nodes, r, env))
  }

  /** Folded or not, the same value is computed. */
  lemma {:induction false} FoldedComputed(m: Machine, fold: Folding, nodes: seq<Node>, i: Id, env: Env)
    requires Shape(nodes) && i < |nodes| && Agrees(m, fold)
    requires var a := FoldedTo(fold, nodes, i); a.IntArg? || a.DoubleArg?
    ensures Computed(m, fold, nodes, i, env) == Eval(FoldedTo(fold, nodes, i), env)
    decreases i
  {
    assert NodeShape(nodes[i], i);
    if nodes[i].Apply? && !ZeroDivision(fold, nodes, i) {
      var a, b := FoldedTo(fold, nodes, nodes[i].left), FoldedTo(fold, nodes, nodes[i].right);
      FoldedComputed(m, fold, nodes, nodes[i].left, env);
      FoldedComputed(m, fold, nodes, nodes[i].right, env);
      FoldedValue(m, fold, nodes[i].op, a, b, env);
    }
  }

  /** Without a division of constants by zero, nodes are computed as they denote. */
  lemma {:induction false} ComputedDenotes(m: Machine, fold: Folding, nodes: seq<Node>, i: Id, env: Env)
    requires Shape(nodes) && i < |nodes| && !SomeZeroDivision(fold, nodes)
    ensures Computed(m, fold, nodes, i, env) == Denote(m, nodes, i, env)
    decreases i
  {
    assert NodeShape(nodes[i], i);
    if nodes[i].Apply? {
      ComputedDenotes(m, fold, nodes, nodes[i].left, env);
      ComputedDenotes(m, fold, nodes, nodes[i].right, env);
    }
  }

  // ---------- what emitted code does ----------

  /** Copying the list of node `i` assigns `x`. */
  predicate Sets(nodes: seq<Node>, i: Id, x: Var) { i < |nodes| && x in nodes[i].vars && OwnVar(nodes[i]) != Some(x) }

  /** The last update that assigns `x` decides. */
  ghost function FinalValue(m: Machine, fold: Folding, nodes: seq<Node>, updates: seq<Id>, x: Var, env: Env): Value
    requires Shape(nodes)
  {
    if updates == [] then env[x]
    else
      var i := updates[|updates| - 1];
      if Sets(nodes, i, x) then Computed(m, fold, nodes, i, env)
      else FinalValue(m, fold, nodes, updates[..|updates| - 1], x, env)
  }

  /** The nodes that have become constants are those the graph says. */
  ghost predicate FoldsRight(fold: Folding, nodes: seq<Node>, out: Out)
    requires Shape(nodes)
  {
    && (forall i :: i in out.folded ==> i < |nodes| && nodes[i].Apply? && out.folded[i] == FoldedTo(fold, nodes, i))
    && (forall i :: i in out.results && i < |nodes| && nodes[i].Apply? && i !in out.folded ==> FoldedTo(fold, nodes, i).NoArg?)
  }

  /** `t` is reached from variables `env` by the code in `out`; variables from `vars` on are new. */
  ghost predicate Emitted(m: Machine, fold: Folding, nodes: seq<Node>, out: Out, env: Env, t: Env, vars: Var)
    requires Shape(nodes)
  {
    && vars <= out.nextVar && FoldsRight(fold, nodes, out)
    && (forall i :: i in out.results ==>
          i < |nodes| && vars <= out.results[i] < out.nextVar && t[out.results[i]] == Computed(m, fold, nodes, i, env))
    && (forall x: Var :: x < vars ==> t[x] == FinalValue(m, fold, nodes, out.updates, x, env))
  }

  predicate ListsBelow(nodes: seq<Node>, vars: Var) {
    forall i :: 0 <= i < |nodes| ==> AllBelow(nodes[i].vars, vars)
  }

  predicate AllBelow(vs: seq<Var>, vars: Var) { forall x :: x in vs ==> x < vars }

  lemma {:induction false} CopiesRun(m: Machine, vs: seq<Var>, own: Option<Var>, r: Var, s: State)
    requires r !in vs
    ensures var t := RunBlock(m, Copies(vs, own, r), s);
            && t.trace == s.trace
            && (forall x: Var :: x in vs && own != Some(x) ==> t.env[x] == s.env[r])
            && (forall x: Var :: x !in vs || own == Some(x) ==> t.env[x] == s.env[x])
  {
    if vs != [] {
      var rest := Copies(vs[1..], own, r);
      if own == Some(vs[0]) {
        assert Copies(vs, own, r) == rest;
        CopiesRun(m, vs[1..], own, r, s);
      } else {
        var q := Quad(Copy, VarArg(vs[0]), VarArg(r), NoArg);
        assert Copies(vs, own, r) == [q] + rest && ([q] + rest)[1..] == rest;
        ExecPure(m, q, s);
        CopiesRun(m, vs[1..], own, r, Exec(m, q, s));
      }
    }
  }

  ghost function After(m: Machine, out: Out, s: State): State { RunBlock(m, out.code, s) }

  ghost predicate EmitOk(m: Machine, fold: Folding, nodes: seq<Node>, out: Out, s: State, vars: Var)
    requires Shape(nodes)
  {
    After(m, out, s).trace == s.trace && Emitted(m, fold, nodes, out, s.env, After(m, out, s).env, vars)
  }

  lemma UpdateOk(m: Machine, fold: Folding, nodes: seq<Node>, out: Out, i: Id, s: State, vars: Var)
    requires Shape(nodes) && EmitOk(m, fold, nodes, out, s, vars) && i < |nodes| && i in out.results && AllBelow(nodes[i].vars, vars)
    ensures EmitOk(m, fold, nodes, Update(nodes, out, i), s, vars)
  {
    var n := nodes[i];
    var cs := Copies(n.vars, OwnVar(n), out.results[i]);
    var t := After(m, out, s);
    RunBlockAppend(m, out.code, cs, s);
    CopiesRun(m, n.vars, OwnVar(n), out.results[i], t);
    var t' := RunBlock(m, cs, t);
    var us := out.updates + [i];
    assert us[..|us| - 1] == out.updates;
    forall x: Var | x < vars ensures t'.env[x] == FinalValue(m, fold, nodes, us, x, s.env) {}
    forall j | j in out.results ensures t'.env[out.results[j]] == Computed(m, fold, nodes, j, s.env) {}
  }

  lemma AddResultOk(m: Machine, fold: Folding, nodes: seq<Node>, out: Out, i: Id, op: Op, a: Arg, b: Arg, s: State, vars: Var)
    requires Shape(nodes) && EmitOk(m, fold, nodes, out, s, vars) && i < |nodes|
    requires IsPure(Quad(op, VarArg(out.nextVar), a, b))
    requires Result(m, Quad(op, VarArg(out.nextVar), a, b), After(m, out, s)) == Computed(m, fold, nodes, i, s.env)
    requires nodes[i].Apply? && i !in out.folded ==> FoldedTo(fold, nodes, i).NoArg?
    ensures EmitOk(m, fold, nodes, AddResult(out, i, op, a, b), s, vars)
  {
    var q := Quad(op, VarArg(out.nextVar), a, b);
    var t := After(m, out, s);
    RunBlockAppend(m, out.code, [q], s);
    assert RunBlock(m, [q], t) == Exec(m, q, t);
    ExecPure(m, q, t);
    var out' := AddResult(out, i, op, a, b);
    forall j | j in out'.results
      ensures j < |nodes| && vars <= out'.results[j] < out'.nextVar && Exec(m, q, t).env[out'.results[j]] == Computed(m, fold, nodes, j, s.env)
    {}
  }

  // ---------- all nodes ----------

  lemma LeafOk(m: Machine, fold: Folding, nodes: seq<Node>, out: Out, i: Id, s: State, vars: Var)
    requires Shape(nodes) && EmitOk(m, fold, nodes, out, s, vars) && i < |nodes| && nodes[i].Leaf?
    requires nodes[i].arg.VarArg? ==> After(m, out, s).env[nodes[i].arg.v] == s.env[nodes[i].arg.v]
    ensures EmitOk(m, fold, nodes, GenLeaf(nodes, out, i), s, vars)
  {
    assert NodeShape(nodes[i], i);
    AddResultOk(m, fold, nodes, out, i, Copy, nodes[i].arg, NoArg, s, vars);
  }

  lemma ConstKnown(fold: Folding, nodes: seq<Node>, out: Out, i: Id)
    requires Shape(nodes) && FoldsRight(fold, nodes, out) && i < |nodes| && i in out.results
    ensures ConstOf(nodes, out, i) == FoldedTo(fold, nodes, i)
  {}

  lemma FoldedValue(m: Machine, fold: Folding, op: Op, a: Arg, b: Arg, env: Env)
    requires Agrees(m, fold) && IsArith(op) && BothConst(a, b)
    requires op.Div? || op.Mod? ==> b != IntArg(0) && b != DoubleArg(0.0)
    ensures Eval(Folded(fold, op, a, b), env) == m.alu(op, Eval(a, env), Eval(b, env))
  {
    match a
    case IntArg(n) => assert NonZero(op, b.n == 0);
    case DoubleArg(r) => assert NonZero(op, b.r == 0.0);
  }

  lemma ComputeOk(m: Machine, fold: Folding, nodes: seq<Node>, out: Out, i: Id, s: State, vars: Var)
    requires Shape(nodes) && Agrees(m, fold) && EmitOk(m, fold, nodes, out, s, vars) && i < |nodes| && nodes[i].Apply?
    requires NodeShape(nodes[i], i) && nodes[i].left in out.results && nodes[i].right in out.results
    ensures EmitOk(m, fold, nodes, Compute(fold, nodes, out, i), s, vars)
  {
    var n := nodes[i];
    var a, b := ConstOf(nodes, out, n.left), ConstOf(nodes, out, n.right);
    ConstKnown(fold, nodes, out, n.left);
    ConstKnown(fold, nodes, out, n.right);
    if BothConst(a, b) {
      var k := Folded(fold, n.op, a, b);
      FoldedComputed(m, fold, nodes, i, s.env);
      var out1 := out.(folded := out.folded[i := k], failed := out.failed || DividesByZero(n.op, b));
      assert EmitOk(m, fold, nodes, out1, s, vars);
      AddResultOk(m, fold, nodes, out1, i, Copy, k, NoArg, s, vars);
    } else {
      AddResultOk(m, fold, nodes, out, i, n.op, VarArg(out.results[n.left]), VarArg(out.results[n.right]), s, vars);
    }
  }

  /** The leaves of variables are computed first. */
  ghost predicate InputsDone(nodes: seq<Node>, out: Out) {
    forall i :: 0 <= i < |nodes| && IsInput(nodes, i) ==> i in out.results
  }

  lemma {:induction false} GenNodeOk(m: Machine, fold: Folding, nodes: seq<Node>, out: Out, i: Id, s: State, vars: Var)
    requires Shape(nodes) && Agrees(m, fold) && ListsBelow(nodes, vars) && i < |nodes|
    requires InputsDone(nodes, out) && EmitOk(m, fold, nodes, out, s, vars)
    ensures InputsDone(nodes, GenNode(fold, nodes, out, i)) && EmitOk(m, fold, nodes, GenNode(fold, nodes, out, i), s, vars)
    decreases i
  {
    assert NodeShape(nodes[i], i);
    if i !in out.results {
      if nodes[i].Leaf? {
        assert !IsInput(nodes, i);
        LeafOk(m, fold, nodes, out, i, s, vars);
        UpdateOk(m, fold, nodes, GenLeaf(nodes, out, i), i, s, vars);
      } else {
        var o1 := GenNode(fold, nodes, out, nodes[i].left);
        var o2 := GenNode(fold, nodes, o1, nodes[i].right);
        var o3 := Compute(fold, nodes, o2, i);
        GenNodeOk(m, fold, nodes, out, nodes[i].left, s, vars);
        GenNodeOk(m, fold, nodes, o1, nodes[i].right, s, vars);
        ComputeOk(m, fold, nodes, o2, i, s, vars);
        UpdateOk(m, fold, nodes, o3, i, s, vars);
      }
    }
  }

  lemma {:induction false} GenAllOk(m: Machine, fold: Folding, nodes: seq<Node>, out: Out, ids: seq<Id>, s: State, vars: Var)
    requires Shape(nodes) && Agrees(m, fold) && ListsBelow(nodes, vars) && forall k :: 0 <= k < |ids| ==> ids[k] < |nodes|
    requires InputsDone(nodes, out) && EmitOk(m, fold, nodes, out, s, vars)
    ensures InputsDone(nodes, GenAll(fold, nodes, out, ids)) && EmitOk(m, fold, nodes, GenAll(fold, nodes, out, ids), s, vars)
    decreases |ids|
  {
    if ids != [] {
      GenNodeOk(m, fold, nodes, out, ids[0], s, vars);
      GenAllOk(m, fold, nodes, GenNode(fold, nodes, out, ids[0]), ids[1..], s, vars);
    }
  }

  lemma {:induction false} UpdateAllFollows(nodes: seq<Node>, out: Out, ids: seq<Id>)
    requires forall k :: 0 <= k < |ids| ==> ids[k] < |nodes| && ids[k] in out.results
    ensures UpdateAll(nodes, out, ids).updates == out.updates + ids
    ensures UpdateAll(nodes, out, ids).failed == out.failed
    decreases |ids|
  {
    if ids != [] {
      UpdateAllFollows(nodes, Update(nodes, out, ids[0]), ids[1..]);
      assert out.updates + [ids[0]] + ids[1..] == out.updates + ids;
    }
  }

  lemma {:induction false} UpdateAllOk(m: Machine, fold: Folding, nodes: seq<Node>, out: Out, ids: seq<Id>, s: State, vars: Var)
    requires Shape(nodes) && ListsBelow(nodes, vars) && EmitOk(m, fold, nodes, out, s, vars)
    requires forall k :: 0 <= k < |ids| ==> ids[k] < |nodes| && ids[k] in out.results
    ensures EmitOk(m, fold, nodes, UpdateAll(nodes, out, ids), s, vars)
    decreases |ids|
  {
    if ids != [] {
      UpdateOk(m, fold, nodes, out, ids[0], s, vars);
      UpdateAllOk(m, fold, nodes, Update(nodes, out, ids[0]), ids[1..], s, vars);
    }
  }

  lemma {:induction false} GenInputsOk(m: Machine, fold: Folding, nodes: seq<Node>, out: Out, ids: seq<Id>, s: State, vars: Var)
    requires Shape(nodes) && ListsBelow(nodes, vars) && EmitOk(m, fold, nodes, out, s, vars) && out.updates == []
    requires forall k :: 0 <= k < |ids| ==> ids[k] < |nodes| && nodes[ids[k]].Leaf?
    requires forall k :: 0 <= k < |ids| ==> IsInput(nodes, ids[k]) && nodes[ids[k]].arg.v in nodes[ids[k]].vars
    ensures var out' := GenInputs(nodes, out, ids);
            && EmitOk(m, fold, nodes, out', s, vars) && out'.updates == [] && out'.failed == out.failed && out'.folded == out.folded
            && (forall i :: i in out'.results <==> i in out.results || i in ids)
    decreases |ids|
  {
    if ids != [] {
      var n := nodes[ids[0]];
      assert AllBelow(n.vars, vars);
      assert FinalValue(m, fold, nodes, [], n.arg.v, s.env) == s.env[n.arg.v];
      LeafOk(m, fold, nodes, out, ids[0], s, vars);
      var out1 := GenLeaf(nodes, out, ids[0]);
      GenInputsOk(m, fold, nodes, out1, ids[1..], s, vars);
      assert forall i :: i in ids <==> i == ids[0] || i in ids[1..];
    }
  }

  // ---------- every node is computed ----------

  /** Operands of computed nodes are computed, and their lists have been copied. */
  ghost predicate Closed(nodes: seq<Node>, out: Out) {
    forall i :: i in out.results && i < |nodes| ==>
      && (nodes[i].Apply? ==> nodes[i].left in out.results && nodes[i].right in out.results)
      && (!IsInput(nodes, i) ==> i in out.updates)
  }

  lemma {:induction false} GenNodeClosed(fold: Folding, nodes: seq<Node>, out: Out, i: Id)
    requires Shape(nodes) && i < |nodes| && Closed(nodes, out)
    ensures Closed(nodes, GenNode(fold, nodes, out, i))
    ensures forall j :: j in out.updates ==> j in GenNode(fold, nodes, out, i).updates
    decreases i
  {
    assert NodeShape(nodes[i], i);
    if i !in out.results && nodes[i].Apply? {
      var o1 := GenNode(fold, nodes, out, nodes[i].left);
      GenNodeClosed(fold, nodes, out, nodes[i].left);
      GenNodeClosed(fold, nodes, o1, nodes[i].right);
    }
  }

  lemma {:induction false} GenAllClosed(fold: Folding, nodes: seq<Node>, out: Out, ids: seq<Id>)
    requires Shape(nodes) && Closed(nodes, out) && forall k :: 0 <= k < |ids| ==> ids[k] < |nodes|
    ensures Closed(nodes, GenAll(fold, nodes, out, ids))
    decreases |ids|
  {
    if ids != [] {
      GenNodeClosed(fold, nodes, out, ids[0]);
      GenAllClosed(fold, nodes, GenNode(fold, nodes, out, ids[0]), ids[1..]);
    }
  }

  /** Every operator node is reached from a root. */
  lemma {:induction false} OperatorsDone(nodes: seq<Node>, out: Out, i: Id)
    requires Shape(nodes) && RootsOk(nodes) && Closed(nodes, out) && i < |nodes| && nodes[i].Apply?
    requires forall j :: 0 <= j < |nodes| && nodes[j].Apply? && nodes[j].root ==> j in out.results
    ensures i in out.results
    decreases |nodes| - i
  {
    if !nodes[i].root {
      assert HasParent(nodes, i);
      var p :| 0 <= p < |nodes| && IsParent(nodes[p], i);
      assert NodeShape(nodes[p], p);
      OperatorsDone(nodes, out, p);
    }
  }

  // ---------- a whole segment ----------

  /** The roots, and then the leaves of constants, each group in any order. */
  ghost predicate IsOrder(g: Graph, order: seq<Id>) {
    && (forall k :: 0 <= k < |order| ==> order[k] < |g.nodes|)
    && (forall i :: 0 <= i < |g.nodes| && g.nodes[i].Apply? && g.nodes[i].root ==> i in order)
    && (forall i :: 0 <= i < |g.nodes| && g.nodes[i].Leaf? && !g.nodes[i].arg.VarArg? ==> i in order)
  }

  predicate IsStart(n: Node) { if n.Apply? then n.root else !n.arg.VarArg? }

  /** gencode_from_graph */
  function Emission(fold: Folding, g: Graph, order: seq<Id>, nextVar: Var): Out
    requires Valid(g) && forall k :: 0 <= k < |order| ==> order[k] < |g.nodes|
  {
    InputsListed(g);
    var o1 := GenInputs(g.nodes, Start(nextVar), g.inputs);
    GenInputsResults(g.nodes, Start(nextVar), g.inputs);
    var o2 := GenAll(fold, g.nodes, o1, order);
    UpdateAll(g.nodes, o2, g.inputs)
  }

  lemma InputsListed(g: Graph)
    requires Valid(g)
    ensures forall k :: 0 <= k < |g.inputs| ==>
      IsInput(g.nodes, g.inputs[k]) && g.nodes[g.inputs[k]].arg.v in g.nodes[g.inputs[k]].vars
  {
    forall k | 0 <= k < |g.inputs|
      ensures IsInput(g.nodes, g.inputs[k]) && g.nodes[g.inputs[k]].arg.v in g.nodes[g.inputs[k]].vars
    {
      assert g.inputs[k] in g.inputs;
      assert LeafFound(g, g.inputs[k]);
    }
  }

  lemma {:induction false} GenInputsResults(nodes: seq<Node>, out: Out, ids: seq<Id>)
    requires forall k :: 0 <= k < |ids| ==> ids[k] < |nodes| && nodes[ids[k]].Leaf?
    ensures forall i :: i in out.results ==> i in GenInputs(nodes, out, ids).results
    ensures forall k :: 0 <= k < |ids| ==> ids[k] in GenInputs(nodes, out, ids).results
    decreases |ids|
  {
    if ids != [] {
      GenInputsResults(nodes, GenLeaf(nodes, out, ids[0]), ids[1..]);
    }
  }

  /** The code of the leaves of variables. */
  ghost predicate InputsEmitted(g: Graph, o1: Out) {
    && (forall i :: i in o1.results <==> i in g.inputs)
    && (forall k :: 0 <= k < |g.inputs| ==> IsInput(g.nodes, g.inputs[k]))
  }

  lemma InputsFirst(m: Machine, fold: Folding, g: Graph, s: State, vars: Var)
    requires Valid(g) && ListsBelow(g.nodes, vars) && forall k :: 0 <= k < |g.inputs| ==> IsInput(g.nodes, g.inputs[k])
    ensures var o1 := GenInputs(g.nodes, Start(vars), g.inputs);
            EmitOk(m, fold, g.nodes, o1, s, vars) && InputsEmitted(g, o1) && InputsDone(g.nodes, o1) && !o1.failed
  {
    InputsListed(g);
    GenInputsOk(m, fold, g.nodes, Start(vars), g.inputs, s, vars);
    var o1 := GenInputs(g.nodes, Start(vars), g.inputs);
    forall i | 0 <= i < |g.nodes| && IsInput(g.nodes, i) ensures i in o1.results {
      assert LeafFound(g, i);
    }
  }

  /** All other nodes are computed, and their lists copied. */
  lemma OthersUpdated(fold: Folding, g: Graph, order: seq<Id>, o1: Out)
    requires Valid(g) && IsOrder(g, order) && InputsEmitted(g, o1)
    ensures var o2 := GenAll(fold, g.nodes, o1, order);
            && (forall i :: 0 <= i < |g.nodes| && !IsInput(g.nodes, i) ==> i in o2.updates)
            && (forall k :: 0 <= k < |g.inputs| ==> g.inputs[k] in o2.results)
  {
    InputsClosed(g, o1);
    GenAllClosed(fold, g.nodes, o1, order);
    var o2 := GenAll(fold, g.nodes, o1, order);
    StartsDone(g, order, o2);
    ClosedUpdated(g, o2);
  }

  lemma InputsClosed(g: Graph, o1: Out)
    requires InputsEmitted(g, o1)
    ensures Closed(g.nodes, o1)
  {
    forall i | i in o1.results ensures IsInput(g.nodes, i) {
      var k :| 0 <= k < |g.inputs| && g.inputs[k] == i;
    }
  }

  lemma ClosedUpdated(g: Graph, out: Out)
    requires Shape(g.nodes) && RootsOk(g.nodes) && Closed(g.nodes, out)
    requires forall i :: 0 <= i < |g.nodes| && IsStart(g.nodes[i]) ==> i in out.results
    ensures forall i :: 0 <= i < |g.nodes| && !IsInput(g.nodes, i) ==> i in out.updates
  {
    forall i | 0 <= i < |g.nodes| && !IsInput(g.nodes, i) ensures i in out.updates {
      if g.nodes[i].Apply? {
        OperatorsDone(g.nodes, out, i);
      } else {
        assert IsStart(g.nodes[i]);
      }
    }
  }

  lemma StartsDone(g: Graph, order: seq<Id>, out: Out)
    requires IsOrder(g, order) && forall k :: 0 <= k < |order| ==> order[k] in out.results
    ensures forall i :: 0 <= i < |g.nodes| && IsStart(g.nodes[i]) ==> i in out.results
  {
    forall i | 0 <= i < |g.nodes| && IsStart(g.nodes[i]) ensures i in out.results {
      assert i in order;
    }
  }

  lemma LastUpdates(m: Machine, fold: Folding, g: Graph, o2: Out, s: State, vars: Var)
    requires Valid(g) && ListsBelow(g.nodes, vars) && EmitOk(m, fold, g.nodes, o2, s, vars)
    requires forall i :: 0 <= i < |g.nodes| && !IsInput(g.nodes, i) ==> i in o2.updates
    requires forall k :: 0 <= k < |g.inputs| ==> g.inputs[k] < |g.nodes| && g.inputs[k] in o2.results
    ensures var out := UpdateAll(g.nodes, o2, g.inputs);
            EmitOk(m, fold, g.nodes, out, s, vars) && forall i :: 0 <= i < |g.nodes| ==> i in out.updates
  {
    UpdateAllOk(m, fold, g.nodes, o2, g.inputs, s, vars);
    UpdateAllFollows(g.nodes, o2, g.inputs);
    forall i | 0 <= i < |g.nodes| ensures i in o2.updates + g.inputs {
      if IsInput(g.nodes, i) { assert LeafFound(g, i); }
    }
  }

  /** Every variable ends with the value of the node whose list was copied to it last. */
  lemma EmissionRuns(m: Machine, fold: Folding, g: Graph, order: seq<Id>, s: State, vars: Var)
    requires Valid(g) && Agrees(m, fold) && ListsBelow(g.nodes, vars) && IsOrder(g, order)
    ensures var out := Emission(fold, g, order, vars);
            EmitOk(m, fold, g.nodes, out, s, vars) && forall i :: 0 <= i < |g.nodes| ==> i in out.updates
  {
    InputsListed(g);
    InputsFirst(m, fold, g, s, vars);
    var o1 := GenInputs(g.nodes, Start(vars), g.inputs);
    var o2 := GenAll(fold, g.nodes, o1, order);
    OthersUpdated(fold, g, order, o1);
    GenAllOk(m, fold, g.nodes, o1, order, s, vars);
    LastUpdates(m, fold, g, o2, s, vars);
  }

  // ---------- when variables keep their values ----------

  /** No variable is left on the list of a leaf that is no longer its value. */
  predicate Clean(g: Graph) {
    forall i :: 0 <= i < |g.nodes| && g.nodes[i].Leaf? ==> CleanLeaf(g, i)
  }

  predicate CleanLeaf(g: Graph, i: Id)
    requires i < |g.nodes|
  {
    forall x :: x in g.nodes[i].vars && OwnVar(g.nodes[i]) != Some(x) ==> x in g.at && g.at[x] == i
  }

  lemma OnlyCurrent(g: Graph, i: Id, x: Var)
    requires Valid(g) && Clean(g) && Sets(g.nodes, i, x)
    ensures x in g.at && g.at[x] == i
  {
    if g.nodes[i].Leaf? { assert CleanLeaf(g, i); }
  }

  /** The value a variable should have. */
  ghost function CurrentValue(m: Machine, g: Graph, x: Var, env: Env): Value
    requires Shape(g.nodes) && AtOk(g)
  {
    if x in g.at then Denote(m, g.nodes, g.at[x], env) else env[x]
  }

  /** The node whose list is copied to `x` last. */
  function LastSetter(nodes: seq<Node>, updates: seq<Id>, x: Var): (r: Option<Id>)
    ensures r.Some? ==> r.value < |nodes|
  {
    if updates == [] then None
    else if Sets(nodes, updates[|updates| - 1], x) then Some(updates[|updates| - 1])
    else LastSetter(nodes, updates[..|updates| - 1], x)
  }

  lemma {:induction false} FinalSetter(m: Machine, fold: Folding, nodes: seq<Node>, updates: seq<Id>, x: Var, env: Env)
    requires Shape(nodes)
    ensures var o := LastSetter(nodes, updates, x);
            FinalValue(m, fold, nodes, updates, x, env) == if o.Some? then Computed(m, fold, nodes, o.value, env) else env[x]
    decreases |updates|
  {
    if updates != [] { FinalSetter(m, fold, nodes, updates[..|updates| - 1], x, env); }
  }

  /** If lists are clean, the list copied to a variable last is that of its node. */
  lemma {:induction false} LastIsCurrent(g: Graph, updates: seq<Id>, x: Var)
    requires Valid(g) && Clean(g)
    requires x in g.at && Sets(g.nodes, g.at[x], x) ==> g.at[x] in updates
    ensures LastSetter(g.nodes, updates, x) == if x in g.at && Sets(g.nodes, g.at[x], x) then Some(g.at[x]) else None
    decreases |updates|
  {
    if updates != [] {
      var i := updates[|updates| - 1];
      if Sets(g.nodes, i, x) {
        OnlyCurrent(g, i, x);
      } else {
        LastIsCurrent(g, updates[..|updates| - 1], x);
      }
    }
  }

  /** Without a division of constants by zero, it leaves the value the variable should have. */
  lemma FinalIsCurrent(m: Machine, fold: Folding, g: Graph, updates: seq<Id>, x: Var, env: Env)
    requires Valid(g) && Clean(g) && !SomeZeroDivision(fold, g.nodes)
    requires x in g.at && Sets(g.nodes, g.at[x], x) ==> g.at[x] in updates
    ensures FinalValue(m, fold, g.nodes, updates, x, env) == CurrentValue(m, g, x, env)
  {
    LastIsCurrent(g, updates, x);
    FinalSetter(m, fold, g.nodes, updates, x, env);
    if x in g.at {
      if Sets(g.nodes, g.at[x], x) {
        ComputedDenotes(m, fold, g.nodes, g.at[x], env);
      } else {
        OwnLeaf(g, x);
      }
    }
  }

  /** A variable that is at a node without being set from it is at its own leaf. */
  lemma OwnLeaf(g: Graph, x: Var)
    requires Valid(g) && x in g.at && !Sets(g.nodes, g.at[x], x)
    ensures g.nodes[g.at[x]].Leaf? && g.nodes[g.at[x]].arg == VarArg(x)
  {}
}
