/**
  Value numbering of straight-line code: nodes stand for values, and two computations share
  a node when they apply the same operator to the same nodes.
  */
module Dag {
  import opened Quadr

  type Id = nat

  /** `vars` are the variables to be set to the value of the node; a root is not an operand of any node. */
  datatype Node =
    | Leaf(arg: Arg, vars: seq<Var>)
    | Apply(op: Op, left: Id, right: Id, vars: seq<Var>, root: bool)

  /**
    `at` is the node of each variable that has occurred, `inputs` are the leaves of variables
    in the order they were made, and `table` finds operator nodes by key.
    */
  datatype Graph = Graph(
    nodes: seq<Node>,
    at: map<Var, Id>,
    ints: map<int, Id>,
    doubles: map<real, Id>,
    inputs: seq<Id>,
    table: map<int, Id>)

  const EmptyGraph := Graph([], map[], map[], map[], [], map[])

  datatype Found = Found(g: Graph, i: Id)

  predicate IsArith(op: Op) { op.Add? || op.Sub? || op.Div? || op.Mul? || op.Mod? }

  predicate IsCommutative(op: Op) { op.Add? || op.Mul? }

  predicate IsOperand(a: Arg) { a.VarArg? || a.IntArg? || a.DoubleArg? }

  /** A quadruple that is read into the graph; all others end a segment. */
  predicate IsPure(q: Quad) {
    && q.result.VarArg? && IsOperand(q.arg1)
    && (q.op.Copy? || (IsArith(q.op) && IsOperand(q.arg2)))
  }

  // ---------- keys ----------

  function OpCode(op: Op): (r: nat)
    ensures r < 64
  {
    match op
    case Add => 0
    case Sub => 1
    case Div => 2
    case Mul => 3
    case Mod => 4
    case _ => 5
  }

  /** Ids are shifted by 19 and 6 bits. */
  function MakeKey(op: Op, left: Id, right: Id): nat { left * 0x80000 + right * 64 + OpCode(op) }

  const MaxNodes: nat := 8192

  lemma KeyInjective(op: Op, left: Id, right: Id, op': Op, left': Id, right': Id)
    requires right < MaxNodes && right' < MaxNodes && IsArith(op) && IsArith(op')
    ensures MakeKey(op, left, right) == MakeKey(op', left', right') <==> op == op' && left == left' && right == right'
  {}

  /** With one id more, keys collide. */
  lemma KeyCollides(op: Op)
    ensures MakeKey(op, 0, MaxNodes) == MakeKey(op, 1, 0)
  {}

  // ---------- operations ----------

  function Slot(g: Graph): Id { |g.nodes| }

  function GetNode(g: Graph, a: Arg): Found
    requires IsOperand(a)
  {
    match a
    case IntArg(n) =>
      if n in g.ints then Found(g, g.ints[n])
      else Found(g.(nodes := g.nodes + [Leaf(a, [])], ints := g.ints[n := Slot(g)]), Slot(g))
    case DoubleArg(r) =>
      if r in g.doubles then Found(g, g.doubles[r])
      else Found(g.(nodes := g.nodes + [Leaf(a, [])], doubles := g.doubles[r := Slot(g)]), Slot(g))
    case VarArg(v) =>
      if v in g.at then Found(g, g.at[v])
      else Found(g.(nodes := g.nodes + [Leaf(a, [v])], at := g.at[v := Slot(g)], inputs := g.inputs + [Slot(g)]), Slot(g))
  }

  function MarkNode(n: Node): Node { if n.Apply? then n.(root := false) else n }

  /** A node that becomes an operand is a root no longer. */
  function Mark(nodes: seq<Node>, i: Id): seq<Node>
    requires i < |nodes|
  {
    nodes[i := MarkNode(nodes[i])]
  }

  /** Operands of commutative operators are put in the order of their addresses. */
  function Swaps(addr: Id -> int, op: Op, left: Id, right: Id): bool { IsCommutative(op) && addr(left) > addr(right) }

  /** new_graph_root and the search of the table: a node that is there already is used again. */
  function NewNode(addr: Id -> int, g: Graph, op: Op, left: Id, right: Id): Found
    requires left < |g.nodes| && right < |g.nodes|
  {
    var l, r := if Swaps(addr, op, left, right) then right else left, if Swaps(addr, op, left, right) then left else right;
    var nodes := Mark(Mark(g.nodes, l), r);
    var key := MakeKey(op, l, r);
    if key in g.table then Found(g.(nodes := nodes), g.table[key])
    else Found(g.(nodes := nodes + [Apply(op, l, r, [], true)], table := g.table[key := Slot(g)]), Slot(g))
  }

  function WithVars(n: Node, vs: seq<Var>): Node {
    match n
    case Leaf(a, _) => Leaf(a, vs)
    case Apply(op, l, r, _, root) => Apply(op, l, r, vs, root)
  }

  function Erase(vs: seq<Var>, v: Var): seq<Var> {
    if vs == [] then [] else if vs[0] == v then vs[1..] else [vs[0]] + Erase(vs[1..], v)
  }

  /** remove_var: variables are not removed from leaves. */
  function RemoveVar(nodes: seq<Node>, i: Id, v: Var): seq<Node>
    requires i < |nodes|
  {
    if nodes[i].Leaf? then nodes else nodes[i := WithVars(nodes[i], Erase(nodes[i].vars, v))]
  }

  function AddVar(g: Graph, i: Id, v: Var): Graph
    requires i < |g.nodes|
  {
    g.(nodes := g.nodes[i := WithVars(g.nodes[i], [v] + g.nodes[i].vars)], at := g.at[v := i])
  }

  /** `v` gets the value of node `i`. */
  function Rebind(g: Graph, v: Var, i: Id): Graph
    requires i < |g.nodes| && (v in g.at ==> g.at[v] < |g.nodes|)
  {
    AddVar(if v in g.at then g.(nodes := RemoveVar(g.nodes, g.at[v], v)) else g, i, v)
  }

  // ---------- invariant ----------

  ghost predicate Shape(nodes: seq<Node>) {
    forall i :: 0 <= i < |nodes| ==> NodeShape(nodes[i], i)
  }

  ghost predicate NodeShape(n: Node, i: Id) {
    if n.Leaf? then IsOperand(n.arg) else n.left < i && n.right < i && IsArith(n.op)
  }

  ghost predicate AtOk(g: Graph) {
    forall v :: v in g.at ==> g.at[v] < |g.nodes| && v in g.nodes[g.at[v]].vars
  }

  ghost predicate LeafFound(g: Graph, i: Id)
    requires i < |g.nodes| && g.nodes[i].Leaf?
  {
    match g.nodes[i].arg
    case IntArg(n) => n in g.ints && g.ints[n] == i
    case DoubleArg(r) => r in g.doubles && g.doubles[r] == i
    case VarArg(v) => i in g.inputs && v in g.at && v in g.nodes[i].vars
    case _ => false
  }

  ghost predicate IsLeafOf(nodes: seq<Node>, i: Id, a: Arg) { i < |nodes| && nodes[i].Leaf? && nodes[i].arg == a }

  ghost predicate IsInput(nodes: seq<Node>, i: Id) { i < |nodes| && nodes[i].Leaf? && nodes[i].arg.VarArg? }

  ghost predicate LeavesOk(g: Graph) {
    && (forall i :: 0 <= i < |g.nodes| && g.nodes[i].Leaf? ==> LeafFound(g, i))
    && (forall n :: n in g.ints ==> IsLeafOf(g.nodes, g.ints[n], IntArg(n)))
    && (forall r :: r in g.doubles ==> IsLeafOf(g.nodes, g.doubles[r], DoubleArg(r)))
    && (forall i :: i in g.inputs ==> IsInput(g.nodes, i))
    && (forall j, k :: 0 <= j < k < |g.inputs| ==> g.inputs[j] != g.inputs[k])
  }

  function KeyOf(n: Node): nat
    requires n.Apply?
  {
    MakeKey(n.op, n.left, n.right)
  }

  ghost predicate TableOk(g: Graph) {
    && (forall k :: k in g.table ==> g.table[k] < |g.nodes| && g.nodes[g.table[k]].Apply? && KeyOf(g.nodes[g.table[k]]) == k)
    && (forall i :: 0 <= i < |g.nodes| && g.nodes[i].Apply? ==> KeyOf(g.nodes[i]) in g.table && g.table[KeyOf(g.nodes[i])] == i)
  }

  ghost predicate Once(vs: seq<Var>) { forall j, k :: 0 <= j < k < |vs| ==> vs[j] != vs[k] }

  /** A variable is in the list of an operator node only while that node is its value. */
  ghost predicate ListsOk(g: Graph) {
    forall i :: 0 <= i < |g.nodes| && g.nodes[i].Apply? ==>
      Once(g.nodes[i].vars) && forall v :: v in g.nodes[i].vars ==> v in g.at && g.at[v] == i
  }

  ghost predicate HasParent(nodes: seq<Node>, i: Id) {
    exists p :: 0 <= p < |nodes| && IsParent(nodes[p], i)
  }

  ghost predicate IsParent(p: Node, i: Id) { p.Apply? && (p.left == i || p.right == i) }

  ghost predicate RootsOk(nodes: seq<Node>) {
    forall i :: 0 <= i < |nodes| && nodes[i].Apply? && !nodes[i].root ==> HasParent(nodes, i)
  }

  ghost predicate Valid(g: Graph) {
    Shape(g.nodes) && AtOk(g) && LeavesOk(g) && TableOk(g) && ListsOk(g) && RootsOk(g.nodes)
  }

  // ---------- values ----------

  /** The value of a node, given the values of variables before the segment. */
  ghost function Denote(m: Machine, nodes: seq<Node>, i: Id, env: Env): Value
    requires Shape(nodes) && i < |nodes|
    decreases i
  {
    assert NodeShape(nodes[i], i);
    match nodes[i]
    case Leaf(a, _) => Eval(a, env)
    case Apply(op, l, r, _, _) => m.alu(op, Denote(m, nodes, l, env), Denote(m, nodes, r, env))
  }

  ghost predicate SameValue(n: Node, n': Node) {
    if n.Leaf? then n'.Leaf? && n'.arg == n.arg
    else n'.Apply? && n'.op == n.op && n'.left == n.left && n'.right == n.right
  }

  /** Nodes may be added, and lists and marks may change. */
  ghost predicate Keeps(nodes: seq<Node>, nodes': seq<Node>) {
    |nodes| <= |nodes'| && forall i :: 0 <= i < |nodes| ==> SameValue(nodes[i], nodes'[i])
  }

  lemma {:induction false} DenoteKept(m: Machine, nodes: seq<Node>, nodes': seq<Node>, i: Id, env: Env)
    requires Shape(nodes) && Shape(nodes') && Keeps(nodes, nodes') && i < |nodes|
    ensures Denote(m, nodes', i, env) == Denote(m, nodes, i, env)
    decreases i
  {
    assert NodeShape(nodes[i], i) && SameValue(nodes[i], nodes'[i]);
    if nodes[i].Apply? {
      DenoteKept(m, nodes, nodes', nodes[i].left, env);
      DenoteKept(m, nodes, nodes', nodes[i].right, env);
    }
  }

  /** Every variable has the value of its node, or the value it had before the segment. */
  ghost predicate Tracks(m: Machine, g: Graph, before: Env, now: Env)
    requires Shape(g.nodes) && AtOk(g)
  {
    forall v: Var :: now[v] == if v in g.at then Denote(m, g.nodes, g.at[v], before) else before[v]
  }

  /** Nodes were added; variables that had no node may have got a leaf of their own. */
  ghost predicate Grows(g: Graph, g': Graph) {
    && Keeps(g.nodes, g'.nodes)
    && (forall v :: v in g.at ==> v in g'.at && g'.at[v] == g.at[v])
    && (forall v :: v in g'.at && v !in g.at ==> IsLeafOf(g'.nodes, g'.at[v], VarArg(v)))
  }

  lemma KeepsTrans(a: seq<Node>, b: seq<Node>, c: seq<Node>)
    requires Keeps(a, b) && Keeps(b, c)
    ensures Keeps(a, c)
  {
    forall i | 0 <= i < |a| ensures SameValue(a[i], c[i]) {
      assert SameValue(a[i], b[i]) && SameValue(b[i], c[i]);
    }
  }

  lemma GrowsTrans(a: Graph, b: Graph, c: Graph)
    requires Grows(a, b) && Grows(b, c)
    ensures Grows(a, c)
  {
    KeepsTrans(a.nodes, b.nodes, c.nodes);
    forall v | v in c.at && v !in a.at ensures IsLeafOf(c.nodes, c.at[v], VarArg(v)) {
      if v in b.at {
        assert IsLeafOf(b.nodes, b.at[v], VarArg(v));
        assert SameValue(b.nodes[b.at[v]], c.nodes[b.at[v]]);
      }
    }
  }

  lemma TracksKept(m: Machine, g: Graph, g': Graph, before: Env, now: Env)
    requires Shape(g.nodes) && AtOk(g) && Shape(g'.nodes) && AtOk(g') && Grows(g, g')
    requires Tracks(m, g, before, now)
    ensures Tracks(m, g', before, now)
  {
    forall v: Var | v in g.at ensures now[v] == Denote(m, g'.nodes, g'.at[v], before) {
      DenoteKept(m, g.nodes, g'.nodes, g.at[v], before);
    }
  }

  // ---------- finding operands ----------

  lemma GetNodeValid(g: Graph, a: Arg)
    requires Valid(g) && IsOperand(a)
    ensures var f := GetNode(g, a);
            && Valid(f.g) && f.i < |f.g.nodes| && Grows(g, f.g) && |f.g.nodes| <= |g.nodes| + 1
            && (a.VarArg? ==> a.v in f.g.at && f.g.at[a.v] == f.i)
            && (!a.VarArg? ==> IsLeafOf(f.g.nodes, f.i, a))
  {
    if GetNode(g, a).g.nodes == g.nodes {
      LookupValid(g, a);
    } else {
      NewLeafAdded(g, a);
    }
  }

  lemma NewLeafAdded(g: Graph, a: Arg)
    requires Valid(g) && IsOperand(a) && GetNode(g, a).g.nodes != g.nodes
    ensures var f := GetNode(g, a);
            && Valid(f.g) && f.i < |f.g.nodes| && Grows(g, f.g) && |f.g.nodes| <= |g.nodes| + 1
            && (a.VarArg? ==> a.v in f.g.at && f.g.at[a.v] == f.i)
            && (!a.VarArg? ==> IsLeafOf(f.g.nodes, f.i, a))
  {
    var f := GetNode(g, a);
    NewLeafValid(g, f.g, a, f.g.nodes[|g.nodes|].vars);
  }

  lemma LookupValid(g: Graph, a: Arg)
    requires Valid(g) && IsOperand(a) && GetNode(g, a).g.nodes == g.nodes
    ensures var f := GetNode(g, a);
            && f.g == g && f.i < |g.nodes|
            && (a.VarArg? ==> a.v in g.at && g.at[a.v] == f.i)
            && (!a.VarArg? ==> IsLeafOf(g.nodes, f.i, a))
  {}

  /** `g'` is `g` with a leaf added. */
  ghost predicate AddsLeaf(g: Graph, g': Graph, a: Arg, vs: seq<Var>) {
    && IsOperand(a) && g'.nodes == g.nodes + [Leaf(a, vs)] && g'.table == g.table
    && g'.ints == (if a.IntArg? then g.ints[a.n := Slot(g)] else g.ints)
    && g'.doubles == (if a.DoubleArg? then g.doubles[a.r := Slot(g)] else g.doubles)
    && g'.at == (if a.VarArg? then g.at[a.v := Slot(g)] else g.at)
    && g'.inputs == (if a.VarArg? then g.inputs + [Slot(g)] else g.inputs)
    && match a
       case IntArg(n) => n !in g.ints
       case DoubleArg(r) => r !in g.doubles
       case _ => a.VarArg? && a.v !in g.at && a.v in vs
  }

  lemma NewLeafValid(g: Graph, g': Graph, a: Arg, vs: seq<Var>)
    requires Valid(g) && AddsLeaf(g, g', a, vs)
    ensures Valid(g') && Keeps(g.nodes, g'.nodes)
  {
    forall i | 0 <= i < |g'.nodes| ensures NodeShape(g'.nodes[i], i) {}
    NewLeafFound(g, g', a, vs);
    NewLeafLists(g, g', a, vs);
    forall i | 0 <= i < |g'.nodes| && g'.nodes[i].Apply? && !g'.nodes[i].root ensures HasParent(g'.nodes, i) {
      assert HasParent(g.nodes, i);
      var p :| 0 <= p < |g.nodes| && IsParent(g.nodes[p], i);
      assert IsParent(g'.nodes[p], i);
    }
  }

  lemma NewLeafFound(g: Graph, g': Graph, a: Arg, vs: seq<Var>)
    requires LeavesOk(g) && AddsLeaf(g, g', a, vs)
    ensures LeavesOk(g')
  {
    forall i | 0 <= i < |g'.nodes| && g'.nodes[i].Leaf? ensures LeafFound(g', i) {
      if i < |g.nodes| { assert LeafFound(g, i); }
    }
    forall i | i in g'.inputs ensures IsInput(g'.nodes, i) {
      if i in g.inputs { assert IsInput(g.nodes, i); }
    }
    forall j | 0 <= j < |g.inputs| ensures g.inputs[j] < Slot(g) {
      assert IsInput(g.nodes, g.inputs[j]);
    }
  }

  lemma NewLeafLists(g: Graph, g': Graph, a: Arg, vs: seq<Var>)
    requires AtOk(g) && TableOk(g) && ListsOk(g) && AddsLeaf(g, g', a, vs)
    ensures AtOk(g') && TableOk(g') && ListsOk(g')
  {}

  // ---------- applying an operator ----------

  /** `g'` is `g` with some roots that are operands of node `i` now. */
  lemma MarkedShape(nodes: seq<Node>, l: Id, r: Id)
    requires Shape(nodes) && l < |nodes| && r < |nodes|
    ensures var marked := Mark(Mark(nodes, l), r);
            && Shape(marked) && Keeps(nodes, marked) && |marked| == |nodes|
            && (forall k :: 0 <= k < |nodes| ==> marked[k].vars == nodes[k].vars)
            && (forall k :: 0 <= k < |nodes| && k != l && k != r ==> marked[k] == nodes[k])
  {
    forall k | 0 <= k < |nodes| ensures NodeShape(Mark(Mark(nodes, l), r)[k], k) {
      assert NodeShape(nodes[k], k);
    }
  }

  /** What holds once the operands are marked and before the node is there. */
  ghost predicate AlmostValid(g: Graph, l: Id, r: Id) {
    && Shape(g.nodes) && AtOk(g) && LeavesOk(g) && TableOk(g) && ListsOk(g) && l < |g.nodes| && r < |g.nodes|
    && forall i :: 0 <= i < |g.nodes| && i != l && i != r && g.nodes[i].Apply? && !g.nodes[i].root ==> HasParent(g.nodes, i)
  }

  lemma MarkedValid(g: Graph, l: Id, r: Id)
    requires Valid(g) && l < |g.nodes| && r < |g.nodes|
    ensures AlmostValid(g.(nodes := Mark(Mark(g.nodes, l), r)), l, r)
  {
    var g' := g.(nodes := Mark(Mark(g.nodes, l), r));
    MarkedShape(g.nodes, l, r);
    forall i | 0 <= i < |g'.nodes| && g'.nodes[i].Leaf? ensures LeafFound(g', i) {
      assert LeafFound(g, i);
    }
    forall i | i in g'.inputs ensures IsInput(g'.nodes, i) { assert IsInput(g.nodes, i); }
    forall n | n in g.ints ensures IsLeafOf(g'.nodes, g.ints[n], IntArg(n)) { assert IsLeafOf(g.nodes, g.ints[n], IntArg(n)); }
    forall n | n in g.doubles ensures IsLeafOf(g'.nodes, g.doubles[n], DoubleArg(n)) { assert IsLeafOf(g.nodes, g.doubles[n], DoubleArg(n)); }
    forall i | 0 <= i < |g.nodes| && i != l && i != r && g'.nodes[i].Apply? && !g'.nodes[i].root ensures HasParent(g'.nodes, i) {
      assert HasParent(g.nodes, i);
      var p :| 0 <= p < |g.nodes| && IsParent(g.nodes[p], i);
      assert IsParent(g'.nodes[p], i);
    }
  }

  /** Node `i` applies `op` to `left` and `right`, in either order if the operator commutes. */
  ghost predicate Applies(nodes: seq<Node>, i: Id, op: Op, left: Id, right: Id) {
    && i < |nodes| && nodes[i].Apply? && nodes[i].op == op
    && ((nodes[i].left == left && nodes[i].right == right)
        || ((op.Add? || op.Mul?) && nodes[i].left == right && nodes[i].right == left))
  }

  lemma NewNodeValid(addr: Id -> int, g: Graph, op: Op, left: Id, right: Id)
    requires Valid(g) && IsArith(op) && left < |g.nodes| && right < |g.nodes| && |g.nodes| <= MaxNodes
    ensures var f := NewNode(addr, g, op, left, right);
            && Valid(f.g) && Grows(g, f.g) && f.g.at == g.at && |f.g.nodes| <= |g.nodes| + 1
            && Applies(f.g.nodes, f.i, op, left, right)
  {
    var swap := Swaps(addr, op, left, right);
    var l, r := if swap then right else left, if swap then left else right;
    var g1 := g.(nodes := Mark(Mark(g.nodes, l), r));
    MarkedShape(g.nodes, l, r);
    MarkedValid(g, l, r);
    if MakeKey(op, l, r) in g.table {
      OldNodeValid(g1, op, l, r);
    } else {
      FreshNodeValid(g1, op, l, r);
    }
  }

  lemma OldNodeValid(g: Graph, op: Op, l: Id, r: Id)
    requires AlmostValid(g, l, r) && IsArith(op) && |g.nodes| <= MaxNodes && MakeKey(op, l, r) in g.table
    ensures Valid(g) && Applies(g.nodes, g.table[MakeKey(op, l, r)], op, l, r)
  {
    var i := g.table[MakeKey(op, l, r)];
    var n := g.nodes[i];
    assert NodeShape(n, i);
    KeyInjective(op, l, r, n.op, n.left, n.right);
    assert IsParent(n, l) && IsParent(n, r);
  }

  lemma FreshNodeValid(g: Graph, op: Op, l: Id, r: Id)
    requires AlmostValid(g, l, r) && IsArith(op) && MakeKey(op, l, r) !in g.table
    ensures Valid(g.(nodes := g.nodes + [Apply(op, l, r, [], true)], table := g.table[MakeKey(op, l, r) := Slot(g)]))
  {
    var n := Apply(op, l, r, [], true);
    var g' := g.(nodes := g.nodes + [n], table := g.table[MakeKey(op, l, r) := Slot(g)]);
    assert g'.nodes[|g.nodes|] == n;
    forall i | 0 <= i < |g'.nodes| ensures NodeShape(g'.nodes[i], i) {
      if i < |g.nodes| { assert NodeShape(g.nodes[i], i); }
    }
    FreshNodeLeaves(g, g', n);
    FreshNodeLists(g, g', n);
    FreshNodeTable(g, g', n);
    forall i | 0 <= i < |g'.nodes| && g'.nodes[i].Apply? && !g'.nodes[i].root ensures HasParent(g'.nodes, i) {
      if i == l || i == r {
        assert IsParent(g'.nodes[|g.nodes|], i);
      } else {
        assert HasParent(g.nodes, i);
        var p :| 0 <= p < |g.nodes| && IsParent(g.nodes[p], i);
        assert IsParent(g'.nodes[p], i);
      }
    }
  }

  lemma FreshNodeLists(g: Graph, g': Graph, n: Node)
    requires AtOk(g) && ListsOk(g) && n.Apply? && n.vars == [] && g'.nodes == g.nodes + [n] && g'.at == g.at
    ensures AtOk(g') && ListsOk(g')
  {}

  lemma FreshNodeTable(g: Graph, g': Graph, n: Node)
    requires TableOk(g) && n.Apply? && KeyOf(n) !in g.table
    requires g'.nodes == g.nodes + [n] && g'.table == g.table[KeyOf(n) := Slot(g)]
    ensures TableOk(g')
  {}

  lemma FreshNodeLeaves(g: Graph, g': Graph, n: Node)
    requires LeavesOk(g) && n.Apply? && g' == g.(nodes := g.nodes + [n], table := g'.table)
    ensures LeavesOk(g')
  {
    forall i | 0 <= i < |g'.nodes| && g'.nodes[i].Leaf? ensures LeafFound(g', i) {
      assert LeafFound(g, i);
    }
    forall i | i in g'.inputs ensures IsInput(g'.nodes, i) { assert IsInput(g.nodes, i); }
  }

  // ---------- giving a value to a variable ----------

  lemma {:induction false} EraseOnce(vs: seq<Var>, v: Var)
    requires Once(vs)
    ensures Once(Erase(vs, v)) && v !in Erase(vs, v)
    ensures forall w :: w in Erase(vs, v) <==> w in vs && w != v
  {
    if vs != [] {
      assert forall j :: 1 <= j < |vs| ==> vs[j] != vs[0];
      assert Once(vs[1..]);
      EraseOnce(vs[1..], v);
      var e := Erase(vs, v);
      if vs[0] == v {
        assert v !in vs[1..];
      } else {
        assert e == [vs[0]] + Erase(vs[1..], v);
        assert vs[0] !in vs[1..];
      }
    }
  }

  /** The list of node `k` once `v` has been taken from the node it was at. */
  function Detached(g: Graph, v: Var, k: Id): seq<Var>
    requires k < |g.nodes|
  {
    if v in g.at && g.at[v] == k && g.nodes[k].Apply? then Erase(g.nodes[k].vars, v) else g.nodes[k].vars
  }

  lemma RebindNodes(g: Graph, v: Var, i: Id)
    requires i < |g.nodes| && (v in g.at ==> g.at[v] < |g.nodes|)
    ensures var g' := Rebind(g, v, i);
            && Keeps(g.nodes, g'.nodes) && |g'.nodes| == |g.nodes| && g'.at == g.at[v := i]
            && g'.ints == g.ints && g'.doubles == g.doubles && g'.inputs == g.inputs && g'.table == g.table
            && (forall k :: 0 <= k < |g.nodes| && g.nodes[k].Apply? ==> g'.nodes[k].root == g.nodes[k].root)
            && (forall k :: 0 <= k < |g.nodes| ==>
                  g'.nodes[k].vars == if k == i then [v] + Detached(g, v, k) else Detached(g, v, k))
  {}

  lemma RebindLists(g: Graph, v: Var, i: Id, k: Id)
    requires Shape(g.nodes) && AtOk(g) && ListsOk(g) && i < |g.nodes| && k < |g.nodes|
    ensures var g' := Rebind(g, v, i);
            && (g.nodes[k].Apply? ==> Once(g'.nodes[k].vars))
            && (forall w :: w != v ==> (w in g'.nodes[k].vars <==> w in g.nodes[k].vars))
            && (k == i ==> v in g'.nodes[k].vars)
            && (k != i && g.nodes[k].Apply? ==> v !in g'.nodes[k].vars)
            && (g.nodes[k].Leaf? && v in g.nodes[k].vars ==> v in g'.nodes[k].vars)
  {
    RebindNodes(g, v, i);
    if g.nodes[k].Apply? { EraseOnce(g.nodes[k].vars, v); }
  }

  lemma RebindValid(g: Graph, v: Var, i: Id)
    requires Valid(g) && i < |g.nodes|
    ensures Valid(Rebind(g, v, i)) && Keeps(g.nodes, Rebind(g, v, i).nodes)
  {
    var g' := Rebind(g, v, i);
    RebindNodes(g, v, i);
    forall k | 0 <= k < |g.nodes| ensures NodeShape(g'.nodes[k], k) {
      assert NodeShape(g.nodes[k], k) && SameValue(g.nodes[k], g'.nodes[k]);
    }
    forall w | w in g'.at ensures g'.at[w] < |g'.nodes| && w in g'.nodes[g'.at[w]].vars {
      RebindLists(g, v, i, g'.at[w]);
    }
    RebindLeaves(g, v, i);
    forall k | 0 <= k < |g.nodes| && g'.nodes[k].Apply?
      ensures Once(g'.nodes[k].vars) && forall w :: w in g'.nodes[k].vars ==> w in g'.at && g'.at[w] == k
    {
      assert SameValue(g.nodes[k], g'.nodes[k]);
      RebindLists(g, v, i, k);
    }
    forall k | 0 <= k < |g.nodes| && g'.nodes[k].Apply? && !g'.nodes[k].root ensures HasParent(g'.nodes, k) {
      assert SameValue(g.nodes[k], g'.nodes[k]);
      var p :| 0 <= p < |g.nodes| && IsParent(g.nodes[p], k);
      assert SameValue(g.nodes[p], g'.nodes[p]) && IsParent(g'.nodes[p], k);
    }
    RebindTable(g, v, i);
  }

  lemma RebindTable(g: Graph, v: Var, i: Id)
    requires Valid(g) && i < |g.nodes|
    ensures TableOk(Rebind(g, v, i))
  {
    var g' := Rebind(g, v, i);
    RebindNodes(g, v, i);
    forall k | k in g'.table ensures g'.table[k] < |g'.nodes| && g'.nodes[g'.table[k]].Apply? && KeyOf(g'.nodes[g'.table[k]]) == k {
      assert SameValue(g.nodes[g.table[k]], g'.nodes[g.table[k]]);
    }
    forall k | 0 <= k < |g'.nodes| && g'.nodes[k].Apply? ensures KeyOf(g'.nodes[k]) in g'.table && g'.table[KeyOf(g'.nodes[k])] == k {
      assert SameValue(g.nodes[k], g'.nodes[k]);
    }
  }

  lemma RebindLeaves(g: Graph, v: Var, i: Id)
    requires Valid(g) && i < |g.nodes|
    ensures LeavesOk(Rebind(g, v, i))
  {
    var g' := Rebind(g, v, i);
    RebindNodes(g, v, i);
    forall k | 0 <= k < |g'.nodes| && g'.nodes[k].Leaf? ensures LeafFound(g', k) {
      assert SameValue(g.nodes[k], g'.nodes[k]) && LeafFound(g, k);
      RebindLists(g, v, i, k);
    }
    forall k | k in g'.inputs ensures IsInput(g'.nodes, k) {
      assert IsInput(g.nodes, k) && SameValue(g.nodes[k], g'.nodes[k]);
    }
    forall n | n in g.ints ensures IsLeafOf(g'.nodes, g.ints[n], IntArg(n)) {
      assert IsLeafOf(g.nodes, g.ints[n], IntArg(n)) && SameValue(g.nodes[g.ints[n]], g'.nodes[g.ints[n]]);
    }
    forall n | n in g.doubles ensures IsLeafOf(g'.nodes, g.doubles[n], DoubleArg(n)) {
      assert IsLeafOf(g.nodes, g.doubles[n], DoubleArg(n)) && SameValue(g.nodes[g.doubles[n]], g'.nodes[g.doubles[n]]);
    }
  }

  // ---------- reading a segment ----------

  /** The node that a quadruple computes. */
  function ReadValue(addr: Id -> int, g: Graph, q: Quad): Found
    requires IsPure(q) && Valid(g)
  {
    GetNodeValid(g, q.arg1);
    var a := GetNode(g, q.arg1);
    if q.op.Copy? then a
    else
      GetNodeValid(a.g, q.arg2);
      var b := GetNode(a.g, q.arg2);
      NewNode(addr, b.g, q.op, a.i, b.i)
  }

  lemma ReadValueValid(addr: Id -> int, g: Graph, q: Quad)
    requires Valid(g) && IsPure(q) && |g.nodes| + 2 <= MaxNodes
    ensures var f := ReadValue(addr, g, q);
            Valid(f.g) && Grows(g, f.g) && f.i < |f.g.nodes| && |f.g.nodes| <= |g.nodes| + 3
  {
    GetNodeValid(g, q.arg1);
    if !q.op.Copy? {
      var a := GetNode(g, q.arg1);
      GetNodeValid(a.g, q.arg2);
      var b := GetNode(a.g, q.arg2);
      NewNodeValid(addr, b.g, q.op, a.i, b.i);
      GrowsTrans(g, a.g, b.g);
      GrowsTrans(g, b.g, NewNode(addr, b.g, q.op, a.i, b.i).g);
    }
  }

  function ReadQuad(addr: Id -> int, g: Graph, q: Quad): Graph
    requires Valid(g) && IsPure(q) && |g.nodes| + 2 <= MaxNodes
  {
    ReadValueValid(addr, g, q);
    var f := ReadValue(addr, g, q);
    Rebind(f.g, q.result.v, f.i)
  }

  lemma ReadQuadValid(addr: Id -> int, g: Graph, q: Quad)
    requires Valid(g) && IsPure(q) && |g.nodes| + 2 <= MaxNodes
    ensures Valid(ReadQuad(addr, g, q)) && Keeps(g.nodes, ReadQuad(addr, g, q).nodes)
    ensures |ReadQuad(addr, g, q).nodes| <= |g.nodes| + 3
  {
    ReadValueValid(addr, g, q);
    var f := ReadValue(addr, g, q);
    RebindNodes(f.g, q.result.v, f.i);
    RebindValid(f.g, q.result.v, f.i);
    KeepsTrans(g.nodes, f.g.nodes, ReadQuad(addr, g, q).nodes);
  }

  predicate AllPure(qs: seq<Quad>) { forall i :: 0 <= i < |qs| ==> IsPure(qs[i]) }

  /** While a segment is read, ids stay small enough for keys. */
  ghost predicate Fits(addr: Id -> int, g: Graph, qs: seq<Quad>)
    requires Valid(g) && AllPure(qs)
    decreases |qs|
  {
    qs == [] ||
    (|g.nodes| + 2 <= MaxNodes && (ReadQuadValid(addr, g, qs[0]); Fits(addr, ReadQuad(addr, g, qs[0]), qs[1..])))
  }

  /** A quadruple makes at most three nodes. */
  lemma {:induction false} ShortFits(addr: Id -> int, g: Graph, qs: seq<Quad>)
    requires Valid(g) && AllPure(qs) && |g.nodes| + 3 * |qs| <= MaxNodes
    ensures Fits(addr, g, qs)
    decreases |qs|
  {
    if qs != [] {
      ReadQuadValid(addr, g, qs[0]);
      ShortFits(addr, ReadQuad(addr, g, qs[0]), qs[1..]);
    }
  }

  function ReadAll(addr: Id -> int, g: Graph, qs: seq<Quad>): (g': Graph)
    requires Valid(g) && AllPure(qs) && Fits(addr, g, qs)
    ensures Valid(g')
    decreases |qs|
  {
    if qs == [] then g
    else
      ReadQuadValid(addr, g, qs[0]);
      ReadAll(addr, ReadQuad(addr, g, qs[0]), qs[1..])
  }

  // ---------- soundness ----------

  ghost predicate Commutes(m: Machine) {
    forall a, b :: m.alu(Add, a, b) == m.alu(Add, b, a) && m.alu(Mul, a, b) == m.alu(Mul, b, a)
  }

  lemma OperandValue(m: Machine, g: Graph, a: Arg, before: Env, now: Env)
    requires Valid(g) && IsOperand(a) && Tracks(m, g, before, now)
    ensures var f := GetNode(g, a);
            && Valid(f.g) && f.i < |f.g.nodes| && Tracks(m, f.g, before, now)
            && Denote(m, f.g.nodes, f.i, before) == Eval(a, now)
  {
    GetNodeValid(g, a);
    var f := GetNode(g, a);
    TracksKept(m, g, f.g, before, now);
    if a.VarArg? { assert now[a.v] == Denote(m, f.g.nodes, f.i, before); }
  }

  /** The node of a quadruple denotes what the quadruple computes. */
  lemma ValueDenoted(m: Machine, addr: Id -> int, g: Graph, q: Quad, before: Env, s: State)
    requires Commutes(m) && Valid(g) && IsPure(q) && |g.nodes| + 2 <= MaxNodes && Tracks(m, g, before, s.env)
    ensures var f := ReadValue(addr, g, q);
            && Valid(f.g) && f.i < |f.g.nodes| && Tracks(m, f.g, before, s.env)
            && Denote(m, f.g.nodes, f.i, before) == Result(m, q, s)
  {
    OperandValue(m, g, q.arg1, before, s.env);
    ReadValueValid(addr, g, q);
    if !q.op.Copy? {
      var a := GetNode(g, q.arg1);
      OperandValue(m, a.g, q.arg2, before, s.env);
      var b := GetNode(a.g, q.arg2);
      GetNodeValid(a.g, q.arg2);
      GetNodeValid(g, q.arg1);
      DenoteKept(m, a.g.nodes, b.g.nodes, a.i, before);
      AppliedValue(m, addr, b.g, q.op, a.i, b.i, before);
      var f := NewNode(addr, b.g, q.op, a.i, b.i);
      NewNodeValid(addr, b.g, q.op, a.i, b.i);
      TracksKept(m, b.g, f.g, before, s.env);
    }
  }

  lemma AppliedValue(m: Machine, addr: Id -> int, g: Graph, op: Op, left: Id, right: Id, before: Env)
    requires Commutes(m) && Valid(g) && IsArith(op) && left < |g.nodes| && right < |g.nodes| && |g.nodes| <= MaxNodes
    ensures var f := NewNode(addr, g, op, left, right);
            && Valid(f.g) && f.i < |f.g.nodes|
            && Denote(m, f.g.nodes, f.i, before) == m.alu(op, Denote(m, g.nodes, left, before), Denote(m, g.nodes, right, before))
  {
    NewNodeValid(addr, g, op, left, right);
    var f := NewNode(addr, g, op, left, right);
    assert NodeShape(f.g.nodes[f.i], f.i);
    DenoteKept(m, g.nodes, f.g.nodes, left, before);
    DenoteKept(m, g.nodes, f.g.nodes, right, before);
  }

  lemma ExecPure(m: Machine, q: Quad, s: State)
    requires IsPure(q)
    ensures Exec(m, q, s).trace == s.trace && Exec(m, q, s).env[q.result.v] == Result(m, q, s)
    ensures forall w: Var :: w != q.result.v ==> Exec(m, q, s).env[w] == s.env[w]
  {}

  lemma ReadQuadTracks(m: Machine, addr: Id -> int, g: Graph, q: Quad, before: Env, s: State)
    requires Commutes(m) && Valid(g) && IsPure(q) && |g.nodes| + 2 <= MaxNodes && Tracks(m, g, before, s.env)
    ensures Valid(ReadQuad(addr, g, q)) && Tracks(m, ReadQuad(addr, g, q), before, Exec(m, q, s).env)
    ensures Exec(m, q, s).trace == s.trace
  {
    ReadQuadValid(addr, g, q);
    ValueDenoted(m, addr, g, q, before, s);
    ExecPure(m, q, s);
    var f := ReadValue(addr, g, q);
    RebindTracks(m, f.g, q.result.v, f.i, before, s.env, Exec(m, q, s).env);
  }

  lemma RebindTracks(m: Machine, g: Graph, v: Var, i: Id, before: Env, now: Env, now': Env)
    requires Valid(g) && i < |g.nodes| && Tracks(m, g, before, now)
    requires now'[v] == Denote(m, g.nodes, i, before) && forall w: Var :: w != v ==> now'[w] == now[w]
    ensures Valid(Rebind(g, v, i)) && Tracks(m, Rebind(g, v, i), before, now')
  {
    RebindValid(g, v, i);
    RebindNodes(g, v, i);
    var g' := Rebind(g, v, i);
    forall w: Var ensures now'[w] == if w in g'.at then Denote(m, g'.nodes, g'.at[w], before) else before[w] {
      if w in g'.at { DenoteKept(m, g.nodes, g'.nodes, g'.at[w], before); }
    }
  }

  /** After a segment has been read, the node of every variable denotes its value. */
  lemma {:induction false} ReadSound(m: Machine, addr: Id -> int, g: Graph, qs: seq<Quad>, before: Env, s: State)
    requires Commutes(m) && Valid(g) && AllPure(qs) && Fits(addr, g, qs) && Tracks(m, g, before, s.env)
    ensures Tracks(m, ReadAll(addr, g, qs), before, RunBlock(m, qs, s).env) && RunBlock(m, qs, s).trace == s.trace
    decreases |qs|
  {
    if qs != [] {
      ReadQuadTracks(m, addr, g, qs[0], before, s);
      ReadSound(m, addr, ReadQuad(addr, g, qs[0]), qs[1..], before, Exec(m, qs[0], s));
    }
  }

  // ---------- sharing ----------

  ghost predicate Distinct(addr: Id -> int) { forall i, j :: i != j ==> addr(i) != addr(j) }

  ghost predicate Ordered(addr: Id -> int, nodes: seq<Node>) {
    forall i :: 0 <= i < |nodes| ==> NodeOrdered(addr, nodes[i])
  }

  ghost predicate NodeOrdered(addr: Id -> int, n: Node) { n.Apply? && (n.op.Add? || n.op.Mul?) ==> addr(n.left) <= addr(n.right) }

  /** A computation gets an existing node if and only if that node applies the same operator to the same operands. */
  lemma SharedIff(addr: Id -> int, g: Graph, op: Op, left: Id, right: Id, i: Id)
    requires Valid(g) && Ordered(addr, g.nodes) && Distinct(addr) && |g.nodes| <= MaxNodes
    requires IsArith(op) && left < |g.nodes| && right < |g.nodes| && i < |g.nodes|
    ensures NewNode(addr, g, op, left, right).i == i <==> Applies(g.nodes, i, op, left, right)
  {
    NewNodeValid(addr, g, op, left, right);
    var f := NewNode(addr, g, op, left, right);
    assert SameValue(g.nodes[i], f.g.nodes[i]);
    if Applies(g.nodes, i, op, left, right) {
      var n := g.nodes[i];
      assert NodeOrdered(addr, n);
      assert KeyOf(n) in g.table && g.table[KeyOf(n)] == i;
    }
  }

  /** Operands of other operators than addition and multiplication stay where they are, and exchanging them gives another node. */
  lemma OperandOrder(addr: Id -> int, g: Graph, op: Op, left: Id, right: Id)
    requires Valid(g) && Ordered(addr, g.nodes) && Distinct(addr) && |g.nodes| < MaxNodes
    requires op.Sub? || op.Div? || op.Mod?
    requires left < |g.nodes| && right < |g.nodes| && left != right
    ensures var f := NewNode(addr, g, op, left, right);
            && f.i < |f.g.nodes| && f.g.nodes[f.i].Apply? && f.g.nodes[f.i].op == op
            && f.g.nodes[f.i].left == left && f.g.nodes[f.i].right == right
            && NewNode(addr, f.g, op, right, left).i != f.i && NewNode(addr, f.g, op, left, right).i == f.i
  {
    NewNodeValid(addr, g, op, left, right);
    NewNodeOrdered(addr, g, op, left, right);
    var f := NewNode(addr, g, op, left, right);
    SharedIff(addr, f.g, op, right, left, f.i);
    SharedIff(addr, f.g, op, left, right, f.i);
  }

  lemma NewNodeOrdered(addr: Id -> int, g: Graph, op: Op, left: Id, right: Id)
    requires Ordered(addr, g.nodes) && left < |g.nodes| && right < |g.nodes|
    ensures Ordered(addr, NewNode(addr, g, op, left, right).g.nodes)
  {
    var f := NewNode(addr, g, op, left, right);
    forall i | 0 <= i < |f.g.nodes| ensures NodeOrdered(addr, f.g.nodes[i]) {
      if i < |g.nodes| { assert NodeOrdered(addr, g.nodes[i]); }
    }
  }

  lemma ReadQuadOrdered(addr: Id -> int, g: Graph, q: Quad)
    requires Valid(g) && IsPure(q) && |g.nodes| + 2 <= MaxNodes && Ordered(addr, g.nodes)
    ensures Ordered(addr, ReadQuad(addr, g, q).nodes)
  {
    GetNodeValid(g, q.arg1);
    var a := GetNode(g, q.arg1);
    LeafOrdered(addr, g, q.arg1);
    var f := ReadValue(addr, g, q);
    if !q.op.Copy? {
      GetNodeValid(a.g, q.arg2);
      LeafOrdered(addr, a.g, q.arg2);
      var b := GetNode(a.g, q.arg2);
      NewNodeOrdered(addr, b.g, q.op, a.i, b.i);
    }
    ReadValueValid(addr, g, q);
    RebindNodes(f.g, q.result.v, f.i);
    forall i | 0 <= i < |f.g.nodes| ensures NodeOrdered(addr, ReadQuad(addr, g, q).nodes[i]) {
      assert NodeOrdered(addr, f.g.nodes[i]);
      assert SameValue(f.g.nodes[i], ReadQuad(addr, g, q).nodes[i]);
    }
  }

  lemma LeafOrdered(addr: Id -> int, g: Graph, a: Arg)
    requires IsOperand(a) && Ordered(addr, g.nodes)
    ensures Ordered(addr, GetNode(g, a).g.nodes)
  {
    var f := GetNode(g, a);
    forall i | 0 <= i < |f.g.nodes| ensures NodeOrdered(addr, f.g.nodes[i]) {
      if i < |g.nodes| { assert NodeOrdered(addr, g.nodes[i]); }
    }
  }

  lemma {:induction false} ReadAllOrdered(addr: Id -> int, g: Graph, qs: seq<Quad>)
    requires Valid(g) && AllPure(qs) && Fits(addr, g, qs) && Ordered(addr, g.nodes)
    ensures Ordered(addr, ReadAll(addr, g, qs).nodes)
    decreases |qs|
  {
    if qs != [] {
      ReadQuadOrdered(addr, g, qs[0]);
      ReadQuadValid(addr, g, qs[0]);
      ReadAllOrdered(addr, ReadQuad(addr, g, qs[0]), qs[1..]);
    }
  }

  // ---------- roots ----------

  /** The operands of a node are roots no longer. */
  ghost predicate OperandsMarked(nodes: seq<Node>, p: Id)
    requires p < |nodes|
  {
    nodes[p].Apply? ==> IsMarked(nodes, nodes[p].left) && IsMarked(nodes, nodes[p].right)
  }

  ghost predicate IsMarked(nodes: seq<Node>, i: Id) { i < |nodes| && nodes[i].Apply? ==> !nodes[i].root }

  ghost predicate AllMarked(nodes: seq<Node>) {
    forall p :: 0 <= p < |nodes| ==> OperandsMarked(nodes, p)
  }

  /** Marks are kept. */
  ghost predicate MarksKept(nodes: seq<Node>, nodes': seq<Node>) {
    |nodes| <= |nodes'| && forall i :: 0 <= i < |nodes| && nodes[i].Apply? && !nodes[i].root ==> nodes'[i].Apply? && !nodes'[i].root
  }

  lemma MarkedLater(nodes: seq<Node>, nodes': seq<Node>, p: Id)
    requires Shape(nodes) && Keeps(nodes, nodes') && MarksKept(nodes, nodes') && p < |nodes| && OperandsMarked(nodes, p)
    ensures OperandsMarked(nodes', p)
  {
    assert NodeShape(nodes[p], p) && SameValue(nodes[p], nodes'[p]);
    if nodes[p].Apply? {
      assert SameValue(nodes[nodes[p].left], nodes'[nodes[p].left]);
      assert SameValue(nodes[nodes[p].right], nodes'[nodes[p].right]);
    }
  }

  lemma GetNodeMarked(g: Graph, a: Arg)
    requires Valid(g) && IsOperand(a) && AllMarked(g.nodes)
    ensures AllMarked(GetNode(g, a).g.nodes)
  {
    GetNodeValid(g, a);
    var nodes := GetNode(g, a).g.nodes;
    forall p | 0 <= p < |nodes| ensures OperandsMarked(nodes, p) {
      if p < |g.nodes| { MarkedLater(g.nodes, nodes, p); }
    }
  }

  lemma NewNodeMarked(addr: Id -> int, g: Graph, op: Op, left: Id, right: Id)
    requires Valid(g) && IsArith(op) && left < |g.nodes| && right < |g.nodes| && |g.nodes| <= MaxNodes && AllMarked(g.nodes)
    ensures AllMarked(NewNode(addr, g, op, left, right).g.nodes)
  {
    var nodes := NewNode(addr, g, op, left, right).g.nodes;
    NewNodeKeeps(addr, g, op, left, right);
    NewNodeMarks(addr, g, op, left, right);
    forall p | 0 <= p < |nodes| ensures OperandsMarked(nodes, p) {
      if p < |g.nodes| { MarkedLater(g.nodes, nodes, p); }
    }
  }

  lemma NewNodeKeeps(addr: Id -> int, g: Graph, op: Op, left: Id, right: Id)
    requires Valid(g) && IsArith(op) && left < |g.nodes| && right < |g.nodes| && |g.nodes| <= MaxNodes
    ensures Keeps(g.nodes, NewNode(addr, g, op, left, right).g.nodes)
  {
    NewNodeValid(addr, g, op, left, right);
  }

  lemma NewNodeMarks(addr: Id -> int, g: Graph, op: Op, left: Id, right: Id)
    requires left < |g.nodes| && right < |g.nodes|
    ensures var nodes := NewNode(addr, g, op, left, right).g.nodes;
            MarksKept(g.nodes, nodes) && forall p :: |g.nodes| <= p < |nodes| ==> OperandsMarked(nodes, p)
  {}

  lemma ReadQuadMarked(addr: Id -> int, g: Graph, q: Quad)
    requires Valid(g) && IsPure(q) && |g.nodes| + 2 <= MaxNodes && AllMarked(g.nodes)
    ensures AllMarked(ReadQuad(addr, g, q).nodes)
  {
    var f := ReadValue(addr, g, q);
    ReadValueValid(addr, g, q);
    ReadValueMarked(addr, g, q);
    RebindMarked(f.g, q.result.v, f.i);
  }

  lemma ReadValueMarked(addr: Id -> int, g: Graph, q: Quad)
    requires Valid(g) && IsPure(q) && |g.nodes| + 2 <= MaxNodes && AllMarked(g.nodes)
    ensures AllMarked(ReadValue(addr, g, q).g.nodes)
  {
    GetNodeValid(g, q.arg1);
    GetNodeMarked(g, q.arg1);
    if !q.op.Copy? {
      var a := GetNode(g, q.arg1);
      GetNodeValid(a.g, q.arg2);
      GetNodeMarked(a.g, q.arg2);
      NewNodeMarked(addr, GetNode(a.g, q.arg2).g, q.op, a.i, GetNode(a.g, q.arg2).i);
    }
  }

  lemma RebindMarked(g: Graph, v: Var, i: Id)
    requires Shape(g.nodes) && AtOk(g) && i < |g.nodes| && AllMarked(g.nodes)
    ensures AllMarked(Rebind(g, v, i).nodes)
  {
    RebindNodes(g, v, i);
    var nodes := Rebind(g, v, i).nodes;
    assert forall k :: 0 <= k < |g.nodes| ==> SameValue(g.nodes[k], nodes[k]);
    forall p | 0 <= p < |nodes| ensures OperandsMarked(nodes, p) { MarkedLater(g.nodes, nodes, p); }
  }

  lemma {:induction false} ReadAllMarked(addr: Id -> int, g: Graph, qs: seq<Quad>)
    requires Valid(g) && AllPure(qs) && Fits(addr, g, qs) && AllMarked(g.nodes)
    ensures AllMarked(ReadAll(addr, g, qs).nodes)
    decreases |qs|
  {
    if qs != [] {
      ReadQuadMarked(addr, g, qs[0]);
      ReadQuadValid(addr, g, qs[0]);
      ReadAllMarked(addr, ReadQuad(addr, g, qs[0]), qs[1..]);
    }
  }

  /** The roots are exactly the operators that are not an operand of any node. */
  lemma RootIff(addr: Id -> int, qs: seq<Quad>, i: Id)
    requires Valid(EmptyGraph) && AllPure(qs) && Fits(addr, EmptyGraph, qs)
    requires i < |ReadAll(addr, EmptyGraph, qs).nodes| && ReadAll(addr, EmptyGraph, qs).nodes[i].Apply?
    ensures var nodes := ReadAll(addr, EmptyGraph, qs).nodes;
            nodes[i].root <==> forall p :: 0 <= p < |nodes| && nodes[p].Apply? ==> nodes[p].left != i && nodes[p].right != i
  {
    var nodes := ReadAll(addr, EmptyGraph, qs).nodes;
    ReadAllMarked(addr, EmptyGraph, qs);
    if nodes[i].root {
      forall p | 0 <= p < |nodes| && nodes[p].Apply? ensures nodes[p].left != i && nodes[p].right != i {
        assert OperandsMarked(nodes, p);
      }
    } else {
      assert HasParent(nodes, i);
      var p :| 0 <= p < |nodes| && IsParent(nodes[p], i);
    }
  }
}
