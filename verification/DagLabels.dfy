/**
  Labels of nodes, computed from the graph alone. Nodes with equal labels have equal values on
  every machine, and there is a machine and a state in which the value of every node is its
  label. The code of a graph is compared with the graph by labels.
  */
module DagLabels {
  import opened Quadr
  import opened Dag
  import opened DagEmit
  import opened DagOrder

  /** The value of an operation on constants, if the compiler may fold it. */
  function FoldValue(fold: Folding, op: Op, a: Value, b: Value): Option<Value> {
    if a.IntV? && b.IntV? && NonZero(op, b.n == 0) then Some(IntV(fold.ints(op, a.n, b.n)))
    else if a.RealV? && b.RealV? && NonZero(op, b.r == 0.0) then Some(RealV(fold.doubles(op, a.r, b.r)))
    else None
  }

  predicate SameOperands(op: Op, a: Value, b: Value, a': Value, b': Value) {
    (a == a' && b == b') || ((op.Add? || op.Mul?) && a == b' && b == a')
  }

  /** A constant, an input, or the first node that applies the operator to operands with the same labels. */
  ghost function Label(fold: Folding, nodes: seq<Node>, i: Id): Value
    requires Shape(nodes) && i < |nodes|
    decreases i, 2
  {
    assert NodeShape(nodes[i], i);
    match nodes[i]
    case Leaf(a, _) => if a.VarArg? then ConstV(a) else Eval(a, ZeroEnv())
    case Apply(op, l, r, _, _) =>
      var a, b := Label(fold, nodes, l), Label(fold, nodes, r);
      var k := FoldValue(fold, op, a, b);
      if k.Some? then k.value else OtherV(FindNode(fold, nodes, op, a, b, i))
  }

  ghost predicate Matches(fold: Folding, nodes: seq<Node>, op: Op, a: Value, b: Value, i: Id)
    requires Shape(nodes) && i < |nodes|
    decreases i, 1
  {
    assert NodeShape(nodes[i], i);
    nodes[i].Apply? && nodes[i].op == op
    && SameOperands(op, a, b, Label(fold, nodes, nodes[i].left), Label(fold, nodes, nodes[i].right))
  }

  /** The first matching node before `n`, or else `n`. */
  ghost function FindNode(fold: Folding, nodes: seq<Node>, op: Op, a: Value, b: Value, n: Id): Id
    requires Shape(nodes) && n <= |nodes|
    decreases n, 0
  {
    if n == 0 then 0
    else
      var i := FindNode(fold, nodes, op, a, b, n - 1);
      if i == n - 1 && !Matches(fold, nodes, op, a, b, n - 1) then n else i
  }

  lemma {:induction false} FindMatches(fold: Folding, nodes: seq<Node>, op: Op, a: Value, b: Value, n: Id)
    requires Shape(nodes) && n <= |nodes|
    ensures var k := FindNode(fold, nodes, op, a, b, n); k <= n && (k < n ==> Matches(fold, nodes, op, a, b, k))
  {
    if n > 0 { FindMatches(fold, nodes, op, a, b, n - 1); }
  }

  lemma {:induction false} FindLeast(fold: Folding, nodes: seq<Node>, op: Op, a: Value, b: Value, n: Id, j: Id)
    requires Shape(nodes) && n <= |nodes| && j < FindNode(fold, nodes, op, a, b, n)
    ensures j < n && !Matches(fold, nodes, op, a, b, j)
  {
    FindMatches(fold, nodes, op, a, b, n);
    if n > 0 {
      FindMatches(fold, nodes, op, a, b, n - 1);
      if j < n - 1 { FindLeast(fold, nodes, op, a, b, n - 1, j); }
    }
  }

  /** Searching on does not change what has been found. */
  lemma FindStays(fold: Folding, nodes: seq<Node>, op: Op, a: Value, b: Value, i: Id)
    requires Shape(nodes) && i < |nodes| && Matches(fold, nodes, op, a, b, i)
    ensures FindNode(fold, nodes, op, a, b, |nodes|) == FindNode(fold, nodes, op, a, b, i)
  {
    var k, k' := FindNode(fold, nodes, op, a, b, i), FindNode(fold, nodes, op, a, b, |nodes|);
    FindMatches(fold, nodes, op, a, b, i);
    FindMatches(fold, nodes, op, a, b, |nodes|);
    if k < k' { FindLeast(fold, nodes, op, a, b, |nodes|, k); }
    if k' < k { FindLeast(fold, nodes, op, a, b, i, k'); }
  }

  lemma MatchSwapped(fold: Folding, nodes: seq<Node>, op: Op, a: Value, b: Value, i: Id)
    requires Shape(nodes) && i < |nodes| && (op.Add? || op.Mul?)
    ensures Matches(fold, nodes, op, a, b, i) == Matches(fold, nodes, op, b, a, i)
  {}

  lemma {:induction false} FindSwapped(fold: Folding, nodes: seq<Node>, op: Op, a: Value, b: Value, n: Id)
    requires Shape(nodes) && n <= |nodes| && (op.Add? || op.Mul?)
    ensures FindNode(fold, nodes, op, a, b, n) == FindNode(fold, nodes, op, b, a, n)
  {
    if n > 0 {
      FindSwapped(fold, nodes, op, a, b, n - 1);
      MatchSwapped(fold, nodes, op, a, b, n - 1);
    }
  }

  // ---------- a machine that tells labels apart ----------

  ghost function GenericAlu(fold: Folding, nodes: seq<Node>, op: Op, a: Value, b: Value): Value
    requires Shape(nodes)
  {
    var k := FoldValue(fold, op, a, b);
    if k.Some? then k.value else OtherV(FindNode(fold, nodes, op, a, b, |nodes|))
  }

  ghost function Generic(fold: Folding, nodes: seq<Node>): Machine
    requires Shape(nodes)
  {
    Machine((op, a, b) => GenericAlu(fold, nodes, op, a, b), (a, b, t) => IntV(0), (a, t) => IntV(0), (a, b) => 0)
  }

  ghost function GenericEnv(): Env { imap v: Var | IsVar(v) :: ConstV(VarArg(v)) }

  ghost predicate FoldCommutes(fold: Folding) {
    && (forall a, b :: fold.ints(Add, a, b) == fold.ints(Add, b, a) && fold.ints(Mul, a, b) == fold.ints(Mul, b, a))
    && (forall a, b :: fold.doubles(Add, a, b) == fold.doubles(Add, b, a) && fold.doubles(Mul, a, b) == fold.doubles(Mul, b, a))
  }

  lemma GenericOk(fold: Folding, nodes: seq<Node>)
    requires Shape(nodes) && FoldCommutes(fold)
    ensures Commutes(Generic(fold, nodes)) && Agrees(Generic(fold, nodes), fold)
  {
    var m := Generic(fold, nodes);
    forall op: Op, a, b | op.Add? || op.Mul? ensures m.alu(op, a, b) == m.alu(op, b, a) {
      FindSwapped(fold, nodes, op, a, b, |nodes|);
    }
  }

  /** On that machine the value of every node is its label. */
  lemma {:induction false} DenoteGeneric(fold: Folding, nodes: seq<Node>, i: Id)
    requires Shape(nodes) && i < |nodes|
    ensures Denote(Generic(fold, nodes), nodes, i, GenericEnv()) == Label(fold, nodes, i)
    decreases i
  {
    assert NodeShape(nodes[i], i);
    if nodes[i].Apply? {
      var a, b := Label(fold, nodes, nodes[i].left), Label(fold, nodes, nodes[i].right);
      DenoteGeneric(fold, nodes, nodes[i].left);
      DenoteGeneric(fold, nodes, nodes[i].right);
      assert Matches(fold, nodes, nodes[i].op, a, b, i);
      FindStays(fold, nodes, nodes[i].op, a, b, i);
    }
  }

  // ---------- equal labels, equal values ----------

  lemma {:induction false} ConstLabel(m: Machine, fold: Folding, nodes: seq<Node>, i: Id, env: Env)
    requires Shape(nodes) && i < |nodes| && Agrees(m, fold)
    requires Label(fold, nodes, i).IntV? || Label(fold, nodes, i).RealV?
    ensures Denote(m, nodes, i, env) == Label(fold, nodes, i)
    decreases i
  {
    assert NodeShape(nodes[i], i);
    if nodes[i].Apply? {
      ConstLabel(m, fold, nodes, nodes[i].left, env);
      ConstLabel(m, fold, nodes, nodes[i].right, env);
    }
  }

  lemma InputLabel(fold: Folding, nodes: seq<Node>, i: Id, a: Arg)
    requires Shape(nodes) && i < |nodes| && Label(fold, nodes, i) == ConstV(a)
    ensures a.VarArg? && nodes[i].Leaf? && nodes[i].arg == a
  {
    assert NodeShape(nodes[i], i);
  }

  lemma {:induction false} OtherLabel(m: Machine, fold: Folding, nodes: seq<Node>, i: Id, k: int, env: Env)
    requires Shape(nodes) && i < |nodes| && Agrees(m, fold) && Commutes(m) && Label(fold, nodes, i) == OtherV(k)
    ensures 0 <= k <= i && Denote(m, nodes, i, env) == Denote(m, nodes, k, env)
    decreases 2 * i, 0
  {
    assert NodeShape(nodes[i], i);
    var op, l, r := nodes[i].op, nodes[i].left, nodes[i].right;
    var a, b := Label(fold, nodes, l), Label(fold, nodes, r);
    FindMatches(fold, nodes, op, a, b, i);
    if k < i {
      assert NodeShape(nodes[k], k);
      var l', r' := nodes[k].left, nodes[k].right;
      if a == Label(fold, nodes, l') && b == Label(fold, nodes, r') {
        EqualLabels(m, fold, nodes, l, l', env);
        EqualLabels(m, fold, nodes, r, r', env);
      } else {
        EqualLabels(m, fold, nodes, l, r', env);
        EqualLabels(m, fold, nodes, r, l', env);
      }
    }
  }

  /** Nodes with equal labels have equal values on every machine. */
  lemma {:induction false} EqualLabels(m: Machine, fold: Folding, nodes: seq<Node>, i: Id, j: Id, env: Env)
    requires Shape(nodes) && i < |nodes| && j < |nodes| && Agrees(m, fold) && Commutes(m)
    requires Label(fold, nodes, i) == Label(fold, nodes, j)
    ensures Denote(m, nodes, i, env) == Denote(m, nodes, j, env)
    decreases if i > j then 2 * i else 2 * j, 1
  {
    match Label(fold, nodes, i)
    case OtherV(k) =>
      OtherLabel(m, fold, nodes, i, k, env);
      OtherLabel(m, fold, nodes, j, k, env);
    case ConstV(a) =>
      InputLabel(fold, nodes, i, a);
      InputLabel(fold, nodes, j, a);
    case _ =>
      ConstLabel(m, fold, nodes, i, env);
      ConstLabel(m, fold, nodes, j, env);
  }

  // ---------- the graph, and what its code computes ----------

  /** A node as its code computes it: a division of constants by zero has become a constant. */
  ghost function Repaired(fold: Folding, nodes: seq<Node>, i: Id): Node
    requires Shape(nodes) && i < |nodes|
  {
    match nodes[i]
    case Leaf(_, _) => nodes[i]
    case Apply(op, l, r, vs, root) =>
      if ZeroDivision(fold, nodes, i) then Leaf(FoldedTo(fold, nodes, i), vs)
      else Apply(op, |nodes| + l, |nodes| + r, vs, root)
  }

  /** The nodes, and behind them the nodes as they are computed. */
  ghost function Both(fold: Folding, nodes: seq<Node>): (r: seq<Node>)
    requires Shape(nodes)
    ensures |r| == 2 * |nodes| && Shape(r) && Keeps(nodes, r)
  {
    var r := nodes + seq(|nodes|, i requires 0 <= i < |nodes| => Repaired(fold, nodes, i));
    BothShape(fold, nodes, r);
    r
  }

  lemma BothShape(fold: Folding, nodes: seq<Node>, r: seq<Node>)
    requires Shape(nodes) && |r| == 2 * |nodes| && r[..|nodes|] == nodes
    requires forall i :: 0 <= i < |nodes| ==> r[|nodes| + i] == Repaired(fold, nodes, i)
    ensures Shape(r) && Keeps(nodes, r)
  {
    forall k | 0 <= k < |r| ensures NodeShape(r[k], k) {
      if k < |nodes| {
        assert r[k] == nodes[k] && NodeShape(nodes[k], k);
      } else {
        assert r[|nodes| + (k - |nodes|)] == Repaired(fold, nodes, k - |nodes|) && NodeShape(nodes[k - |nodes|], k - |nodes|);
      }
    }
    forall k | 0 <= k < |nodes| ensures SameValue(nodes[k], r[k]) { assert r[k] == nodes[k]; }
  }

  lemma {:induction false} ComputedIsDenoted(m: Machine, fold: Folding, nodes: seq<Node>, i: Id, env: Env)
    requires Shape(nodes) && i < |nodes|
    ensures Denote(m, Both(fold, nodes), |nodes| + i, env) == Computed(m, fold, nodes, i, env)
    decreases i
  {
    assert NodeShape(nodes[i], i);
    if nodes[i].Apply? && !ZeroDivision(fold, nodes, i) {
      ComputedIsDenoted(m, fold, nodes, nodes[i].left, env);
      ComputedIsDenoted(m, fold, nodes, nodes[i].right, env);
    }
  }

  ghost function LabelOr(fold: Folding, nodes: seq<Node>, o: Option<Id>, x: Var): Value
    requires Shape(nodes) && (o.Some? ==> o.value < |nodes|)
  {
    if o.Some? then Label(fold, nodes, o.value) else ConstV(VarArg(x))
  }

  ghost function ValueOr(m: Machine, nodes: seq<Node>, o: Option<Id>, x: Var, env: Env): Value
    requires Shape(nodes) && (o.Some? ==> o.value < |nodes|)
  {
    if o.Some? then Denote(m, nodes, o.value, env) else env[x]
  }

  lemma EqualOr(m: Machine, fold: Folding, nodes: seq<Node>, o: Option<Id>, o': Option<Id>, x: Var, env: Env)
    requires Shape(nodes) && (o.Some? ==> o.value < |nodes|) && (o'.Some? ==> o'.value < |nodes|)
    requires Agrees(m, fold) && Commutes(m) && LabelOr(fold, nodes, o, x) == LabelOr(fold, nodes, o', x)
    ensures ValueOr(m, nodes, o, x, env) == ValueOr(m, nodes, o', x, env)
  {
    if o.Some? && o'.Some? {
      EqualLabels(m, fold, nodes, o.value, o'.value, env);
    } else if o.Some? {
      InputLabel(fold, nodes, o.value, VarArg(x));
    } else if o'.Some? {
      InputLabel(fold, nodes, o'.value, VarArg(x));
    }
  }

  lemma GenericOr(fold: Folding, nodes: seq<Node>, o: Option<Id>, x: Var)
    requires Shape(nodes) && (o.Some? ==> o.value < |nodes|)
    ensures ValueOr(Generic(fold, nodes), nodes, o, x, GenericEnv()) == LabelOr(fold, nodes, o, x)
  {
    if o.Some? { DenoteGeneric(fold, nodes, o.value); }
  }

  /** The node of a variable. */
  function NodeOf(g: Graph, x: Var): Option<Id> { if x in g.at then Some(g.at[x]) else None }

  /** What the variable gets from the code, as a node behind those of the graph. */
  function CodeOf(g: Graph, copies: seq<Id>, x: Var): (r: Option<Id>)
    ensures r.Some? ==> r.value < 2 * |g.nodes|
  {
    var o := LastSetter(g.nodes, copies, x);
    if o.Some? then Some(|g.nodes| + o.value) else None
  }

  lemma FinalOr(m: Machine, fold: Folding, g: Graph, copies: seq<Id>, x: Var, env: Env)
    requires Shape(g.nodes)
    ensures FinalValue(m, fold, g.nodes, copies, x, env) == ValueOr(m, Both(fold, g.nodes), CodeOf(g, copies, x), x, env)
  {
    FinalSetter(m, fold, g.nodes, copies, x, env);
    var o := LastSetter(g.nodes, copies, x);
    if o.Some? { ComputedIsDenoted(m, fold, g.nodes, o.value, env); }
  }

  lemma CurrentOr(m: Machine, fold: Folding, g: Graph, x: Var, env: Env)
    requires Shape(g.nodes) && AtOk(g)
    ensures CurrentValue(m, g, x, env) == ValueOr(m, Both(fold, g.nodes), NodeOf(g, x), x, env)
  {
    if x in g.at { DenoteKept(m, g.nodes, Both(fold, g.nodes), g.at[x], env); }
  }

  /** What the code copies to the variable last has the label of its node. */
  ghost predicate LabelMatches(fold: Folding, g: Graph, copies: seq<Id>, x: Var)
    requires Shape(g.nodes) && AtOk(g)
  {
    LabelOr(fold, Both(fold, g.nodes), CodeOf(g, copies, x), x) == LabelOr(fold, Both(fold, g.nodes), NodeOf(g, x), x)
  }

  ghost predicate LabelsMatch(fold: Folding, g: Graph, order: seq<Id>, vars: Var)
    requires Valid(g) && forall k :: 0 <= k < |order| ==> order[k] < |g.nodes|
  {
    forall x: Var :: x < vars ==> LabelMatches(fold, g, CopyOrder(g, order), x)
  }

  /** Where labels match, the code leaves the value the variable should have. */
  lemma MatchShows(m: Machine, fold: Folding, g: Graph, copies: seq<Id>, x: Var, env: Env)
    requires Commutes(m) && Agrees(m, fold) && Shape(g.nodes) && AtOk(g) && LabelMatches(fold, g, copies, x)
    ensures FinalValue(m, fold, g.nodes, copies, x, env) == CurrentValue(m, g, x, env)
  {
    FinalOr(m, fold, g, copies, x, env);
    CurrentOr(m, fold, g, x, env);
    EqualOr(m, fold, Both(fold, g.nodes), CodeOf(g, copies, x), NodeOf(g, x), x, env);
  }

  /** Where they do not, there is a machine on which it does not. */
  lemma MismatchShows(fold: Folding, g: Graph, copies: seq<Id>, x: Var)
    requires Shape(g.nodes) && AtOk(g) && !LabelMatches(fold, g, copies, x)
    ensures var m := Generic(fold, Both(fold, g.nodes));
            FinalValue(m, fold, g.nodes, copies, x, GenericEnv()) != CurrentValue(m, g, x, GenericEnv())
  {
    var nodes := Both(fold, g.nodes);
    FinalOr(Generic(fold, nodes), fold, g, copies, x, GenericEnv());
    CurrentOr(Generic(fold, nodes), fold, g, x, GenericEnv());
    GenericOr(fold, nodes, CodeOf(g, copies, x), x);
    GenericOr(fold, nodes, NodeOf(g, x), x);
  }

  // ---------- clean lists ----------

  lemma FindSame(fold: Folding, nodes: seq<Node>, op: Op, a: Value, b: Value, i: Id, j: Id)
    requires Shape(nodes) && i <= j < |nodes| && Matches(fold, nodes, op, a, b, i)
    ensures FindNode(fold, nodes, op, a, b, j) == FindNode(fold, nodes, op, a, b, i)
  {
    var k, k' := FindNode(fold, nodes, op, a, b, i), FindNode(fold, nodes, op, a, b, j);
    FindMatches(fold, nodes, op, a, b, i);
    FindMatches(fold, nodes, op, a, b, j);
    if k < k' { FindLeast(fold, nodes, op, a, b, j, k); }
    if k' < k { FindLeast(fold, nodes, op, a, b, i, k'); }
  }

  /** A later node that applies the same operator to operands with the same labels has the same label. */
  lemma LaterLabel(fold: Folding, nodes: seq<Node>, i: Id, j: Id)
    requires Shape(nodes) && i <= j < |nodes| && nodes[i].Apply? && nodes[j].Apply? && nodes[i].op == nodes[j].op
    requires NodeShape(nodes[i], i) && NodeShape(nodes[j], j)
    requires Label(fold, nodes, nodes[i].left) == Label(fold, nodes, nodes[j].left)
    requires Label(fold, nodes, nodes[i].right) == Label(fold, nodes, nodes[j].right)
    ensures Label(fold, nodes, i) == Label(fold, nodes, j)
  {
    var a, b := Label(fold, nodes, nodes[i].left), Label(fold, nodes, nodes[i].right);
    assert Matches(fold, nodes, nodes[i].op, a, b, i);
    FindSame(fold, nodes, nodes[i].op, a, b, i, j);
  }

  lemma BothAt(fold: Folding, nodes: seq<Node>, i: Id)
    requires Shape(nodes) && i < |nodes|
    ensures Both(fold, nodes)[i] == nodes[i] && Both(fold, nodes)[|nodes| + i] == Repaired(fold, nodes, i)
  {}

  /** Without a division of constants by zero, the code of a node has its label. */
  lemma {:induction false} SameLabel(fold: Folding, nodes: seq<Node>, i: Id)
    requires Shape(nodes) && i < |nodes| && !SomeZeroDivision(fold, nodes)
    ensures Label(fold, Both(fold, nodes), |nodes| + i) == Label(fold, Both(fold, nodes), i)
    decreases i
  {
    var both := Both(fold, nodes);
    BothAt(fold, nodes, i);
    assert NodeShape(nodes[i], i);
    if nodes[i].Apply? {
      SameLabel(fold, nodes, nodes[i].left);
      SameLabel(fold, nodes, nodes[i].right);
      assert NodeShape(both[i], i) && NodeShape(both[|nodes| + i], |nodes| + i);
      LaterLabel(fold, both, i, |nodes| + i);
    }
  }

  /** A variable that is at its own leaf keeps its value and needs no copy. */
  lemma OwnLabel(fold: Folding, g: Graph, x: Var)
    requires Valid(g) && x in g.at && !Sets(g.nodes, g.at[x], x)
    ensures Label(fold, Both(fold, g.nodes), g.at[x]) == ConstV(VarArg(x))
  {
    OwnLeaf(g, x);
    BothAt(fold, g.nodes, g.at[x]);
  }

  lemma SetMatches(fold: Folding, g: Graph, copies: seq<Id>, x: Var)
    requires Shape(g.nodes) && AtOk(g) && !SomeZeroDivision(fold, g.nodes)
    requires x in g.at && LastSetter(g.nodes, copies, x) == Some(g.at[x])
    ensures LabelMatches(fold, g, copies, x)
  {
    SameOr(fold, g.nodes, g.at[x], x);
  }

  lemma SameOr(fold: Folding, nodes: seq<Node>, i: Id, x: Var)
    requires Shape(nodes) && i < |nodes| && !SomeZeroDivision(fold, nodes)
    ensures LabelOr(fold, Both(fold, nodes), Some(|nodes| + i), x) == LabelOr(fold, Both(fold, nodes), Some(i), x)
  {
    SameLabel(fold, nodes, i);
  }

  lemma UnsetMatches(fold: Folding, g: Graph, copies: seq<Id>, x: Var)
    requires Valid(g) && LastSetter(g.nodes, copies, x).None? && (x in g.at ==> !Sets(g.nodes, g.at[x], x))
    ensures LabelMatches(fold, g, copies, x)
  {
    if x in g.at { OwnLabel(fold, g, x); }
  }

  /** Clean lists, and no division of constants by zero, are enough. */
  lemma CleanMatches(fold: Folding, g: Graph, order: seq<Id>, vars: Var)
    requires Valid(g) && IsOrder(g, order) && Clean(g) && !SomeZeroDivision(fold, g.nodes)
    ensures LabelsMatch(fold, g, order, vars)
  {
    CopyOrderOnce(fold, g, order);
    var copies := CopyOrder(g, order);
    forall x: Var | x < vars ensures LabelMatches(fold, g, copies, x) {
      LastIsCurrent(g, copies, x);
      if x in g.at && Sets(g.nodes, g.at[x], x) {
        SetMatches(fold, g, copies, x);
      } else {
        UnsetMatches(fold, g, copies, x);
      }
    }
  }
}
