/**
  Division of a constant by the constant zero. The program reports it, goes on, and compiles
  the constant one.
  */
module ZeroQuotients {
  import opened Quadr
  import opened Dag
  import opened DagEmit
  import opened DagOrder
  import opened DagBlock

  /** A variable whose node divides a constant by zero ends with the constant it is folded to, whatever the machine does. */
  lemma ZeroDivisionGives(m: Machine, fold: Folding, g: Graph, order: seq<Id>, x: Var, s: State, vars: Var)
    requires Valid(g) && Agrees(m, fold) && ListsBelow(g.nodes, vars) && IsOrder(g, order) && Clean(g)
    requires x < vars && x in g.at && ZeroDivision(fold, g.nodes, g.at[x])
    ensures FoldedTo(fold, g.nodes, g.at[x]) in {IntArg(1), DoubleArg(1.0)}
    ensures RunBlock(m, Emission(fold, g, order, vars).code, s).env[x] == Eval(FoldedTo(fold, g.nodes, g.at[x]), s.env)
  {
    var copies := CopyOrder(g, order);
    EmissionRuns(m, fold, g, order, s, vars);
    EmissionFollows(fold, g, order, vars);
    CopyOrderOnce(fold, g, order);
    LastIsCurrent(g, copies, x);
    FinalSetter(m, fold, g.nodes, copies, x, s.env);
    ZeroIsOne(m, fold, g.nodes, g.at[x], s.env);
  }

  lemma ZeroIsOne(m: Machine, fold: Folding, nodes: seq<Node>, i: Id, env: Env)
    requires Shape(nodes) && i < |nodes| && ZeroDivision(fold, nodes, i)
    ensures FoldedTo(fold, nodes, i) in {IntArg(1), DoubleArg(1.0)}
    ensures Computed(m, fold, nodes, i, env) == Eval(FoldedTo(fold, nodes, i), env)
  {
    assert NodeShape(nodes[i], i);
  }

  // ---------- code without divisions ----------

  ghost predicate NoneDivides(nodes: seq<Node>) {
    forall i :: 0 <= i < |nodes| ==> NotDividing(nodes[i])
  }

  ghost predicate NotDividing(n: Node) { n.Apply? ==> !(n.op.Div? || n.op.Mod?) }

  lemma ReadsNoDivision(addr: Id -> int, g: Graph, q: Quad)
    requires Valid(g) && IsPure(q) && |g.nodes| + 2 <= MaxNodes && NoneDivides(g.nodes) && !(q.op.Div? || q.op.Mod?)
    ensures NoneDivides(ReadQuad(addr, g, q).nodes)
  {
    var f := ReadValue(addr, g, q);
    ValueDividesNot(addr, g, q);
    ReadValueValid(addr, g, q);
    RebindNodes(f.g, q.result.v, f.i);
    var nodes := ReadQuad(addr, g, q).nodes;
    forall i | 0 <= i < |nodes| ensures NotDividing(nodes[i]) {
      assert NotDividing(f.g.nodes[i]) && SameValue(f.g.nodes[i], nodes[i]);
    }
  }

  lemma ValueDividesNot(addr: Id -> int, g: Graph, q: Quad)
    requires Valid(g) && IsPure(q) && |g.nodes| + 2 <= MaxNodes && NoneDivides(g.nodes) && !(q.op.Div? || q.op.Mod?)
    ensures NoneDivides(ReadValue(addr, g, q).g.nodes)
  {
    GetNodeValid(g, q.arg1);
    OperandDividesNot(g, q.arg1);
    if !q.op.Copy? {
      var a := GetNode(g, q.arg1);
      GetNodeValid(a.g, q.arg2);
      OperandDividesNot(a.g, q.arg2);
      OperatorDividesNot(addr, GetNode(a.g, q.arg2).g, q.op, a.i, GetNode(a.g, q.arg2).i);
    }
  }

  lemma OperandDividesNot(g: Graph, a: Arg)
    requires IsOperand(a) && NoneDivides(g.nodes)
    ensures NoneDivides(GetNode(g, a).g.nodes)
  {
    var nodes := GetNode(g, a).g.nodes;
    forall i | 0 <= i < |nodes| ensures NotDividing(nodes[i]) {
      if i < |g.nodes| { assert NotDividing(g.nodes[i]); }
    }
  }

  lemma OperatorDividesNot(addr: Id -> int, g: Graph, op: Op, left: Id, right: Id)
    requires left < |g.nodes| && right < |g.nodes| && NoneDivides(g.nodes) && !(op.Div? || op.Mod?)
    ensures NoneDivides(NewNode(addr, g, op, left, right).g.nodes)
  {
    var nodes := NewNode(addr, g, op, left, right).g.nodes;
    forall i | 0 <= i < |nodes| ensures NotDividing(nodes[i]) {
      if i < |g.nodes| { assert NotDividing(g.nodes[i]); }
    }
  }

  lemma {:induction false} WithoutDivision(cfg: Config, g: Graph, qs: seq<Quad>)
    requires Valid(g) && Room(cfg, g, qs) && NoneDivides(g.nodes)
    requires forall i :: 0 <= i < |qs| ==> !(qs[i].op.Div? || qs[i].op.Mod?)
    ensures NoZeroDivisions(cfg, g, qs)
    decreases |qs|
  {
    if qs != [] && IsPure(qs[0]) {
      ReadQuadValid(cfg.addr, g, qs[0]);
      ReadsNoDivision(cfg.addr, g, qs[0]);
      WithoutDivision(cfg, ReadQuad(cfg.addr, g, qs[0]), qs[1..]);
    } else {
      forall i | 0 <= i < |g.nodes| ensures !ZeroDivision(cfg.fold, g.nodes, i) { assert NotDividing(g.nodes[i]); }
      if qs != [] { WithoutDivision(cfg, EmptyGraph, qs[1..]); }
    }
  }

  /** Code without division and remainder never makes the program report an error, and is preserved if copies stand. */
  lemma DivisionFree(m: Machine, cfg: Config, qs: seq<Quad>, s: State, vars: Var)
    requires OrderOk(cfg) && Valid(EmptyGraph) && Room(cfg, EmptyGraph, qs)
    requires forall i :: 0 <= i < |qs| ==> !(qs[i].op.Div? || qs[i].op.Mod?)
    ensures !Rewrite(cfg, EmptyGraph, qs, vars).failed
    ensures Commutes(m) && Agrees(m, cfg.fold) && AllQuadsBelow(qs, vars) && SegmentsStand(qs) ==>
              Alike(RunBlock(m, qs, s), RunBlock(m, Rewrite(cfg, EmptyGraph, qs, vars).code, s), vars)
  {
    WithoutDivision(cfg, EmptyGraph, qs);
    RewriteFailsIff(cfg, EmptyGraph, qs, vars);
    if Commutes(m) && Agrees(m, cfg.fold) && AllQuadsBelow(qs, vars) && SegmentsStand(qs) {
      StandingMatches(cfg, qs, vars);
      BlockPreserved(m, cfg, qs, s, vars);
    }
  }

  // ---------- a segment that is not preserved ----------

  const ZeroQuotient := [Quad(Copy, VarArg(0), IntArg(1), NoArg), Quad(Copy, VarArg(1), IntArg(0), NoArg), Quad(Div, VarArg(2), VarArg(0), VarArg(1))]

  const AfterOne := Graph([Leaf(IntArg(1), [0])], map[0 := 0], map[1 := 0], map[], [], map[])

  const AfterZero := Graph([Leaf(IntArg(1), [0]), Leaf(IntArg(0), [1])], map[0 := 0, 1 := 1], map[1 := 0, 0 := 1], map[], [], map[])

  const ZeroQuotientGraph :=
    Graph([Leaf(IntArg(1), [0]), Leaf(IntArg(0), [1]), Apply(Div, 0, 1, [2], true)],
          map[0 := 0, 1 := 1, 2 := 2], map[1 := 0, 0 := 1], map[], [], map[MakeKey(Div, 0, 1) := 2])

  lemma OneRead(addr: Id -> int)
    ensures Valid(EmptyGraph) && ReadQuad(addr, EmptyGraph, ZeroQuotient[0]) == AfterOne
  {
    var g := Graph([Leaf(IntArg(1), [])], map[], map[1 := 0], map[], [], map[]);
    assert GetNode(EmptyGraph, IntArg(1)) == Found(g, 0);
    var nodes := Rebind(g, 0, 0).nodes;
    assert |nodes| == 1 && nodes[0] == Leaf(IntArg(1), [0] + []) && [0] + [] == [0];
    assert nodes == AfterOne.nodes && Rebind(g, 0, 0).at == AfterOne.at;
  }

  lemma ZeroRead(addr: Id -> int)
    requires Valid(AfterOne)
    ensures ReadQuad(addr, AfterOne, ZeroQuotient[1]) == AfterZero
  {
    var g := Graph([Leaf(IntArg(1), [0]), Leaf(IntArg(0), [])], map[0 := 0], map[1 := 0, 0 := 1], map[], [], map[]);
    assert AfterOne.ints[0 := 1] == g.ints;
    assert GetNode(AfterOne, IntArg(0)) == Found(g, 1);
    var nodes := Rebind(g, 1, 1).nodes;
    assert |nodes| == 2 && nodes[0] == g.nodes[0] && nodes[1] == Leaf(IntArg(0), [1] + []) && [1] + [] == [1];
    assert nodes == AfterZero.nodes && Rebind(g, 1, 1).at == AfterZero.at;
  }

  lemma QuotientRead(addr: Id -> int)
    requires Valid(AfterZero)
    ensures ReadQuad(addr, AfterZero, ZeroQuotient[2]) == ZeroQuotientGraph
  {
    var key := MakeKey(Div, 0, 1);
    var g := AfterZero.(nodes := AfterZero.nodes + [Apply(Div, 0, 1, [], true)], table := map[key := 2]);
    assert GetNode(AfterZero, VarArg(0)) == Found(AfterZero, 0) && GetNode(AfterZero, VarArg(1)) == Found(AfterZero, 1);
    assert Mark(Mark(AfterZero.nodes, 0), 1) == AfterZero.nodes && AfterZero.table[key := 2] == map[key := 2];
    assert NewNode(addr, AfterZero, Div, 0, 1) == Found(g, 2);
    var nodes := Rebind(g, 2, 2).nodes;
    assert |nodes| == 3 && nodes[2] == Apply(Div, 0, 1, [2] + [], true) && [2] + [] == [2];
    assert nodes == ZeroQuotientGraph.nodes && Rebind(g, 2, 2).at == ZeroQuotientGraph.at;
  }

  lemma ZeroQuotientRead(addr: Id -> int)
    ensures Valid(EmptyGraph) && AllPure(ZeroQuotient) && Fits(addr, EmptyGraph, ZeroQuotient)
    ensures ReadAll(addr, EmptyGraph, ZeroQuotient) == ZeroQuotientGraph && Valid(ZeroQuotientGraph)
  {
    var gs := [EmptyGraph, AfterOne, AfterZero, ZeroQuotientGraph];
    forall i | 0 <= i < 3 ensures StepAt(addr, ZeroQuotient, gs, i) { ZeroQuotientStep(addr, gs, i); }
    ReadGraphs(addr, ZeroQuotient, gs);
  }

  lemma ZeroQuotientStep(addr: Id -> int, gs: seq<Graph>, i: nat)
    requires gs == [EmptyGraph, AfterOne, AfterZero, ZeroQuotientGraph] && i < 3
    ensures StepAt(addr, ZeroQuotient, gs, i)
  {
    match i
    case 0 => StepOne(addr, gs);
    case 1 => StepZero(addr, gs);
    case _ => StepQuotient(addr, gs);
  }

  lemma StepOne(addr: Id -> int, gs: seq<Graph>)
    requires |gs| == 4 && gs[0] == EmptyGraph && gs[1] == AfterOne
    ensures StepAt(addr, ZeroQuotient, gs, 0)
  {
    OneRead(addr);
  }

  lemma StepZero(addr: Id -> int, gs: seq<Graph>)
    requires |gs| == 4 && gs[1] == AfterOne && gs[2] == AfterZero
    ensures StepAt(addr, ZeroQuotient, gs, 1)
  {
    if Valid(AfterOne) { ZeroRead(addr); }
  }

  lemma StepQuotient(addr: Id -> int, gs: seq<Graph>)
    requires |gs| == 4 && gs[2] == AfterZero && gs[3] == ZeroQuotientGraph
    ensures StepAt(addr, ZeroQuotient, gs, 2)
  {
    if Valid(AfterZero) { QuotientRead(addr); }
  }

  /** `t := 1; u := 0; x := t / u` is compiled, and leaves one in `x` instead of what the machine computes. */
  lemma ZeroQuotientLost(m: Machine, fold: Folding, addr: Id -> int, s: State)
    requires Agrees(m, fold)
    ensures Valid(EmptyGraph) && AllPure(ZeroQuotient) && Fits(addr, EmptyGraph, ZeroQuotient)
    ensures var g := ReadAll(addr, EmptyGraph, ZeroQuotient);
            && IsOrder(g, [2, 0, 1]) && Emission(fold, g, [2, 0, 1], 3).failed
            && RunBlock(m, Emission(fold, g, [2, 0, 1], 3).code, s).env[2] == IntV(1)
            && RunBlock(m, ZeroQuotient, s).env[2] == m.alu(Div, IntV(1), IntV(0))
  {
    ZeroQuotientRead(addr);
    QuotientOrder();
    QuotientLists();
    QuotientDivides(fold, ZeroQuotientGraph.nodes);
    QuotientReported(fold, ZeroQuotientGraph, [2, 0, 1]);
    QuotientLeft(m, fold, ZeroQuotientGraph, [2, 0, 1], s);
    ZeroQuotientRun(m, s);
  }

  lemma QuotientOrder()
    ensures IsOrder(ZeroQuotientGraph, [2, 0, 1])
  {
    var order := [2, 0, 1];
    assert order[0] == 2 && order[1] == 0 && order[2] == 1;
  }

  lemma QuotientLists()
    ensures ListsBelow(ZeroQuotientGraph.nodes, 3) && Clean(ZeroQuotientGraph)
  {}

  lemma QuotientDivides(fold: Folding, nodes: seq<Node>)
    requires Shape(nodes) && |nodes| == 3 && nodes[0] == Leaf(IntArg(1), [0]) && nodes[1] == Leaf(IntArg(0), [1])
    requires nodes[2] == Apply(Div, 0, 1, [2], true)
    ensures ZeroDivision(fold, nodes, 2) && SomeZeroDivision(fold, nodes) && FoldedTo(fold, nodes, 2) == IntArg(1)
  {
    assert FoldedTo(fold, nodes, 0) == IntArg(1) && FoldedTo(fold, nodes, 1) == IntArg(0);
    assert ZeroDivision(fold, nodes, 2);
  }

  lemma QuotientReported(fold: Folding, g: Graph, order: seq<Id>)
    requires Valid(g) && IsOrder(g, order) && 2 < |g.nodes| && ZeroDivision(fold, g.nodes, 2)
    ensures Emission(fold, g, order, 3).failed
  {
    FailsIff(fold, g, order, 3);
  }

  lemma QuotientLeft(m: Machine, fold: Folding, g: Graph, order: seq<Id>, s: State)
    requires Agrees(m, fold) && Valid(g) && IsOrder(g, order) && ListsBelow(g.nodes, 3) && Clean(g)
    requires 2 in g.at && g.at[2] == 2 && ZeroDivision(fold, g.nodes, 2) && FoldedTo(fold, g.nodes, 2) == IntArg(1)
    ensures RunBlock(m, Emission(fold, g, order, 3).code, s).env[2] == IntV(1)
  {
    ZeroDivisionGives(m, fold, g, order, 2, s, 3);
  }

  lemma ZeroQuotientRun(m: Machine, s: State)
    ensures RunBlock(m, ZeroQuotient, s).env[2] == m.alu(Div, IntV(1), IntV(0))
  {
    var q0, q1, q2 := ZeroQuotient[0], ZeroQuotient[1], ZeroQuotient[2];
    assert ZeroQuotient[1..] == [q1, q2] && [q1, q2][1..] == [q2] && [q2][1..] == [];
    var s1, s2 := Exec(m, q0, s), Exec(m, q1, Exec(m, q0, s));
    ExecPure(m, q0, s);
    ExecPure(m, q1, s1);
    ExecPure(m, q2, s2);
    assert RunBlock(m, ZeroQuotient, s) == RunBlock(m, [q1, q2], s1) == RunBlock(m, [q2], s2) == Exec(m, q2, s2);
  }
}
