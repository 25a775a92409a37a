/**
  Running the code generated for statements: it does what the statements mean, for every
  program whose loop bodies begin with a quadruple. Other loop bodies lose their first block.
  */
module StatementRuns {
  import opened Quadr
  import opened Blocks
  import opened BlockRun
  import opened JumpCode
  import opened JumpRuns
  import opened Begins
  import opened Statements

  // ---------- the first block of a loop body ----------

  lemma LoopEntryDroppable(c: Code)
    requires Ready(c)
    ensures !KeepsCur(GenLoopEntry(c))
  {}

  /** The block that the condition of a loop jumps to exists if and only if the body begins with a quadruple. */
  lemma LoopHeadKept(c: Code, body: Stmt)
    requires Ready(c) && LoopsBegin(body) && TypedStmt(body, GenLoopEntry(c).nextVar)
    ensures var c2 := GenStmt(GenLoopEntry(c), body);
            && c.nextId in c2.chains
            && (GenLoopEntry(c).cur in Place(c2, c.nextId).blocks <==> StmtStart(body).Emits?)
  {
    var c1 := GenLoopEntry(c);
    var c2 := GenStmt(c1, body);
    LabelsKept(c1, c2, {}, c.nextId);
    LoopEntryDroppable(c);
    PlaceBegan(c2, c.nextId);
    BeganThenPlaced(StmtStart(body), Moves, c1, c2, Place(c2, c.nextId), {c.nextId});
  }

  /** The loops inside a statement. */
  ghost function LoopsIn(st: Stmt): set<Stmt> {
    match st
    case Then(a, b) => LoopsIn(a) + LoopsIn(b)
    case If(_, yes) => LoopsIn(yes)
    case IfElse(_, yes, no) => LoopsIn(yes) + LoopsIn(no)
    case While(_, body) => {st} + LoopsIn(body)
    case _ => {}
  }

  lemma {:induction false} LoopsBeginIff(st: Stmt)
    ensures LoopsBegin(st) <==> forall w :: w in LoopsIn(st) ==> w.While? && StmtStart(w.body).Emits?
  {
    match st
    case Then(a, b) => LoopsBeginIff(a); LoopsBeginIff(b);
    case If(_, yes) => LoopsBeginIff(yes);
    case IfElse(_, yes, no) => LoopsBeginIff(yes); LoopsBeginIff(no);
    case While(_, body) => LoopsBeginIff(body);
    case _ =>
  }

  /** A loop is one of those the results are about if and only if the block that its condition jumps to exists. */
  lemma LoopAllowedIff(c: Code, cond: Expr, body: Stmt, head: Code, end: Code)
    requires Ready(c) && head == GenLoopEntry(c) && LoopsBegin(body) && TypedStmt(body, head.nextVar) && end == GenStmt(head, body)
    ensures c.nextId in end.chains && (LoopsBegin(While(cond, body)) <==> head.cur in Place(end, c.nextId).blocks)
  {
    LoopHeadKept(c, body);
    WhileAllowed(cond, body);
  }

  lemma WhileAllowed(cond: Expr, body: Stmt)
    ensures LoopsBegin(While(cond, body)) <==> StmtStart(body).Emits? && LoopsBegin(body)
  {}

  /** The condition of `while (e) ;`, or of a loop whose body is `if (true) ...`, jumps to a block that is gone. */
  lemma LoopHeadLost(c: Code, body: Stmt)
    requires Ready(c) && LoopsBegin(body) && TypedStmt(body, GenLoopEntry(c).nextVar)
    requires body.Empty? || (body.If? && body.cond == BoolLit(true))
    ensures var c2 := GenStmt(GenLoopEntry(c), body);
            c.nextId in c2.chains && GenLoopEntry(c).cur !in Place(c2, c.nextId).blocks
  {
    LoopHeadKept(c, body);
  }

  // ---------- what a statement does ----------

  ghost predicate Agrees(s: State, t: State, vars: Var) { t.trace == s.trace && Same(s.env, t.env, vars) }

  /** The run is at a return of `v`. */
  ghost predicate AtReturn(f: Code, p: Point, v: Value, t: State) {
    && p.block in f.blocks && p.index < |f.blocks[p.block].quads|
    && var q := f.blocks[p.block].quads[p.index];
       q.op.Return? && Eval(q.arg1, t.env) == v
  }

  ghost predicate Stops(m: Machine, c: Code, f: Code, t: State, p: Point, v: Value, t': State) {
    Final(c, f) && AtReturn(f, p, v, t') && Reaches(m, f.blocks, HereAt(c, f, t), At(p, t'))
  }

  ghost predicate Does(m: Machine, c: Code, c': Code, f: Code, t: State, d: Done, t': State, p: Point, vars: Var) {
    && Agrees(d.s, t', vars)
    && match d.flow
       case Normal => Goes(m, c, c', f, t, t')
       case Returned(v) => Stops(m, c, f, t, p, v, t')
  }

  lemma GoesDoes(m: Machine, c: Code, c1: Code, c2: Code, f: Code, t: State, t1: State, d: Done, t2: State, p: Point, vars: Var)
    requires Goes(m, c, c1, f, t, t1) && Does(m, c1, c2, f, t1, d, t2, p, vars)
    ensures Does(m, c, c2, f, t, d, t2, p, vars)
  {
    match d.flow
    case Normal => GoesTrans(m, c, c1, c2, f, t, t1, t2);
    case Returned(_) => ReachTrans(m, f.blocks, HereAt(c, f, t), HereAt(c1, f, t1), At(p, t2));
  }

  /** Code behind a statement is run if the statement does not return. */
  lemma DoesGoes(m: Machine, c: Code, c1: Code, c2: Code, f: Code, t: State, d: Done, t1: State, p: Point, vars: Var)
    requires Does(m, c, c1, f, t, d, t1, p, vars)
    requires d.flow.Normal? ==> Goes(m, c1, c2, f, t1, t1)
    ensures Does(m, c, c2, f, t, d, t1, p, vars)
  {
    if d.flow.Normal? { GoesTrans(m, c, c1, c2, f, t, t1, t1); }
  }

  lemma SameTrans(env: Env, env': Env, env'': Env, vars: Var, vars': Var)
    requires Same(env, env', vars) && Same(env', env'', vars') && vars <= vars'
    ensures Same(env, env'', vars)
  {}

  // ---------- simple statements ----------

  lemma EvaluateRuns(m: Machine, c: Code, e: Expr, f: Code, vars: Var, s: State, t: State) returns (t': State)
    requires Ready(c) && Typed(e, vars) && Typed(e, c.nextVar) && vars <= c.nextVar && Agrees(s, t, vars)
    requires Final(GenExpr(c, e).c, f)
    ensures var r := EvalExpr(m, e, s.env, s.trace);
            Yields(m, c, GenExpr(c, e), f, t, t', r) && Agrees(AfterExpr(r, s), t', vars)
  {
    EvalSame(m, e, s.env, t.env, s.trace, vars);
    t' := ExprRuns(m, c, e, f, t);
    SameTrans(s.env, t.env, t'.env, vars, c.nextVar);
  }

  lemma AgreesSet(s: State, t: State, v: Var, x: Value, q: Quad, m: Machine, vars: Var)
    requires Agrees(s, t, vars) && q.result == VarArg(v) && !HasEffect(q.op) && Result(m, q, t) == x
    ensures Agrees(Assigned(s, v, x), Exec(m, q, t), vars)
  {}

  lemma SetStmtRuns(m: Machine, c: Code, v: Var, e: Expr, f: Code, vars: Var, s: State, t: State) returns (t': State)
    requires Ready(c) && Typed(e, vars) && Typed(e, c.nextVar) && vars <= c.nextVar && Agrees(s, t, vars)
    requires Final(GenSet(c, v, e), f)
    ensures var r := EvalExpr(m, e, s.env, s.trace);
            Goes(m, c, GenSet(c, v, e), f, t, t') && Agrees(Assigned(AfterExpr(r, s), v, r.value), t', vars)
  {
    var a := GenExpr(c, e);
    var q := Quad(Copy, VarArg(v), a.a, NoArg);
    FinalBack(a.c, Emit(a.c, q), f, {});
    var t1 := EvaluateRuns(m, c, e, f, vars, s, t);
    var r := EvalExpr(m, e, s.env, s.trace);
    AgreesSet(AfterExpr(r, s), t1, v, r.value, q, m, vars);
    t' := Exec(m, q, t1);
    EmitRuns(m, a.c, q, f, t1);
    GoesTrans(m, c, a.c, Emit(a.c, q), f, t, t1, t');
  }

  /** `++` adds one, and `--` subtracts it. */
  lemma BumpRuns(m: Machine, c: Code, v: Var, isDouble: bool, up: bool, f: Code, vars: Var, s: State, t: State)
    returns (t': State)
    requires Ready(c) && v < vars <= c.nextVar && Agrees(s, t, vars) && Final(GenBump(c, v, isDouble, up), f)
    ensures var x := m.alu(if up then Add else Sub, s.env[v], if isDouble then RealV(1.0) else IntV(1));
            Goes(m, c, GenBump(c, v, isDouble, up), f, t, t') && Agrees(Assigned(s, v, x), t', vars)
  {
    var k := GenConst(c, One(isDouble));
    var q := Quad(BumpOp(up), VarArg(v), VarArg(v), k.a);
    FinalBack(k.c, Emit(k.c, q), f, {});
    var t1 := ConstRuns(m, c, One(isDouble), f, t);
    SameTrans(s.env, t.env, t1.env, vars, c.nextVar);
    AgreesSet(s, t1, v, m.alu(BumpOp(up), s.env[v], Eval(One(isDouble), s.env)), q, m, vars);
    t' := Exec(m, q, t1);
    EmitRuns(m, k.c, q, f, t1);
    GoesTrans(m, c, k.c, Emit(k.c, q), f, t, t1, t');
  }

  lemma ReturnStops(m: Machine, c: Code, q: Quad, f: Code, t: State) returns (p: Point)
    requires Ready(c) && q.op.Return? && Final(EndBlock(c, q), f)
    ensures Stops(m, c, f, t, p, Eval(q.arg1, t.env), t)
  {
    var c1 := AddQuad(c, q);
    AddQuadLater(c, q);
    FinalBack(c1, NextBlock(c1), f, {});
    FinalBack(c, c1, f, {});
    p := Here(c, f);
    AddedIsHere(c, q, f);
    ReachRefl(m, f.blocks, HereAt(c, f, t));
  }

  lemma AddedIsHere(c: Code, q: Quad, f: Code)
    requires WF(c) && Final(AddQuad(c, q), f) && Final(c, f)
    ensures var p := Here(c, f);
            p.block in f.blocks && p.index < |f.blocks[p.block].quads| && f.blocks[p.block].quads[p.index] == q
  {
    var c1 := AddQuad(c, q);
    assert c1.blocks[c.cur].quads[|c.blocks[c.cur].quads|] == q;
    assert CurKept(c1, f);
  }

  lemma ReturnRuns(m: Machine, c: Code, value: Option<Expr>, f: Code, vars: Var, s: State, t: State)
    returns (t': State, p: Point)
    requires Ready(c) && (value.Some? ==> Typed(value.value, vars) && Typed(value.value, c.nextVar))
    requires vars <= c.nextVar && Agrees(s, t, vars) && Final(GenReturn(c, value), f)
    ensures Does(m, c, GenReturn(c, value), f, t, ReturnDone(m, value, s), t', p, vars)
  {
    var a := ReturnArg(c, value);
    FinalBack(a.c, GenReturn(c, value), f, {});
    if value.Some? {
      t' := EvaluateRuns(m, c, value.value, f, vars, s, t);
    } else {
      t' := t;
      ReachRefl(m, f.blocks, HereAt(c, f, t));
    }
    p := ReturnStops(m, a.c, Quad(Op.Return, NoArg, a.a, NoArg), f, t');
    ReachTrans(m, f.blocks, HereAt(c, f, t), HereAt(a.c, f, t'), At(p, t'));
  }

  // ---------- conditions ----------

  /** The test of an `if`. */
  lemma IfTestRuns(m: Machine, c: Code, cond: Expr, f: Code, vars: Var, s: State, t: State) returns (t': State, d: BlockId)
    requires Ready(c) && IsCondition(cond, vars) && IsCondition(cond, c.nextVar) && vars <= c.nextVar && Agrees(s, t, vars)
    requires Final(GenIfTest(c, cond), f)
    ensures var r := EvalBool(m, cond, s.env, s.trace);
            && Agrees(State(s.env, r.trace), t', vars)
            && if r.value then Goes(m, c, GenIfTest(c, cond), f, t, t')
               else IsTarget(GenIfTest(c, cond), c.nextId, d) && Jumps(m, c, f, t, d, t')
  {
    var x := FreshLabel(c);
    TypedMono(cond, c.nextVar, x.c.nextVar);
    var c1 := GenBool(x.c, cond, x.a, false);
    var c2 := NextBlock(c1);
    FinalBack(c1, c2, f, {});
    FinalBack(x.c, c1, f, {});
    FreshLabelRuns(m, c, f, t);
    EvalSame(m, cond, s.env, t.env, s.trace, vars);
    t', d := BoolRuns(m, x.c, cond, x.a, false, f, t);
    SameTrans(s.env, t.env, t'.env, vars, x.c.nextVar);
    if EvalBool(m, cond, s.env, s.trace).value {
      NextBlockRuns(m, c1, f, t');
      GoesTrans(m, x.c, c1, c2, f, t, t', t');
      GoesTrans(m, c, x.c, c2, f, t, t, t');
    } else {
      GoesJumps(m, c, x.c, f, t, t, d, t');
      LabelStays(x.c, c1, x.a);
      LabelStays(c1, c2, x.a);
    }
  }

  /** `head` is where the body of a loop begins, and `c` where its condition is placed. */
  ghost predicate LoopShape(head: Code, c: Code, cond: Expr, f: Code, vars: Var) {
    && Ready(c) && IsCondition(cond, vars) && IsCondition(cond, c.nextVar) && vars <= c.nextVar
    && IsLabel(c, head.cur) && head.cur !in c.chains && head.cur < c.nextId
    && WF(head) && head.blocks[head.cur].quads == [] && Final(head, f) && head.cur in f.blocks
    && Final(GenLoopTest(c, cond, head.cur), f)
  }

  /** The test of a loop, from the code before it to the code behind it or back to the body. */
  lemma LoopTestRuns(m: Machine, c: Code, cond: Expr, head: Code, f: Code, vars: Var, s: State, t: State) returns (t': State)
    requires LoopShape(head, c, cond, f, vars) && Agrees(s, t, vars)
    ensures var r := EvalBool(m, cond, s.env, s.trace);
            && Agrees(State(s.env, r.trace), t', vars)
            && if r.value then Goes(m, c, head, f, t, t') else Goes(m, c, GenLoopTest(c, cond, head.cur), f, t, t')
  {
    var c1 := GenBool(c, cond, head.cur, true);
    var c2 := NextBlock(c1);
    FinalBack(c1, c2, f, {});
    FinalBack(c, c1, f, {});
    EvalSame(m, cond, s.env, t.env, s.trace, vars);
    var d;
    t', d := BoolRuns(m, c, cond, head.cur, true, f, t);
    SameTrans(s.env, t.env, t'.env, vars, c.nextVar);
    if EvalBool(m, cond, s.env, s.trace).value {
      NotLabelAgain(c, c1, head.cur);
      assert d == head.cur;
    } else {
      NextBlockRuns(m, c1, f, t');
      GoesTrans(m, c, c1, c2, f, t, t', t');
    }
  }

  /** A block with code never becomes a label that waits to be placed. */
  lemma NotLabelAgain(c: Code, c1: Code, x: BlockId)
    requires Advances(c, c1) && IsLabel(c, x) && x !in c.chains
    ensures x !in c1.chains
  {
    LabelStays(c, c1, x);
    ChainHeads(c1);
    if x in c.placed { assert PlacedOk(c, x) && KeptAt(c, c1, x); }
  }

  // ---------- statements ----------

  /** The code of a statement does what the statement means. */
  lemma {:induction false} StmtRuns(m: Machine, c: Code, st: Stmt, f: Code, vars: Var, s: State, t: State, fuel: nat)
    returns (t': State, p: Point)
    requires Ready(c) && TypedStmt(st, vars) && TypedStmt(st, c.nextVar) && vars <= c.nextVar && LoopsBegin(st)
    requires Agrees(s, t, vars) && Final(GenStmt(c, st), f) && Execute(m, st, s, fuel).Some?
    ensures Does(m, c, GenStmt(c, st), f, t, Execute(m, st, s, fuel).value, t', p, vars)
    decreases fuel, st, 2
  {
    match st
    case Then(_, _) => t', p := ThenRuns(m, c, st, f, vars, s, t, fuel);
    case If(_, _) => t', p := IfRuns(m, c, st, f, vars, s, t, fuel);
    case IfElse(_, _, _) => t', p := IfElseRuns(m, c, st, f, vars, s, t, fuel);
    case While(_, _) => t', p := WhileRuns(m, c, st, f, vars, s, t, fuel);
    case _ => t', p := SimpleRuns(m, c, st, f, vars, s, t, fuel);
  }

  predicate IsSimple(st: Stmt) { st.Empty? || st.Evaluate? || st.Set? || st.Bump? || st.Return? }

  /** Statements without other statements inside. */
  lemma SimpleRuns(m: Machine, c: Code, st: Stmt, f: Code, vars: Var, s: State, t: State, fuel: nat)
    returns (t': State, p: Point)
    requires IsSimple(st) && Ready(c) && TypedStmt(st, vars) && TypedStmt(st, c.nextVar) && vars <= c.nextVar && LoopsBegin(st)
    requires Agrees(s, t, vars) && Final(GenStmt(c, st), f)
    ensures Execute(m, st, s, fuel).Some? && Does(m, c, GenStmt(c, st), f, t, Execute(m, st, s, fuel).value, t', p, vars)
  {
    p := Point(0, 0);
    match st
    case Empty =>
      t' := t;
      ReachRefl(m, f.blocks, HereAt(c, f, t));
    case Evaluate(e) => t' := EvaluateRuns(m, c, e, f, vars, s, t);
    case Set(v, e) => t' := SetStmtRuns(m, c, v, e, f, vars, s, t);
    case Bump(v, isDouble, up) => t' := BumpRuns(m, c, v, isDouble, up, f, vars, s, t);
    case Return(value) => t', p := ReturnRuns(m, c, value, f, vars, s, t);
  }

  lemma ThenRuns(m: Machine, c: Code, st: Stmt, f: Code, vars: Var, s: State, t: State, fuel: nat)
    returns (t': State, p: Point)
    requires st.Then? && Ready(c) && TypedStmt(st, vars) && TypedStmt(st, c.nextVar) && vars <= c.nextVar && LoopsBegin(st)
    requires Agrees(s, t, vars) && Final(GenStmt(c, st), f) && Execute(m, st, s, fuel).Some?
    ensures Does(m, c, GenStmt(c, st), f, t, Execute(m, st, s, fuel).value, t', p, vars)
    decreases fuel, st, 1
  {
    var c1 := GenStmt(c, st.first);
    TypedStmtMono(st.second, c.nextVar, c1.nextVar);
    var c2 := GenStmt(c1, st.second);
    FinalBack(c1, c2, f, {});
    var d := Execute(m, st.first, s, fuel).value;
    t', p := StmtRuns(m, c, st.first, f, vars, s, t, fuel);
    if d.flow.Normal? {
      var t1 := t';
      t', p := StmtRuns(m, c1, st.second, f, vars, d.s, t1, fuel);
      GoesDoes(m, c, c1, c2, f, t, t1, Execute(m, st, s, fuel).value, t', p, vars);
    }
  }

  lemma IfRuns(m: Machine, c: Code, st: Stmt, f: Code, vars: Var, s: State, t: State, fuel: nat)
    returns (t': State, p: Point)
    requires st.If? && Ready(c) && TypedStmt(st, vars) && TypedStmt(st, c.nextVar) && vars <= c.nextVar && LoopsBegin(st)
    requires Agrees(s, t, vars) && Final(GenIf(c, st.cond, st.yes), f) && Execute(m, st, s, fuel).Some?
    ensures Does(m, c, GenIf(c, st.cond, st.yes), f, t, Execute(m, st, s, fuel).value, t', p, vars)
    decreases fuel, st, 1
  {
    var x := FreshLabel(c);
    var c1 := GenIfTest(c, st.cond);
    AdvancesThen(c, x.c, c1);
    TypedStmtMono(st.yes, c.nextVar, c1.nextVar);
    var c2 := GenStmt(c1, st.yes);
    LabelsKept(c1, c2, {}, x.a);
    var c3 := Place(c2, x.a);
    FinalBack(c2, c3, f, {x.a});
    FinalBack(c1, c2, f, {});
    var r := EvalBool(m, st.cond, s.env, s.trace);
    var d;
    t', d := IfTestRuns(m, c, st.cond, f, vars, s, t);
    p := Point(0, 0);
    if r.value {
      var t1 := t';
      t', p := StmtRuns(m, c1, st.yes, f, vars, State(s.env, r.trace), t1, fuel);
      GoesDoes(m, c, c1, c2, f, t, t1, Execute(m, st, s, fuel).value, t', p, vars);
      PlaceRuns(m, c2, x.a, f, t');
      DoesGoes(m, c, c2, c3, f, t, Execute(m, st, s, fuel).value, t', p, vars);
    } else {
      LabelStays(c1, c2, x.a);
      PlaceLands(m, c, c2, x.a, d, f, t, t');
    }
  }

  lemma IfElseRuns(m: Machine, c: Code, st: Stmt, f: Code, vars: Var, s: State, t: State, fuel: nat)
    returns (t': State, p: Point)
    requires st.IfElse? && Ready(c) && TypedStmt(st, vars) && TypedStmt(st, c.nextVar) && vars <= c.nextVar && LoopsBegin(st)
    requires Agrees(s, t, vars) && Final(GenIfElse(c, st), f) && Execute(m, st, s, fuel).Some?
    ensures Does(m, c, GenIfElse(c, st), f, t, Execute(m, st, s, fuel).value, t', p, vars)
    decreases fuel, st, 1
  {
    var x := FreshLabel(c);
    var c1 := GenIfTest(c, st.cond);
    AdvancesThen(c, x.c, c1);
    TypedStmtMono(st, c.nextVar, c1.nextVar);
    var c2 := GenStmt(c1, st.yes);
    LabelsKept(c1, c2, {}, x.a);
    TypedStmtMono(st.no, c1.nextVar, c2.nextVar);
    var c3 := GenElsePart(c2, x.a, st.no);
    FinalBack(c2, c3, f, {x.a});
    FinalBack(c1, c2, f, {});
    var r := EvalBool(m, st.cond, s.env, s.trace);
    var s1 := State(s.env, r.trace);
    var d;
    t', d := IfTestRuns(m, c, st.cond, f, vars, s, t);
    var t1 := t';
    if r.value {
      t', p := StmtRuns(m, c1, st.yes, f, vars, s1, t1, fuel);
      GoesDoes(m, c, c1, c2, f, t, t1, Execute(m, st, s, fuel).value, t', p, vars);
      OverElse(m, c2, x.a, st.no, f, t');
      DoesGoes(m, c, c2, c3, f, t, Execute(m, st, s, fuel).value, t', p, vars);
    } else {
      LabelStays(c1, c2, x.a);
      t', p := ElseRuns(m, c, c2, x.a, d, st.no, f, vars, t, s1, t1, fuel);
    }
  }

  /** After the first branch, the second one is jumped over. */
  lemma OverElse(m: Machine, c: Code, ifFalse: BlockId, no: Stmt, f: Code, t: State)
    requires Ready(c) && ifFalse in c.chains && TypedStmt(no, c.nextVar) && LoopsBegin(no)
    requires Final(GenElsePart(c, ifFalse, no), f)
    ensures Goes(m, c, GenElsePart(c, ifFalse, no), f, t, t)
  {
    var y := FreshLabel(c);
    var c1 := GenGoto(y.c, y.a);
    LabelsKept(c, y.c, {}, ifFalse);
    LabelsKept(y.c, c1, {}, ifFalse);
    LabelsKept(y.c, c1, {}, y.a);
    var c2 := GenElse(c, ifFalse);
    TypedStmtMono(no, c.nextVar, c2.nextVar);
    var c3 := GenStmt(c2, no);
    LabelsKept(c2, c3, {}, y.a);
    FinalBack(c3, Place(c3, y.a), f, {y.a});
    FinalBack(c2, c3, f, {});
    FinalBack(c1, c2, f, {ifFalse});
    FinalBack(y.c, c1, f, {});
    FreshLabelRuns(m, c, f, t);
    var d := GotoRuns(m, y.c, y.a, f, t);
    GoesJumps(m, c, y.c, f, t, t, d, t);
    LabelStays(y.c, c1, y.a);
    TargetStays(c1, c2, {ifFalse}, y.a, d);
    ElseTarget(c2, c3, y.a, d);
    PlaceLands(m, c, c3, y.a, d, f, t, t);
  }

  lemma ElseTarget(c: Code, c1: Code, x: BlockId, d: BlockId)
    requires Advances(c, c1) && x in c.chains && IsTarget(c, x, d)
    ensures x in c1.chains && IsTarget(c1, x, d)
  {
    ChainHeads(c);
    LabelStays(c, c1, x);
  }

  /** A failed condition jumps to the second branch. */
  lemma ElseRuns(m: Machine, c0: Code, c: Code, ifFalse: BlockId, d: BlockId, no: Stmt, f: Code, vars: Var,
                 t: State, s1: State, t1: State, fuel: nat)
    returns (t': State, p: Point)
    requires Ready(c) && ifFalse in c.chains && IsTarget(c, ifFalse, d) && Jumps(m, c0, f, t, d, t1)
    requires TypedStmt(no, vars) && TypedStmt(no, c.nextVar) && vars <= c.nextVar && LoopsBegin(no)
    requires Agrees(s1, t1, vars) && Final(GenElsePart(c, ifFalse, no), f) && Execute(m, no, s1, fuel).Some?
    ensures Does(m, c0, GenElsePart(c, ifFalse, no), f, t, Execute(m, no, s1, fuel).value, t', p, vars)
    decreases fuel, no, 3
  {
    var y := FreshLabel(c);
    var c1 := GenGoto(y.c, y.a);
    LabelsKept(c, y.c, {}, ifFalse);
    LabelsKept(y.c, c1, {}, ifFalse);
    LabelsKept(y.c, c1, {}, y.a);
    ElseTarget(c, y.c, ifFalse, d);
    ElseTarget(y.c, c1, ifFalse, d);
    var c2 := GenElse(c, ifFalse);
    TypedStmtMono(no, c.nextVar, c2.nextVar);
    var c3 := GenStmt(c2, no);
    LabelsKept(c2, c3, {}, y.a);
    FinalBack(c3, Place(c3, y.a), f, {y.a});
    FinalBack(c2, c3, f, {});
    PlaceLands(m, c0, c1, ifFalse, d, f, t, t1);
    t', p := StmtRuns(m, c2, no, f, vars, s1, t1, fuel);
    var r := Execute(m, no, s1, fuel).value;
    GoesDoes(m, c0, c2, c3, f, t, t1, r, t', p, vars);
    if r.flow.Normal? { PlaceRuns(m, c3, y.a, f, t'); }
    DoesGoes(m, c0, c3, Place(c3, y.a), f, t, r, t', p, vars);
  }

  // ---------- loops ----------

  lemma WhileRuns(m: Machine, c: Code, st: Stmt, f: Code, vars: Var, s: State, t: State, fuel: nat)
    returns (t': State, p: Point)
    requires st.While? && Ready(c) && TypedStmt(st, vars) && TypedStmt(st, c.nextVar) && vars <= c.nextVar && LoopsBegin(st)
    requires Agrees(s, t, vars) && Final(GenWhile(c, st.cond, st.body), f) && Execute(m, st, s, fuel).Some?
    ensures Does(m, c, GenWhile(c, st.cond, st.body), f, t, Execute(m, st, s, fuel).value, t', p, vars)
    decreases fuel, st, 1
  {
    var x := FreshLabel(c);
    var c1 := GenLoopEntry(c);
    AdvancesThen(c, x.c, c1);
    TypedStmtMono(st.body, c.nextVar, c1.nextVar);
    var c2 := GenStmt(c1, st.body);
    LabelsKept(c1, c2, {}, x.a);
    HeadStays(c1, c2, x.a);
    var c3 := Place(c2, x.a);
    TypedMono(st.cond, c.nextVar, c3.nextVar);
    var c4 := GenLoopTest(c3, st.cond, c1.cur);
    FinalBack(c3, c4, f, {});
    FinalBack(c2, c3, f, {x.a});
    FinalBack(c1, c2, f, {});
    HeadInFinal(c1, c2, c3, f, x.a);
    EnterLoop(m, c, c2, f, t);
    t', p := LoopRuns(m, c1, c2, c3, x.a, st, f, vars, s, t, fuel);
    GoesDoes(m, c, c3, c4, f, t, t, Execute(m, st, s, fuel).value, t', p, vars);
  }

  /** A loop starts at its condition. */
  lemma EnterLoop(m: Machine, c: Code, c2: Code, f: Code, t: State)
    requires Ready(c) && Advances(GenLoopEntry(c), c2) && c.nextId in c2.chains && Final(Place(c2, c.nextId), f)
    ensures Goes(m, c, Place(c2, c.nextId), f, t, t)
  {
    var x := FreshLabel(c);
    var c0 := GenGoto(x.c, x.a);
    var c1 := NextBlock(c0);
    FinalBack(c2, Place(c2, x.a), f, {x.a});
    FinalBack(c1, c2, f, {});
    FinalBack(c0, c1, f, {});
    FinalBack(x.c, c0, f, {});
    FreshLabelRuns(m, c, f, t);
    var d := GotoRuns(m, x.c, x.a, f, t);
    GoesJumps(m, c, x.c, f, t, t, d, t);
    LabelsKept(x.c, c0, {}, x.a);
    ElseTarget(c0, c1, x.a, d);
    ElseTarget(c1, c2, x.a, d);
    PlaceLands(m, c, c2, x.a, d, f, t, t);
  }

  /** `c1` is where the body of a loop begins, `c2` where it ends, and the condition is placed at `c3`. */
  ghost predicate IsLoop(c1: Code, c2: Code, c3: Code, x: BlockId, st: Stmt, f: Code, vars: Var) {
    && st.While? && IsBody(c1, c2, x, st.body, f, vars) && c3 == Place(c2, x)
    && LoopShape(c1, c3, st.cond, f, vars)
  }

  ghost predicate IsBody(c1: Code, c2: Code, x: BlockId, body: Stmt, f: Code, vars: Var) {
    && Ready(c1) && LoopsBegin(body) && TypedStmt(body, vars) && TypedStmt(body, c1.nextVar) && vars <= c1.nextVar
    && c2 == GenStmt(c1, body) && x in c2.chains && Final(Place(c2, x), f)
  }

  lemma ExecuteWhile(m: Machine, st: Stmt, s: State, fuel: nat) returns (n: nat)
    requires st.While? && Execute(m, st, s, fuel).Some?
    ensures n < fuel
    ensures var r := EvalBool(m, st.cond, s.env, s.trace);
            && (r.value ==> Iterate(m, st, State(s.env, r.trace), n).Some?
                            && Iterate(m, st, State(s.env, r.trace), n).value == Execute(m, st, s, fuel).value)
            && (!r.value ==> Execute(m, st, s, fuel).value == Done(Normal, State(s.env, r.trace)))
  {
    n := fuel - 1;
  }

  /** From the condition of a loop to its end. */
  lemma LoopRuns(m: Machine, c1: Code, c2: Code, c3: Code, x: BlockId, st: Stmt, f: Code, vars: Var,
                 s: State, t: State, fuel: nat)
    returns (t': State, p: Point)
    requires IsLoop(c1, c2, c3, x, st, f, vars) && Agrees(s, t, vars) && Execute(m, st, s, fuel).Some?
    ensures Does(m, c3, GenLoopTest(c3, st.cond, c1.cur), f, t, Execute(m, st, s, fuel).value, t', p, vars)
    decreases fuel, st, 0
  {
    var n := ExecuteWhile(m, st, s, fuel);
    var r := EvalBool(m, st.cond, s.env, s.trace);
    var t1 := LoopTestRuns(m, c3, st.cond, c1, f, vars, s, t);
    if r.value {
      t', p := LoopAgain(m, c1, c2, c3, x, st, f, vars, t, State(s.env, r.trace), t1, n);
    } else {
      t', p := t1, Point(0, 0);
    }
  }

  lemma LoopAgain(m: Machine, c1: Code, c2: Code, c3: Code, x: BlockId, st: Stmt, f: Code, vars: Var,
                  t: State, s1: State, t1: State, fuel: nat)
    returns (t': State, p: Point)
    requires IsLoop(c1, c2, c3, x, st, f, vars)
    requires Goes(m, c3, c1, f, t, t1) && Agrees(s1, t1, vars) && Iterate(m, st, s1, fuel).Some?
    ensures Does(m, c3, GenLoopTest(c3, st.cond, c1.cur), f, t, Iterate(m, st, s1, fuel).value, t', p, vars)
    decreases fuel, st, 1
  {
    var d := Execute(m, st.body, s1, fuel).value;
    t', p := IterationRuns(m, c3, c1, c2, x, st.body, f, vars, t, s1, t1, fuel);
    if d.flow.Normal? {
      var t2 := t';
      t', p := LoopRuns(m, c1, c2, c3, x, st, f, vars, d.s, t2, fuel);
      GoesDoes(m, c3, c3, GenLoopTest(c3, st.cond, c1.cur), f, t, t2, Iterate(m, st, s1, fuel).value, t', p, vars);
    }
  }

  /** Once through the body, from its first block to the condition behind it. */
  lemma IterationRuns(m: Machine, c0: Code, c1: Code, c2: Code, x: BlockId, body: Stmt, f: Code, vars: Var,
                      t: State, s1: State, t1: State, fuel: nat)
    returns (t': State, p: Point)
    requires IsBody(c1, c2, x, body, f, vars)
    requires Goes(m, c0, c1, f, t, t1) && Agrees(s1, t1, vars) && Execute(m, body, s1, fuel).Some?
    ensures Does(m, c0, Place(c2, x), f, t, Execute(m, body, s1, fuel).value, t', p, vars)
    decreases fuel, body, 3
  {
    var d := Execute(m, body, s1, fuel).value;
    FinalBack(c2, Place(c2, x), f, {x});
    t', p := StmtRuns(m, c1, body, f, vars, s1, t1, fuel);
    GoesDoes(m, c0, c1, c2, f, t, t1, d, t', p, vars);
    if d.flow.Normal? { PlaceRuns(m, c2, x, f, t'); }
    DoesGoes(m, c0, c2, Place(c2, x), f, t, d, t', p, vars);
  }

  lemma HeadInFinal(c1: Code, c2: Code, c3: Code, f: Code, x: BlockId)
    requires Advances(c1, c2) && AdvancesBut(c2, c3, {x}) && Final(c3, f) && Final(c1, f) && IsLabel(c3, c1.cur)
    requires c1.cur !in c3.chains && c1.cur in c1.blocks
    ensures c1.cur in f.blocks && c1.cur < c3.nextId && c1.nextVar <= c3.nextVar
  {
    if c1.cur in c3.placed { assert PlacedOk(c3, c1.cur) && KeptAt(c3, f, c1.cur); }
  }

  // ---------- functions ----------

  lemma FunctionFinal(c: Code, body: Stmt)
    requires Ready(c) && TypedStmt(body, c.nextVar) && LoopsBegin(body)
    ensures Final(GenStmt(c, body), GenFunction(c, body))
  {
    var c1 := GenStmt(c, body);
    if WasReturn(body) {
      ExtendsRefl(c1);
    } else {
      var c2 := NextBlock(c1);
      AddQuadLater(c2, ReturnNothing);
      FinalBack(c1, c2, AddQuad(c2, ReturnNothing), {});
    }
  }

  /** A body that passes the check for return statements never runs off its end. */
  lemma {:induction false} ReturnsAlways(m: Machine, st: Stmt, s: State, fuel: nat)
    requires WasReturn(st) && Execute(m, st, s, fuel).Some?
    ensures Execute(m, st, s, fuel).value.flow.Returned?
    decreases st
  {
    match st
    case Then(a, b) =>
      var r := Execute(m, a, s, fuel).value;
      if WasReturn(a) {
        ReturnsAlways(m, a, s, fuel);
      } else if r.flow.Normal? {
        ReturnsAlways(m, b, r.s, fuel);
      }
    case IfElse(cond, yes, no) =>
      var r := EvalBool(m, cond, s.env, s.trace);
      ReturnsAlways(m, if r.value then yes else no, State(s.env, r.trace), fuel);
    case Return(_) =>
  }

  /** Where a statement has been left: at a return or at its end, with the conditions that have not been decided. */
  datatype Way = Way(returned: bool, rest: seq<bool>)

  /** One way through a statement, where `choices` decide the conditions one after the other as long as there are any. */
  ghost function Follow(st: Stmt, choices: seq<bool>): (r: Option<Way>)
    ensures r.Some? ==> |r.value.rest| <= |choices|
    decreases |choices|, st
  {
    match st
    case Then(a, b) =>
      var r := Follow(a, choices);
      if r.Some? && !r.value.returned then Follow(b, r.value.rest) else r
    case If(_, yes) =>
      if choices == [] then None else if choices[0] then Follow(yes, choices[1..]) else Some(Way(false, choices[1..]))
    case IfElse(_, yes, no) => if choices == [] then None else Follow(if choices[0] then yes else no, choices[1..])
    case While(_, body) =>
      if choices == [] then None
      else if !choices[0] then Some(Way(false, choices[1..]))
      else
        var r := Follow(body, choices[1..]);
        if r.Some? && !r.value.returned then Follow(st, r.value.rest) else r
    case Return(_) => Some(Way(true, choices))
    case _ => Some(Way(false, choices))
  }

  lemma {:induction false} NoWayThrough(st: Stmt, choices: seq<bool>)
    requires WasReturn(st)
    ensures Follow(st, choices).Some? ==> Follow(st, choices).value.returned
    decreases st
  {
    match st
    case Then(a, b) =>
      var r := Follow(a, choices);
      if WasReturn(a) {
        NoWayThrough(a, choices);
      } else if r.Some? {
        NoWayThrough(b, r.value.rest);
      }
    case IfElse(_, yes, no) => if choices != [] { NoWayThrough(if choices[0] then yes else no, choices[1..]); }
    case Return(_) =>
  }

  lemma {:induction false} WayThrough(st: Stmt, more: seq<bool>) returns (choices: seq<bool>)
    requires !WasReturn(st)
    ensures Follow(st, choices) == Some(Way(false, more))
    decreases st
  {
    match st
    case Then(a, b) =>
      var second := WayThrough(b, more);
      choices := WayThrough(a, second);
    case IfElse(_, yes, no) =>
      var first := !WasReturn(yes);
      var rest := WayThrough(if first then yes else no, more);
      choices := [first] + rest;
      assert choices[1..] == rest;
    case If(_, _) =>
      choices := [false] + more;
      assert choices[1..] == more;
    case While(_, _) =>
      choices := [false] + more;
      assert choices[1..] == more;
    case _ => choices := more;
  }

  ghost predicate EveryWayReturns(st: Stmt) {
    forall choices: seq<bool> :: Follow(st, choices).Some? ==> Follow(st, choices).value.returned
  }

  /** The check for return statements accepts exactly the statements that return whatever their conditions turn out to be. */
  lemma WasReturnIff(st: Stmt)
    ensures WasReturn(st) <==> EveryWayReturns(st)
  {
    if WasReturn(st) {
      forall choices: seq<bool> ensures Follow(st, choices).Some? ==> Follow(st, choices).value.returned {
        NoWayThrough(st, choices);
      }
    } else {
      var choices := WayThrough(st, []);
      assert !Follow(st, choices).value.returned;
    }
  }

  /** A return is added to a function body exactly when there is a way through it without one. */
  lemma ReturnAdded(c: Code, body: Stmt)
    requires Ready(c) && TypedStmt(body, c.nextVar) && LoopsBegin(body)
    ensures GenFunction(c, body)
            == if EveryWayReturns(body) then GenStmt(c, body)
               else AddQuad(NextBlock(GenStmt(c, body)), Quad(Op.Return, NoArg, NoArg, NoArg))
  {
    WasReturnIff(body);
  }

  ghost function ResultOf(d: Done): Value { if d.flow.Returned? then d.flow.value else ConstV(NoArg) }

  lemma AtEnd(m: Machine, c1: Code, f: Code, t: State) returns (p: Point)
    requires Ready(c1) && f == AddQuad(NextBlock(c1), ReturnNothing) && Final(c1, f)
    ensures Stops(m, c1, f, t, p, ConstV(NoArg), t)
  {
    var c2 := NextBlock(c1);
    AddQuadLater(c2, ReturnNothing);
    NextBlockRuns(m, c1, f, t);
    p := Here(c2, f);
  }

  lemma EntryStays(c: Code, f: Code)
    requires Final(c, f) && c.prev.None? && c.blocks[c.cur].quads == []
    ensures Here(c, f) == Point(c.cur, 0)
  {}

  /** A function started in its first block returns what its body means, with the same effects. */
  lemma FunctionRuns(m: Machine, c: Code, body: Stmt, s: State, fuel: nat) returns (t: State, p: Point)
    requires Ready(c) && c.prev.None? && c.blocks[c.cur].quads == []
    requires TypedStmt(body, c.nextVar) && LoopsBegin(body) && Execute(m, body, s, fuel).Some?
    ensures var f := GenFunction(c, body);
            var d := Execute(m, body, s, fuel).value;
            && Reaches(m, f.blocks, At(Point(c.cur, 0), s), At(p, t))
            && AtReturn(f, p, ResultOf(d), t) && Agrees(d.s, t, c.nextVar)
  {
    var f := GenFunction(c, body);
    var c1 := GenStmt(c, body);
    FunctionFinal(c, body);
    FinalBack(c, c1, f, {});
    t, p := StmtRuns(m, c, body, f, c.nextVar, s, s, fuel);
    EntryStays(c, f);
    if Execute(m, body, s, fuel).value.flow.Normal? {
      if WasReturn(body) { ReturnsAlways(m, body, s, fuel); }
      p := AtEnd(m, c1, f, t);
      ReachTrans(m, f.blocks, HereAt(c, f, s), HereAt(c1, f, t), At(p, t));
    }
  }
}
