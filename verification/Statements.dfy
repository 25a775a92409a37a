/**
  Statements, their meaning, and the code generated for them.
  A `for` loop is its first statement followed by a `while` loop whose body ends with the
  step, which is also how the program translates it.
  */
module Statements {
  import opened Quadr
  import opened Blocks
  import opened JumpCode
  import opened Begins

  datatype Stmt =
    | Empty
    | Then(first: Stmt, second: Stmt)
    | Evaluate(e: Expr)
    | Set(v: Var, e: Expr)
    | Bump(v: Var, isDouble: bool, up: bool)
    | If(cond: Expr, yes: Stmt)
    | IfElse(cond: Expr, yes: Stmt, no: Stmt)
    | While(cond: Expr, body: Stmt)
    | Return(value: Option<Expr>)

  // ---------- meaning ----------

  datatype Flow = Normal | Returned(value: Value)

  datatype Done = Done(flow: Flow, s: State)

  ghost function AfterExpr(r: Outcome<Value>, s: State): State { State(s.env, r.trace) }

  ghost function Assigned(s: State, v: Var, x: Value): State { State(s.env[v := x], s.trace) }

  ghost function ReturnDone(m: Machine, value: Option<Expr>, s: State): Done {
    match value
    case None => Done(Returned(ConstV(NoArg)), s)
    case Some(e) =>
      var r := EvalExpr(m, e, s.env, s.trace);
      Done(Returned(r.value), AfterExpr(r, s))
  }

  /** Running a statement, with at most `fuel` iterations of loops inside one another. */
  ghost function Execute(m: Machine, st: Stmt, s: State, fuel: nat): Option<Done>
    decreases fuel, st, 0
  {
    match st
    case Empty => Some(Done(Normal, s))
    case Then(a, b) =>
      var r := Execute(m, a, s, fuel);
      if r.Some? && r.value.flow.Normal? then Execute(m, b, r.value.s, fuel) else r
    case Evaluate(e) => Some(Done(Normal, AfterExpr(EvalExpr(m, e, s.env, s.trace), s)))
    case Set(v, e) =>
      var r := EvalExpr(m, e, s.env, s.trace);
      Some(Done(Normal, Assigned(AfterExpr(r, s), v, r.value)))
    case Bump(v, isDouble, up) =>
      var one := if isDouble then RealV(1.0) else IntV(1);
      Some(Done(Normal, Assigned(s, v, if up then m.alu(Add, s.env[v], one) else m.alu(Sub, s.env[v], one))))
    case If(cond, yes) =>
      var r := EvalBool(m, cond, s.env, s.trace);
      var s1 := State(s.env, r.trace);
      if r.value then Execute(m, yes, s1, fuel) else Some(Done(Normal, s1))
    case IfElse(cond, yes, no) =>
      var r := EvalBool(m, cond, s.env, s.trace);
      Execute(m, if r.value then yes else no, State(s.env, r.trace), fuel)
    case While(cond, body) =>
      if fuel == 0 then None
      else
        var r := EvalBool(m, cond, s.env, s.trace);
        var s1 := State(s.env, r.trace);
        if r.value then Iterate(m, st, s1, fuel - 1) else Some(Done(Normal, s1))
    case Return(value) => Some(ReturnDone(m, value, s))
  }

  /** The body of a loop, and then the loop again. */
  ghost function Iterate(m: Machine, st: Stmt, s: State, fuel: nat): Option<Done>
    requires st.While?
    decreases fuel, st, 1
  {
    var r := Execute(m, st.body, s, fuel);
    if r.Some? && r.value.flow.Normal? then Execute(m, st, r.value.s, fuel) else r
  }

  // ---------- what the translation demands ----------

  ghost predicate IsCondition(e: Expr, vars: Var) { HasBoolType(e) && Typed(e, vars) }

  ghost predicate TypedStmt(st: Stmt, vars: Var) {
    match st
    case Empty => true
    case Then(a, b) => TypedStmt(a, vars) && TypedStmt(b, vars)
    case Evaluate(e) => Typed(e, vars)
    case Set(v, e) => v < vars && Typed(e, vars)
    case Bump(v, _, _) => v < vars
    case If(cond, yes) => IsCondition(cond, vars) && TypedStmt(yes, vars)
    case IfElse(cond, yes, no) => IsCondition(cond, vars) && TypedStmt(yes, vars) && TypedStmt(no, vars)
    case While(cond, body) => IsCondition(cond, vars) && TypedStmt(body, vars)
    case Return(value) => value.Some? ==> Typed(value.value, vars)
  }

  lemma {:induction false} TypedStmtMono(st: Stmt, vars: Var, vars': Var)
    requires TypedStmt(st, vars) && vars <= vars'
    ensures TypedStmt(st, vars')
  {
    match st
    case Empty =>
    case Then(a, b) => TypedStmtMono(a, vars, vars'); TypedStmtMono(b, vars, vars');
    case Evaluate(e) => TypedMono(e, vars, vars');
    case Set(_, e) => TypedMono(e, vars, vars');
    case Bump(_, _, _) =>
    case If(cond, yes) => TypedMono(cond, vars, vars'); TypedStmtMono(yes, vars, vars');
    case IfElse(cond, yes, no) =>
      TypedMono(cond, vars, vars');
      TypedStmtMono(yes, vars, vars');
      TypedStmtMono(no, vars, vars');
    case While(cond, body) => TypedMono(cond, vars, vars'); TypedStmtMono(body, vars, vars');
    case Return(value) => if value.Some? { TypedMono(value.value, vars, vars'); }
  }

  function StmtStart(st: Stmt): Start {
    match st
    case Empty => Silent
    case Then(a, b) => First(StmtStart(a), StmtStart(b))
    case Evaluate(e) => ExprStart(e)
    case Set(_, e) => First(ExprStart(e), Emits)
    case Bump(_, _, _) => Emits
    case If(cond, _) => First(BoolStart(cond, false), Moves)
    case IfElse(cond, _, _) => First(BoolStart(cond, false), Moves)
    case While(_, _) => Emits
    case Return(value) => First(ValueStart(value), Emits)
  }

  function ValueStart(value: Option<Expr>): Start { if value.Some? then ExprStart(value.value) else Silent }

  /** The code of every loop body begins with a quadruple; `while (c) ;` is the simplest loop where it does not. */
  predicate LoopsBegin(st: Stmt) {
    match st
    case Then(a, b) => LoopsBegin(a) && LoopsBegin(b)
    case If(_, yes) => LoopsBegin(yes)
    case IfElse(_, yes, no) => LoopsBegin(yes) && LoopsBegin(no)
    case While(_, body) => StmtStart(body).Emits? && LoopsBegin(body)
    case _ => true
  }

  /** The check for return statements: every way through the statement ends in one. */
  predicate WasReturn(st: Stmt) {
    match st
    case Then(a, b) => WasReturn(a) || WasReturn(b)
    case IfElse(_, yes, no) => WasReturn(yes) && WasReturn(no)
    case Return(_) => true
    case _ => false
  }

  // ---------- generated code ----------

  function One(isDouble: bool): Arg { if isDouble then DoubleArg(1.0) else IntArg(1) }

  function BumpOp(up: bool): Op { if up then Add else Sub }

  ghost function GenSet(c: Code, v: Var, e: Expr): (r: Code)
    requires Ready(c) && Typed(e, c.nextVar)
    ensures Advances(c, r)
  {
    var a := GenExpr(c, e);
    var r := Emit(a.c, Quad(Copy, VarArg(v), a.a, NoArg));
    AdvancesThen(c, a.c, r);
    r
  }

  lemma SetBegan(c: Code, v: Var, e: Expr)
    requires Ready(c) && Typed(e, c.nextVar)
    ensures Began(First(ExprStart(e), Emits), c, GenSet(c, v, e))
  {
    ExprBegan(c, e);
    BeganThen(ExprStart(e), Emits, c, GenExpr(c, e).c, GenSet(c, v, e));
  }

  ghost function GenBump(c: Code, v: Var, isDouble: bool, up: bool): (r: Code)
    requires Ready(c)
    ensures Advances(c, r) && Began(Emits, c, r)
  {
    var k := GenConst(c, One(isDouble));
    var r := Emit(k.c, Quad(BumpOp(up), VarArg(v), VarArg(v), k.a));
    AdvancesThen(c, k.c, r);
    r
  }

  ghost function ReturnArg(c: Code, value: Option<Expr>): (r: Gen<Arg>)
    requires Ready(c) && (value.Some? ==> Typed(value.value, c.nextVar))
    ensures Advances(c, r.c) && Began(ValueStart(value), c, r.c)
  {
    if value.Some? then ExprBegan(c, value.value); GenExpr(c, value.value) else LaterRefl(c); Gen(c, NoArg)
  }

  ghost function GenReturn(c: Code, value: Option<Expr>): (r: Code)
    requires Ready(c) && (value.Some? ==> Typed(value.value, c.nextVar))
    ensures Advances(c, r) && Began(First(ValueStart(value), Emits), c, r)
  {
    var a := ReturnArg(c, value);
    var q := Quad(Op.Return, NoArg, a.a, NoArg);
    var r := EndBlock(a.c, q);
    EndBlockBegan(a.c, q);
    BeganThen(ValueStart(value), Emits, c, a.c, r);
    AdvancesThen(c, a.c, r);
    r
  }

  /** The test of an `if`: a jump to a new label when the condition fails, and a new block when it holds. */
  ghost function GenIfTest(c: Code, cond: Expr): (r: Code)
    requires Ready(c) && IsCondition(cond, c.nextVar)
    ensures var x := FreshLabel(c); Advances(x.c, r) && x.a in r.chains && IsLabel(r, x.a)
    ensures Began(First(BoolStart(cond, false), Moves), c, r)
  {
    var x := FreshLabel(c);
    TypedMono(cond, c.nextVar, x.c.nextVar);
    var c1 := GenBool(x.c, cond, x.a, false);
    var r := NextBlock(c1);
    AdvancesThen(x.c, c1, r);
    LabelsKept(x.c, r, {}, x.a);
    LabelStays(x.c, r, x.a);
    BoolBegan(x.c, cond, x.a, false);
    NextBlockBegan(c1);
    BeganThen(BoolStart(cond, false), Moves, x.c, c1, r);
    r
  }

  /** The end of the first branch: a jump to a new label over the second branch. */
  ghost function GenElse(c: Code, ifFalse: BlockId): (r: Code)
    requires Ready(c) && ifFalse in c.chains
    ensures var x := FreshLabel(c); AdvancesBut(x.c, r, {ifFalse}) && x.a in r.chains
  {
    var x := FreshLabel(c);
    var c1 := GenGoto(x.c, x.a);
    LabelsKept(c, x.c, {}, ifFalse);
    LabelsKept(x.c, c1, {}, ifFalse);
    LabelsKept(x.c, c1, {}, x.a);
    var r := Place(c1, ifFalse);
    AdvancesFrom(x.c, c1, r, {ifFalse});
    LabelsKept(c1, r, {ifFalse}, x.a);
    r
  }

  lemma LoopEntryBegan(c: Code)
    requires Ready(c)
    ensures var x := FreshLabel(c);
            var r := NextBlock(GenGoto(x.c, x.a));
            Began(Emits, c, r) && r.blocks[r.cur] == Block([], None, false)
  {
    var x := FreshLabel(c);
    var c1 := GenGoto(x.c, x.a);
    GotoBegan(x.c, x.a);
    EmittedStays(x.c, c1, NextBlock(c1), {});
    GotoEnds(x.c, x.a);
    NewBlockEnds(c1);
  }

  /** A jump to the condition of a loop, and the first block of the body. */
  ghost function GenLoopEntry(c: Code): (r: Code)
    requires Ready(c)
    ensures var x := FreshLabel(c); Advances(x.c, r) && x.a in r.chains && Began(Emits, c, r)
    ensures r.blocks[r.cur] == Block([], None, false)
  {
    var x := FreshLabel(c);
    var c1 := GenGoto(x.c, x.a);
    var r := NextBlock(c1);
    LabelsKept(x.c, c1, {}, x.a);
    LabelsKept(c1, r, {}, x.a);
    AdvancesThen(x.c, c1, r);
    LoopEntryBegan(c);
    r
  }

  /** A new block becomes current as it is. */
  lemma NewBlockEnds(c: Code)
    requires WF(c) && !EndsInIf(c)
    ensures NextBlock(c).blocks[NextBlock(c).cur] == Block([], None, false)
  {
    assert NewBlock(c).chains[c.nextId] == [c.nextId];
  }

  lemma GotoEnds(c: Code, x: BlockId)
    requires Ready(c) && IsLabel(c, x)
    ensures GenGoto(c, x).blocks[GenGoto(c, x).cur] == Block([], None, false)
  {
    var j := JumpTo(c, x);
    AddQuadLater(j.c, Quad(Goto, LabelArg(j.a), NoArg, NoArg));
    NewBlockEnds(AddQuad(j.c, Quad(Goto, LabelArg(j.a), NoArg, NoArg)));
  }

  /** The condition after the body: jumps back to the block the body began with. */
  ghost function GenLoopTest(c: Code, cond: Expr, head: BlockId): (r: Code)
    requires Ready(c) && IsCondition(cond, c.nextVar) && IsLabel(c, head)
    ensures Advances(c, r)
  {
    var c1 := GenBool(c, cond, head, true);
    var r := NextBlock(c1);
    AdvancesThen(c, c1, r);
    r
  }

  /** The block that a loop body begins with is still there at the end of the body. */
  lemma HeadStays(c: Code, c1: Code, x: BlockId)
    requires Advances(c, c1) && Began(Emits, c, c1) && c.cur in c.blocks && x in c1.chains
    ensures IsLabel(Place(c1, x), c.cur) && c.cur !in Place(c1, x).chains
  {
    var c2 := Place(c1, x);
    EmittedStays(c, c1, c2, {x});
    ChainHeads(c2);
  }

  ghost function GenStmt(c: Code, st: Stmt): (r: Code)
    requires Ready(c) && TypedStmt(st, c.nextVar) && LoopsBegin(st)
    ensures Advances(c, r) && Began(StmtStart(st), c, r)
    decreases st, 1
  {
    match st
    case Empty => LaterRefl(c); c
    case Then(a, b) =>
      var c1 := GenStmt(c, a);
      TypedStmtMono(b, c.nextVar, c1.nextVar);
      var r := GenStmt(c1, b);
      AdvancesThen(c, c1, r);
      BeganThen(StmtStart(a), StmtStart(b), c, c1, r);
      r
    case Evaluate(e) => ExprBegan(c, e); GenExpr(c, e).c
    case Set(v, e) => SetBegan(c, v, e); GenSet(c, v, e)
    case Bump(v, isDouble, up) => GenBump(c, v, isDouble, up)
    case If(cond, yes) => GenIf(c, cond, yes)
    case IfElse(cond, yes, no) => GenIfElse(c, st)
    case While(cond, body) => GenWhile(c, cond, body)
    case Return(value) => GenReturn(c, value)
  }

  const ReturnNothing := Quad(Op.Return, NoArg, NoArg, NoArg)

  /** A function body; unless every way through it returns, a return without a value is added. */
  ghost function GenFunction(c: Code, body: Stmt): (f: Code)
    requires Ready(c) && TypedStmt(body, c.nextVar) && LoopsBegin(body)
  {
    var c1 := GenStmt(c, body);
    if WasReturn(body) then c1 else AddQuad(NextBlock(c1), ReturnNothing)
  }

  ghost function GenIf(c: Code, cond: Expr, yes: Stmt): (r: Code)
    requires Ready(c) && IsCondition(cond, c.nextVar) && TypedStmt(yes, c.nextVar) && LoopsBegin(yes)
    ensures Advances(c, r) && Began(First(BoolStart(cond, false), Moves), c, r)
    decreases yes, 2
  {
    var x := FreshLabel(c);
    var c1 := GenIfTest(c, cond);
    AdvancesThen(c, x.c, c1);
    TypedStmtMono(yes, c.nextVar, c1.nextVar);
    var c2 := GenStmt(c1, yes);
    AdvancesThen(x.c, c1, c2);
    LabelsKept(c1, c2, {}, x.a);
    var r := PlaceFresh(c, c2, {});
    AdvancesThen(c, c1, c2);
    AdvancesOver(First(BoolStart(cond, false), Moves), c, c1, c2, r, x.a);
    r
  }

  ghost function GenIfElse(c: Code, st: Stmt): (r: Code)
    requires st.IfElse? && Ready(c) && TypedStmt(st, c.nextVar) && LoopsBegin(st)
    ensures Advances(c, r) && Began(StmtStart(st), c, r)
    decreases st, 0
  {
    var x := FreshLabel(c);
    var c1 := GenIfTest(c, st.cond);
    AdvancesThen(c, x.c, c1);
    TypedStmtMono(st, c.nextVar, c1.nextVar);
    var c2 := GenStmt(c1, st.yes);
    LabelsKept(c1, c2, {}, x.a);
    TypedStmtMono(st.no, c1.nextVar, c2.nextVar);
    var r := GenElsePart(c2, x.a, st.no);
    AdvancesThen(x.c, c1, c2);
    AdvancesFrom(x.c, c2, r, {x.a});
    FreshGoneOnly(c, r);
    AdvancesThen(c, c1, c2);
    AdvancesOver(StmtStart(st), c, c1, c2, r, x.a);
    r
  }

  lemma AdvancesOver(b: Start, c: Code, c1: Code, c2: Code, r: Code, x: BlockId)
    requires Advances(c, c1) && Advances(c1, c2) && Advances(c, c2) && AdvancesBut(c2, r, {x})
    requires Began(b, c, c1) && !b.Silent?
    ensures Began(b, c, r)
  {
    MovedStays(b, c, c1, c2, {});
    MovedStays(b, c, c2, r, {x});
  }

  ghost function GenElsePart(c: Code, ifFalse: BlockId, no: Stmt): (r: Code)
    requires Ready(c) && ifFalse in c.chains && TypedStmt(no, c.nextVar) && LoopsBegin(no)
    ensures AdvancesBut(c, r, {ifFalse})
    decreases no, 2
  {
    var y := FreshLabel(c);
    var c1 := GenElse(c, ifFalse);
    TypedStmtMono(no, c.nextVar, c1.nextVar);
    var c2 := GenStmt(c1, no);
    AdvancesOn(y.c, c1, c2, {ifFalse});
    LabelsKept(c1, c2, {}, y.a);
    PlaceFresh(c, c2, {ifFalse})
  }

  ghost function GenWhile(c: Code, cond: Expr, body: Stmt): (r: Code)
    requires Ready(c) && IsCondition(cond, c.nextVar) && TypedStmt(body, c.nextVar)
    requires StmtStart(body).Emits? && LoopsBegin(body)
    ensures Advances(c, r) && Began(Emits, c, r)
    decreases body, 2
  {
    var x := FreshLabel(c);
    var c1 := GenLoopEntry(c);
    AdvancesThen(c, x.c, c1);
    TypedStmtMono(body, c.nextVar, c1.nextVar);
    var c2 := GenStmt(c1, body);
    LabelsKept(c1, c2, {}, x.a);
    AdvancesThen(x.c, c1, c2);
    HeadStays(c1, c2, x.a);
    var c3 := PlaceFresh(c, c2, {});
    TypedMono(cond, c.nextVar, c3.nextVar);
    var r := GenLoopTest(c3, cond, c1.cur);
    AdvancesThen(c, c3, r);
    LoopBegan(c, c1, c2, c3, r, x.a);
    r
  }

  lemma LoopBegan(c: Code, c1: Code, c2: Code, c3: Code, r: Code, x: BlockId)
    requires Advances(c, c1) && Advances(c1, c2) && AdvancesBut(c2, c3, {x}) && Advances(c, c3) && Advances(c3, r)
    requires Began(Emits, c, c1)
    ensures Began(Emits, c, r)
  {
    EmittedStays(c, c1, c2, {});
    AdvancesThen(c, c1, c2);
    EmittedStays(c, c2, c3, {x});
    EmittedStays(c, c3, r, {});
  }
}
