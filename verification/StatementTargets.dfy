/**
  The targets of jumps in whole statements: only the blocks that loop bodies begin with are
  the targets of several jumps.
  */
module StatementTargets {
  import opened Quadr
  import opened Blocks
  import opened JumpCode
  import opened Begins
  import opened Statements
  import opened SoleTargets

  /** The blocks that the loop bodies of a statement begin with. */
  ghost function Heads(c: Code, st: Stmt): set<BlockId>
    requires Ready(c) && TypedStmt(st, c.nextVar) && LoopsBegin(st)
    decreases st, 1
  {
    match st
    case Then(a, b) =>
      var c1 := GenStmt(c, a);
      TypedStmtMono(b, c.nextVar, c1.nextVar);
      Heads(c, a) + Heads(c1, b)
    case If(cond, yes) =>
      var c1 := GenIfTest(c, cond);
      IfTestMore(c, cond, yes);
      Heads(c1, yes)
    case IfElse(_, _, _) => BranchHeads(c, st)
    case While(cond, body) =>
      var c1 := GenLoopEntry(c);
      LoopEntryMore(c, body);
      Heads(c1, body) + {c1.cur}
    case _ => {}
  }

  ghost function BranchHeads(c: Code, st: Stmt): set<BlockId>
    requires st.IfElse? && Ready(c) && TypedStmt(st, c.nextVar) && LoopsBegin(st)
    decreases st, 0
  {
    IfTestMore(c, st.cond, st.yes);
    Heads(GenIfTest(c, st.cond), st.yes) + Heads(AfterElse(c, st), st.no)
  }

  lemma IfTestMore(c: Code, cond: Expr, yes: Stmt)
    requires Ready(c) && IsCondition(cond, c.nextVar) && TypedStmt(yes, c.nextVar)
    ensures Advances(c, GenIfTest(c, cond)) && TypedStmt(yes, GenIfTest(c, cond).nextVar)
  {
    AdvancesThen(c, FreshLabel(c).c, GenIfTest(c, cond));
    TypedStmtMono(yes, c.nextVar, GenIfTest(c, cond).nextVar);
  }

  /** Where the second branch begins. */
  ghost function AfterElse(c: Code, st: Stmt): (r: Code)
    requires st.IfElse? && Ready(c) && TypedStmt(st, c.nextVar) && LoopsBegin(st)
    ensures Ready(r) && TypedStmt(st.no, r.nextVar)
  {
    var c1 := GenIfTest(c, st.cond);
    IfTestMore(c, st.cond, st.yes);
    var c2 := GenStmt(c1, st.yes);
    LabelsKept(c1, c2, {}, c.nextId);
    var r := GenElse(c2, c.nextId);
    TypedStmtMono(st.no, c.nextVar, r.nextVar);
    r
  }

  lemma LoopEntryMore(c: Code, body: Stmt)
    requires Ready(c) && TypedStmt(body, c.nextVar)
    ensures Advances(c, GenLoopEntry(c)) && TypedStmt(body, GenLoopEntry(c).nextVar)
  {
    AdvancesThen(c, FreshLabel(c).c, GenLoopEntry(c));
    TypedStmtMono(body, c.nextVar, GenLoopEntry(c).nextVar);
  }

  // ---------- more and more loops ----------

  /** From `c` to `c'` the blocks in `heads` have become shared targets, and no others. */
  ghost predicate Tidies(loops: set<BlockId>, c: Code, heads: set<BlockId>, c': Code) {
    && c.nextId <= c'.nextId
    && (forall h :: h in heads ==> h >= c.nextId)
    && (Sole(loops, c) ==> Sole(loops + heads, c') && Leaves(loops, c, c'))
  }

  lemma TidiesNone(loops: set<BlockId>, c: Code, c': Code)
    requires Tidy(loops, c, c') && c.nextId <= c'.nextId
    ensures Tidies(loops, c, {}, c')
  {
    assert loops + {} == loops;
  }

  lemma TidiesTrans(loops: set<BlockId>, c1: Code, h1: set<BlockId>, c2: Code, h2: set<BlockId>, c3: Code)
    requires WF(c1) && Tidies(loops, c1, h1, c2) && Tidies(loops + h1, c2, h2, c3)
    ensures Tidies(loops, c1, h1 + h2, c3)
  {
    assert (loops + h1) + h2 == loops + (h1 + h2);
    if Sole(loops, c1) {
      forall b: BlockId | b !in loops && Marked(c1, b) ensures Marked(c3, b) && SameSites(c1, c3, b) {
        assert b < c1.nextId && b !in h1;
        assert SameSites(c1, c2, b) && SameSites(c2, c3, b);
      }
    }
  }

  /** A step that adds no loop, at either end. */
  lemma TidiesThen(loops: set<BlockId>, c1: Code, h: set<BlockId>, c2: Code, c3: Code)
    requires WF(c1) && Tidies(loops, c1, h, c2) && Tidy(loops + h, c2, c3) && c2.nextId <= c3.nextId
    ensures Tidies(loops, c1, h, c3)
  {
    TidiesNone(loops + h, c2, c3);
    TidiesTrans(loops, c1, h, c2, {}, c3);
    assert h + {} == h;
  }

  lemma TidyThen(loops: set<BlockId>, c1: Code, c2: Code, h: set<BlockId>, c3: Code)
    requires WF(c1) && Tidy(loops, c1, c2) && c1.nextId <= c2.nextId && Tidies(loops, c2, h, c3)
    ensures Tidies(loops, c1, h, c3)
  {
    TidiesNone(loops, c1, c2);
    assert loops + {} == loops;
    TidiesTrans(loops, c1, {}, c2, h, c3);
    assert {} + h == h;
  }

  /** A block that has code already may become a shared target. */
  lemma HeadAdded(loops: set<BlockId>, c: Code, heads: set<BlockId>, c': Code, h: BlockId)
    requires Tidies(loops, c, heads, c') && h >= c.nextId && h in c'.blocks && c'.blocks[h].quads != []
    ensures Tidies(loops, c, heads + {h}, c')
  {
    assert loops + (heads + {h}) == (loops + heads) + {h};
  }

  // ---------- statements ----------

  lemma SetTidy(loops: set<BlockId>, c: Code, v: Var, e: Expr)
    requires Ready(c) && Typed(e, c.nextVar)
    ensures Tidy(loops, c, GenSet(c, v, e))
  {
    var a := GenExpr(c, e);
    ExprTidy(loops, c, e);
    EmitTidy(loops, a.c, Quad(Copy, VarArg(v), a.a, NoArg));
    TidyTrans(loops, c, a.c, GenSet(c, v, e));
  }

  lemma BumpTidy(loops: set<BlockId>, c: Code, v: Var, isDouble: bool, up: bool)
    requires Ready(c)
    ensures Tidy(loops, c, GenBump(c, v, isDouble, up))
  {
    var k := GenConst(c, One(isDouble));
    ConstTidy(loops, c, One(isDouble));
    EmitTidy(loops, k.c, Quad(BumpOp(up), VarArg(v), VarArg(v), k.a));
    TidyTrans(loops, c, k.c, GenBump(c, v, isDouble, up));
  }

  /** A return is no jump. */
  lemma AddReturnTidy(loops: set<BlockId>, c: Code, q: Quad)
    requires WF(c) && q.op.Return?
    ensures Tidy(loops, c, AddQuad(c, q))
  {
    var c' := AddQuad(c, q);
    forall b ensures SameSites(c, c', b) {
      forall p, i: nat ensures Site(c', p, i, b) <==> Site(c, p, i, b) {}
    }
    QuietTidy(loops, c, c');
  }

  lemma ReturnTidy(loops: set<BlockId>, c: Code, value: Option<Expr>)
    requires Ready(c) && (value.Some? ==> Typed(value.value, c.nextVar))
    ensures Tidy(loops, c, GenReturn(c, value))
  {
    var a := ReturnArg(c, value);
    var q := Quad(Op.Return, NoArg, a.a, NoArg);
    if value.Some? { ExprTidy(loops, c, value.value); } else { TidyRefl(loops, c); }
    AddReturnTidy(loops, a.c, q);
    AddQuadLater(a.c, q);
    NextBlockTidy(loops, AddQuad(a.c, q));
    TidyTrans(loops, c, a.c, AddQuad(a.c, q));
    TidyTrans(loops, c, AddQuad(a.c, q), GenReturn(c, value));
  }

  lemma IfTestTidy(loops: set<BlockId>, c: Code, cond: Expr)
    requires Ready(c) && IsCondition(cond, c.nextVar)
    ensures Tidy(loops, c, GenIfTest(c, cond))
  {
    var x := FreshLabel(c);
    TypedMono(cond, c.nextVar, x.c.nextVar);
    var c1 := GenBool(x.c, cond, x.a, false);
    NewBlockTidy(loops, c);
    BoolTidy(loops, x.c, cond, x.a, false);
    NextBlockTidy(loops, c1);
    TidyTrans(loops, c, x.c, c1);
    TidyTrans(loops, c, c1, GenIfTest(c, cond));
  }

  lemma ElseTidy(loops: set<BlockId>, c: Code, ifFalse: BlockId)
    requires Ready(c) && ifFalse in c.chains
    ensures Tidy(loops, c, GenElse(c, ifFalse))
  {
    var x := FreshLabel(c);
    var c1 := GenGoto(x.c, x.a);
    LabelsKept(c, x.c, {}, ifFalse);
    LabelsKept(x.c, c1, {}, ifFalse);
    NewBlockTidy(loops, c);
    GotoTidy(loops, x.c, x.a);
    PlaceTidy(loops, c1, ifFalse);
    TidyTrans(loops, c, x.c, c1);
    TidyTrans(loops, c, c1, GenElse(c, ifFalse));
  }

  lemma LoopEntryTidy(loops: set<BlockId>, c: Code)
    requires Ready(c)
    ensures Tidy(loops, c, GenLoopEntry(c))
  {
    var x := FreshLabel(c);
    var c1 := GenGoto(x.c, x.a);
    NewBlockTidy(loops, c);
    GotoTidy(loops, x.c, x.a);
    NextBlockTidy(loops, c1);
    TidyTrans(loops, c, x.c, c1);
    TidyTrans(loops, c, c1, GenLoopEntry(c));
  }

  lemma LoopTestTidy(loops: set<BlockId>, c: Code, cond: Expr, head: BlockId)
    requires Ready(c) && IsCondition(cond, c.nextVar) && IsLabel(c, head) && head in loops
    ensures Tidy(loops, c, GenLoopTest(c, cond, head))
  {
    var c1 := GenBool(c, cond, head, true);
    BoolTidy(loops, c, cond, head, true);
    NextBlockTidy(loops, c1);
    TidyTrans(loops, c, c1, GenLoopTest(c, cond, head));
  }

  lemma HeadIsNew(c: Code)
    requires Ready(c)
    ensures GenLoopEntry(c).cur >= c.nextId
  {
    var x := FreshLabel(c);
    GotoEnds(x.c, x.a);
    NewBlockIsCurrent(GenGoto(x.c, x.a));
  }

  lemma NewBlockIsCurrent(c: Code)
    requires WF(c) && !EndsInIf(c)
    ensures NextBlock(c).cur == c.nextId
  {
    assert NewBlock(c).chains[c.nextId] == [c.nextId];
  }

  /** Only the heads of loops become targets of several jumps, and every conditional jump falls into a block of its own. */
  lemma {:induction false} StmtTidy(loops: set<BlockId>, c: Code, st: Stmt)
    requires Ready(c) && TypedStmt(st, c.nextVar) && LoopsBegin(st)
    ensures Tidies(loops, c, Heads(c, st), GenStmt(c, st))
    decreases st, 1
  {
    match st
    case Empty => TidyRefl(loops, c); TidiesNone(loops, c, c);
    case Then(a, b) =>
      var c1 := GenStmt(c, a);
      TypedStmtMono(b, c.nextVar, c1.nextVar);
      StmtTidy(loops, c, a);
      StmtTidy(loops + Heads(c, a), c1, b);
      TidiesTrans(loops, c, Heads(c, a), c1, Heads(c1, b), GenStmt(c, st));
    case Evaluate(e) => ExprTidy(loops, c, e); TidiesNone(loops, c, GenStmt(c, st));
    case Set(v, e) => SetTidy(loops, c, v, e); TidiesNone(loops, c, GenStmt(c, st));
    case Bump(v, isDouble, up) => BumpTidy(loops, c, v, isDouble, up); TidiesNone(loops, c, GenStmt(c, st));
    case If(cond, yes) => IfTidy(loops, c, st);
    case IfElse(_, _, _) => IfElseTidy(loops, c, st);
    case While(_, _) => WhileTidy(loops, c, st);
    case Return(value) => ReturnTidy(loops, c, value); TidiesNone(loops, c, GenStmt(c, st));
  }

  lemma IfTidy(loops: set<BlockId>, c: Code, st: Stmt)
    requires st.If? && Ready(c) && TypedStmt(st, c.nextVar) && LoopsBegin(st)
    ensures Tidies(loops, c, Heads(c, st), GenIf(c, st.cond, st.yes))
    decreases st, 0
  {
    var c1 := GenIfTest(c, st.cond);
    IfTestMore(c, st.cond, st.yes);
    var c2 := GenStmt(c1, st.yes);
    LabelsKept(c1, c2, {}, c.nextId);
    IfTestTidy(loops, c, st.cond);
    StmtTidy(loops, c1, st.yes);
    TidyThen(loops, c, c1, Heads(c1, st.yes), c2);
    PlaceTidy(loops + Heads(c1, st.yes), c2, c.nextId);
    TidiesThen(loops, c, Heads(c1, st.yes), c2, Place(c2, c.nextId));
  }

  lemma IfElseTidy(loops: set<BlockId>, c: Code, st: Stmt)
    requires st.IfElse? && Ready(c) && TypedStmt(st, c.nextVar) && LoopsBegin(st)
    ensures Tidies(loops, c, Heads(c, st), GenIfElse(c, st))
    decreases st, 0
  {
    var c1 := GenIfTest(c, st.cond);
    IfTestMore(c, st.cond, st.yes);
    var c2 := GenStmt(c1, st.yes);
    LabelsKept(c1, c2, {}, c.nextId);
    TypedStmtMono(st.no, c.nextVar, c2.nextVar);
    var h1, h2 := Heads(c1, st.yes), Heads(AfterElse(c, st), st.no);
    IfTestTidy(loops, c, st.cond);
    StmtTidy(loops, c1, st.yes);
    TidyThen(loops, c, c1, h1, c2);
    ElsePartTidy(loops + h1, c2, c.nextId, st.no);
    TidiesTrans(loops, c, h1, c2, h2, GenElsePart(c2, c.nextId, st.no));
  }

  lemma ElsePartTidy(loops: set<BlockId>, c: Code, ifFalse: BlockId, no: Stmt)
    requires Ready(c) && ifFalse in c.chains && TypedStmt(no, c.nextVar) && LoopsBegin(no)
    requires TypedStmt(no, GenElse(c, ifFalse).nextVar)
    ensures Tidies(loops, c, Heads(GenElse(c, ifFalse), no), GenElsePart(c, ifFalse, no))
    decreases no, 2
  {
    var c1 := GenElse(c, ifFalse);
    ElseTidy(loops, c, ifFalse);
    StmtTidy(loops, c1, no);
    JoinedTidy(loops, c, c1, c.nextId, no);
  }

  /** The label behind the second branch is placed. */
  lemma JoinedTidy(loops: set<BlockId>, c: Code, c1: Code, end: BlockId, no: Stmt)
    requires WF(c) && Ready(c1) && c.nextId <= c1.nextId && Tidy(loops, c, c1) && end in c1.chains
    requires TypedStmt(no, c1.nextVar) && LoopsBegin(no) && Tidies(loops, c1, Heads(c1, no), GenStmt(c1, no))
    ensures end in GenStmt(c1, no).chains && Tidies(loops, c, Heads(c1, no), Place(GenStmt(c1, no), end))
  {
    var c2, h := GenStmt(c1, no), Heads(c1, no);
    LabelsKept(c1, c2, {}, end);
    TidyThen(loops, c, c1, h, c2);
    PlaceTidy(loops + h, c2, end);
    TidiesThen(loops, c, h, c2, Place(c2, end));
  }

  lemma WhileTidy(loops: set<BlockId>, c: Code, st: Stmt)
    requires st.While? && Ready(c) && TypedStmt(st, c.nextVar) && LoopsBegin(st)
    ensures Tidies(loops, c, Heads(c, st), GenWhile(c, st.cond, st.body))
    decreases st, 0
  {
    var c1 := GenLoopEntry(c);
    LoopEntryMore(c, st.body);
    var c2 := GenStmt(c1, st.body);
    LabelsKept(c1, c2, {}, c.nextId);
    HeadStays(c1, c2, c.nextId);
    var c3 := Place(c2, c.nextId);
    var h := Heads(c1, st.body);
    LoopEntryTidy(loops, c);
    StmtTidy(loops, c1, st.body);
    TidyThen(loops, c, c1, h, c2);
    PlaceTidy(loops + h, c2, c.nextId);
    TidiesThen(loops, c, h, c2, c3);
    HeadIsNew(c);
    HeadAdded(loops, c, h, c3, c1.cur);
    TypedMono(st.cond, c.nextVar, c3.nextVar);
    LoopTestTidy(loops + (h + {c1.cur}), c3, st.cond, c1.cur);
    TidiesThen(loops, c, h + {c1.cur}, c3, GenLoopTest(c3, st.cond, c1.cur));
  }

  /** In a function that starts without jumps, all blocks but the heads of loops end up as the target of one jump at most. */
  lemma FunctionTidy(c: Code, body: Stmt)
    requires Ready(c) && TypedStmt(body, c.nextVar) && LoopsBegin(body) && Sole({}, c)
    ensures Sole(Heads(c, body), GenFunction(c, body))
  {
    var c1, h := GenStmt(c, body), Heads(c, body);
    StmtTidy({}, c, body);
    TidiesFromNone(c, h, c1);
    if !WasReturn(body) {
      LastReturnTidy(h, c1);
    }
  }

  lemma TidiesFromNone(c: Code, heads: set<BlockId>, c': Code)
    requires Tidies({}, c, heads, c') && Sole({}, c)
    ensures Sole(heads, c')
  {
    assert {} + heads == heads;
  }

  lemma LastReturnTidy(loops: set<BlockId>, c: Code)
    requires Ready(c)
    ensures Tidy(loops, c, AddQuad(NextBlock(c), ReturnNothing))
  {
    NextBlockTidy(loops, c);
    AddReturnTidy(loops, NextBlock(c), ReturnNothing);
    TidyTrans(loops, c, NextBlock(c), AddQuad(NextBlock(c), ReturnNothing));
  }
}
