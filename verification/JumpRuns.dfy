/**
  Running the code generated for expressions: it computes what left-to-right short-circuit
  evaluation computes, and jumps exactly when it should.
  */
module JumpRuns {
  import opened Quadr
  import opened Blocks
  import opened BlockRun
  import opened JumpCode

  /** In the finished code `f`, the code between `c` and `c'` takes `s` to `s'` and falls through. */
  ghost predicate Goes(m: Machine, c: Code, c': Code, f: Code, s: State, s': State) {
    Final(c, f) && Final(c', f) && Reaches(m, f.blocks, HereAt(c, f, s), HereAt(c', f, s'))
  }

  /** In the finished code `f`, the code that starts at `c` jumps to block `d`. */
  ghost predicate Jumps(m: Machine, c: Code, f: Code, s: State, d: BlockId, s': State) {
    Final(c, f) && Reaches(m, f.blocks, HereAt(c, f, s), At(Point(d, 0), s'))
  }

  /** Variables that existed before keep their values. */
  ghost predicate Same(env: Env, env': Env, vars: Var) {
    forall v: Var :: v < vars ==> env'[v] == env[v]
  }

  ghost predicate Below(a: Arg, vars: Var) { a.VarArg? ==> a.v < vars }

  lemma FinalBack(c: Code, c': Code, f: Code, gone: set<BlockId>)
    requires Later(c, c', gone) && Final(c', f)
    ensures Final(c, f)
  {
    ExtendsTrans(c, c', f);
  }

  lemma GoesTrans(m: Machine, c: Code, c': Code, c'': Code, f: Code, s: State, s': State, s'': State)
    requires Goes(m, c, c', f, s, s') && Goes(m, c', c'', f, s', s'')
    ensures Goes(m, c, c'', f, s, s'')
  {
    ReachTrans(m, f.blocks, HereAt(c, f, s), HereAt(c', f, s'), HereAt(c'', f, s''));
  }

  lemma GoesJumps(m: Machine, c: Code, c': Code, f: Code, s: State, s': State, d: BlockId, s'': State)
    requires Goes(m, c, c', f, s, s') && Jumps(m, c', f, s', d, s'')
    ensures Jumps(m, c, f, s, d, s'')
  {
    ReachTrans(m, f.blocks, HereAt(c, f, s), HereAt(c', f, s'), At(Point(d, 0), s''));
  }

  /** Operations that leave the current point alone do nothing in a run. */
  lemma Stays(m: Machine, c: Code, c': Code, f: Code, s: State)
    requires Advances(c, c') && Final(c', f) && c'.cur == c.cur && c'.prev == c.prev
    requires c.blocks[c.cur].quads == c'.blocks[c.cur].quads
    ensures Goes(m, c, c', f, s, s)
  {
    FinalBack(c, c', f, {});
    assert Here(c, f) == Here(c', f);
    ReachRefl(m, f.blocks, HereAt(c, f, s));
  }

  lemma FreshVarRuns(m: Machine, c: Code, f: Code, s: State)
    requires Ready(c) && Final(FreshVar(c).c, f)
    ensures Goes(m, c, FreshVar(c).c, f, s, s)
  {
    Stays(m, c, FreshVar(c).c, f, s);
  }

  lemma FreshLabelRuns(m: Machine, c: Code, f: Code, s: State)
    requires Ready(c) && Final(FreshLabel(c).c, f)
    ensures Goes(m, c, FreshLabel(c).c, f, s, s)
  {
    Stays(m, c, FreshLabel(c).c, f, s);
  }

  lemma JumpToRuns(m: Machine, c: Code, dest: BlockId, f: Code, s: State)
    requires Ready(c) && IsLabel(c, dest) && Final(JumpTo(c, dest).c, f)
    ensures Goes(m, c, JumpTo(c, dest).c, f, s, s)
  {
    CurIsNoLabel(c, dest);
    Stays(m, c, JumpTo(c, dest).c, f, s);
  }

  lemma CurIsNoLabel(c: Code, dest: BlockId)
    requires WF(c) && IsLabel(c, dest)
    ensures RefLabel(c, dest).blocks[c.cur].quads == c.blocks[c.cur].quads
  {
    if dest in c.chains { ChainMembers(c, c.chains[dest]); assert c.chains[dest][0] in c.chains[dest]; }
  }

  lemma EmitRuns(m: Machine, c: Code, q: Quad, f: Code, s: State)
    requires Ready(c) && !EndsBlock(q.op) && Final(Emit(c, q), f)
    ensures Goes(m, c, Emit(c, q), f, s, Exec(m, q, s))
  {
    QuadStep(m, c, q, f, s);
  }

  lemma PlaceRuns(m: Machine, c: Code, x: BlockId, f: Code, s: State)
    requires Ready(c) && x in c.chains && Final(Place(c, x), f)
    ensures Goes(m, c, Place(c, x), f, s, s)
  {
    AddBlocksFalls(m, c, x, f, s);
  }

  lemma NextBlockRuns(m: Machine, c: Code, f: Code, s: State)
    requires WF(c) && FallsThrough(c) && Final(NextBlock(c), f)
    ensures Goes(m, c, NextBlock(c), f, s, s)
  {
    NewBlockLater(c);
    AddBlocksFalls(m, NewBlock(c), c.nextId, f, s);
    FinalBack(c, NewBlock(c), f, {});
    assert Here(c, f) == Here(NewBlock(c), f);
  }

  /** A jump to a label arrives where the label is placed. */
  lemma PlaceLands(m: Machine, c: Code, c1: Code, x: BlockId, d: BlockId, f: Code, s: State, s': State)
    requires Ready(c1) && x in c1.chains && IsTarget(c1, x, d) && Final(Place(c1, x), f)
    requires Jumps(m, c, f, s, d, s')
    ensures Goes(m, c, Place(c1, x), f, s, s')
  {
    AddBlocksLands(m, c1, x, f, d, s');
    ReachTrans(m, f.blocks, HereAt(c, f, s), At(Point(d, 0), s'), HereAt(Place(c1, x), f, s'));
  }

  /** A conditional jump ends the block. */
  lemma TestRuns(m: Machine, c: Code, q: Quad, f: Code, s: State)
    requires Ready(c) && IsIfOp(q.op) && q.result.LabelArg? && Final(EndBlock(c, q), f)
    ensures if Taken(m, q.op, Eval(q.arg1, s.env), Eval(q.arg2, s.env))
            then Jumps(m, c, f, s, q.result.block, s)
            else Goes(m, c, EndBlock(c, q), f, s, s)
  {
    var c1 := AddQuad(c, q);
    AddQuadLater(c, q);
    FinalBack(c1, NextBlock(c1), f, {});
    QuadStep(m, c, q, f, s);
    if !Taken(m, q.op, Eval(q.arg1, s.env), Eval(q.arg2, s.env)) {
      NextBlockRuns(m, c1, f, s);
      GoesTrans(m, c, c1, NextBlock(c1), f, s, s, s);
    }
  }

  /** The same behind other code. */
  lemma TestAfter(m: Machine, c: Code, c1: Code, q: Quad, f: Code, s: State, s1: State)
    requires Goes(m, c, c1, f, s, s1) && Ready(c1) && IsIfOp(q.op) && q.result.LabelArg? && Final(EndBlock(c1, q), f)
    ensures if Taken(m, q.op, Eval(q.arg1, s1.env), Eval(q.arg2, s1.env))
            then Jumps(m, c, f, s, q.result.block, s1)
            else Goes(m, c, EndBlock(c1, q), f, s, s1)
  {
    TestRuns(m, c1, q, f, s1);
    if Taken(m, q.op, Eval(q.arg1, s1.env), Eval(q.arg2, s1.env)) {
      GoesJumps(m, c, c1, f, s, s1, q.result.block, s1);
    } else {
      GoesTrans(m, c, c1, EndBlock(c1, q), f, s, s1, s1);
    }
  }

  lemma GotoRuns(m: Machine, c: Code, dest: BlockId, f: Code, s: State) returns (d: BlockId)
    requires Ready(c) && IsLabel(c, dest) && Final(GenGoto(c, dest), f)
    ensures IsTarget(GenGoto(c, dest), dest, d) && Jumps(m, c, f, s, d, s)
  {
    var j := JumpTo(c, dest);
    var q := Quad(Goto, LabelArg(j.a), NoArg, NoArg);
    d := j.a;
    var c1 := AddQuad(j.c, q);
    AddQuadLater(j.c, q);
    FinalBack(c1, NextBlock(c1), f, {});
    QuadStep(m, j.c, q, f, s);
    JumpToRuns(m, c, dest, f, s);
    GoesJumps(m, c, j.c, f, s, s, d, s);
    LabelStays(j.c, GenGoto(c, dest), dest);
  }

  // ---------- evaluation depends on declared variables only ----------

  lemma {:induction false} EvalSame(m: Machine, e: Expr, env: Env, env': Env, trace: seq<Event>, vars: Var)
    requires Typed(e, vars) && Same(env, env', vars)
    ensures EvalExpr(m, e, env', trace) == EvalExpr(m, e, env, trace)
    ensures EvalBool(m, e, env', trace) == EvalBool(m, e, env, trace)
  {
    match e
    case CallExpr(f, args, ty) =>
      EvalArgsSame(m, args, env, env', trace, vars);
      assert EvalCall(m, f, args, ty, env', trace) == EvalCall(m, f, args, ty, env, trace);
      assert EvalBool(m, e, env', trace) == EvalBool(m, e, env, trace);
    case Arith(_, l, r) =>
      EvalSame(m, l, env, env', trace, vars);
      EvalSame(m, r, env, env', EvalExpr(m, l, env, trace).trace, vars);
    case Neg(a, _) => EvalSame(m, a, env, env', trace, vars);
    case Plus(a) => EvalSame(m, a, env, env', trace, vars);
    case Cmp(_, l, r) =>
      EvalSame(m, l, env, env', trace, vars);
      EvalSame(m, r, env, env', EvalExpr(m, l, env, trace).trace, vars);
    case And(l, r) =>
      EvalSame(m, l, env, env', trace, vars);
      EvalSame(m, r, env, env', EvalBool(m, l, env, trace).trace, vars);
    case Or(l, r) =>
      EvalSame(m, l, env, env', trace, vars);
      EvalSame(m, r, env, env', EvalBool(m, l, env, trace).trace, vars);
    case Not(a) => EvalSame(m, a, env, env', trace, vars);
    case _ =>
  }

  lemma {:induction false} EvalArgsSame(m: Machine, args: Args, env: Env, env': Env, trace: seq<Event>, vars: Var)
    requires TypedArgs(args, vars) && Same(env, env', vars)
    ensures EvalArgs(m, args, env', trace) == EvalArgs(m, args, env, trace)
  {
    if args.MoreArgs? {
      EvalSame(m, args.e, env, env', trace, vars);
      EvalArgsSame(m, args.rest, env, env', EvalExpr(m, args.e, env, trace).trace, vars);
    }
  }

  // ---------- what a piece of code does ----------

  /** The code of an expression leaves its value in `a`. */
  ghost predicate Yields(m: Machine, c: Code, g: Gen<Arg>, f: Code, s: State, s': State, r: Outcome<Value>) {
    && Goes(m, c, g.c, f, s, s')
    && s'.trace == r.trace && Same(s.env, s'.env, c.nextVar)
    && Eval(g.a, s'.env) == r.value && Below(g.a, g.c.nextVar)
  }

  /** The code of a condition jumps to a target of `dest` if the condition is `jumpIfTrue`, and falls through otherwise. */
  ghost predicate Branches(m: Machine, c: Code, c': Code, dest: BlockId, jumpIfTrue: bool,
                           f: Code, s: State, s': State, d: BlockId, r: Outcome<bool>)
  {
    && s'.trace == r.trace && Same(s.env, s'.env, c.nextVar)
    && if r.value == jumpIfTrue then IsTarget(c', dest, d) && Jumps(m, c, f, s, d, s')
       else Goes(m, c, c', f, s, s')
  }

  lemma GoesYields(m: Machine, c: Code, c1: Code, g: Gen<Arg>, f: Code, s: State, s1: State, s2: State, r: Outcome<Value>)
    requires Goes(m, c, c1, f, s, s1) && Yields(m, c1, g, f, s1, s2, r)
    requires Same(s.env, s1.env, c.nextVar) && c.nextVar <= c1.nextVar
    ensures Yields(m, c, g, f, s, s2, r)
  {
    GoesTrans(m, c, c1, g.c, f, s, s1, s2);
  }

  // ---------- pieces without recursion ----------

  lemma ConstRuns(m: Machine, c: Code, k: Arg, f: Code, s: State) returns (s': State)
    requires Ready(c) && !k.VarArg? && Final(GenConst(c, k).c, f)
    ensures Yields(m, c, GenConst(c, k), f, s, s', Outcome(Eval(k, s.env), s.trace))
  {
    var v := FreshVar(c);
    var q := Quad(Copy, v.a, k, NoArg);
    s' := Exec(m, q, s);
    EmitRuns(m, v.c, q, f, s);
    FreshVarRuns(m, c, f, s);
    GoesTrans(m, c, v.c, Emit(v.c, q), f, s, s, s');
  }

  lemma YieldsPair(m: Machine, c: Code, a: Gen<Arg>, b: Gen<Arg>, f: Code, s: State, s1: State, s2: State,
                   x: Outcome<Value>, y: Outcome<Value>)
    requires Yields(m, c, a, f, s, s1, x) && Yields(m, a.c, b, f, s1, s2, y) && c.nextVar <= a.c.nextVar
    ensures Yields(m, c, b, f, s, s2, y) && Eval(a.a, s2.env) == x.value
  {
    GoesYields(m, c, a.c, b, f, s, s1, s2, y);
  }

  lemma FreshConstRuns(m: Machine, c: Code, k: Arg, f: Code, s: State) returns (s': State)
    requires Ready(c) && !k.VarArg? && Final(GenConst(FreshVar(c).c, k).c, f)
    ensures Yields(m, c, GenConst(FreshVar(c).c, k), f, s, s', Outcome(Eval(k, s.env), s.trace))
  {
    var v := FreshVar(c);
    FinalBack(v.c, GenConst(v.c, k).c, f, {});
    FreshVarRuns(m, c, f, s);
    s' := ConstRuns(m, v.c, k, f, s);
    GoesYields(m, c, v.c, GenConst(v.c, k), f, s, s, s', Outcome(Eval(k, s.env), s.trace));
  }

  lemma YieldsVar(m: Machine, c: Code, v: Var, f: Code, s: State)
    requires Final(c, f) && v < c.nextVar
    ensures Yields(m, c, Gen(c, VarArg(v)), f, s, s, Outcome(s.env[v], s.trace))
  {
    ReachRefl(m, f.blocks, HereAt(c, f, s));
  }

  /** A quadruple that assigns a new variable. */
  lemma YieldsEmit(m: Machine, c: Code, c1: Code, q: Quad, v: Var, f: Code, s: State, s1: State)
    requires Ready(c1) && !EndsBlock(q.op) && !q.op.WritePtr? && q.result == VarArg(v) && c.nextVar <= v < c1.nextVar
    requires Goes(m, c, c1, f, s, s1) && Same(s.env, s1.env, c.nextVar) && Final(Emit(c1, q), f)
    ensures Yields(m, c, Gen(Emit(c1, q), q.result), f, s, Exec(m, q, s1), Outcome(Result(m, q, s1), Trace(q, s1)))
  {
    EmitRuns(m, c1, q, f, s1);
    GoesTrans(m, c, c1, Emit(c1, q), f, s, s1, Exec(m, q, s1));
  }

  lemma ParamsRun(m: Machine, c: Code, args: seq<Arg>, f: Code, s: State) returns (s': State)
    requires Ready(c) && Final(GenParams(c, args), f)
    ensures Goes(m, c, GenParams(c, args), f, s, s') && s'.env == s.env
    ensures s'.trace == s.trace + ParamEvents(EvalAll(args, s.env))
  {
    if args == [] {
      s' := s;
      ReachRefl(m, f.blocks, HereAt(c, f, s));
      assert s.trace + [] == s.trace;
    } else {
      var c1 := GenParams(c, args[1..]);
      var q := Quad(Param, NoArg, args[0], NoArg);
      FinalBack(c1, Emit(c1, q), f, {});
      var s1 := ParamsRun(m, c, args[1..], f, s);
      s' := ParamRuns(m, c, c1, args[0], f, s, s1);
      ParamEventsStep(args, s.env);
    }
  }

  lemma ParamRuns(m: Machine, c: Code, c1: Code, a: Arg, f: Code, s: State, s1: State) returns (s': State)
    requires Ready(c1) && Goes(m, c, c1, f, s, s1) && Final(Emit(c1, Quad(Param, NoArg, a, NoArg)), f)
    ensures Goes(m, c, Emit(c1, Quad(Param, NoArg, a, NoArg)), f, s, s')
    ensures s'.env == s1.env && s'.trace == s1.trace + [ParamEvent(Eval(a, s1.env))]
  {
    var q := Quad(Param, NoArg, a, NoArg);
    s' := Exec(m, q, s1);
    EmitRuns(m, c1, q, f, s1);
    GoesTrans(m, c, c1, Emit(c1, q), f, s, s1, s');
  }

  lemma ParamEventsStep(args: seq<Arg>, env: Env)
    requires args != []
    ensures ParamEvents(EvalAll(args, env)) == ParamEvents(EvalAll(args[1..], env)) + [ParamEvent(Eval(args[0], env))]
  {
    var vs := EvalAll(args, env);
    assert vs[1..] == EvalAll(args[1..], env);
  }

  ghost function EvalAll(args: seq<Arg>, env: Env): (vs: seq<Value>)
    ensures |vs| == |args|
  {
    if args == [] then [] else [Eval(args[0], env)] + EvalAll(args[1..], env)
  }

  ghost predicate AllBelow(args: seq<Arg>, vars: Var) { forall a :: a in args ==> Below(a, vars) }

  lemma {:induction false} EvalAllSame(args: seq<Arg>, env: Env, env': Env, vars: Var)
    requires AllBelow(args, vars) && Same(env, env', vars)
    ensures EvalAll(args, env') == EvalAll(args, env)
  {
    if args != [] {
      assert args[0] in args;
      EvalAllSame(args[1..], env, env', vars);
    }
  }

  ghost function SetTo(s: State, v: Var, n: int): State { State(s.env[v := IntV(n)], s.trace) }

  lemma SetRuns(m: Machine, c: Code, v: Var, n: int, f: Code, s: State)
    requires var q := Quad(Copy, VarArg(v), IntArg(n), NoArg); Ready(c) && Final(Emit(c, q), f)
    ensures Goes(m, c, Emit(c, Quad(Copy, VarArg(v), IntArg(n), NoArg)), f, s, SetTo(s, v, n))
  {
    EmitRuns(m, c, Quad(Copy, VarArg(v), IntArg(n), NoArg), f, s);
  }

  lemma SetAndGotoRuns(m: Machine, c: Code, v: Var, n: int, dest: BlockId, f: Code, s: State) returns (d: BlockId)
    requires Ready(c) && IsLabel(c, dest) && Final(SetAndGoto(c, VarArg(v), n, dest), f)
    ensures Jumps(m, c, f, s, d, SetTo(s, v, n))
    ensures IsTarget(SetAndGoto(c, VarArg(v), n, dest), dest, d)
  {
    var s1 := SetTo(s, v, n);
    var c1 := Emit(c, Quad(Copy, VarArg(v), IntArg(n), NoArg));
    LabelStays(c, c1, dest);
    d := GotoRuns(m, c1, dest, f, s1);
    SetRuns(m, c, v, n, f, s);
    GoesJumps(m, c, c1, f, s, s1, d, s1);
  }

  /** Falling into SetByJump clears the variable. */
  lemma SetByJumpFalls(m: Machine, c: Code, v: Var, ifTrue: BlockId, f: Code, s: State)
    requires Ready(c) && ifTrue in c.chains && Final(SetByJump(c, VarArg(v), ifTrue), f)
    ensures Goes(m, c, SetByJump(c, VarArg(v), ifTrue), f, s, SetTo(s, v, 0))
  {
    var s' := SetTo(s, v, 0);
    var end := FreshLabel(c);
    LabelsKept(c, end.c, {}, ifTrue);
    var c1 := SetAndGoto(end.c, VarArg(v), 0, end.a);
    LabelsKept(end.c, c1, {}, ifTrue);
    var c2 := PlaceAndSet(c1, VarArg(v), 1, ifTrue);
    LabelsKept(end.c, c1, {}, end.a);
    LabelsKept(c1, c2, {ifTrue}, end.a);
    FinalBack(c2, Place(c2, end.a), f, {end.a});
    FinalBack(c1, c2, f, {ifTrue});
    var d := SetAndGotoRuns(m, end.c, v, 0, end.a, f, s);
    LabelStays(end.c, c1, end.a);
    TargetStays(c1, c2, {ifTrue}, end.a, d);
    PlaceLands(m, end.c, c2, end.a, d, f, s, s');
    FreshLabelRuns(m, c, f, s);
    GoesTrans(m, c, end.c, Place(c2, end.a), f, s, s, s');
  }

  /** A jump to the label of SetByJump sets the variable. */
  lemma SetByJumpJumped(m: Machine, c0: Code, c: Code, v: Var, ifTrue: BlockId, d: BlockId, f: Code, s: State, s1: State)
    requires Ready(c) && ifTrue in c.chains && Final(SetByJump(c, VarArg(v), ifTrue), f)
    requires Jumps(m, c0, f, s, d, s1) && IsTarget(c, ifTrue, d) && IsLabel(c, ifTrue)
    ensures Goes(m, c0, SetByJump(c, VarArg(v), ifTrue), f, s, SetTo(s1, v, 1))
  {
    var s' := SetTo(s1, v, 1);
    var end := FreshLabel(c);
    LabelsKept(c, end.c, {}, ifTrue);
    LabelStays(c, end.c, ifTrue);
    var c1 := SetAndGoto(end.c, VarArg(v), 0, end.a);
    LabelsKept(end.c, c1, {}, ifTrue);
    LabelStays(end.c, c1, ifTrue);
    var c2 := PlaceAndSet(c1, VarArg(v), 1, ifTrue);
    LabelsKept(end.c, c1, {}, end.a);
    LabelsKept(c1, c2, {ifTrue}, end.a);
    FinalBack(c2, Place(c2, end.a), f, {end.a});
    FinalBack(Place(c1, ifTrue), c2, f, {});
    PlaceLands(m, c0, c1, ifTrue, d, f, s, s1);
    SetRuns(m, Place(c1, ifTrue), v, 1, f, s1);
    GoesTrans(m, c0, Place(c1, ifTrue), c2, f, s, s1, s');
    PlaceRuns(m, c2, end.a, f, s');
    GoesTrans(m, c0, c2, Place(c2, end.a), f, s, s', s');
  }

  /** A boolean value is compared with zero. */
  lemma ZeroTestRuns(m: Machine, a: Gen<Arg>, d: BlockId, jumpIfTrue: bool, f: Code, s: State) returns (s': State)
    requires Ready(a.c) && Below(a.a, a.c.nextVar)
    requires var z := GenConst(a.c, IntArg(0));
             Final(EndBlock(z.c, Quad(IfOp(CmpNeq, jumpIfTrue), LabelArg(d), a.a, z.a)), f)
    ensures s'.trace == s.trace && Same(s.env, s'.env, a.c.nextVar)
    ensures var z := GenConst(a.c, IntArg(0));
            if Truth(m, Eval(a.a, s.env)) == jumpIfTrue then Jumps(m, a.c, f, s, d, s')
            else Goes(m, a.c, EndBlock(z.c, Quad(IfOp(CmpNeq, jumpIfTrue), LabelArg(d), a.a, z.a)), f, s, s')
  {
    var z := GenConst(a.c, IntArg(0));
    var q := Quad(IfOp(CmpNeq, jumpIfTrue), LabelArg(d), a.a, z.a);
    FinalBack(z.c, EndBlock(z.c, q), f, {});
    s' := ConstRuns(m, a.c, IntArg(0), f, s);
    ZeroCompared(m, a, z, d, jumpIfTrue, f, s, s');
  }

  lemma ZeroCompared(m: Machine, a: Gen<Arg>, z: Gen<Arg>, d: BlockId, jumpIfTrue: bool, f: Code, s: State, s1: State)
    requires Below(a.a, a.c.nextVar) && Ready(z.c) && Yields(m, a.c, z, f, s, s1, Outcome(IntV(0), s.trace))
    requires Final(EndBlock(z.c, Quad(IfOp(CmpNeq, jumpIfTrue), LabelArg(d), a.a, z.a)), f)
    ensures if Truth(m, Eval(a.a, s.env)) == jumpIfTrue then Jumps(m, a.c, f, s, d, s1)
            else Goes(m, a.c, EndBlock(z.c, Quad(IfOp(CmpNeq, jumpIfTrue), LabelArg(d), a.a, z.a)), f, s, s1)
  {
    var q := Quad(IfOp(CmpNeq, jumpIfTrue), LabelArg(d), a.a, z.a);
    TestAfter(m, a.c, z.c, q, f, s, s1);
    IfOpMeaning(m, CmpNeq, jumpIfTrue, Eval(a.a, s1.env), IntV(0));
  }

  lemma CallEmitRuns(m: Machine, c: Code, c1: Code, g: nat, ty: ReturnType, f: Code, s: State, s1: State) returns (s': State)
    requires Ready(c1) && c.nextVar <= c1.nextVar && Goes(m, c, c1, f, s, s1) && Same(s.env, s1.env, c.nextVar)
    requires var v := CallResult(c1, ty); Final(Emit(v.c, Quad(Call, v.a, FuncArg(g), NoArg)), f)
    ensures var v := CallResult(c1, ty);
            var t := s1.trace + [Event(Call, ConstV(NoArg), ConstV(FuncArg(g)), ConstV(NoArg))];
            Yields(m, c, Gen(Emit(v.c, Quad(Call, v.a, FuncArg(g), NoArg)), v.a), f, s, s',
                   Outcome(if ty.VoidCall? then ConstV(NoArg) else m.ret(ConstV(FuncArg(g)), t), t))
  {
    var v := CallResult(c1, ty);
    var q := Quad(Call, v.a, FuncArg(g), NoArg);
    FinalBack(v.c, Emit(v.c, q), f, {});
    Stays(m, c1, v.c, f, s1);
    GoesTrans(m, c, c1, v.c, f, s, s1, s1);
    s' := Exec(m, q, s1);
    CallTrace(q, g, s1);
    if ty.VoidCall? {
      YieldsNothing(m, c, v.c, q, f, s, s1);
    } else {
      YieldsEmit(m, c, v.c, q, c1.nextVar, f, s, s1);
    }
  }

  lemma CallTrace(q: Quad, g: nat, s: State)
    requires q.op.Call? && q.arg1 == FuncArg(g) && q.arg2 == NoArg
    ensures Trace(q, s) == s.trace + [Event(Call, ConstV(NoArg), ConstV(FuncArg(g)), ConstV(NoArg))]
  {}

  lemma YieldsNothing(m: Machine, c: Code, c1: Code, q: Quad, f: Code, s: State, s1: State)
    requires Ready(c1) && !EndsBlock(q.op) && q.result == NoArg
    requires Goes(m, c, c1, f, s, s1) && Same(s.env, s1.env, c.nextVar) && Final(Emit(c1, q), f)
    ensures Yields(m, c, Gen(Emit(c1, q), NoArg), f, s, Exec(m, q, s1), Outcome(ConstV(NoArg), Trace(q, s1)))
  {
    EmitRuns(m, c1, q, f, s1);
    GoesTrans(m, c, c1, Emit(c1, q), f, s, s1, Exec(m, q, s1));
  }

  lemma FreshBothRun(m: Machine, c: Code, f: Code, s: State)
    requires Ready(c) && Final(FreshLabel(FreshVar(c).c).c, f)
    ensures Goes(m, c, FreshLabel(FreshVar(c).c).c, f, s, s)
  {
    var v := FreshVar(c);
    var x := FreshLabel(v.c);
    FinalBack(v.c, x.c, f, {});
    FreshVarRuns(m, c, f, s);
    FreshLabelRuns(m, v.c, f, s);
    GoesTrans(m, c, v.c, x.c, f, s, s, s);
  }

  lemma YieldsSet(m: Machine, c: Code, g: Gen<Arg>, n: int, f: Code, s: State, s1: State)
    requires g.a == VarArg(c.nextVar) && c.nextVar < g.c.nextVar && Same(s.env, s1.env, c.nextVar)
    requires Goes(m, c, g.c, f, s, SetTo(s1, c.nextVar, n))
    ensures Yields(m, c, g, f, s, SetTo(s1, c.nextVar, n), Outcome(IntV(n), s1.trace))
  {}

  /** A condition made into a value. */
  lemma ValueRuns(m: Machine, c0: Code, c: Code, v: Var, ifTrue: BlockId, d: BlockId, value: bool, f: Code, s: State, s1: State)
    requires Ready(c) && ifTrue in NextBlock(c).chains && IsLabel(c, ifTrue)
    requires Final(SetByJump(NextBlock(c), VarArg(v), ifTrue), f)
    requires if value then IsTarget(c, ifTrue, d) && Jumps(m, c0, f, s, d, s1)
             else Final(c, f) ==> Goes(m, c0, c, f, s, s1)
    ensures Goes(m, c0, SetByJump(NextBlock(c), VarArg(v), ifTrue), f, s, SetTo(s1, v, if value then 1 else 0))
  {
    var c2 := NextBlock(c);
    var c3 := SetByJump(c2, VarArg(v), ifTrue);
    FinalBack(c2, c3, f, {ifTrue});
    FinalBack(c, c2, f, {});
    if value {
      LabelStays(c, c2, ifTrue);
      SetByJumpJumped(m, c0, c2, v, ifTrue, d, f, s, s1);
    } else {
      NextBlockRuns(m, c, f, s1);
      GoesTrans(m, c0, c, c2, f, s, s1, s1);
      SetByJumpFalls(m, c2, v, ifTrue, f, s1);
      GoesTrans(m, c0, c2, c3, f, s, s1, SetTo(s1, v, 0));
    }
  }

  /** A value is compared with zero, after the target of the jump has been chosen. */
  lemma TestOf(m: Machine, c: Code, dest: BlockId, a: Gen<Arg>, jumpIfTrue: bool, f: Code, s: State, s1: State, r: Outcome<Value>)
    returns (s': State, d: BlockId)
    requires Ready(c) && IsLabel(c, dest)
    requires var j := JumpTo(c, dest);
             && Advances(j.c, a.c) && Final(GenTest(c, j, a, jumpIfTrue), f)
             && Yields(m, j.c, a, f, s, s1, r)
    ensures Branches(m, c, GenTest(c, JumpTo(c, dest), a, jumpIfTrue), dest, jumpIfTrue, f, s, s', d, Outcome(Truth(m, r.value), r.trace))
  {
    var j := JumpTo(c, dest);
    var c' := GenTest(c, j, a, jumpIfTrue);
    JumpToRuns(m, c, dest, f, s);
    GoesTrans(m, c, j.c, a.c, f, s, s, s1);
    s' := ZeroTestRuns(m, a, j.a, jumpIfTrue, f, s1);
    d := j.a;
    if Truth(m, r.value) == jumpIfTrue {
      GoesJumps(m, c, a.c, f, s, s1, d, s');
      AdvancesThen(j.c, a.c, c');
      LabelStays(j.c, c', dest);
    } else {
      GoesTrans(m, c, a.c, c', f, s, s1, s');
    }
  }

  lemma LitTestRuns(m: Machine, c: Code, b: bool, dest: BlockId, jumpIfTrue: bool, f: Code, s: State) returns (d: BlockId)
    requires Ready(c) && IsLabel(c, dest) && Final(GenBool(c, BoolLit(b), dest, jumpIfTrue), f)
    ensures Branches(m, c, GenBool(c, BoolLit(b), dest, jumpIfTrue), dest, jumpIfTrue, f, s, s, d, Outcome(b, s.trace))
  {
    if b == jumpIfTrue {
      d := GotoRuns(m, c, dest, f, s);
    } else {
      d := dest;
      ReachRefl(m, f.blocks, HereAt(c, f, s));
    }
  }

  lemma IdentTestRuns(m: Machine, c: Code, v: Var, dest: BlockId, jumpIfTrue: bool, f: Code, s: State)
    returns (s': State, d: BlockId)
    requires Ready(c) && v < c.nextVar && IsLabel(c, dest)
    requires var j := JumpTo(c, dest); Final(GenTest(c, j, Gen(j.c, VarArg(v)), jumpIfTrue), f)
    ensures var j := JumpTo(c, dest);
            Branches(m, c, GenTest(c, j, Gen(j.c, VarArg(v)), jumpIfTrue), dest, jumpIfTrue, f, s, s', d,
                     Outcome(Truth(m, s.env[v]), s.trace))
  {
    var j := JumpTo(c, dest);
    var a := Gen(j.c, VarArg(v));
    LaterRefl(j.c);
    FinalBack(j.c, GenTest(c, j, a, jumpIfTrue), f, {});
    YieldsVar(m, j.c, v, f, s);
    s', d := TestOf(m, c, dest, a, jumpIfTrue, f, s, s, Outcome(s.env[v], s.trace));
  }

  // ---------- expressions ----------

  /** The code of an expression computes its value, with the effects of left-to-right evaluation. */
  lemma {:induction false} ExprRuns(m: Machine, c: Code, e: Expr, f: Code, s: State) returns (s': State)
    requires Ready(c) && Typed(e, c.nextVar) && Final(GenExpr(c, e).c, f)
    ensures Yields(m, c, GenExpr(c, e), f, s, s', EvalExpr(m, e, s.env, s.trace))
    decreases e, 4
  {
    if HasBoolType(e) && !e.Ident? {
      s' := BoolValueRuns(m, c, e, f, s);
      BoolExprValue(m, e, s.env, s.trace);
    } else {
      match e
      case CallExpr(g, args, ty) => s' := CallRuns(m, c, g, args, ty, f, s);
      case Arith(_, _, _) => s' := ArithRuns(m, c, e, f, s);
      case Neg(_, _) => s' := NegRuns(m, c, e, f, s);
      case Plus(x) => s' := ExprRuns(m, c, x, f, s);
      case _ => s' := LeafRuns(m, c, e, f, s);
    }
  }

  lemma BoolExprValue(m: Machine, e: Expr, env: Env, trace: seq<Event>)
    requires HasBoolType(e) && !e.Ident?
    ensures var r := EvalBool(m, e, env, trace);
            EvalExpr(m, e, env, trace) == Outcome(IntV(if r.value then 1 else 0), r.trace)
  {}

  lemma IdentRuns(m: Machine, c: Code, e: Expr, f: Code, s: State)
    requires e.Ident? && Ready(c) && Typed(e, c.nextVar) && Final(GenExpr(c, e).c, f)
    ensures Yields(m, c, GenExpr(c, e), f, s, s, EvalExpr(m, e, s.env, s.trace))
  {
    YieldsVar(m, c, e.v, f, s);
  }

  /** Literals and variables. */
  lemma LeafRuns(m: Machine, c: Code, e: Expr, f: Code, s: State) returns (s': State)
    requires e.IntLit? || e.DoubleLit? || e.StrLit? || e.Ident?
    requires Ready(c) && Typed(e, c.nextVar) && Final(GenExpr(c, e).c, f)
    ensures Yields(m, c, GenExpr(c, e), f, s, s', EvalExpr(m, e, s.env, s.trace))
  {
    match e
    case IntLit(n) => s' := ConstRuns(m, c, IntArg(n), f, s);
    case DoubleLit(r) => s' := ConstRuns(m, c, DoubleArg(r), f, s);
    case Ident(_, _) =>
      s' := s;
      IdentRuns(m, c, e, f, s);
    case StrLit(_) =>
      s' := s;
      ReachRefl(m, f.blocks, HereAt(c, f, s));
  }

  /** Two operands, one after the other. */
  lemma PairRuns(m: Machine, c: Code, e: Expr, f: Code, s: State) returns (s': State)
    requires (e.Arith? || e.Cmp?) && Ready(c) && Typed(e, c.nextVar) && Typed(e.right, GenExpr(c, e.left).c.nextVar)
    requires var a := GenExpr(c, e.left); Final(GenExpr(a.c, e.right).c, f)
    ensures var a := GenExpr(c, e.left);
            var b := GenExpr(a.c, e.right);
            var x := EvalExpr(m, e.left, s.env, s.trace);
            Yields(m, c, b, f, s, s', EvalExpr(m, e.right, s.env, x.trace)) && Eval(a.a, s'.env) == x.value
    decreases e, 0
  {
    var a := GenExpr(c, e.left);
    var b := GenExpr(a.c, e.right);
    FinalBack(a.c, b.c, f, {});
    var s1 := ExprRuns(m, c, e.left, f, s);
    EvalSame(m, e.right, s.env, s1.env, s1.trace, c.nextVar);
    s' := ExprRuns(m, a.c, e.right, f, s1);
    YieldsPair(m, c, a, b, f, s, s1, s', EvalExpr(m, e.left, s.env, s.trace), EvalExpr(m, e.right, s.env, s1.trace));
  }

  lemma ArithRuns(m: Machine, c: Code, e: Expr, f: Code, s: State) returns (s': State)
    requires e.Arith? && Ready(c) && Typed(e, c.nextVar) && Final(GenExpr(c, e).c, f)
    ensures Yields(m, c, GenExpr(c, e), f, s, s', EvalExpr(m, e, s.env, s.trace))
    decreases e, 3
  {
    var v := FreshVar(c);
    TypedMono(e, c.nextVar, v.c.nextVar);
    var a := GenExpr(v.c, e.left);
    TypedMono(e.right, c.nextVar, a.c.nextVar);
    var b := GenExpr(a.c, e.right);
    var q := Quad(e.op, v.a, a.a, b.a);
    FinalBack(b.c, Emit(b.c, q), f, {});
    FinalBack(a.c, b.c, f, {});
    FinalBack(v.c, a.c, f, {});
    FreshVarRuns(m, c, f, s);
    var s1 := PairRuns(m, v.c, e, f, s);
    s' := Exec(m, q, s1);
    GoesTrans(m, c, v.c, b.c, f, s, s, s1);
    YieldsEmit(m, c, b.c, q, c.nextVar, f, s, s1);
  }

  /** Minus subtracts from zero. */
  lemma NegRuns(m: Machine, c: Code, e: Expr, f: Code, s: State) returns (s': State)
    requires e.Neg? && Ready(c) && Typed(e, c.nextVar) && Final(GenExpr(c, e).c, f)
    ensures Yields(m, c, GenExpr(c, e), f, s, s', EvalExpr(m, e, s.env, s.trace))
    decreases e, 3, 0
  {
    NegEvaluated(m, e, s.env, s.trace);
    NegGenerated(c, e);
    s' := MinusRuns(m, c, Zero(e.isDouble), e.arg, f, s);
  }

  lemma NegEvaluated(m: Machine, e: Expr, env: Env, trace: seq<Event>)
    requires e.Neg?
    ensures var r := EvalExpr(m, e.arg, env, trace);
            EvalExpr(m, e, env, trace) == Outcome(m.alu(Sub, Eval(Zero(e.isDouble), env), r.value), r.trace)
  {}

  lemma NegGenerated(c: Code, e: Expr)
    requires e.Neg? && Ready(c) && Typed(e, c.nextVar)
    ensures GenExpr(c, e) == GenMinus(c, Zero(e.isDouble), e.arg)
  {}

  lemma MinusRuns(m: Machine, c: Code, k: Arg, x: Expr, f: Code, s: State) returns (s': State)
    requires !k.VarArg? && Ready(c) && Typed(x, c.nextVar) && Final(GenMinus(c, k, x).c, f)
    ensures var r := EvalExpr(m, x, s.env, s.trace);
            Yields(m, c, GenMinus(c, k, x), f, s, s', Outcome(m.alu(Sub, Eval(k, s.env), r.value), r.trace))
    decreases x, 6
  {
    var z, a, q := MinusParts(c, k, x);
    MinusFinal(c, k, x, f);
    var s1 := MinusOperandRuns(m, c, k, x, f, s);
    s' := Exec(m, q, s1);
    SubRuns(m, c, a, q, Eval(k, s.env), f, s, s1, EvalExpr(m, x, s.env, s.trace));
  }

  lemma SubRuns(m: Machine, c: Code, a: Gen<Arg>, q: Quad, k: Value, f: Code, s: State, s1: State, r: Outcome<Value>)
    requires Ready(a.c) && q.op == Sub && q.result == VarArg(c.nextVar) && q.arg2 == a.a && c.nextVar < a.c.nextVar
    requires Yields(m, c, a, f, s, s1, r) && Eval(q.arg1, s1.env) == k && Final(Emit(a.c, q), f)
    ensures Yields(m, c, Gen(Emit(a.c, q), q.result), f, s, Exec(m, q, s1), Outcome(m.alu(Sub, k, r.value), r.trace))
  {
    YieldsEmit(m, c, a.c, q, c.nextVar, f, s, s1);
  }

  lemma MinusOperandRuns(m: Machine, c: Code, k: Arg, e: Expr, f: Code, s: State) returns (s': State)
    requires Ready(c) && Typed(e, c.nextVar) && !k.VarArg?
    requires var z := GenConst(FreshVar(c).c, k); Typed(e, z.c.nextVar) && Final(GenExpr(z.c, e).c, f)
    ensures var z := GenConst(FreshVar(c).c, k);
            && Yields(m, c, GenExpr(z.c, e), f, s, s', EvalExpr(m, e, s.env, s.trace))
            && Eval(z.a, s'.env) == Eval(k, s.env)
    decreases e, 5
  {
    var z := GenConst(FreshVar(c).c, k);
    var a := GenExpr(z.c, e);
    FinalBack(z.c, a.c, f, {});
    var s1 := FreshConstRuns(m, c, k, f, s);
    EvalSame(m, e, s.env, s1.env, s.trace, c.nextVar);
    s' := ExprRuns(m, z.c, e, f, s1);
    YieldsPair(m, c, z, a, f, s, s1, s', Outcome(Eval(k, s.env), s.trace), EvalExpr(m, e, s.env, s.trace));
  }

  lemma MinusFinal(c: Code, k: Arg, x: Expr, f: Code)
    requires Ready(c) && Typed(x, c.nextVar) && Final(GenMinus(c, k, x).c, f)
    ensures var z := GenConst(FreshVar(c).c, k); Typed(x, z.c.nextVar) && Final(GenExpr(z.c, x).c, f)
  {
    var z, a, q := MinusParts(c, k, x);
    FinalBack(a.c, GenMinus(c, k, x).c, f, {});
  }

  lemma BoolValueRuns(m: Machine, c: Code, e: Expr, f: Code, s: State) returns (s': State)
    requires Ready(c) && Typed(e, c.nextVar) && HasBoolType(e) && Final(GenBoolValue(c, e).c, f)
    ensures var r := EvalBool(m, e, s.env, s.trace);
            Yields(m, c, GenBoolValue(c, e), f, s, s', Outcome(IntV(if r.value then 1 else 0), r.trace))
    decreases e, 3, 1
  {
    var s1 := BoolValueGoes(m, c, e, f, s);
    var n := if EvalBool(m, e, s.env, s.trace).value then 1 else 0;
    s' := SetTo(s1, c.nextVar, n);
    YieldsSet(m, c, GenBoolValue(c, e), n, f, s, s1);
  }

  lemma BoolValueGoes(m: Machine, c: Code, e: Expr, f: Code, s: State) returns (s1: State)
    requires Ready(c) && Typed(e, c.nextVar) && HasBoolType(e) && Final(GenBoolValue(c, e).c, f)
    ensures var r := EvalBool(m, e, s.env, s.trace);
            && s1.trace == r.trace && Same(s.env, s1.env, c.nextVar)
            && Goes(m, c, GenBoolValue(c, e).c, f, s, SetTo(s1, c.nextVar, if r.value then 1 else 0))
            && GenBoolValue(c, e).a == VarArg(c.nextVar) && c.nextVar < GenBoolValue(c, e).c.nextVar
    decreases e, 3, 0
  {
    var v := FreshVar(c);
    var ifTrue := FreshLabel(v.c);
    TypedMono(e, c.nextVar, ifTrue.c.nextVar);
    var c1 := GenBool(ifTrue.c, e, ifTrue.a, true);
    var c2 := NextBlock(c1);
    AdvancesThen(ifTrue.c, c1, c2);
    LabelsKept(ifTrue.c, c2, {}, ifTrue.a);
    var c3 := SetByJump(c2, v.a, ifTrue.a);
    FinalBack(c2, c3, f, {ifTrue.a});
    FinalBack(c1, c2, f, {});
    FinalBack(ifTrue.c, c1, f, {});
    FreshBothRun(m, c, f, s);
    var d;
    s1, d := BoolRuns(m, ifTrue.c, e, ifTrue.a, true, f, s);
    var r := EvalBool(m, e, s.env, s.trace);
    LabelStays(ifTrue.c, c1, ifTrue.a);
    ValueRuns(m, ifTrue.c, c1, c.nextVar, ifTrue.a, d, r.value, f, s, s1);
    var s' := SetTo(s1, c.nextVar, if r.value then 1 else 0);
    GoesTrans(m, c, ifTrue.c, c3, f, s, s, s');
  }

  /** The code of arguments leaves their values in `g.a`. */
  ghost predicate YieldsAll(m: Machine, c: Code, g: Gen<seq<Arg>>, f: Code, s: State, s': State, r: Outcome<seq<Value>>) {
    && Goes(m, c, g.c, f, s, s') && s'.trace == r.trace && Same(s.env, s'.env, c.nextVar)
    && EvalAll(g.a, s'.env) == r.value && AllBelow(g.a, g.c.nextVar)
  }

  lemma YieldsMore(m: Machine, c: Code, a: Gen<Arg>, g: Gen<seq<Arg>>, f: Code, s: State, s1: State, s': State,
                   x: Outcome<Value>, r: Outcome<seq<Value>>)
    requires Yields(m, c, a, f, s, s1, x) && YieldsAll(m, a.c, g, f, s1, s', r) && c.nextVar <= a.c.nextVar <= g.c.nextVar
    ensures YieldsAll(m, c, Gen(g.c, [a.a] + g.a), f, s, s', Outcome([x.value] + r.value, r.trace))
  {
    GoesTrans(m, c, a.c, g.c, f, s, s1, s');
    assert ([a.a] + g.a)[1..] == g.a;
  }

  lemma ArgsRun(m: Machine, c: Code, args: Args, f: Code, s: State) returns (s': State)
    requires Ready(c) && TypedArgs(args, c.nextVar) && Final(GenArgs(c, args).c, f)
    ensures YieldsAll(m, c, GenArgs(c, args), f, s, s', EvalArgs(m, args, s.env, s.trace))
    decreases args, 0
  {
    match args
    case NoArgs =>
      s' := s;
      ReachRefl(m, f.blocks, HereAt(c, f, s));
    case MoreArgs(e, rest) =>
      var a := GenExpr(c, e);
      TypedArgsMono(rest, c.nextVar, a.c.nextVar);
      var g := GenArgs(a.c, rest);
      FinalBack(a.c, g.c, f, {});
      var s1 := ExprRuns(m, c, e, f, s);
      EvalArgsSame(m, rest, s.env, s1.env, s1.trace, c.nextVar);
      s' := ArgsRun(m, a.c, rest, f, s1);
      YieldsMore(m, c, a, g, f, s, s1, s', EvalExpr(m, e, s.env, s.trace), EvalArgs(m, rest, s.env, s1.trace));
  }

  lemma CallRuns(m: Machine, c: Code, g: nat, args: Args, ty: ReturnType, f: Code, s: State) returns (s': State)
    requires Ready(c) && TypedArgs(args, c.nextVar) && Final(GenCall(c, g, args, ty).c, f)
    ensures Yields(m, c, GenCall(c, g, args, ty), f, s, s', EvalCall(m, g, args, ty, s.env, s.trace))
    decreases args, 1
  {
    var vs := GenArgs(c, args);
    var c1 := GenParams(vs.c, vs.a);
    var v := CallResult(c1, ty);
    var q := Quad(Call, v.a, FuncArg(g), NoArg);
    FinalBack(v.c, Emit(v.c, q), f, {});
    FinalBack(c1, v.c, f, {});
    FinalBack(vs.c, c1, f, {});
    var s1 := ArgsRun(m, c, args, f, s);
    var s2 := ParamsRun(m, vs.c, vs.a, f, s1);
    GoesTrans(m, c, vs.c, c1, f, s, s1, s2);
    s' := CallEmitRuns(m, c, c1, g, ty, f, s, s2);
  }

  // ---------- conditions ----------

  /** The code of a condition jumps exactly when the condition has the wanted value. */
  lemma {:induction false} BoolRuns(m: Machine, c: Code, e: Expr, dest: BlockId, jumpIfTrue: bool, f: Code, s: State)
    returns (s': State, d: BlockId)
    requires Ready(c) && Typed(e, c.nextVar) && HasBoolType(e) && IsLabel(c, dest)
    requires Final(GenBool(c, e, dest, jumpIfTrue), f)
    ensures Branches(m, c, GenBool(c, e, dest, jumpIfTrue), dest, jumpIfTrue, f, s, s', d, EvalBool(m, e, s.env, s.trace))
    decreases e, 2
  {
    match e
    case Cmp(_, _, _) => s', d := CmpRuns(m, c, e, dest, jumpIfTrue, f, s);
    case And(_, _) =>
      if jumpIfTrue { s', d := AroundRuns(m, c, e, dest, false, f, s); }
      else { s', d := BothRun(m, c, e, dest, false, f, s); }
    case Or(_, _) =>
      if jumpIfTrue { s', d := BothRun(m, c, e, dest, true, f, s); }
      else { s', d := AroundRuns(m, c, e, dest, true, f, s); }
    case Not(a) => s', d := BoolRuns(m, c, a, dest, !jumpIfTrue, f, s);
    case BoolLit(b) =>
      s' := s;
      d := LitTestRuns(m, c, b, dest, jumpIfTrue, f, s);
    case Ident(v, _) => s', d := IdentTestRuns(m, c, v, dest, jumpIfTrue, f, s);
    case CallExpr(_, _, _) => s', d := CallTestRuns(m, c, e, dest, jumpIfTrue, f, s);
  }

  lemma CallTestRuns(m: Machine, c: Code, e: Expr, dest: BlockId, jumpIfTrue: bool, f: Code, s: State)
    returns (s': State, d: BlockId)
    requires e.CallExpr? && Ready(c) && Typed(e, c.nextVar) && HasBoolType(e) && IsLabel(c, dest)
    requires Final(GenBool(c, e, dest, jumpIfTrue), f)
    ensures Branches(m, c, GenBool(c, e, dest, jumpIfTrue), dest, jumpIfTrue, f, s, s', d, EvalBool(m, e, s.env, s.trace))
    decreases e, 1
  {
    var j := JumpTo(c, dest);
    TypedArgsMono(e.args, c.nextVar, j.c.nextVar);
    var a := GenCall(j.c, e.f, e.args, e.ty);
    var c' := GenTest(c, j, a, jumpIfTrue);
    FinalBack(a.c, c', f, {});
    FinalBack(j.c, a.c, f, {});
    var s1 := CallRuns(m, j.c, e.f, e.args, e.ty, f, s);
    s', d := TestOf(m, c, dest, a, jumpIfTrue, f, s, s1, EvalCall(m, e.f, e.args, e.ty, s.env, s.trace));
  }

  lemma CmpRuns(m: Machine, c: Code, e: Expr, dest: BlockId, jumpIfTrue: bool, f: Code, s: State)
    returns (s': State, d: BlockId)
    requires e.Cmp? && Ready(c) && Typed(e, c.nextVar) && IsLabel(c, dest)
    requires Final(GenBool(c, e, dest, jumpIfTrue), f)
    ensures Branches(m, c, GenBool(c, e, dest, jumpIfTrue), dest, jumpIfTrue, f, s, s', d, EvalBool(m, e, s.env, s.trace))
    decreases e, 1
  {
    var j := JumpTo(c, dest);
    TypedMono(e, c.nextVar, j.c.nextVar);
    var a := GenExpr(j.c, e.left);
    TypedMono(e.right, c.nextVar, a.c.nextVar);
    var b := GenExpr(a.c, e.right);
    var q := Quad(IfOp(e.cop, jumpIfTrue), LabelArg(j.a), a.a, b.a);
    var c' := EndBlock(b.c, q);
    FinalBack(b.c, c', f, {});
    FinalBack(a.c, b.c, f, {});
    FinalBack(j.c, a.c, f, {});
    JumpToRuns(m, c, dest, f, s);
    s' := PairRuns(m, j.c, e, f, s);
    GoesTrans(m, c, j.c, b.c, f, s, s, s');
    TestAfter(m, c, b.c, q, f, s, s');
    IfOpMeaning(m, e.cop, jumpIfTrue, Eval(a.a, s'.env), Eval(b.a, s'.env));
    d := j.a;
    if Taken(m, q.op, Eval(a.a, s'.env), Eval(b.a, s'.env)) {
      AdvancesThen(j.c, a.c, b.c);
      AdvancesThen(j.c, b.c, c');
      LabelStays(j.c, c', dest);
    }
  }

  /** Either operand can jump to `dest`. */
  lemma BothRun(m: Machine, c: Code, e: Expr, dest: BlockId, jump: bool, f: Code, s: State)
    returns (s': State, d: BlockId)
    requires (e.And? && !jump) || (e.Or? && jump)
    requires Ready(c) && Typed(e, c.nextVar) && IsLabel(c, dest) && Final(GenBoth(c, e, dest, jump), f)
    ensures Branches(m, c, GenBoth(c, e, dest, jump), dest, jump, f, s, s', d, EvalBool(m, e, s.env, s.trace))
    decreases e, 0
  {
    var c1 := GenBool(c, e.left, dest, jump);
    TypedMono(e.right, c.nextVar, c1.nextVar);
    LabelStays(c, c1, dest);
    var c2 := GenBool(c1, e.right, dest, jump);
    FinalBack(c1, c2, f, {});
    var s1;
    s1, d := BoolRuns(m, c, e.left, dest, jump, f, s);
    if EvalBool(m, e.left, s.env, s.trace).value == jump {
      s' := s1;
      LabelStays(c1, c2, dest);
    } else {
      EvalSame(m, e.right, s.env, s1.env, s1.trace, c.nextVar);
      s', d := BoolRuns(m, c1, e.right, dest, jump, f, s1);
      if EvalBool(m, e.right, s.env, s1.trace).value == jump {
        GoesJumps(m, c, c1, f, s, s1, d, s');
      } else {
        GoesTrans(m, c, c1, c2, f, s, s1, s');
      }
    }
  }

  /** Either operand can jump around the jump to `dest`. */
  lemma AroundRuns(m: Machine, c: Code, e: Expr, dest: BlockId, jump: bool, f: Code, s: State)
    returns (s': State, d: BlockId)
    requires (e.And? && !jump) || (e.Or? && jump)
    requires Ready(c) && Typed(e, c.nextVar) && IsLabel(c, dest) && Final(GenAround(c, e, dest, jump), f)
    ensures Branches(m, c, GenAround(c, e, dest, jump), dest, !jump, f, s, s', d, EvalBool(m, e, s.env, s.trace))
    decreases e, 1
  {
    var end := FreshLabel(c);
    LabelStays(c, end.c, dest);
    TypedMono(e, c.nextVar, end.c.nextVar);
    var c1 := GenBoth(end.c, e, end.a, jump);
    LabelStays(end.c, c1, dest);
    var c2 := GenGoto(c1, dest);
    LabelsKept(end.c, c1, {}, end.a);
    LabelsKept(c1, c2, {}, end.a);
    var c3 := Place(c2, end.a);
    FinalBack(c2, c3, f, {end.a});
    FinalBack(c1, c2, f, {});
    FinalBack(end.c, c1, f, {});
    FreshLabelRuns(m, c, f, s);
    s', d := BothRun(m, end.c, e, end.a, jump, f, s);
    if EvalBool(m, e, s.env, s.trace).value == jump {
      LabelStays(end.c, c1, end.a);
      LabelStays(c1, c2, end.a);
      PlaceLands(m, end.c, c2, end.a, d, f, s, s');
      GoesTrans(m, c, end.c, c3, f, s, s, s');
    } else {
      d := GotoRuns(m, c1, dest, f, s');
      GoesJumps(m, end.c, c1, f, s, s', d, s');
      GoesJumps(m, c, end.c, f, s, s, d, s');
      LabelStays(c1, c2, dest);
      FreshIsOther(c, dest);
      TargetStays(c2, c3, {end.a}, dest, d);
    }
  }

  lemma FreshIsOther(c: Code, dest: BlockId)
    requires WF(c) && IsLabel(c, dest)
    ensures dest != c.nextId
  {}
}
