/**
  Expressions, their left-to-right short-circuit evaluation, and the code generated for them.
  */
module JumpCode {
  import opened Quadr
  import opened Blocks

  datatype CmpOp = CmpEq | CmpNeq | CmpGt | CmpLt | CmpGeq | CmpLeq

  datatype ReturnType = VoidCall | BoolCall | ValueCall

  datatype Expr =
    | IntLit(n: int)
    | DoubleLit(r: real)
    | BoolLit(b: bool)
    | StrLit(s: string)
    | Ident(v: Var, isBool: bool)
    | CallExpr(f: nat, args: Args, ty: ReturnType)
    | Arith(op: Op, left: Expr, right: Expr)
    | Neg(arg: Expr, isDouble: bool)
    | Plus(arg: Expr)
    | Cmp(cop: CmpOp, left: Expr, right: Expr)
    | And(left: Expr, right: Expr)
    | Or(left: Expr, right: Expr)
    | Not(arg: Expr)

  datatype Args = NoArgs | MoreArgs(e: Expr, rest: Args)

  predicate HasBoolType(e: Expr) {
    match e
    case BoolLit(_) => true
    case Ident(_, isBool) => isBool
    case CallExpr(_, _, ty) => ty.BoolCall?
    case Cmp(_, _, _) => true
    case And(_, _) => true
    case Or(_, _) => true
    case Not(_) => true
    case _ => false
  }

  /** What the type checker guarantees, and variables that have been declared. */
  ghost predicate Typed(e: Expr, vars: Var) {
    match e
    case Ident(v, _) => v < vars
    case CallExpr(_, args, _) => TypedArgs(args, vars)
    case Arith(op, l, r) => !HasEffect(op) && !op.Copy? && !op.ReadPtr? && Typed(l, vars) && Typed(r, vars)
    case Neg(a, _) => Typed(a, vars)
    case Plus(a) => Typed(a, vars)
    case Cmp(_, l, r) => Typed(l, vars) && Typed(r, vars)
    case And(l, r) => HasBoolType(l) && HasBoolType(r) && Typed(l, vars) && Typed(r, vars)
    case Or(l, r) => HasBoolType(l) && HasBoolType(r) && Typed(l, vars) && Typed(r, vars)
    case Not(a) => HasBoolType(a) && Typed(a, vars)
    case _ => true
  }

  ghost predicate TypedArgs(args: Args, vars: Var) {
    args.MoreArgs? ==> Typed(args.e, vars) && TypedArgs(args.rest, vars)
  }

  lemma {:induction false} TypedMono(e: Expr, vars: Var, vars': Var)
    requires Typed(e, vars) && vars <= vars'
    ensures Typed(e, vars')
  {
    match e
    case CallExpr(_, args, _) => TypedArgsMono(args, vars, vars');
    case Arith(_, l, r) => TypedMono(l, vars, vars'); TypedMono(r, vars, vars');
    case Neg(a, _) => TypedMono(a, vars, vars');
    case Plus(a) => TypedMono(a, vars, vars');
    case Cmp(_, l, r) => TypedMono(l, vars, vars'); TypedMono(r, vars, vars');
    case And(l, r) => TypedMono(l, vars, vars'); TypedMono(r, vars, vars');
    case Or(l, r) => TypedMono(l, vars, vars'); TypedMono(r, vars, vars');
    case Not(a) => TypedMono(a, vars, vars');
    case _ =>
  }

  lemma {:induction false} TypedArgsMono(args: Args, vars: Var, vars': Var)
    requires TypedArgs(args, vars) && vars <= vars'
    ensures TypedArgs(args, vars')
  {
    if args.MoreArgs? {
      TypedMono(args.e, vars, vars');
      TypedArgsMono(args.rest, vars, vars');
    }
  }

  // ---------- evaluation ----------

  datatype Outcome<T> = Outcome(value: T, trace: seq<Event>)

  ghost predicate CmpHolds(m: Machine, op: CmpOp, a: Value, b: Value) {
    match op
    case CmpEq => m.cmp(a, b) == 0
    case CmpNeq => m.cmp(a, b) != 0
    case CmpGt => m.cmp(a, b) > 0
    case CmpLt => m.cmp(a, b) < 0
    case CmpGeq => m.cmp(a, b) >= 0
    case CmpLeq => m.cmp(a, b) <= 0
  }

  ghost predicate Truth(m: Machine, v: Value) { m.cmp(v, IntV(0)) != 0 }

  ghost function ParamEvent(v: Value): Event { Event(Param, ConstV(NoArg), v, ConstV(NoArg)) }

  /** Parameters are passed last to first. */
  ghost function ParamEvents(vs: seq<Value>): seq<Event> {
    if vs == [] then [] else ParamEvents(vs[1..]) + [ParamEvent(vs[0])]
  }

  ghost function EvalExpr(m: Machine, e: Expr, env: Env, trace: seq<Event>): Outcome<Value>
    decreases e, 1
  {
    match e
    case IntLit(n) => Outcome(IntV(n), trace)
    case DoubleLit(r) => Outcome(RealV(r), trace)
    case StrLit(s) => Outcome(ConstV(StrArg(s)), trace)
    case Ident(v, _) => Outcome(env[v], trace)
    case CallExpr(f, args, ty) =>
      if ty.BoolCall? then
        var r := EvalBool(m, e, env, trace);
        Outcome(IntV(if r.value then 1 else 0), r.trace)
      else EvalCall(m, f, args, ty, env, trace)
    case Arith(op, l, r) =>
      var a := EvalExpr(m, l, env, trace);
      var b := EvalExpr(m, r, env, a.trace);
      Outcome(m.alu(op, a.value, b.value), b.trace)
    case Neg(a, isDouble) =>
      var r := EvalExpr(m, a, env, trace);
      Outcome(m.alu(Sub, if isDouble then RealV(0.0) else IntV(0), r.value), r.trace)
    case Plus(a) => EvalExpr(m, a, env, trace)
    case _ =>
      var r := EvalBool(m, e, env, trace);
      Outcome(IntV(if r.value then 1 else 0), r.trace)
  }

  ghost function EvalBool(m: Machine, e: Expr, env: Env, trace: seq<Event>): Outcome<bool>
    decreases e, 0
  {
    match e
    case BoolLit(b) => Outcome(b, trace)
    case Ident(v, _) => Outcome(Truth(m, env[v]), trace)
    case CallExpr(f, args, ty) =>
      var r := EvalCall(m, f, args, ty, env, trace);
      Outcome(Truth(m, r.value), r.trace)
    case Cmp(op, l, r) =>
      var a := EvalExpr(m, l, env, trace);
      var b := EvalExpr(m, r, env, a.trace);
      Outcome(CmpHolds(m, op, a.value, b.value), b.trace)
    case And(l, r) =>
      var a := EvalBool(m, l, env, trace);
      if a.value then EvalBool(m, r, env, a.trace) else a
    case Or(l, r) =>
      var a := EvalBool(m, l, env, trace);
      if a.value then a else EvalBool(m, r, env, a.trace)
    case Not(a) =>
      var r := EvalBool(m, a, env, trace);
      Outcome(!r.value, r.trace)
    case _ => Outcome(false, trace)
  }

  ghost function EvalArgs(m: Machine, args: Args, env: Env, trace: seq<Event>): Outcome<seq<Value>>
    decreases args, 0
  {
    match args
    case NoArgs => Outcome([], trace)
    case MoreArgs(e, rest) =>
      var a := EvalExpr(m, e, env, trace);
      var r := EvalArgs(m, rest, env, a.trace);
      Outcome([a.value] + r.value, r.trace)
  }

  /** All arguments are evaluated before any parameter is passed. */
  ghost function EvalCall(m: Machine, f: nat, args: Args, ty: ReturnType, env: Env, trace: seq<Event>): Outcome<Value>
    decreases args, 1
  {
    var vs := EvalArgs(m, args, env, trace);
    var t := vs.trace + ParamEvents(vs.value) + [Event(Call, ConstV(NoArg), ConstV(FuncArg(f)), ConstV(NoArg))];
    Outcome(if ty.VoidCall? then ConstV(NoArg) else m.ret(ConstV(FuncArg(f)), t), t)
  }

  // ---------- generated code ----------

  datatype Gen<T> = Gen(c: Code, a: T)

  /** quadr_if_op: the jump is taken when the comparison has the wanted outcome. */
  function IfOp(op: CmpOp, jumpIfTrue: bool): (r: Op)
    ensures IsIfOp(r)
  {
    match op
    case CmpEq => if jumpIfTrue then IfEq else IfNe
    case CmpNeq => if jumpIfTrue then IfNe else IfEq
    case CmpGt => if jumpIfTrue then IfGt else IfLe
    case CmpLt => if jumpIfTrue then IfLt else IfGe
    case CmpGeq => if jumpIfTrue then IfGe else IfLt
    case CmpLeq => if jumpIfTrue then IfLe else IfGt
  }

  lemma IfOpMeaning(m: Machine, op: CmpOp, jumpIfTrue: bool, a: Value, b: Value)
    ensures Taken(m, IfOp(op, jumpIfTrue), a, b) <==> (CmpHolds(m, op, a, b) == jumpIfTrue)
  {}

  /** The generator is between two quadruples. */
  ghost predicate Ready(c: Code) { WF(c) && Open(c) }

  /** `c'` comes later, and only the labels in `gone` have been placed. */
  ghost predicate AdvancesBut(c: Code, c': Code, gone: set<BlockId>) { Later(c, c', gone) && Open(c') }

  ghost predicate Advances(c: Code, c': Code) { AdvancesBut(c, c', {}) }

  lemma AdvancesTrans(c1: Code, c2: Code, c3: Code, gone1: set<BlockId>, gone2: set<BlockId>)
    requires AdvancesBut(c1, c2, gone1) && AdvancesBut(c2, c3, gone2)
    ensures AdvancesBut(c1, c3, gone1 + gone2)
  {
    LaterTrans(c1, c2, c3, gone1, gone2);
  }

  lemma AdvancesThen(c1: Code, c2: Code, c3: Code)
    requires Advances(c1, c2) && Advances(c2, c3)
    ensures Advances(c1, c3)
  {
    AdvancesTrans(c1, c2, c3, {}, {});
    LaterLocal(c1, c3, {} + {}, {});
  }

  lemma AdvancesFrom(c1: Code, c2: Code, c3: Code, gone: set<BlockId>)
    requires Advances(c1, c2) && AdvancesBut(c2, c3, gone)
    ensures AdvancesBut(c1, c3, gone)
  {
    AdvancesTrans(c1, c2, c3, {}, gone);
    assert {} + gone == gone;
  }

  lemma AdvancesOn(c1: Code, c2: Code, c3: Code, gone: set<BlockId>)
    requires AdvancesBut(c1, c2, gone) && Advances(c2, c3)
    ensures AdvancesBut(c1, c3, gone)
  {
    AdvancesTrans(c1, c2, c3, gone, {});
    assert gone + {} == gone;
  }

  lemma LabelsKept(c: Code, c': Code, gone: set<BlockId>, x: BlockId)
    requires AdvancesBut(c, c', gone) && x in c.chains && x !in gone
    ensures x in c'.chains
  {}

  // ---------- steps of the generator ----------

  ghost function FreshVar(c: Code): (r: Gen<Arg>)
    requires Ready(c)
    ensures Advances(c, r.c)
  {
    NewVarLater(c);
    Gen(NewVar(c), VarArg(c.nextVar))
  }

  ghost function FreshLabel(c: Code): (r: Gen<BlockId>)
    requires Ready(c)
    ensures Advances(c, r.c) && r.a in r.c.chains && r.a !in c.chains && IsLabel(r.c, r.a)
  {
    NewBlockLater(c);
    Gen(NewBlock(c), c.nextId)
  }

  ghost function Emit(c: Code, q: Quad): (r: Code)
    requires Ready(c) && !EndsBlock(q.op)
    ensures Advances(c, r)
  {
    AddQuadLater(c, q);
    AddQuad(c, q)
  }

  ghost function Place(c: Code, x: BlockId): (r: Code)
    requires WF(c) && x in c.chains
    ensures AdvancesBut(c, r, {x})
  {
    AddBlocksLater(c, x);
    AddBlocks(c, x)
  }

  /** A label that is made and placed within a piece of code does not matter outside. */
  lemma FreshGone(c: Code, r: Code, gone: set<BlockId>)
    requires Ready(c) && AdvancesBut(FreshLabel(c).c, r, gone + {c.nextId})
    ensures AdvancesBut(c, r, gone)
  {
    NewBlockLater(c);
    AdvancesTrans(c, NewBlock(c), r, {}, gone + {c.nextId});
    LaterLocal(c, r, {} + (gone + {c.nextId}), gone);
  }

  lemma FreshGoneOnly(c: Code, r: Code)
    requires Ready(c) && AdvancesBut(FreshLabel(c).c, r, {c.nextId})
    ensures Advances(c, r)
  {
    assert {} + {c.nextId} == {c.nextId};
    FreshGone(c, r, {});
  }

  /** Place the label that was made in `c`. */
  ghost function PlaceFresh(c: Code, c': Code, gone: set<BlockId>): (r: Code)
    requires Ready(c) && AdvancesBut(FreshLabel(c).c, c', gone) && c.nextId !in gone
    ensures AdvancesBut(c, r, gone)
  {
    var r := Place(c', c.nextId);
    AdvancesTrans(FreshLabel(c).c, c', r, gone, {c.nextId});
    FreshGone(c, r, gone);
    r
  }

  /** add_basic_blocks(new_basic_block()) */
  ghost function NextBlock(c: Code): (r: Code)
    requires WF(c)
    ensures Advances(c, r)
  {
    NewBlockLater(c);
    var r := Place(NewBlock(c), c.nextId);
    LaterTrans(c, NewBlock(c), r, {}, {c.nextId});
    LaterLocal(c, r, {} + {c.nextId}, {});
    r
  }

  /** quadr_arg: a constant in a variable of its own. */
  ghost function GenConst(c: Code, k: Arg): (r: Gen<Arg>)
    requires Ready(c)
    ensures Advances(c, r.c)
  {
    var v := FreshVar(c);
    var c' := Emit(v.c, Quad(Copy, v.a, k, NoArg));
    AdvancesThen(c, v.c, c');
    Gen(c', v.a)
  }

  /** The last quadruple of a block, and a new current block behind it. */
  ghost function EndBlock(c: Code, q: Quad): (r: Code)
    requires WF(c)
    ensures Advances(c, r)
  {
    AddQuadLater(c, q);
    var r := NextBlock(AddQuad(c, q));
    LaterTrans(c, AddQuad(c, q), r, {}, {});
    LaterLocal(c, r, {} + {}, {});
    r
  }

  /** quadr_arg_label */
  ghost function JumpTo(c: Code, dest: BlockId): (r: Gen<BlockId>)
    requires Ready(c) && IsLabel(c, dest)
    ensures Advances(c, r.c) && IsLabel(r.c, dest) && IsTarget(r.c, dest, r.a)
  {
    RefLabelLater(c, dest);
    Gen(RefLabel(c, dest), LabelOf(c, dest))
  }

  /** gen_goto */
  ghost function GenGoto(c: Code, dest: BlockId): (r: Code)
    requires Ready(c) && IsLabel(c, dest)
    ensures Advances(c, r)
  {
    var d := JumpTo(c, dest);
    var r := EndBlock(d.c, Quad(Goto, LabelArg(d.a), NoArg, NoArg));
    AdvancesThen(c, d.c, r);
    r
  }

  // ---------- expressions ----------

  function Zero(isDouble: bool): Arg { if isDouble then DoubleArg(0.0) else IntArg(0) }

  ghost function GenExpr(c: Code, e: Expr): (r: Gen<Arg>)
    requires Ready(c) && Typed(e, c.nextVar)
    ensures Advances(c, r.c)
    decreases e, 4
  {
    if HasBoolType(e) && !e.Ident? then GenBoolValue(c, e)
    else
      match e
      case IntLit(n) => GenConst(c, IntArg(n))
      case DoubleLit(r) => GenConst(c, DoubleArg(r))
      case StrLit(s) => LaterRefl(c); Gen(c, StrArg(s))
      case Ident(v, _) => LaterRefl(c); Gen(c, VarArg(v))
      case CallExpr(f, args, ty) => GenCall(c, f, args, ty)
      case Arith(op, l, r) =>
        var v := FreshVar(c);
        TypedMono(l, c.nextVar, v.c.nextVar);
        var a := GenExpr(v.c, l);
        TypedMono(r, c.nextVar, a.c.nextVar);
        var b := GenExpr(a.c, r);
        var c' := Emit(b.c, Quad(op, v.a, a.a, b.a));
        AdvancesThen(c, v.c, a.c);
        AdvancesThen(c, a.c, b.c);
        AdvancesThen(c, b.c, c');
        Gen(c', v.a)
      case Neg(x, isDouble) => GenMinus(c, Zero(isDouble), x)
      case Plus(x) => GenExpr(c, x)
      case _ => LaterRefl(c); Gen(c, NoArg)
  }

  /** `k` minus the value of an expression. */
  ghost function GenMinus(c: Code, k: Arg, x: Expr): (r: Gen<Arg>)
    requires Ready(c) && Typed(x, c.nextVar)
    ensures Advances(c, r.c)
    decreases x, 5
  {
    var v := FreshVar(c);
    var z := GenConst(v.c, k);
    TypedMono(x, c.nextVar, z.c.nextVar);
    var a := GenExpr(z.c, x);
    var c' := Emit(a.c, Quad(Sub, v.a, z.a, a.a));
    AdvancesThen(c, v.c, z.c);
    AdvancesThen(c, z.c, a.c);
    AdvancesThen(c, a.c, c');
    Gen(c', v.a)
  }

  /** The parts of a subtraction from a constant. */
  lemma MinusParts(c: Code, k: Arg, x: Expr) returns (z: Gen<Arg>, a: Gen<Arg>, q: Quad)
    requires Ready(c) && Typed(x, c.nextVar)
    ensures z == GenConst(FreshVar(c).c, k) && Ready(z.c) && Typed(x, z.c.nextVar) && a == GenExpr(z.c, x) && Ready(a.c)
    ensures q == Quad(Sub, FreshVar(c).a, z.a, a.a) && GenMinus(c, k, x) == Gen(Emit(a.c, q), q.result)
    ensures q.result == VarArg(c.nextVar) && c.nextVar < a.c.nextVar
    ensures Advances(a.c, GenMinus(c, k, x).c)
  {
    z := GenConst(FreshVar(c).c, k);
    TypedMono(x, c.nextVar, z.c.nextVar);
    a := GenExpr(z.c, x);
    q := Quad(Sub, FreshVar(c).a, z.a, a.a);
  }

  ghost function SetAndGoto(c: Code, v: Arg, n: int, dest: BlockId): (r: Code)
    requires Ready(c) && IsLabel(c, dest)
    ensures Advances(c, r)
  {
    var c1 := Emit(c, Quad(Copy, v, IntArg(n), NoArg));
    LabelStays(c, c1, dest);
    var r := GenGoto(c1, dest);
    AdvancesThen(c, c1, r);
    r
  }

  ghost function PlaceAndSet(c: Code, v: Arg, n: int, x: BlockId): (r: Code)
    requires Ready(c) && x in c.chains
    ensures AdvancesBut(c, r, {x})
  {
    var c1 := Place(c, x);
    var r := Emit(c1, Quad(Copy, v, IntArg(n), NoArg));
    AdvancesTrans(c, c1, r, {x}, {});
    LaterLocal(c, r, {x} + {}, {x});
    r
  }

  /** Clear `v` where control falls through, and set it at the label. */
  ghost function SetByJump(c: Code, v: Arg, ifTrue: BlockId): (r: Code)
    requires Ready(c) && ifTrue in c.chains
    ensures AdvancesBut(c, r, {ifTrue})
  {
    var end := FreshLabel(c);
    LabelsKept(c, end.c, {}, ifTrue);
    var c1 := SetAndGoto(end.c, v, 0, end.a);
    LabelsKept(end.c, c1, {}, ifTrue);
    var c2 := PlaceAndSet(c1, v, 1, ifTrue);
    AdvancesFrom(end.c, c1, c2, {ifTrue});
    PlaceFresh(c, c2, {ifTrue})
  }

  /** A boolean expression that is not used for a jump. */
  ghost function GenBoolValue(c: Code, e: Expr): (r: Gen<Arg>)
    requires Ready(c) && Typed(e, c.nextVar) && HasBoolType(e)
    ensures Advances(c, r.c)
    decreases e, 3
  {
    var v := FreshVar(c);
    var ifTrue := FreshLabel(v.c);
    TypedMono(e, c.nextVar, ifTrue.c.nextVar);
    var c1 := GenBool(ifTrue.c, e, ifTrue.a, true);
    var c2 := NextBlock(c1);
    AdvancesThen(ifTrue.c, c1, c2);
    LabelsKept(ifTrue.c, c2, {}, ifTrue.a);
    var c3 := SetByJump(c2, v.a, ifTrue.a);
    AdvancesFrom(ifTrue.c, c2, c3, {ifTrue.a});
    FreshGoneOnly(v.c, c3);
    AdvancesThen(c, v.c, c3);
    Gen(c3, v.a)
  }

  ghost function GenArgs(c: Code, args: Args): (r: Gen<seq<Arg>>)
    requires Ready(c) && TypedArgs(args, c.nextVar)
    ensures Advances(c, r.c)
    decreases args, 0
  {
    match args
    case NoArgs => LaterRefl(c); Gen(c, [])
    case MoreArgs(e, rest) =>
      var a := GenExpr(c, e);
      TypedArgsMono(rest, c.nextVar, a.c.nextVar);
      var r := GenArgs(a.c, rest);
      AdvancesThen(c, a.c, r.c);
      Gen(r.c, [a.a] + r.a)
  }

  ghost function GenParams(c: Code, args: seq<Arg>): (r: Code)
    requires Ready(c)
    ensures Advances(c, r)
  {
    if args == [] then LaterRefl(c); c
    else
      var c1 := GenParams(c, args[1..]);
      var c2 := Emit(c1, Quad(Param, NoArg, args[0], NoArg));
      AdvancesThen(c, c1, c2);
      c2
  }

  ghost function CallResult(c: Code, ty: ReturnType): (r: Gen<Arg>)
    requires Ready(c)
    ensures Advances(c, r.c)
  {
    if ty.VoidCall? then LaterRefl(c); Gen(c, NoArg) else FreshVar(c)
  }

  /** gen_call */
  ghost function GenCall(c: Code, f: nat, args: Args, ty: ReturnType): (r: Gen<Arg>)
    requires Ready(c) && TypedArgs(args, c.nextVar)
    ensures Advances(c, r.c)
    decreases args, 1
  {
    var vs := GenArgs(c, args);
    var c1 := GenParams(vs.c, vs.a);
    var v := CallResult(c1, ty);
    var c2 := Emit(v.c, Quad(Call, v.a, FuncArg(f), NoArg));
    AdvancesThen(c, vs.c, c1);
    AdvancesThen(c, c1, v.c);
    AdvancesThen(c, v.c, c2);
    Gen(c2, v.a)
  }

  /** gen_quadr_bool_expr: a jump to `dest` if `e` evaluates to `jumpIfTrue`. */
  ghost function GenBool(c: Code, e: Expr, dest: BlockId, jumpIfTrue: bool): (r: Code)
    requires Ready(c) && Typed(e, c.nextVar) && HasBoolType(e) && IsLabel(c, dest)
    ensures Advances(c, r)
    decreases e, 2
  {
    match e
    case Cmp(op, l, r) =>
      var d := JumpTo(c, dest);
      TypedMono(l, c.nextVar, d.c.nextVar);
      var a := GenExpr(d.c, l);
      TypedMono(r, c.nextVar, a.c.nextVar);
      var b := GenExpr(a.c, r);
      var c' := EndBlock(b.c, Quad(IfOp(op, jumpIfTrue), LabelArg(d.a), a.a, b.a));
      AdvancesThen(c, d.c, a.c);
      AdvancesThen(c, a.c, b.c);
      AdvancesThen(c, b.c, c');
      c'
    case And(_, _) => if jumpIfTrue then GenAround(c, e, dest, false) else GenBoth(c, e, dest, false)
    case Or(_, _) => if jumpIfTrue then GenBoth(c, e, dest, true) else GenAround(c, e, dest, true)
    case Not(a) => GenBool(c, a, dest, !jumpIfTrue)
    case BoolLit(b) => if b == jumpIfTrue then GenGoto(c, dest) else (LaterRefl(c); c)
    case Ident(v, _) =>
      var d := JumpTo(c, dest);
      LaterRefl(d.c);
      GenTest(c, d, Gen(d.c, VarArg(v)), jumpIfTrue)
    case CallExpr(f, args, ty) =>
      var d := JumpTo(c, dest);
      TypedArgsMono(args, c.nextVar, d.c.nextVar);
      var a := GenCall(d.c, f, args, ty);
      GenTest(c, d, a, jumpIfTrue)
    case _ => LaterRefl(c); c
  }

  /** Compare a boolean value with zero, and jump. */
  ghost function GenTest(c: Code, d: Gen<BlockId>, a: Gen<Arg>, jumpIfTrue: bool): (r: Code)
    requires Advances(c, d.c) && Advances(d.c, a.c)
    ensures Advances(c, r) && Advances(a.c, r)
  {
    var z := GenConst(a.c, IntArg(0));
    var c' := EndBlock(z.c, Quad(IfOp(CmpNeq, jumpIfTrue), LabelArg(d.a), a.a, z.a));
    AdvancesThen(c, d.c, a.c);
    AdvancesThen(a.c, z.c, c');
    AdvancesThen(c, a.c, c');
    c'
  }

  /** Both operands jump to `dest` when they are `jump`. */
  ghost function GenBoth(c: Code, e: Expr, dest: BlockId, jump: bool): (r: Code)
    requires e.And? || e.Or?
    requires Ready(c) && Typed(e, c.nextVar) && IsLabel(c, dest)
    ensures Advances(c, r)
    decreases e, 0
  {
    var c1 := GenBool(c, e.left, dest, jump);
    TypedMono(e.right, c.nextVar, c1.nextVar);
    LabelStays(c, c1, dest);
    var c2 := GenBool(c1, e.right, dest, jump);
    AdvancesThen(c, c1, c2);
    c2
  }

  /** Both operands jump around a jump to `dest` when they are `jump`. */
  ghost function GenAround(c: Code, e: Expr, dest: BlockId, jump: bool): (r: Code)
    requires e.And? || e.Or?
    requires Ready(c) && Typed(e, c.nextVar) && IsLabel(c, dest)
    ensures Advances(c, r)
    decreases e, 1
  {
    var end := FreshLabel(c);
    LabelStays(c, end.c, dest);
    TypedMono(e, c.nextVar, end.c.nextVar);
    var c1 := GenBoth(end.c, e, end.a, jump);
    LabelStays(end.c, c1, dest);
    var c2 := GenGoto(c1, dest);
    AdvancesThen(end.c, c1, c2);
    PlaceFresh(c, c2, {})
  }
}
