/**
  What happens first in a piece of generated code. It decides whether the block that is
  current before the code is kept: an empty block that nothing refers to is dropped when
  other blocks are placed.
  */
module Begins {
  import opened Quadr
  import opened Blocks
  import opened JumpCode

  /** `Emits`: a quadruple comes first; `Moves`: a block is placed before any quadruple. */
  datatype Start = Silent | Emits | Moves

  function First(a: Start, b: Start): Start { if a.Silent? then b else a }

  function ExprStart(e: Expr): Start
    decreases e, 1
  {
    if HasBoolType(e) && !e.Ident? then First(BoolStart(e, true), Moves)
    else
      match e
      case StrLit(_) => Silent
      case Ident(_, _) => Silent
      case CallExpr(_, args, _) => First(ArgsStart(args), Emits)
      case Arith(_, l, r) => First(First(ExprStart(l), ExprStart(r)), Emits)
      case Plus(x) => ExprStart(x)
      case _ => Emits
  }

  function BoolStart(e: Expr, jumpIfTrue: bool): Start
    decreases e, 0
  {
    match e
    case BoolLit(b) => if b == jumpIfTrue then Emits else Silent
    case CallExpr(_, args, _) => First(ArgsStart(args), Emits)
    case Cmp(_, l, r) => First(First(ExprStart(l), ExprStart(r)), Emits)
    case And(l, r) =>
      First(First(BoolStart(l, false), BoolStart(r, false)), if jumpIfTrue then Emits else Silent)
    case Or(l, r) =>
      First(First(BoolStart(l, true), BoolStart(r, true)), if jumpIfTrue then Silent else Emits)
    case Not(a) => BoolStart(a, !jumpIfTrue)
    case _ => Emits
  }

  function ArgsStart(args: Args): Start {
    match args
    case NoArgs => Silent
    case MoreArgs(e, rest) => First(ExprStart(e), ArgsStart(rest))
  }

  /** How the block that is current in `c` has fared in `c'`. */
  ghost predicate Began(b: Start, c: Code, c': Code)
    requires c.cur in c.blocks
  {
    match b
    case Silent => c'.cur == c.cur && c'.prev == c.prev && c.cur in c'.blocks && c'.blocks[c.cur] == c.blocks[c.cur]
    case Emits => c.cur in c'.blocks && |c.blocks[c.cur].quads| < |c'.blocks[c.cur].quads|
    case Moves => !KeepsCur(c) ==> c.cur !in c'.blocks
  }

  lemma BeganThen(a: Start, b: Start, c: Code, c1: Code, c2: Code)
    requires Advances(c, c1) && Advances(c1, c2) && Began(a, c, c1) && Began(b, c1, c2)
    ensures Began(First(a, b), c, c2)
  {
    BeganThenPlaced(a, b, c, c1, c2, {});
  }

  lemma BeganThenPlaced(a: Start, b: Start, c: Code, c1: Code, c2: Code, gone: set<BlockId>)
    requires Advances(c, c1) && AdvancesBut(c1, c2, gone) && Began(a, c, c1) && Began(b, c1, c2)
    ensures Began(First(a, b), c, c2)
  {
    match a
    case Silent =>
    case Emits => EmittedStays(c, c1, c2, gone);
    case Moves =>
  }

  /** A block that has got a quadruple is kept. */
  lemma EmittedStays(c: Code, c1: Code, c2: Code, gone: set<BlockId>)
    requires Advances(c, c1) && AdvancesBut(c1, c2, gone) && Began(Emits, c, c1)
    ensures Began(Emits, c, c2)
  {
    if c1.cur != c.cur {
      assert PlacedOk(c1, c.cur) && KeptAt(c1, c2, c.cur);
    }
  }

  lemma PlaceBegan(c: Code, x: BlockId)
    requires Ready(c) && x in c.chains
    ensures Began(Moves, c, Place(c, x))
  {
    if !KeepsCur(c) {
      ChainMembers(c, c.chains[x]);
      assert PlacedOk(c, c.prev.value);
    }
  }

  lemma NextBlockBegan(c: Code)
    requires Ready(c)
    ensures Began(Moves, c, NextBlock(c))
  {
    NewBlockLater(c);
    PlaceBegan(NewBlock(c), c.nextId);
  }

  lemma JumpToBegan(c: Code, x: BlockId)
    requires Ready(c) && IsLabel(c, x)
    ensures Began(Silent, c, JumpTo(c, x).c)
  {
    if x in c.chains {
      ChainMembers(c, c.chains[x]);
      assert c.chains[x][0] in c.chains[x];
    }
  }

  lemma EndBlockBegan(c: Code, q: Quad)
    requires Ready(c)
    ensures Began(Emits, c, EndBlock(c, q))
  {
    var c1 := AddQuad(c, q);
    AddQuadLater(c, q);
    var c2 := NextBlock(c1);
    assert CurKept(c1, c2);
  }

  lemma ConstBegan(c: Code, k: Arg)
    requires Ready(c)
    ensures Began(Emits, c, GenConst(c, k).c)
  {}

  lemma GotoBegan(c: Code, x: BlockId)
    requires Ready(c) && IsLabel(c, x)
    ensures Began(Emits, c, GenGoto(c, x))
  {
    var j := JumpTo(c, x);
    JumpToBegan(c, x);
    EndBlockBegan(j.c, Quad(Goto, LabelArg(j.a), NoArg, NoArg));
  }

  lemma {:induction false} ExprBegan(c: Code, e: Expr)
    requires Ready(c) && Typed(e, c.nextVar)
    ensures Began(ExprStart(e), c, GenExpr(c, e).c)
    decreases e, 4
  {
    if HasBoolType(e) && !e.Ident? {
      BoolValueBegan(c, e);
    } else {
      match e
      case IntLit(n) => ConstBegan(c, IntArg(n));
      case DoubleLit(r) => ConstBegan(c, DoubleArg(r));
      case CallExpr(f, args, ty) => CallBegan(c, f, args, ty);
      case Arith(_, _, _) => ArithBegan(c, e);
      case Neg(x, isDouble) => MinusBegan(c, Zero(isDouble), x);
      case Plus(x) => ExprBegan(c, x);
      case _ =>
    }
  }

  lemma PairBegan(c: Code, e: Expr)
    requires (e.Arith? || e.Cmp?) && Ready(c) && Typed(e, c.nextVar) && Typed(e.right, GenExpr(c, e.left).c.nextVar)
    ensures var a := GenExpr(c, e.left);
            Began(First(ExprStart(e.left), ExprStart(e.right)), c, GenExpr(a.c, e.right).c)
    decreases e, 0
  {
    var a := GenExpr(c, e.left);
    ExprBegan(c, e.left);
    ExprBegan(a.c, e.right);
    BeganThen(ExprStart(e.left), ExprStart(e.right), c, a.c, GenExpr(a.c, e.right).c);
  }

  lemma ArithBegan(c: Code, e: Expr)
    requires e.Arith? && Ready(c) && Typed(e, c.nextVar)
    ensures Began(ExprStart(e), c, GenExpr(c, e).c)
    decreases e, 3
  {
    var v := FreshVar(c);
    TypedMono(e, c.nextVar, v.c.nextVar);
    var a := GenExpr(v.c, e.left);
    TypedMono(e.right, c.nextVar, a.c.nextVar);
    var b := GenExpr(a.c, e.right);
    PairBegan(v.c, e);
    AdvancesThen(v.c, a.c, b.c);
    EmitBegan(First(ExprStart(e.left), ExprStart(e.right)), v.c, b.c, Quad(e.op, v.a, a.a, b.a));
  }

  lemma EmitBegan(a: Start, c: Code, c1: Code, q: Quad)
    requires Advances(c, c1) && Began(a, c, c1) && !EndsBlock(q.op)
    ensures Began(First(a, Emits), c, Emit(c1, q))
  {
    BeganThen(a, Emits, c, c1, Emit(c1, q));
  }

  lemma MinusBegan(c: Code, k: Arg, x: Expr)
    requires Ready(c) && Typed(x, c.nextVar)
    ensures Began(Emits, c, GenMinus(c, k, x).c)
  {
    var v := FreshVar(c);
    var z := GenConst(v.c, k);
    TypedMono(x, c.nextVar, z.c.nextVar);
    var a := GenExpr(z.c, x);
    ConstBegan(v.c, k);
    EmittedStays(v.c, z.c, a.c, {});
    AdvancesThen(v.c, z.c, a.c);
    EmittedStays(v.c, a.c, GenMinus(c, k, x).c, {});
  }

  lemma ArgsBegan(c: Code, args: Args)
    requires Ready(c) && TypedArgs(args, c.nextVar)
    ensures Began(ArgsStart(args), c, GenArgs(c, args).c)
    decreases args, 0
  {
    match args
    case NoArgs =>
    case MoreArgs(e, rest) =>
      var a := GenExpr(c, e);
      TypedArgsMono(rest, c.nextVar, a.c.nextVar);
      ExprBegan(c, e);
      ArgsBegan(a.c, rest);
      BeganThen(ExprStart(e), ArgsStart(rest), c, a.c, GenArgs(a.c, rest).c);
  }

  lemma ParamsBegan(c: Code, args: seq<Arg>)
    requires Ready(c)
    ensures Began(if args == [] then Silent else Emits, c, GenParams(c, args))
  {
    if args != [] {
      var c1 := GenParams(c, args[1..]);
      ParamsBegan(c, args[1..]);
      BeganThen(if args[1..] == [] then Silent else Emits, Emits, c, c1, GenParams(c, args));
    }
  }

  lemma CallBegan(c: Code, f: nat, args: Args, ty: ReturnType)
    requires Ready(c) && TypedArgs(args, c.nextVar)
    ensures Began(First(ArgsStart(args), Emits), c, GenCall(c, f, args, ty).c)
    decreases args, 1
  {
    var vs := GenArgs(c, args);
    var c1 := GenParams(vs.c, vs.a);
    var v := CallResult(c1, ty);
    ArgsBegan(c, args);
    ParamsBegan(vs.c, vs.a);
    BeganThen(ArgsStart(args), if vs.a == [] then Silent else Emits, c, vs.c, c1);
    AdvancesThen(c, vs.c, c1);
    var b := First(ArgsStart(args), if vs.a == [] then Silent else Emits);
    BeganThen(b, Silent, c, c1, v.c);
    AdvancesThen(c, c1, v.c);
    BeganThen(b, Emits, c, v.c, GenCall(c, f, args, ty).c);
  }

  lemma BoolValueBegan(c: Code, e: Expr)
    requires Ready(c) && Typed(e, c.nextVar) && HasBoolType(e)
    ensures Began(First(BoolStart(e, true), Moves), c, GenBoolValue(c, e).c)
    decreases e, 3
  {
    var v := FreshVar(c);
    var ifTrue := FreshLabel(v.c);
    TypedMono(e, c.nextVar, ifTrue.c.nextVar);
    var c1 := GenBool(ifTrue.c, e, ifTrue.a, true);
    var c2 := NextBlock(c1);
    AdvancesThen(ifTrue.c, c1, c2);
    LabelsKept(ifTrue.c, c2, {}, ifTrue.a);
    BoolBegan(ifTrue.c, e, ifTrue.a, true);
    NextBlockBegan(c1);
    BeganThen(BoolStart(e, true), Moves, ifTrue.c, c1, c2);
    MovedStays(First(BoolStart(e, true), Moves), ifTrue.c, c2, SetByJump(c2, v.a, ifTrue.a), {ifTrue.a});
  }

  lemma MovedStays(b: Start, c: Code, c1: Code, c2: Code, gone: set<BlockId>)
    requires Advances(c, c1) && AdvancesBut(c1, c2, gone) && Began(b, c, c1) && !b.Silent?
    ensures Began(b, c, c2)
  {
    if b.Emits? { EmittedStays(c, c1, c2, gone); }
  }

  lemma {:induction false} BoolBegan(c: Code, e: Expr, dest: BlockId, jumpIfTrue: bool)
    requires Ready(c) && Typed(e, c.nextVar) && HasBoolType(e) && IsLabel(c, dest)
    ensures Began(BoolStart(e, jumpIfTrue), c, GenBool(c, e, dest, jumpIfTrue))
    decreases e, 2
  {
    match e
    case Cmp(_, _, _) => CmpBegan(c, e, dest, jumpIfTrue);
    case And(_, _) => if jumpIfTrue { AroundBegan(c, e, dest, false); } else { BothBegan(c, e, dest, false); }
    case Or(_, _) => if jumpIfTrue { BothBegan(c, e, dest, true); } else { AroundBegan(c, e, dest, true); }
    case Not(a) => BoolBegan(c, a, dest, !jumpIfTrue);
    case BoolLit(b) => if b == jumpIfTrue { GotoBegan(c, dest); }
    case Ident(v, _) =>
      var j := JumpTo(c, dest);
      JumpToBegan(c, dest);
      LaterRefl(j.c);
      TestBegan(c, j, Gen(j.c, VarArg(v)), jumpIfTrue, Silent);
    case CallExpr(_, _, _) => CallTestBegan(c, e, dest, jumpIfTrue);
  }

  lemma TestBegan(c: Code, j: Gen<BlockId>, a: Gen<Arg>, jumpIfTrue: bool, b: Start)
    requires Advances(c, j.c) && Advances(j.c, a.c) && Began(b, c, a.c)
    ensures Began(First(b, Emits), c, GenTest(c, j, a, jumpIfTrue))
  {
    var z := GenConst(a.c, IntArg(0));
    var q := Quad(IfOp(CmpNeq, jumpIfTrue), LabelArg(j.a), a.a, z.a);
    AdvancesThen(c, j.c, a.c);
    ConstBegan(a.c, IntArg(0));
    BeganThen(b, Emits, c, a.c, z.c);
    AdvancesThen(c, a.c, z.c);
    MovedStays(First(b, Emits), c, z.c, EndBlock(z.c, q), {});
  }

  lemma CallTestBegan(c: Code, e: Expr, dest: BlockId, jumpIfTrue: bool)
    requires e.CallExpr? && Ready(c) && Typed(e, c.nextVar) && HasBoolType(e) && IsLabel(c, dest)
    ensures Began(BoolStart(e, jumpIfTrue), c, GenBool(c, e, dest, jumpIfTrue))
    decreases e, 1
  {
    var j := JumpTo(c, dest);
    TypedArgsMono(e.args, c.nextVar, j.c.nextVar);
    var a := GenCall(j.c, e.f, e.args, e.ty);
    JumpToBegan(c, dest);
    CallBegan(j.c, e.f, e.args, e.ty);
    BeganThen(Silent, First(ArgsStart(e.args), Emits), c, j.c, a.c);
    TestBegan(c, j, a, jumpIfTrue, First(ArgsStart(e.args), Emits));
  }

  lemma CmpBegan(c: Code, e: Expr, dest: BlockId, jumpIfTrue: bool)
    requires e.Cmp? && Ready(c) && Typed(e, c.nextVar) && IsLabel(c, dest)
    ensures Began(BoolStart(e, jumpIfTrue), c, GenBool(c, e, dest, jumpIfTrue))
    decreases e, 1
  {
    var j := JumpTo(c, dest);
    TypedMono(e, c.nextVar, j.c.nextVar);
    var a := GenExpr(j.c, e.left);
    TypedMono(e.right, c.nextVar, a.c.nextVar);
    var b := GenExpr(a.c, e.right);
    var q := Quad(IfOp(e.cop, jumpIfTrue), LabelArg(j.a), a.a, b.a);
    var start := First(ExprStart(e.left), ExprStart(e.right));
    JumpToBegan(c, dest);
    PairBegan(j.c, e);
    AdvancesThen(j.c, a.c, b.c);
    BeganThen(Silent, start, c, j.c, b.c);
    AdvancesThen(c, j.c, b.c);
    EndBlockBegan(b.c, q);
    BeganThen(start, Emits, c, b.c, EndBlock(b.c, q));
  }

  lemma BothBegan(c: Code, e: Expr, dest: BlockId, jump: bool)
    requires (e.And? || e.Or?) && Ready(c) && Typed(e, c.nextVar) && IsLabel(c, dest)
    ensures Began(First(BoolStart(e.left, jump), BoolStart(e.right, jump)), c, GenBoth(c, e, dest, jump))
    decreases e, 0
  {
    var c1 := GenBool(c, e.left, dest, jump);
    TypedMono(e.right, c.nextVar, c1.nextVar);
    LabelStays(c, c1, dest);
    BoolBegan(c, e.left, dest, jump);
    BoolBegan(c1, e.right, dest, jump);
    BeganThen(BoolStart(e.left, jump), BoolStart(e.right, jump), c, c1, GenBoth(c, e, dest, jump));
  }

  lemma AroundBegan(c: Code, e: Expr, dest: BlockId, jump: bool)
    requires (e.And? || e.Or?) && Ready(c) && Typed(e, c.nextVar) && IsLabel(c, dest)
    ensures Began(First(First(BoolStart(e.left, jump), BoolStart(e.right, jump)), Emits), c, GenAround(c, e, dest, jump))
    decreases e, 1
  {
    var end := FreshLabel(c);
    LabelStays(c, end.c, dest);
    TypedMono(e, c.nextVar, end.c.nextVar);
    var c1 := GenBoth(end.c, e, end.a, jump);
    LabelStays(end.c, c1, dest);
    var c2 := GenGoto(c1, dest);
    LabelsKept(end.c, c1, {}, end.a);
    LabelsKept(c1, c2, {}, end.a);
    var start := First(BoolStart(e.left, jump), BoolStart(e.right, jump));
    BothBegan(end.c, e, end.a, jump);
    GotoBegan(c1, dest);
    BeganThen(start, Emits, end.c, c1, c2);
    AdvancesThen(end.c, c1, c2);
    MovedStays(First(start, Emits), end.c, c2, Place(c2, end.a), {end.a});
  }
}
