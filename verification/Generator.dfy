/**
  The code generator as the program has it: blocks, links and counters updated step by step.
  Every method is tied to the function that JumpRuns proves correct.
  */
module GeneratorModel {
  import opened Quadr
  import opened Blocks
  import opened JumpCode
  import opened Begins
  import opened Statements

  function Reversed<T>(a: seq<T>): (r: seq<T>)
    ensures |r| == |a|
  {
    seq(|a|, i requires 0 <= i < |a| => a[|a| - 1 - i])
  }

  lemma MoveOne<T>(done: seq<T>, x: T, rest: seq<T>)
    ensures done + ([x] + rest) == done + [x] + rest && Reversed(done + [x]) == [x] + Reversed(done)
  {}

  lemma GenArgsStep(c: Code, lst: Args)
    requires Ready(c) && TypedArgs(lst, c.nextVar) && lst.MoreArgs?
    ensures var x := GenExpr(c, lst.e);
            && TypedArgs(lst.rest, x.c.nextVar)
            && GenArgs(c, lst).c == GenArgs(x.c, lst.rest).c
            && GenArgs(c, lst).a == [x.a] + GenArgs(x.c, lst.rest).a
  {
    TypedArgsMono(lst.rest, c.nextVar, GenExpr(c, lst.e).c.nextVar);
  }

  lemma TypedLater(c: Code, k: Arg, e: Expr)
    requires Ready(c) && Typed(e, c.nextVar)
    ensures Typed(e, GenConst(FreshVar(c).c, k).c.nextVar)
  {
    TypedMono(e, c.nextVar, GenConst(FreshVar(c).c, k).c.nextVar);
  }

  lemma SetLater(c: Code, v: Var, e: Expr)
    requires Ready(c) && Typed(e, c.nextVar)
    ensures var g := GenExpr(c, e); Ready(g.c) && GenSet(c, v, e) == Emit(g.c, Quad(Copy, VarArg(v), g.a, NoArg))
  {}

  /** The steps of a jump around a jump. */
  lemma AroundLater(c: Code, e: Expr, target: BlockId, jump: bool)
    requires (e.And? || e.Or?) && Ready(c) && Typed(e, c.nextVar) && IsLabel(c, target)
    ensures var end := FreshLabel(c);
            && Typed(e, end.c.nextVar) && IsLabel(end.c, end.a)
            && var c1 := GenBoth(end.c, e, end.a, jump);
            && Ready(c1) && IsLabel(c1, target)
            && var c2 := GenGoto(c1, target);
            WF(c2) && end.a in c2.chains && GenAround(c, e, target, jump) == Place(c2, end.a)
  {
    var end := FreshLabel(c);
    LabelStays(c, end.c, target);
    TypedMono(e, c.nextVar, end.c.nextVar);
    var c1 := GenBoth(end.c, e, end.a, jump);
    LabelStays(end.c, c1, target);
    var c2 := GenGoto(c1, target);
    LabelsKept(end.c, c1, {}, end.a);
    LabelsKept(c1, c2, {}, end.a);
  }

  lemma PassStep(c: Code, args: seq<Arg>, k: nat)
    requires Ready(c) && 0 < k <= |args|
    ensures GenParams(c, args[k - 1..]) == Emit(GenParams(c, args[k..]), Quad(Param, NoArg, args[k - 1], NoArg))
    ensures Reversed(args[..k]) == [args[k - 1]] + Reversed(args[..k - 1])
  {
    assert args[k - 1..][1..] == args[k..];
    assert args[..k] == args[..k - 1] + [args[k - 1]];
    MoveOne(args[..k - 1], args[k - 1], []);
  }

  class Generator {
    var blocks: map<BlockId, Block>
    var cur: BlockId
    var prev: Option<BlockId>
    var nextId: BlockId
    var nextVar: Var
    ghost var placed: set<BlockId>
    ghost var chains: map<BlockId, seq<BlockId>>

    ghost function State(): Code
      reads this
    {
      Code(blocks, cur, prev, nextId, nextVar, placed, chains)
    }

    /** A function starts with one empty block. */
    constructor (parameters: Var)
      ensures Ready(State()) && nextVar == parameters && blocks[cur] == Block([], None, false) && prev == None
    {
      blocks := map[0 := Block([], None, false)];
      cur, prev, nextId, nextVar := 0, None, 1, parameters;
      placed, chains := {}, map[];
    }

    method DeclareVar() returns (v: Arg)
      requires Ready(State())
      modifies this`nextVar
      ensures Gen(State(), v) == FreshVar(old(State()))
    {
      v := VarArg(nextVar);
      nextVar := nextVar + 1;
    }

    method NewBasicBlock() returns (x: BlockId)
      modifies this`blocks, this`nextId, this`chains
      ensures State() == NewBlock(old(State())) && x == old(nextId)
    {
      x := nextId;
      blocks := blocks[x := Block([], None, false)];
      chains := chains[x := [x]];
      nextId := nextId + 1;
    }

    method AddQuadr(q: Quad)
      requires cur in blocks && Open(State())
      modifies this`blocks
      ensures State() == AddQuad(old(State()), q)
    {
      var b := blocks[cur];
      blocks := blocks[cur := b.(quads := b.quads + [q])];
    }

    method QuadrArgLabel(target: BlockId) returns (d: BlockId)
      requires Ready(State()) && IsLabel(State(), target)
      modifies this`blocks, this`nextId, this`chains
      ensures Gen(State(), d) == JumpTo(old(State()), target)
    {
      d := target;
      ChainHeads(State());
      if blocks[d].quads == [] {
        if blocks[d].referenced {
          ghost var before := chains;
          d := NewBasicBlock();
          blocks := blocks[d := blocks[d].(next := blocks[target].next)];
          blocks := blocks[target := blocks[target].(next := Some(d))];
          chains := before[target := [target, d] + before[target][1..]];
        }
        blocks := blocks[d := blocks[d].(referenced := true)];
      }
      assert State() == RefLabel(old(State()), target);
    }

    method AddBasicBlocks(first: BlockId)
      requires WF(State()) && first in chains
      modifies this
      ensures State() == AddBlocks(old(State()), first)
    {
      var x := first;
      var lst := blocks[cur].quads;
      if lst != [] && IsIfOp(lst[|lst| - 1].op) {
        WithDummyWF(State(), x);
        x := InsertDummy(x);
      }
      AppendChain(x);
    }

    /** An empty block in front of a label, for the fall-through edge of a conditional jump. */
    method InsertDummy(x: BlockId) returns (dummy: BlockId)
      requires x in chains
      modifies this`blocks, this`nextId, this`chains
      ensures State() == WithDummy(old(State()), x) && dummy == old(nextId)
    {
      ghost var ch := chains[x];
      dummy := NewBasicBlock();
      blocks := blocks[dummy := Block([], Some(x), true)];
      chains := (chains - {x})[dummy := [dummy] + ch];
    }

    method AppendChain(first: BlockId)
      requires WF(State()) && first in chains
      modifies this
      ensures State() == Append(old(State()), first)
    {
      ghost var c, ch := State(), chains[first];
      ChainMembers(c, ch);
      var x := first;
      if prev.None? || blocks[cur].quads != [] || blocks[cur].referenced {
        blocks := blocks[cur := blocks[cur].(next := Some(x))];
        prev := Some(cur);
        placed := placed + {cur};
      } else {
        assert PlacedOk(c, prev.value);
        blocks := blocks - {cur};
        blocks := blocks[prev.value := blocks[prev.value].(next := Some(x))];
      }
      assert forall b :: b in ch ==> b in blocks && blocks[b] == c.blocks[b];
      FollowChain(x, c, ch);
      placed := placed + AllButLast(ch);
      chains := chains - {first};
      assert c.placed + {} == c.placed;
    }

    /** The last block of the list is the current one. */
    method FollowChain(first: BlockId, ghost c: Code, ghost ch: seq<BlockId>)
      requires IsChain(c, ch) && ch[0] == first && forall b :: b in ch ==> b in blocks && b in c.blocks && blocks[b] == c.blocks[b]
      modifies this`cur, this`prev
      ensures cur == ch[|ch| - 1] && prev == if |ch| > 1 then Some(ch[|ch| - 2]) else old(prev)
    {
      var x := first;
      ghost var i := 0;
      assert Waiting(c, ch, 0);
      while blocks[x].next.Some?
        invariant i < |ch| && x == ch[i] && Waiting(c, ch, i) && ch[i] in ch
        invariant prev == if i == 0 then old(prev) else Some(ch[i - 1])
        decreases |ch| - i
        modifies this`prev
      {
        prev := Some(x);
        x := blocks[x].next.value;
        i := i + 1;
        assert Waiting(c, ch, i) && ch[i] in ch;
      }
      cur := x;
    }

    // ---------- steps used by the translation ----------

    method EmitQuadr(q: Quad)
      requires Ready(State()) && !EndsBlock(q.op)
      modifies this
      ensures State() == Emit(old(State()), q)
    {
      AddQuadr(q);
    }

    method FreshBlock() returns (x: BlockId)
      requires Ready(State())
      modifies this
      ensures Gen(State(), x) == FreshLabel(old(State()))
    {
      x := NewBasicBlock();
    }

    method PlaceLabel(x: BlockId)
      requires WF(State()) && x in chains
      modifies this
      ensures State() == Place(old(State()), x)
    {
      AddBasicBlocks(x);
    }

    method StartBlock()
      requires WF(State())
      modifies this
      ensures State() == NextBlock(old(State()))
    {
      NewBlockLater(State());
      var x := NewBasicBlock();
      AddBasicBlocks(x);
    }

    method EndBlockWith(q: Quad)
      requires Ready(State())
      modifies this
      ensures State() == EndBlock(old(State()), q)
    {
      AddQuadLater(State(), q);
      AddQuadr(q);
      StartBlock();
    }

    method QuadrArg(k: Arg) returns (v: Arg)
      requires Ready(State())
      modifies this
      ensures Gen(State(), v) == GenConst(old(State()), k)
    {
      v := DeclareVar();
      EmitQuadr(Quad(Copy, v, k, NoArg));
    }

    method GotoBlock(target: BlockId)
      requires Ready(State()) && IsLabel(State(), target)
      modifies this
      ensures State() == GenGoto(old(State()), target)
    {
      var d := QuadrArgLabel(target);
      EndBlockWith(Quad(Goto, LabelArg(d), NoArg, NoArg));
    }

    // ---------- expressions ----------

    /** gen_quadr_expr */
    method Expression(e: Expr) returns (a: Arg)
      requires Ready(State()) && Typed(e, nextVar)
      modifies this
      ensures Gen(State(), a) == GenExpr(old(State()), e)
      decreases e, 4
    {
      if HasBoolType(e) && !e.Ident? {
        a := BoolValue(e);
      } else {
        match e
        case IntLit(n) => a := QuadrArg(IntArg(n));
        case DoubleLit(r) => a := QuadrArg(DoubleArg(r));
        case StrLit(s) => a := StrArg(s);
        case Ident(v, _) => a := VarArg(v);
        case CallExpr(f, args, ty) => a := CallFunction(f, args, ty);
        case Arith(op, l, r) =>
          ghost var c := State();
          a := DeclareVar();
          TypedMono(l, c.nextVar, nextVar);
          var x := Expression(l);
          TypedMono(r, c.nextVar, nextVar);
          var y := Expression(r);
          EmitQuadr(Quad(op, a, x, y));
        case Neg(arg, isDouble) => a := Negation(Zero(isDouble), arg);
        case Plus(arg) => a := Expression(arg);
      }
    }

    method DeclareWith(k: Arg) returns (a: Arg, z: Arg)
      requires Ready(State())
      modifies this
      ensures a == FreshVar(old(State())).a && Gen(State(), z) == GenConst(FreshVar(old(State())).c, k)
    {
      a := DeclareVar();
      z := QuadrArg(k);
    }

    method Negation(k: Arg, e: Expr) returns (a: Arg)
      requires Ready(State()) && Typed(e, nextVar)
      modifies this
      ensures Gen(State(), a) == GenMinus(old(State()), k, e)
      decreases e, 5
    {
      TypedLater(State(), k, e);
      ghost var g := GenExpr(GenConst(FreshVar(State()).c, k).c, e);
      var z;
      a, z := DeclareWith(k);
      var x := Expression(e);
      assert Gen(State(), x) == g && Ready(g.c);
      EmitQuadr(Quad(Sub, a, z, x));
    }

    method BoolValue(e: Expr) returns (a: Arg)
      requires Ready(State()) && Typed(e, nextVar) && HasBoolType(e)
      modifies this
      ensures Gen(State(), a) == GenBoolValue(old(State()), e)
      decreases e, 3
    {
      ghost var c := State();
      ghost var l := FreshLabel(FreshVar(c).c);
      TypedMono(e, nextVar, l.c.nextVar);
      a := DeclareVar();
      var ifTrue := FreshBlock();
      assert Gen(State(), ifTrue) == l;
      Condition(e, ifTrue, true);
      ghost var c1 := State();
      StartBlock();
      AdvancesThen(l.c, c1, State());
      LabelsKept(l.c, State(), {}, ifTrue);
      SetWhereJumped(a, ifTrue);
    }

    method SetThenGoto(a: Arg, n: int, target: BlockId)
      requires Ready(State()) && IsLabel(State(), target)
      modifies this
      ensures State() == SetAndGoto(old(State()), a, n, target)
    {
      ghost var c := State();
      EmitQuadr(Quad(Copy, a, IntArg(n), NoArg));
      LabelStays(c, State(), target);
      GotoBlock(target);
    }

    method PlaceThenSet(a: Arg, n: int, x: BlockId)
      requires Ready(State()) && x in chains
      modifies this
      ensures State() == PlaceAndSet(old(State()), a, n, x)
    {
      PlaceLabel(x);
      EmitQuadr(Quad(Copy, a, IntArg(n), NoArg));
    }

    method SetWhereJumped(a: Arg, ifTrue: BlockId)
      requires Ready(State()) && ifTrue in chains
      modifies this
      ensures State() == SetByJump(old(State()), a, ifTrue)
    {
      var end := FreshBlock();
      ghost var c := State();
      SetThenGoto(a, 0, end);
      LabelsKept(c, State(), {}, ifTrue);
      LabelsKept(c, State(), {}, end);
      ghost var c1 := State();
      PlaceThenSet(a, 1, ifTrue);
      LabelsKept(c1, State(), {ifTrue}, end);
      PlaceLabel(end);
    }

    /** gen_call: all arguments first, then the parameters, the last one first. */
    method CallFunction(f: nat, args: Args, ty: ReturnType) returns (a: Arg)
      requires Ready(State()) && TypedArgs(args, nextVar)
      modifies this
      ensures Gen(State(), a) == GenCall(old(State()), f, args, ty)
      decreases args, 1
    {
      ghost var c := State();
      var params := Arguments(args);
      PassParameters(params, GenArgs(c, args).a);
      if ty.VoidCall? {
        a := NoArg;
      } else {
        a := DeclareVar();
      }
      EmitQuadr(Quad(Call, a, FuncArg(f), NoArg));
    }

    /** The list of parameters is built in reverse. */
    method Arguments(args: Args) returns (params: seq<Arg>)
      requires Ready(State()) && TypedArgs(args, nextVar)
      modifies this
      ensures var r := GenArgs(old(State()), args); State() == r.c && params == Reversed(r.a)
      decreases args, 0
    {
      ghost var whole, done := GenArgs(State(), args), [];
      var lst := args;
      params := [];
      assert [] + whole.a == whole.a;
      while lst.MoreArgs?
        invariant Ready(State()) && TypedArgs(lst, nextVar)
        invariant params == Reversed(done)
        invariant whole.c == GenArgs(State(), lst).c && whole.a == done + GenArgs(State(), lst).a
        invariant lst == args || (args decreases to lst)
        decreases lst
      {
        GenArgsStep(State(), lst);
        var x := Expression(lst.e);
        MoveOne(done, x, GenArgs(State(), lst.rest).a);
        done := done + [x];
        params := [x] + params;
        lst := lst.rest;
      }
      assert done + [] == done;
    }

    method PassParameters(list: seq<Arg>, ghost args: seq<Arg>)
      requires Ready(State()) && list == Reversed(args)
      modifies this
      ensures State() == GenParams(old(State()), args)
    {
      ghost var c, k := State(), |args|;
      var params := list;
      while params != []
        invariant |params| == k <= |args| && params == Reversed(args[..k])
        invariant State() == GenParams(c, args[k..])
      {
        PassStep(c, args, k);
        EmitQuadr(Quad(Param, NoArg, params[0], NoArg));
        k := k - 1;
        params := params[1..];
      }
      assert args[0..] == args;
    }

    /** gen_quadr_bool_expr */
    method Condition(e: Expr, target: BlockId, jumpIfTrue: bool)
      requires Ready(State()) && Typed(e, nextVar) && HasBoolType(e) && IsLabel(State(), target)
      modifies this
      ensures State() == GenBool(old(State()), e, target, jumpIfTrue)
      decreases e, 2
    {
      ghost var c := State();
      match e
      case Cmp(op, l, r) =>
        var d := QuadrArgLabel(target);
        TypedMono(l, c.nextVar, nextVar);
        var x := Expression(l);
        TypedMono(r, c.nextVar, nextVar);
        var y := Expression(r);
        EndBlockWith(Quad(IfOp(op, jumpIfTrue), LabelArg(d), x, y));
      case And(_, _) =>
        if jumpIfTrue { JumpAround(e, target, false); } else { JumpFromBoth(e, target, false); }
      case Or(_, _) =>
        if jumpIfTrue { JumpFromBoth(e, target, true); } else { JumpAround(e, target, true); }
      case Not(arg) => Condition(arg, target, !jumpIfTrue);
      case BoolLit(b) => if b == jumpIfTrue { GotoBlock(target); }
      case Ident(v, _) =>
        var d := QuadrArgLabel(target);
        TestZero(d, VarArg(v), jumpIfTrue);
      case CallExpr(f, args, ty) =>
        var d := QuadrArgLabel(target);
        TypedArgsMono(args, c.nextVar, nextVar);
        var x := CallFunction(f, args, ty);
        TestZero(d, x, jumpIfTrue);
    }

    method TestZero(d: BlockId, a: Arg, jumpIfTrue: bool)
      requires Ready(State())
      modifies this
      ensures var z := GenConst(old(State()), IntArg(0));
              State() == EndBlock(z.c, Quad(IfOp(CmpNeq, jumpIfTrue), LabelArg(d), a, z.a))
    {
      var z := QuadrArg(IntArg(0));
      EndBlockWith(Quad(IfOp(CmpNeq, jumpIfTrue), LabelArg(d), a, z));
    }

    method JumpFromBoth(e: Expr, target: BlockId, jump: bool)
      requires e.And? || e.Or?
      requires Ready(State()) && Typed(e, nextVar) && IsLabel(State(), target)
      modifies this
      ensures State() == GenBoth(old(State()), e, target, jump)
      decreases e, 0
    {
      ghost var c := State();
      Condition(e.left, target, jump);
      TypedMono(e.right, c.nextVar, nextVar);
      LabelStays(c, State(), target);
      Condition(e.right, target, jump);
    }

    method JumpAround(e: Expr, target: BlockId, jump: bool)
      requires e.And? || e.Or?
      requires Ready(State()) && Typed(e, nextVar) && IsLabel(State(), target)
      modifies this
      ensures State() == GenAround(old(State()), e, target, jump)
      decreases e, 1
    {
      AroundLater(State(), e, target, jump);
      var end := FreshBlock();
      JumpFromBoth(e, end, jump);
      GotoBlock(target);
      PlaceLabel(end);
    }

    // ---------- statements ----------

    method Statement(st: Stmt)
      requires Ready(State()) && TypedStmt(st, nextVar) && LoopsBegin(st)
      modifies this
      ensures State() == GenStmt(old(State()), st)
      decreases st, 1
    {
      ghost var c := State();
      match st
      case Empty =>
      case Then(a, b) =>
        Statement(a);
        TypedStmtMono(b, c.nextVar, nextVar);
        Statement(b);
      case Evaluate(e) => var _ := Expression(e);
      case Set(v, e) => Assignment(v, e);
      case Bump(v, isDouble, up) => Increment(v, isDouble, up);
      case If(cond, yes) => IfStatement(cond, yes);
      case IfElse(_, _, _) => IfElseStatement(st);
      case While(cond, body) => WhileStatement(cond, body);
      case Return(value) => ReturnStatement(value);
    }

    method Assignment(v: Var, e: Expr)
      requires Ready(State()) && Typed(e, nextVar)
      modifies this
      ensures State() == GenSet(old(State()), v, e)
    {
      ghost var g := GenExpr(State(), e);
      SetLater(State(), v, e);
      var a := Expression(e);
      assert Gen(State(), a) == g;
      EmitQuadr(Quad(Copy, VarArg(v), a, NoArg));
    }

    method Increment(v: Var, isDouble: bool, up: bool)
      requires Ready(State())
      modifies this
      ensures State() == GenBump(old(State()), v, isDouble, up)
    {
      var k := QuadrArg(One(isDouble));
      EmitQuadr(Quad(BumpOp(up), VarArg(v), VarArg(v), k));
    }

    method ReturnStatement(value: Option<Expr>)
      requires Ready(State()) && (value.Some? ==> Typed(value.value, nextVar))
      modifies this
      ensures State() == GenReturn(old(State()), value)
    {
      var a := NoArg;
      if value.Some? {
        a := Expression(value.value);
      }
      EndBlockWith(Quad(Op.Return, NoArg, a, NoArg));
    }

    method IfTest(cond: Expr) returns (ifFalse: BlockId)
      requires Ready(State()) && IsCondition(cond, nextVar)
      modifies this
      ensures State() == GenIfTest(old(State()), cond) && ifFalse == old(nextId)
    {
      TypedMono(cond, nextVar, FreshLabel(State()).c.nextVar);
      ifFalse := FreshBlock();
      Condition(cond, ifFalse, false);
      StartBlock();
    }

    method IfStatement(cond: Expr, yes: Stmt)
      requires Ready(State()) && IsCondition(cond, nextVar) && TypedStmt(yes, nextVar) && LoopsBegin(yes)
      modifies this
      ensures State() == GenIf(old(State()), cond, yes)
      decreases yes, 2
    {
      ghost var c := State();
      AdvancesThen(c, FreshLabel(c).c, GenIfTest(c, cond));
      TypedStmtMono(yes, nextVar, GenIfTest(c, cond).nextVar);
      var ifFalse := IfTest(cond);
      ghost var c1 := State();
      Statement(yes);
      LabelsKept(c1, State(), {}, ifFalse);
      PlaceLabel(ifFalse);
    }

    method IfElseStatement(st: Stmt)
      requires st.IfElse? && Ready(State()) && TypedStmt(st, nextVar) && LoopsBegin(st)
      modifies this
      ensures State() == GenIfElse(old(State()), st)
      decreases st, 0
    {
      ghost var c := State();
      AdvancesThen(c, FreshLabel(c).c, GenIfTest(c, st.cond));
      TypedStmtMono(st, nextVar, GenIfTest(c, st.cond).nextVar);
      var ifFalse := IfTest(st.cond);
      ghost var c1 := State();
      Statement(st.yes);
      LabelsKept(c1, State(), {}, ifFalse);
      TypedStmtMono(st.no, c1.nextVar, nextVar);
      ElsePart(ifFalse, st.no);
    }

    method ElseLabel(ifFalse: BlockId) returns (end: BlockId)
      requires Ready(State()) && ifFalse in chains
      modifies this
      ensures State() == GenElse(old(State()), ifFalse) && end == old(nextId)
    {
      ghost var c := State();
      end := FreshBlock();
      LabelsKept(c, State(), {}, ifFalse);
      ghost var c1 := State();
      GotoBlock(end);
      LabelsKept(c1, State(), {}, ifFalse);
      PlaceLabel(ifFalse);
    }

    method ElsePart(ifFalse: BlockId, no: Stmt)
      requires Ready(State()) && ifFalse in chains && TypedStmt(no, nextVar) && LoopsBegin(no)
      modifies this
      ensures State() == GenElsePart(old(State()), ifFalse, no)
      decreases no, 2
    {
      TypedStmtMono(no, nextVar, GenElse(State(), ifFalse).nextVar);
      var end := ElseLabel(ifFalse);
      ghost var c := State();
      Statement(no);
      LabelsKept(c, State(), {}, end);
      PlaceLabel(end);
    }

    method StartAtNewBlock() returns (x: BlockId)
      requires WF(State()) && !EndsInIf(State())
      modifies this
      ensures State() == NextBlock(old(State())) && x == cur
    {
      NewBlockLater(State());
      x := NewBasicBlock();
      AddBasicBlocks(x);
    }

    method LoopEntry() returns (test: BlockId, head: BlockId)
      requires Ready(State())
      modifies this
      ensures State() == GenLoopEntry(old(State())) && test == old(nextId) && head == cur
    {
      test := FreshBlock();
      GotoEnds(State(), test);
      GotoBlock(test);
      head := StartAtNewBlock();
    }

    method LoopTest(cond: Expr, head: BlockId)
      requires Ready(State()) && IsCondition(cond, nextVar) && IsLabel(State(), head)
      modifies this
      ensures State() == GenLoopTest(old(State()), cond, head)
    {
      Condition(cond, head, true);
      StartBlock();
    }

    method WhileStatement(cond: Expr, body: Stmt)
      requires Ready(State()) && IsCondition(cond, nextVar) && TypedStmt(body, nextVar)
      requires StmtStart(body).Emits? && LoopsBegin(body)
      modifies this
      ensures State() == GenWhile(old(State()), cond, body)
      decreases body, 2
    {
      ghost var c := State();
      AdvancesThen(c, FreshLabel(c).c, GenLoopEntry(c));
      TypedStmtMono(body, nextVar, GenLoopEntry(c).nextVar);
      var test, head := LoopEntry();
      ghost var c1 := State();
      Statement(body);
      LabelsKept(c1, State(), {}, test);
      HeadStays(c1, State(), test);
      AdvancesThen(c, c1, State());
      ghost var c2 := State();
      PlaceLabel(test);
      TypedMono(cond, c.nextVar, nextVar);
      LoopTest(cond, head);
    }

    /** The body of a function. */
    method FunctionBody(body: Stmt)
      requires Ready(State()) && TypedStmt(body, nextVar) && LoopsBegin(body)
      modifies this
      ensures State() == GenFunction(old(State()), body)
    {
      Statement(body);
      if !WasReturn(body) {
        var _ := StartAtNewBlock();
        AddQuadr(ReturnNothing);
      }
    }
  }
}
