/**
  Every forward jump has a target block of its own, and every conditional jump falls into
  an empty block that nothing jumps to.
  */
module SoleTargets {
  import opened Quadr
  import opened Blocks
  import opened JumpCode

  predicate JumpsTo(q: Quad, b: BlockId) {
    (q.op.Goto? || IsIfOp(q.op)) && q.result == LabelArg(b)
  }

  /** Quadruple `i` of block `p` jumps to `b`. */
  ghost predicate Site(c: Code, p: BlockId, i: nat, b: BlockId) {
    p in c.blocks && i < |c.blocks[p].quads| && JumpsTo(c.blocks[p].quads[i], b)
  }

  ghost predicate Untargeted(c: Code, b: BlockId) { forall p, i: nat :: !Site(c, p, i, b) }

  ghost predicate AtMostOnce(c: Code, b: BlockId) {
    forall p, i: nat, p', i': nat :: Site(c, p, i, b) && Site(c, p', i', b) ==> p == p' && i == i'
  }

  ghost predicate SameSites(c: Code, c': Code, b: BlockId) {
    forall p, i: nat :: Site(c', p, i, b) <==> Site(c, p, i, b)
  }

  ghost predicate Marked(c: Code, b: BlockId) { b in c.blocks && c.blocks[b].referenced }

  ghost predicate FallsIntoOwn(c: Code, b: BlockId)
    requires b in c.blocks
  {
    var qs := c.blocks[b].quads;
    qs != [] && IsIfOp(qs[|qs| - 1].op) ==>
      && c.blocks[b].next.Some?
      && var n := c.blocks[b].next.value;
         n in c.placed && n in c.blocks && c.blocks[n].quads == [] && Marked(c, n) && Untargeted(c, n)
  }

  /** Only the blocks in `loops`, which have code already, can be the targets of several jumps. */
  ghost predicate Sole(loops: set<BlockId>, c: Code) {
    && (forall b :: b in loops ==> b in c.blocks && c.blocks[b].quads != [])
    && (forall b :: b !in loops ==> AtMostOnce(c, b) && (Untargeted(c, b) || Marked(c, b)))
    && (forall b :: b in c.placed && b in c.blocks ==> FallsIntoOwn(c, b))
  }

  /** Blocks that were referenced get no more jumps. */
  ghost predicate Leaves(loops: set<BlockId>, c: Code, c': Code) {
    forall b :: b !in loops && Marked(c, b) ==> Marked(c', b) && SameSites(c, c', b)
  }

  ghost predicate Tidy(loops: set<BlockId>, c: Code, c': Code) {
    Sole(loops, c) ==> Sole(loops, c') && Leaves(loops, c, c')
  }

  ghost predicate Allowed(loops: set<BlockId>, c: Code, x: BlockId) { IsLabel(c, x) && (x in c.chains || x in loops) }

  lemma TidyRefl(loops: set<BlockId>, c: Code)
    ensures Tidy(loops, c, c)
  {
    forall b ensures SameSites(c, c, b) {}
  }

  lemma TidyTrans(loops: set<BlockId>, c1: Code, c2: Code, c3: Code)
    requires Tidy(loops, c1, c2) && Tidy(loops, c2, c3)
    ensures Tidy(loops, c1, c3)
  {
    if Sole(loops, c1) {
      forall b | b !in loops && Marked(c1, b) ensures Marked(c3, b) && SameSites(c1, c3, b) {
        assert SameSites(c1, c2, b) && SameSites(c2, c3, b);
      }
    }
  }

  lemma AllowedStays(loops: set<BlockId>, c: Code, c': Code, x: BlockId)
    requires Advances(c, c') && Allowed(loops, c, x)
    ensures Allowed(loops, c', x)
  {
    LabelStays(c, c', x);
  }

  /** Steps that neither place blocks nor add jumps. */
  lemma QuietTidy(loops: set<BlockId>, c: Code, c': Code)
    requires WF(c) && c'.placed == c.placed
    requires forall b :: Marked(c, b) ==> Marked(c', b)
    requires forall b :: b in c.blocks ==> b in c'.blocks && c.blocks[b].quads <= c'.blocks[b].quads
    requires forall b :: b in c.placed && b in c.blocks && b in c'.blocks ==>
               c'.blocks[b].next == c.blocks[b].next && c'.blocks[b].quads == c.blocks[b].quads
    requires forall b :: SameSites(c, c', b)
    ensures Tidy(loops, c, c')
  {
    if Sole(loops, c) {
      forall b | b !in loops ensures AtMostOnce(c', b) && (Untargeted(c', b) || Marked(c', b)) {
        assert SameSites(c, c', b);
        assert AtMostOnce(c, b) && (Untargeted(c, b) || Marked(c, b));
      }
      forall b | b in c'.placed && b in c'.blocks ensures FallsIntoOwn(c', b) {
        assert PlacedOk(c, b);
        assert FallsIntoOwn(c, b);
        var n := c.blocks[b].next.value;
        assert SameSites(c, c', n);
      }
    }
  }

  lemma FreshVarTidy(loops: set<BlockId>, c: Code)
    requires Ready(c)
    ensures Tidy(loops, c, FreshVar(c).c)
  {
    forall b ensures SameSites(c, NewVar(c), b) {}
    QuietTidy(loops, c, NewVar(c));
  }

  lemma NewBlockTidy(loops: set<BlockId>, c: Code)
    requires WF(c)
    ensures Tidy(loops, c, NewBlock(c))
  {
    var c' := NewBlock(c);
    forall b ensures SameSites(c, c', b) {
      forall p, i: nat ensures Site(c', p, i, b) <==> Site(c, p, i, b) {}
    }
    QuietTidy(loops, c, c');
  }

  lemma WithDummyTidy(loops: set<BlockId>, c: Code, x: BlockId)
    requires WF(c) && x in c.chains
    ensures Tidy(loops, c, WithDummy(c, x))
    ensures Sole(loops, c) ==> Untargeted(WithDummy(c, x), c.nextId)
  {
    var c' := WithDummy(c, x);
    forall b ensures SameSites(c, c', b) {
      forall p, i: nat ensures Site(c', p, i, b) <==> Site(c, p, i, b) {}
    }
    QuietTidy(loops, c, c');
    if Sole(loops, c) {
      assert c.nextId !in loops;
      assert SameSites(c, c', c.nextId);
    }
  }

  lemma EmitTidy(loops: set<BlockId>, c: Code, q: Quad)
    requires Ready(c) && !EndsBlock(q.op)
    ensures Tidy(loops, c, Emit(c, q))
  {
    var c' := AddQuad(c, q);
    forall b ensures SameSites(c, c', b) {
      forall p, i: nat ensures Site(c', p, i, b) <==> Site(c, p, i, b) {}
    }
    QuietTidy(loops, c, c');
  }

  /** A label becomes the target of a new jump: the block chosen has no jumps to it yet. */
  lemma JumpToTidy(loops: set<BlockId>, c: Code, x: BlockId)
    requires Ready(c) && Allowed(loops, c, x)
    ensures var j := JumpTo(c, x);
            && Tidy(loops, c, j.c)
            && (Sole(loops, c) ==> j.a in loops || (Untargeted(j.c, j.a) && Marked(j.c, j.a) && !Marked(c, j.a)))
  {
    var c', d := RefLabel(c, x), LabelOf(c, x);
    ChainHeads(c);
    forall b ensures SameSites(c, c', b) {
      forall p, i: nat ensures Site(c', p, i, b) <==> Site(c, p, i, b) {}
    }
    if x in c.chains {
      ChainMembers(c, c.chains[x]);
      assert c.chains[x][0] in c.chains[x];
    }
    QuietTidy(loops, c, c');
    if Sole(loops, c) && d !in loops {
      assert SameSites(c, c', d);
      assert Untargeted(c, d) || Marked(c, d);
    }
  }

  lemma AppendSites(c: Code, x: BlockId)
    requires WF(c) && x in c.chains
    ensures forall b :: SameSites(c, Append(c, x), b)
    ensures forall b :: b in c.placed ==> c.prev == Some(b) || Append(c, x).blocks[b] == c.blocks[b]
    ensures forall b :: Marked(c, b) ==> Marked(Append(c, x), b)
  {
    var c', ch := Append(c, x), c.chains[x];
    ChainMembers(c, ch);
    if c.prev.Some? { assert PlacedOk(c, c.prev.value); }
    forall b ensures SameSites(c, c', b) {
      forall p, i: nat ensures Site(c', p, i, b) <==> Site(c, p, i, b) {}
    }
    forall b | b in c.placed ensures c.prev == Some(b) || c'.blocks[b] == c.blocks[b] {
      assert PlacedOk(c, b);
    }
  }

  lemma AppendTidy(loops: set<BlockId>, c: Code, x: BlockId)
    requires WF(c) && x in c.chains
    requires EndsInIf(c) ==> |c.chains[x]| > 1 && Marked(c, x) && (Sole(loops, c) ==> Untargeted(c, x))
    ensures Tidy(loops, c, Append(c, x))
  {
    var c' := Append(c, x);
    AppendSites(c, x);
    if Sole(loops, c) {
      forall b | b !in loops ensures AtMostOnce(c', b) && (Untargeted(c', b) || Marked(c', b)) {
        assert SameSites(c, c', b);
        assert AtMostOnce(c, b) && (Untargeted(c, b) || Marked(c, b));
      }
      forall b | b in c'.placed && b in c'.blocks ensures FallsIntoOwn(c', b) {
        AppendFalls(loops, c, x, b);
      }
      ChainMembers(c, c.chains[x]);
    }
  }

  /** Conditional jumps before the place where blocks are appended, and at it. */
  lemma AppendFalls(loops: set<BlockId>, c: Code, x: BlockId, b: BlockId)
    requires WF(c) && x in c.chains && Sole(loops, c) && b in Append(c, x).placed && b in Append(c, x).blocks
    requires EndsInIf(c) ==> |c.chains[x]| > 1 && Marked(c, x) && Untargeted(c, x)
    ensures FallsIntoOwn(Append(c, x), b)
  {
    var c', ch := Append(c, x), c.chains[x];
    AppendWF(c, x);
    ChainMembers(c, ch);
    AppendSites(c, x);
    assert PlacedOk(c', b);
    if b in c.placed {
      assert PlacedOk(c, b);
      assert FallsIntoOwn(c, b);
      var n := c.blocks[b].next.value;
      assert SameSites(c, c', n);
    } else if b == c.cur {
      assert SameSites(c, c', x);
      assert x == ch[0] && ch[0] in ch;
    } else {
      assert c'.blocks[b].quads == [];
    }
  }

  lemma PlaceTidy(loops: set<BlockId>, c: Code, x: BlockId)
    requires WF(c) && x in c.chains
    ensures Tidy(loops, c, Place(c, x))
  {
    if EndsInIf(c) {
      WithDummyWF(c, x);
      WithDummyTidy(loops, c, x);
      if Sole(loops, c) {
        AppendTidy(loops, WithDummy(c, x), c.nextId);
        TidyTrans(loops, c, WithDummy(c, x), Place(c, x));
      }
    } else {
      AppendTidy(loops, c, x);
    }
  }

  lemma NextBlockTidy(loops: set<BlockId>, c: Code)
    requires WF(c)
    ensures Tidy(loops, c, NextBlock(c))
  {
    NewBlockLater(c);
    NewBlockTidy(loops, c);
    PlaceTidy(loops, NewBlock(c), c.nextId);
    TidyTrans(loops, c, NewBlock(c), NextBlock(c));
  }

  /** The jump itself: its target is no one else's. */
  lemma AddJumpSole(loops: set<BlockId>, c: Code, q: Quad, x: BlockId, d: BlockId)
    requires WF(c) && Sole(loops, c) && IsLabel(c, x) && IsTarget(c, x, d)
    requires q.result == LabelArg(d)
    requires d in loops || (Untargeted(c, d) && Marked(c, d))
    ensures Sole(loops, AddQuad(c, q))
    ensures forall b :: b != d ==> SameSites(c, AddQuad(c, q), b)
  {
    var c' := AddQuad(c, q);
    forall b | b != d ensures SameSites(c, c', b) {
      forall p, i: nat ensures Site(c', p, i, b) <==> Site(c, p, i, b) {}
    }
    forall b | b !in loops ensures AtMostOnce(c', b) && (Untargeted(c', b) || Marked(c', b)) {
      assert AtMostOnce(c, b) && (Untargeted(c, b) || Marked(c, b));
      if b != d {
        assert SameSites(c, c', b);
      } else {
        forall p, i: nat | Site(c', p, i, b) ensures p == c.cur && i == |c.blocks[c.cur].quads| {
          assert !Site(c, p, i, b);
        }
      }
    }
    if x in c.chains { ChainMembers(c, c.chains[x]); }
    forall b | b in c'.placed && b in c'.blocks ensures FallsIntoOwn(c', b) {
      assert PlacedOk(c, b);
      assert FallsIntoOwn(c, b);
      var n := c.blocks[b].next.value;
      if n != d { assert SameSites(c, c', n); }
    }
  }

  lemma EndJumpTidy(loops: set<BlockId>, c0: Code, c: Code, q: Quad, x: BlockId)
    requires Ready(c0) && Allowed(loops, c0, x)
    requires var j := JumpTo(c0, x); Advances(j.c, c) && Tidy(loops, j.c, c) && q.result == LabelArg(j.a)
    ensures Tidy(loops, c0, EndBlock(c, q))
  {
    var c1 := AddQuad(c, q);
    AddQuadLater(c, q);
    NextBlockTidy(loops, c1);
    JumpAdded(loops, c0, c, q, x);
    TidyTrans(loops, c0, c1, EndBlock(c, q));
  }

  /** Between the choice of a target and the jump, nothing else has jumped to it. */
  lemma JumpAdded(loops: set<BlockId>, c0: Code, c: Code, q: Quad, x: BlockId)
    requires Ready(c0) && Allowed(loops, c0, x)
    requires var j := JumpTo(c0, x); Advances(j.c, c) && Tidy(loops, j.c, c) && q.result == LabelArg(j.a)
    ensures Tidy(loops, c0, AddQuad(c, q))
  {
    var j := JumpTo(c0, x);
    if Sole(loops, c0) {
      JumpToTidy(loops, c0, x);
      StillFree(loops, j.c, c, x, j.a);
      JumpToFree(loops, c0, j.c, c, q, x, j.a);
    }
  }

  lemma JumpToFree(loops: set<BlockId>, c0: Code, j: Code, c: Code, q: Quad, x: BlockId, d: BlockId)
    requires Leaves(loops, c0, j) && Leaves(loops, j, c) && (d in loops || !Marked(c0, d))
    requires WF(c) && Sole(loops, c) && IsLabel(c, x) && IsTarget(c, x, d) && q.result == LabelArg(d)
    requires d in loops || (Untargeted(c, d) && Marked(c, d))
    ensures Sole(loops, AddQuad(c, q)) && Leaves(loops, c0, AddQuad(c, q))
  {
    AddJumpSole(loops, c, q, x, d);
    LeavesAcross(loops, c0, j, c, AddQuad(c, q), d);
  }

  lemma StillFree(loops: set<BlockId>, c0: Code, c: Code, x: BlockId, d: BlockId)
    requires Advances(c0, c) && IsLabel(c0, x) && IsTarget(c0, x, d) && Leaves(loops, c0, c)
    requires d in loops || (Untargeted(c0, d) && Marked(c0, d))
    ensures IsLabel(c, x) && IsTarget(c, x, d) && (d in loops || (Untargeted(c, d) && Marked(c, d)))
  {
    LabelStays(c0, c, x);
    if d !in loops { assert SameSites(c0, c, d); }
  }

  lemma LeavesAcross(loops: set<BlockId>, c0: Code, j: Code, c: Code, c1: Code, d: BlockId)
    requires Leaves(loops, c0, j) && Leaves(loops, j, c) && (d in loops || !Marked(c0, d))
    requires forall b :: Marked(c, b) ==> Marked(c1, b)
    requires forall b :: b != d ==> SameSites(c, c1, b)
    ensures Leaves(loops, c0, c1)
  {
    forall b | b !in loops && Marked(c0, b) ensures Marked(c1, b) && SameSites(c0, c1, b) {
      assert SameSites(c0, j, b) && SameSites(j, c, b) && SameSites(c, c1, b);
    }
  }

  // ---------- the translation ----------

  lemma ConstTidy(loops: set<BlockId>, c: Code, k: Arg)
    requires Ready(c)
    ensures Tidy(loops, c, GenConst(c, k).c)
  {
    var v := FreshVar(c);
    FreshVarTidy(loops, c);
    EmitTidy(loops, v.c, Quad(Copy, v.a, k, NoArg));
    TidyTrans(loops, c, v.c, GenConst(c, k).c);
  }

  lemma GotoTidy(loops: set<BlockId>, c: Code, x: BlockId)
    requires Ready(c) && Allowed(loops, c, x)
    ensures Tidy(loops, c, GenGoto(c, x))
  {
    var j := JumpTo(c, x);
    LaterRefl(j.c);
    TidyRefl(loops, j.c);
    EndJumpTidy(loops, c, j.c, Quad(Goto, LabelArg(j.a), NoArg, NoArg), x);
  }

  lemma {:induction false} ExprTidy(loops: set<BlockId>, c: Code, e: Expr)
    requires Ready(c) && Typed(e, c.nextVar)
    ensures Tidy(loops, c, GenExpr(c, e).c)
    decreases e, 4
  {
    if HasBoolType(e) && !e.Ident? {
      BoolValueTidy(loops, c, e);
    } else {
      match e
      case IntLit(n) => ConstTidy(loops, c, IntArg(n));
      case DoubleLit(r) => ConstTidy(loops, c, DoubleArg(r));
      case CallExpr(f, args, ty) => CallTidy(loops, c, f, args, ty);
      case Arith(_, _, _) => ArithTidy(loops, c, e);
      case Neg(x, isDouble) => MinusTidy(loops, c, Zero(isDouble), x);
      case Plus(x) => ExprTidy(loops, c, x);
      case _ => TidyRefl(loops, c);
    }
  }

  lemma PairTidy(loops: set<BlockId>, c: Code, e: Expr)
    requires (e.Arith? || e.Cmp?) && Ready(c) && Typed(e, c.nextVar) && Typed(e.right, GenExpr(c, e.left).c.nextVar)
    ensures var a := GenExpr(c, e.left); Tidy(loops, c, GenExpr(a.c, e.right).c)
    decreases e, 0
  {
    var a := GenExpr(c, e.left);
    ExprTidy(loops, c, e.left);
    ExprTidy(loops, a.c, e.right);
    TidyTrans(loops, c, a.c, GenExpr(a.c, e.right).c);
  }

  lemma ArithTidy(loops: set<BlockId>, c: Code, e: Expr)
    requires e.Arith? && Ready(c) && Typed(e, c.nextVar)
    ensures Tidy(loops, c, GenExpr(c, e).c)
    decreases e, 3
  {
    var v, b, q := ArithParts(c, e);
    FreshVarTidy(loops, c);
    PairTidy(loops, v.c, e);
    TidyTrans(loops, c, v.c, b.c);
    EmitAfter(loops, c, b.c, q);
  }

  lemma ArithParts(c: Code, e: Expr) returns (v: Gen<Arg>, b: Gen<Arg>, q: Quad)
    requires e.Arith? && Ready(c) && Typed(e, c.nextVar)
    ensures v == FreshVar(c) && Ready(v.c) && Typed(e, v.c.nextVar) && Typed(e.right, GenExpr(v.c, e.left).c.nextVar)
    ensures b == GenExpr(GenExpr(v.c, e.left).c, e.right) && Ready(b.c) && !EndsBlock(q.op) && GenExpr(c, e).c == Emit(b.c, q)
  {
    v := FreshVar(c);
    TypedMono(e, c.nextVar, v.c.nextVar);
    var a := GenExpr(v.c, e.left);
    TypedMono(e.right, c.nextVar, a.c.nextVar);
    b := GenExpr(a.c, e.right);
    q := Quad(e.op, v.a, a.a, b.a);
  }

  lemma EmitAfter(loops: set<BlockId>, c: Code, c1: Code, q: Quad)
    requires Tidy(loops, c, c1) && Ready(c1) && !EndsBlock(q.op)
    ensures Tidy(loops, c, Emit(c1, q))
  {
    EmitTidy(loops, c1, q);
    TidyTrans(loops, c, c1, Emit(c1, q));
  }

  lemma MinusTidy(loops: set<BlockId>, c: Code, k: Arg, x: Expr)
    requires Ready(c) && Typed(x, c.nextVar)
    ensures Tidy(loops, c, GenMinus(c, k, x).c)
    decreases x, 5
  {
    var z, a, q := MinusParts(c, k, x);
    FreshConstTidy(loops, c, k);
    ExprTidy(loops, z.c, x);
    TidyTrans(loops, c, z.c, a.c);
    EmitAfter(loops, c, a.c, q);
  }

  lemma FreshConstTidy(loops: set<BlockId>, c: Code, k: Arg)
    requires Ready(c)
    ensures Tidy(loops, c, GenConst(FreshVar(c).c, k).c)
  {
    var v := FreshVar(c);
    FreshVarTidy(loops, c);
    ConstTidy(loops, v.c, k);
    TidyTrans(loops, c, v.c, GenConst(v.c, k).c);
  }

  lemma ArgsTidy(loops: set<BlockId>, c: Code, args: Args)
    requires Ready(c) && TypedArgs(args, c.nextVar)
    ensures Tidy(loops, c, GenArgs(c, args).c)
    decreases args, 0
  {
    match args
    case NoArgs => TidyRefl(loops, c);
    case MoreArgs(e, rest) =>
      var a := GenExpr(c, e);
      TypedArgsMono(rest, c.nextVar, a.c.nextVar);
      ExprTidy(loops, c, e);
      ArgsTidy(loops, a.c, rest);
      TidyTrans(loops, c, a.c, GenArgs(a.c, rest).c);
  }

  lemma ParamsTidy(loops: set<BlockId>, c: Code, args: seq<Arg>)
    requires Ready(c)
    ensures Tidy(loops, c, GenParams(c, args))
  {
    if args == [] {
      TidyRefl(loops, c);
    } else {
      var c1 := GenParams(c, args[1..]);
      ParamsTidy(loops, c, args[1..]);
      EmitTidy(loops, c1, Quad(Param, NoArg, args[0], NoArg));
      TidyTrans(loops, c, c1, GenParams(c, args));
    }
  }

  lemma CallTidy(loops: set<BlockId>, c: Code, f: nat, args: Args, ty: ReturnType)
    requires Ready(c) && TypedArgs(args, c.nextVar)
    ensures Tidy(loops, c, GenCall(c, f, args, ty).c)
    decreases args, 1
  {
    var vs := GenArgs(c, args);
    var c1 := GenParams(vs.c, vs.a);
    var v := CallResult(c1, ty);
    ArgsTidy(loops, c, args);
    ParamsTidy(loops, vs.c, vs.a);
    if ty.VoidCall? { TidyRefl(loops, c1); } else { FreshVarTidy(loops, c1); }
    TidyTrans(loops, c, vs.c, c1);
    TidyTrans(loops, c, c1, v.c);
    EmitAfter(loops, c, v.c, Quad(Call, v.a, FuncArg(f), NoArg));
  }

  lemma SetByJumpTidy(loops: set<BlockId>, c: Code, v: Arg, ifTrue: BlockId)
    requires Ready(c) && ifTrue in c.chains
    ensures Tidy(loops, c, SetByJump(c, v, ifTrue))
  {
    var end := FreshLabel(c);
    LabelsKept(c, end.c, {}, ifTrue);
    var c0 := Emit(end.c, Quad(Copy, v, IntArg(0), NoArg));
    AllowedStays(loops, end.c, c0, end.a);
    var c1 := SetAndGoto(end.c, v, 0, end.a);
    LabelsKept(end.c, c1, {}, ifTrue);
    LabelsKept(end.c, c1, {}, end.a);
    var c2 := Place(c1, ifTrue);
    var c3 := PlaceAndSet(c1, v, 1, ifTrue);
    LabelsKept(c1, c3, {ifTrue}, end.a);
    NewBlockTidy(loops, c);
    EmitTidy(loops, end.c, Quad(Copy, v, IntArg(0), NoArg));
    GotoTidy(loops, c0, end.a);
    PlaceTidy(loops, c1, ifTrue);
    EmitTidy(loops, c2, Quad(Copy, v, IntArg(1), NoArg));
    PlaceTidy(loops, c3, end.a);
    TidyTrans(loops, c, end.c, c0);
    TidyTrans(loops, c, c0, c1);
    TidyTrans(loops, c, c1, c2);
    TidyTrans(loops, c, c2, c3);
    TidyTrans(loops, c, c3, Place(c3, end.a));
  }

  lemma BoolValueTidy(loops: set<BlockId>, c: Code, e: Expr)
    requires Ready(c) && Typed(e, c.nextVar) && HasBoolType(e)
    ensures Tidy(loops, c, GenBoolValue(c, e).c)
    decreases e, 3
  {
    var v := FreshVar(c);
    var ifTrue := FreshLabel(v.c);
    TypedMono(e, c.nextVar, ifTrue.c.nextVar);
    var c1 := GenBool(ifTrue.c, e, ifTrue.a, true);
    var c2 := NextBlock(c1);
    AdvancesThen(ifTrue.c, c1, c2);
    LabelsKept(ifTrue.c, c2, {}, ifTrue.a);
    FreshVarTidy(loops, c);
    NewBlockTidy(loops, v.c);
    BoolTidy(loops, ifTrue.c, e, ifTrue.a, true);
    NextBlockTidy(loops, c1);
    SetByJumpTidy(loops, c2, v.a, ifTrue.a);
    TidyTrans(loops, c, v.c, ifTrue.c);
    TidyTrans(loops, c, ifTrue.c, c1);
    TidyTrans(loops, c, c1, c2);
    TidyTrans(loops, c, c2, GenBoolValue(c, e).c);
  }

  /** Translating a condition keeps forward jumps apart. */
  lemma {:induction false} BoolTidy(loops: set<BlockId>, c: Code, e: Expr, dest: BlockId, jumpIfTrue: bool)
    requires Ready(c) && Typed(e, c.nextVar) && HasBoolType(e) && Allowed(loops, c, dest)
    ensures Tidy(loops, c, GenBool(c, e, dest, jumpIfTrue))
    decreases e, 2
  {
    match e
    case Cmp(_, _, _) => CmpTidy(loops, c, e, dest, jumpIfTrue);
    case And(_, _) => if jumpIfTrue { AroundTidy(loops, c, e, dest, false); } else { BothTidy(loops, c, e, dest, false); }
    case Or(_, _) => if jumpIfTrue { BothTidy(loops, c, e, dest, true); } else { AroundTidy(loops, c, e, dest, true); }
    case Not(a) => BoolTidy(loops, c, a, dest, !jumpIfTrue);
    case BoolLit(b) => if b == jumpIfTrue { GotoTidy(loops, c, dest); } else { TidyRefl(loops, c); }
    case Ident(v, _) =>
      var j := JumpTo(c, dest);
      LaterRefl(j.c);
      TidyRefl(loops, j.c);
      TestTidy(loops, c, dest, Gen(j.c, VarArg(v)), jumpIfTrue);
    case CallExpr(_, _, _) => CallTestTidy(loops, c, e, dest, jumpIfTrue);
  }

  lemma TestTidy(loops: set<BlockId>, c: Code, dest: BlockId, a: Gen<Arg>, jumpIfTrue: bool)
    requires Ready(c) && Allowed(loops, c, dest)
    requires var j := JumpTo(c, dest); Advances(j.c, a.c) && Tidy(loops, j.c, a.c)
    ensures Tidy(loops, c, GenTest(c, JumpTo(c, dest), a, jumpIfTrue))
  {
    var j := JumpTo(c, dest);
    var z := GenConst(a.c, IntArg(0));
    ConstTidy(loops, a.c, IntArg(0));
    TidyTrans(loops, j.c, a.c, z.c);
    AdvancesThen(j.c, a.c, z.c);
    EndJumpTidy(loops, c, z.c, Quad(IfOp(CmpNeq, jumpIfTrue), LabelArg(j.a), a.a, z.a), dest);
  }

  lemma CallTestTidy(loops: set<BlockId>, c: Code, e: Expr, dest: BlockId, jumpIfTrue: bool)
    requires e.CallExpr? && Ready(c) && Typed(e, c.nextVar) && HasBoolType(e) && Allowed(loops, c, dest)
    ensures Tidy(loops, c, GenBool(c, e, dest, jumpIfTrue))
    decreases e, 1
  {
    var j := JumpTo(c, dest);
    TypedArgsMono(e.args, c.nextVar, j.c.nextVar);
    CallTidy(loops, j.c, e.f, e.args, e.ty);
    TestTidy(loops, c, dest, GenCall(j.c, e.f, e.args, e.ty), jumpIfTrue);
  }

  lemma CmpTidy(loops: set<BlockId>, c: Code, e: Expr, dest: BlockId, jumpIfTrue: bool)
    requires e.Cmp? && Ready(c) && Typed(e, c.nextVar) && Allowed(loops, c, dest)
    ensures Tidy(loops, c, GenBool(c, e, dest, jumpIfTrue))
    decreases e, 1
  {
    var j := JumpTo(c, dest);
    TypedMono(e, c.nextVar, j.c.nextVar);
    var a := GenExpr(j.c, e.left);
    TypedMono(e.right, c.nextVar, a.c.nextVar);
    var b := GenExpr(a.c, e.right);
    PairTidy(loops, j.c, e);
    AdvancesThen(j.c, a.c, b.c);
    EndJumpTidy(loops, c, b.c, Quad(IfOp(e.cop, jumpIfTrue), LabelArg(j.a), a.a, b.a), dest);
  }

  lemma BothTidy(loops: set<BlockId>, c: Code, e: Expr, dest: BlockId, jump: bool)
    requires (e.And? || e.Or?) && Ready(c) && Typed(e, c.nextVar) && Allowed(loops, c, dest)
    ensures Tidy(loops, c, GenBoth(c, e, dest, jump))
    decreases e, 0
  {
    var c1 := GenBool(c, e.left, dest, jump);
    TypedMono(e.right, c.nextVar, c1.nextVar);
    AllowedStays(loops, c, c1, dest);
    BoolTidy(loops, c, e.left, dest, jump);
    BoolTidy(loops, c1, e.right, dest, jump);
    TidyTrans(loops, c, c1, GenBoth(c, e, dest, jump));
  }

  lemma AroundTidy(loops: set<BlockId>, c: Code, e: Expr, dest: BlockId, jump: bool)
    requires (e.And? || e.Or?) && Ready(c) && Typed(e, c.nextVar) && Allowed(loops, c, dest)
    ensures Tidy(loops, c, GenAround(c, e, dest, jump))
    decreases e, 1
  {
    var end := FreshLabel(c);
    AllowedStays(loops, c, end.c, dest);
    TypedMono(e, c.nextVar, end.c.nextVar);
    var c1 := GenBoth(end.c, e, end.a, jump);
    AllowedStays(loops, end.c, c1, dest);
    var c2 := GenGoto(c1, dest);
    LabelsKept(end.c, c1, {}, end.a);
    LabelsKept(c1, c2, {}, end.a);
    NewBlockTidy(loops, c);
    BothTidy(loops, end.c, e, end.a, jump);
    GotoTidy(loops, c1, dest);
    PlaceTidy(loops, c2, end.a);
    TidyTrans(loops, c, end.c, c1);
    TidyTrans(loops, c, c1, c2);
    TidyTrans(loops, c, c2, GenAround(c, e, dest, jump));
  }

  /** A function starts without jumps. */
  lemma StartSole(c: Code)
    requires WF(c) && c.placed == {} && forall b :: b in c.blocks ==> c.blocks[b].quads == []
    ensures Sole({}, c)
  {
    forall b ensures Untargeted(c, b) && AtMostOnce(c, b) {
      forall p, i: nat ensures !Site(c, p, i, b) {}
    }
  }
}
