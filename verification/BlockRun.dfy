/**
  Running linked basic blocks, and what the primitive operations of code generation do to
  a run of the finished code.
  */
module BlockRun {
  import opened Quadr
  import opened Blocks

  datatype Config = At(p: Point, s: State)

  /** One step: a quadruple, a jump, or falling through to the next block. */
  ghost function Step(m: Machine, blocks: map<BlockId, Block>, c: Config): Option<Config> {
    if c.p.block !in blocks then None
    else
      var b := blocks[c.p.block];
      if c.p.index < |b.quads| then
        var q := b.quads[c.p.index];
        if q.op.Return? || ((q.op.Goto? || IsIfOp(q.op)) && !q.result.LabelArg?) then None
        else if q.op.Goto? || (IsIfOp(q.op) && Taken(m, q.op, Eval(q.arg1, c.s.env), Eval(q.arg2, c.s.env))) then
          Some(At(Point(q.result.block, 0), c.s))
        else if IsIfOp(q.op) then Some(At(Point(c.p.block, c.p.index + 1), c.s))
        else Some(At(Point(c.p.block, c.p.index + 1), Exec(m, q, c.s)))
      else if c.p.index == |b.quads| && b.next.Some? then Some(At(Point(b.next.value, 0), c.s))
      else None
  }

  ghost predicate Steps(m: Machine, blocks: map<BlockId, Block>, c: Config, n: nat, c': Config)
    decreases n
  {
    if n == 0 then c == c'
    else Step(m, blocks, c).Some? && Steps(m, blocks, Step(m, blocks, c).value, n - 1, c')
  }

  ghost predicate Reaches(m: Machine, blocks: map<BlockId, Block>, c: Config, c': Config) {
    exists n: nat :: Steps(m, blocks, c, n, c')
  }

  lemma ReachRefl(m: Machine, blocks: map<BlockId, Block>, c: Config)
    ensures Reaches(m, blocks, c, c)
  {
    assert Steps(m, blocks, c, 0, c);
  }

  lemma ReachStep(m: Machine, blocks: map<BlockId, Block>, c: Config, c': Config)
    requires Step(m, blocks, c) == Some(c')
    ensures Reaches(m, blocks, c, c')
  {
    assert Steps(m, blocks, c', 0, c');
    assert Steps(m, blocks, c, 1, c');
  }

  lemma {:induction false} StepsTrans(m: Machine, blocks: map<BlockId, Block>,
                                      c: Config, n: nat, c': Config, n': nat, c'': Config)
    requires Steps(m, blocks, c, n, c') && Steps(m, blocks, c', n', c'')
    ensures Steps(m, blocks, c, n + n', c'')
    decreases n
  {
    if n > 0 {
      StepsTrans(m, blocks, Step(m, blocks, c).value, n - 1, c', n', c'');
    }
  }

  lemma ReachTrans(m: Machine, blocks: map<BlockId, Block>, c: Config, c': Config, c'': Config)
    requires Reaches(m, blocks, c, c') && Reaches(m, blocks, c', c'')
    ensures Reaches(m, blocks, c, c'')
  {
    var n: nat :| Steps(m, blocks, c, n, c');
    var n': nat :| Steps(m, blocks, c', n', c'');
    StepsTrans(m, blocks, c, n, c', n', c'');
  }

  /** `f` is a later state of `c`; its blocks are run. */
  ghost predicate Final(c: Code, f: Code) { WF(c) && WF(f) && Extends(c, f) }

  ghost function HereAt(c: Code, f: Code, s: State): Config
    requires Final(c, f)
  {
    At(Here(c, f), s)
  }

  // ---------- quadruples ----------

  /** A quadruple just added is the next to be run. */
  lemma QuadStep(m: Machine, c: Code, q: Quad, f: Code, s: State)
    requires WF(c) && Final(AddQuad(c, q), f)
    ensures Final(c, f)
    ensures !EndsBlock(q.op) ==> Reaches(m, f.blocks, HereAt(c, f, s), HereAt(AddQuad(c, q), f, Exec(m, q, s)))
    ensures (q.op.Goto? || (IsIfOp(q.op) && Taken(m, q.op, Eval(q.arg1, s.env), Eval(q.arg2, s.env)))) && q.result.LabelArg? ==>
              Reaches(m, f.blocks, HereAt(c, f, s), At(Point(q.result.block, 0), s))
    ensures IsIfOp(q.op) && !Taken(m, q.op, Eval(q.arg1, s.env), Eval(q.arg2, s.env)) && q.result.LabelArg? ==>
              Reaches(m, f.blocks, HereAt(c, f, s), HereAt(AddQuad(c, q), f, s))
  {
    var c' := AddQuad(c, q);
    AddQuadLater(c, q);
    ExtendsTrans(c, c', f);
    var qs := c'.blocks[c.cur].quads;
    assert qs[|qs| - 1] == q;
    assert CurKept(c', f);
    assert f.blocks[c.cur].quads[|qs| - 1] == q;
    var start := HereAt(c, f, s);
    var next := Step(m, f.blocks, start);
    if next.Some? {
      ReachStep(m, f.blocks, start, next.value);
    }
  }

  // ---------- falling through ----------

  ghost predicate FallsThrough(c: Code)
    requires c.cur in c.blocks
  {
    var qs := c.blocks[c.cur].quads;
    qs == [] || !(qs[|qs| - 1].op.Goto? || qs[|qs| - 1].op.Return?)
  }

  /** The end of the last block before an empty current block leads to the current point. */
  lemma EnterHere(m: Machine, c: Code, f: Code, s: State)
    requires Final(c, f) && c.prev.Some? && c.blocks[c.cur].quads == [] && c.prev.value in c.blocks
    ensures Reaches(m, f.blocks, At(Point(c.prev.value, |c.blocks[c.prev.value].quads|), s), HereAt(c, f, s))
  {
    var p := c.prev.value;
    assert PlacedOk(c, p) && KeptAt(c, f, p) && PlacedOk(f, p);
    ReachStep(m, f.blocks, At(Point(p, |c.blocks[p].quads|), s), At(Point(f.blocks[p].next.value, 0), s));
  }

  /** From any block of a chain that has been placed, control falls to the end of the chain. */
  lemma {:induction false} ChainDown(m: Machine, c: Code, x: BlockId, f: Code, i: nat, s: State)
    requires WF(c) && x in c.chains && Final(Append(c, x), f) && i + 1 < |c.chains[x]|
    ensures Reaches(m, f.blocks, At(Point(c.chains[x][i], 0), s), HereAt(Append(c, x), f, s))
    decreases |c.chains[x]| - i
  {
    var c', ch := Append(c, x), c.chains[x];
    assert Waiting(c, ch, i) && Waiting(c, ch, |ch| - 1);
    assert ch[i] in c'.placed;
    assert PlacedOk(c', ch[i]) && KeptAt(c', f, ch[i]);
    if i + 2 == |ch| {
      EnterHere(m, c', f, s);
    } else {
      assert Waiting(c, ch, i + 1);
      var start := At(Point(ch[i], 0), s);
      ReachStep(m, f.blocks, start, At(Point(ch[i + 1], 0), s));
      ChainDown(m, c, x, f, i + 1, s);
      ReachTrans(m, f.blocks, start, At(Point(ch[i + 1], 0), s), HereAt(c', f, s));
    }
  }

  /** A jump to a marked block of the chain arrives where the code of the label begins. */
  lemma AppendLands(m: Machine, c: Code, x: BlockId, f: Code, d: BlockId, s: State)
    requires WF(c) && x in c.chains && Final(Append(c, x), f) && IsTarget(c, x, d)
    ensures Reaches(m, f.blocks, At(Point(d, 0), s), HereAt(Append(c, x), f, s))
  {
    var ch := c.chains[x];
    var i :| 0 <= i < |ch| && ch[i] == d;
    assert Waiting(c, ch, i) && Waiting(c, ch, |ch| - 1);
    if i + 1 < |ch| {
      ChainDown(m, c, x, f, i, s);
    } else {
      ReachRefl(m, f.blocks, At(Point(d, 0), s));
    }
  }

  lemma AppendFalls(m: Machine, c: Code, x: BlockId, f: Code, s: State)
    requires WF(c) && x in c.chains && Final(Append(c, x), f) && FallsThrough(c)
    ensures Final(c, f)
    ensures Reaches(m, f.blocks, HereAt(c, f, s), HereAt(Append(c, x), f, s))
  {
    var c', ch := Append(c, x), c.chains[x];
    AppendLater(c, x);
    ExtendsTrans(c, c', f);
    assert Waiting(c, ch, 0) && Waiting(c, ch, |ch| - 1);
    var start, end := HereAt(c, f, s), HereAt(c', f, s);
    if KeepsCur(c) {
      assert PlacedOk(c', c.cur) && KeptAt(c', f, c.cur);
      if |ch| == 1 {
        EnterHere(m, c', f, s);
      } else {
        ReachStep(m, f.blocks, start, At(Point(ch[0], 0), s));
        ChainDown(m, c, x, f, 0, s);
        ReachTrans(m, f.blocks, start, At(Point(ch[0], 0), s), end);
      }
    } else {
      var p := c.prev.value;
      assert PlacedOk(c, p) && PlacedOk(c', p) && KeptAt(c', f, p) && PlacedOk(f, p);
      assert c.cur !in f.blocks;
      if |ch| == 1 {
        ReachRefl(m, f.blocks, start);
      } else {
        ChainDown(m, c, x, f, 0, s);
      }
    }
  }

  lemma WithDummyHere(c: Code, x: BlockId, f: Code)
    requires WF(c) && x in c.chains && Final(WithDummy(c, x), f)
    ensures Final(c, f) && Here(c, f) == Here(WithDummy(c, x), f)
  {
    WithDummyLater(c, x);
    ExtendsTrans(c, WithDummy(c, x), f);
  }

  /** Placing blocks behind code that falls through is not noticed by a run. */
  lemma AddBlocksFalls(m: Machine, c: Code, x: BlockId, f: Code, s: State)
    requires WF(c) && x in c.chains && Final(AddBlocks(c, x), f) && FallsThrough(c)
    ensures Final(c, f)
    ensures Reaches(m, f.blocks, HereAt(c, f, s), HereAt(AddBlocks(c, x), f, s))
  {
    if EndsInIf(c) {
      DummyFalls(m, c, x, f, s);
    } else {
      AppendFalls(m, c, x, f, s);
    }
  }

  lemma DummyFalls(m: Machine, c: Code, x: BlockId, f: Code, s: State)
    requires WF(c) && x in c.chains && EndsInIf(c) && Final(AddBlocks(c, x), f)
    ensures Final(c, f)
    ensures Reaches(m, f.blocks, HereAt(c, f, s), HereAt(AddBlocks(c, x), f, s))
  {
    var d := WithDummy(c, x);
    WithDummyWF(c, x);
    DummyOpen(c, x);
    AppendFalls(m, d, c.nextId, f, s);
    WithDummyHere(c, x, f);
  }

  lemma DummyOpen(c: Code, x: BlockId)
    requires WF(c) && x in c.chains && EndsInIf(c)
    ensures var d := WithDummy(c, x); d.cur in d.blocks && FallsThrough(d)
  {
    assert c.cur != c.nextId && WithDummy(c, x).blocks[c.cur] == c.blocks[c.cur];
  }

  /** Jumps to a label arrive where its code is placed. */
  lemma AddBlocksLands(m: Machine, c: Code, x: BlockId, f: Code, d: BlockId, s: State)
    requires WF(c) && x in c.chains && Final(AddBlocks(c, x), f) && IsTarget(c, x, d)
    ensures Reaches(m, f.blocks, At(Point(d, 0), s), HereAt(AddBlocks(c, x), f, s))
  {
    if EndsInIf(c) {
      WithDummyWF(c, x);
      ChainMembers(c, c.chains[x]);
      AppendLands(m, WithDummy(c, x), c.nextId, f, d, s);
    } else {
      AppendLands(m, c, x, f, d, s);
    }
  }
}
