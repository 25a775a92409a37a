/**
  Basic blocks under construction: what the generator's globals hold, the primitive
  operations on them, and how a state relates to the states that code generation can
  still reach from it.
  */
module Blocks {
  import opened Quadr

  /** `referenced`: the block is the target of a forward jump. */
  datatype Block = Block(quads: seq<Quad>, next: Option<BlockId>, referenced: bool)

  /**
    `placed` are the blocks of the function's list before the current one, and `chains`
    maps each label that is not placed yet to the run of empty blocks that starts there.
    Both are bookkeeping of the model; the source has them in its `next` links.
    */
  datatype Code = Code(
    blocks: map<BlockId, Block>,
    cur: BlockId,
    prev: Option<BlockId>,
    nextId: BlockId,
    nextVar: Var,
    placed: set<BlockId>,
    chains: map<BlockId, seq<BlockId>>)

  predicate EndsBlock(op: Op) {
    op.Return? || op.Goto? || IsIfOp(op)
  }

  // ---------- the invariant ----------

  /** The `i`-th block of a chain waits to be placed. */
  ghost predicate Waiting(c: Code, ch: seq<BlockId>, i: nat)
    requires i < |ch|
  {
    var b := ch[i];
    && b in c.blocks && b !in c.placed && b != c.cur && c.blocks[b].quads == []
    && c.blocks[b].next == if i + 1 < |ch| then Some(ch[i + 1]) else None
  }

  ghost predicate IsChain(c: Code, ch: seq<BlockId>) {
    && ch != []
    && (forall i :: 0 <= i < |ch| ==> Waiting(c, ch, i))
    && (forall i, j :: 0 <= i < j < |ch| ==> ch[i] != ch[j])
  }

  ghost predicate Apart(a: seq<BlockId>, b: seq<BlockId>) {
    forall x :: x in a ==> x !in b
  }

  ghost predicate ChainsOk(c: Code) {
    && (forall x :: x in c.chains ==> IsChain(c, c.chains[x]) && c.chains[x][0] == x)
    && (forall x, y :: x in c.chains && y in c.chains && x != y ==> Apart(c.chains[x], c.chains[y]))
  }

  ghost predicate PlacedOk(c: Code, b: BlockId) {
    && b in c.blocks && c.blocks[b].next.Some?
    && (c.blocks[b].next.value == c.cur <==> c.prev == Some(b))
    && (c.blocks[b].next.value == c.cur || c.blocks[b].next.value in c.placed)
  }

  ghost predicate ListOk(c: Code) {
    && c.cur in c.blocks && c.cur !in c.placed && c.blocks[c.cur].next == None
    && (forall b :: b in c.blocks ==> b < c.nextId)
    && (forall b :: b in c.placed ==> PlacedOk(c, b))
    && (c.prev.Some? ==> c.prev.value in c.placed)
  }

  ghost predicate WF(c: Code) { ListOk(c) && ChainsOk(c) }

  /** A quadruple can be added to the current block. */
  ghost predicate Open(c: Code) {
    c.cur in c.blocks &&
    var qs := c.blocks[c.cur].quads;
    qs == [] || !EndsBlock(qs[|qs| - 1].op)
  }

  // ---------- primitive operations ----------

  ghost function NewBlock(c: Code): Code {
    c.(blocks := c.blocks[c.nextId := Block([], None, false)],
       chains := c.chains[c.nextId := [c.nextId]],
       nextId := c.nextId + 1)
  }

  ghost function NewVar(c: Code): Code { c.(nextVar := c.nextVar + 1) }

  ghost function AddQuad(c: Code, q: Quad): Code
    requires c.cur in c.blocks
  {
    var b := c.blocks[c.cur];
    c.(blocks := c.blocks[c.cur := Block(b.quads + [q], b.next, b.referenced)])
  }

  /** quadr_arg_label: an empty label that is referenced already gets another block of its own. */
  ghost function RefLabel(c: Code, x: BlockId): Code
    requires x in c.blocks && (c.blocks[x].quads == [] ==> x in c.chains && c.chains[x] != [])
  {
    var b := c.blocks[x];
    if b.quads != [] then c
    else if b.referenced then
      c.(blocks := c.blocks[x := Block([], Some(c.nextId), true)][c.nextId := Block([], b.next, true)],
         chains := c.chains[x := [x, c.nextId] + c.chains[x][1..]],
         nextId := c.nextId + 1)
    else c.(blocks := c.blocks[x := Block([], b.next, true)])
  }

  ghost function LabelOf(c: Code, x: BlockId): BlockId
    requires x in c.blocks
  {
    if c.blocks[x].quads == [] && c.blocks[x].referenced then c.nextId else x
  }

  ghost predicate EndsInIf(c: Code)
    requires c.cur in c.blocks
  {
    var qs := c.blocks[c.cur].quads;
    qs != [] && IsIfOp(qs[|qs| - 1].op)
  }

  /** A block of its own for the fall-through edge of a conditional jump. */
  ghost function WithDummy(c: Code, x: BlockId): Code
    requires x in c.chains
  {
    c.(blocks := c.blocks[c.nextId := Block([], Some(x), true)],
       chains := (c.chains - {x})[c.nextId := [c.nextId] + c.chains[x]],
       nextId := c.nextId + 1)
  }

  ghost predicate KeepsCur(c: Code)
    requires c.cur in c.blocks
  {
    c.prev.None? || c.blocks[c.cur].quads != [] || c.blocks[c.cur].referenced
  }

  ghost function AllButLast(ch: seq<BlockId>): set<BlockId> { set i | 0 <= i < |ch| - 1 :: ch[i] }

  /** Append the chain of `x` behind the current block, or in its place if it is empty and unreferenced. */
  ghost function Append(c: Code, x: BlockId): Code
    requires c.cur in c.blocks && x in c.chains && c.chains[x] != []
    requires c.prev.Some? ==> c.prev.value in c.blocks
  {
    var ch := c.chains[x];
    var keep := KeepsCur(c);
    var from := if keep then c.cur else c.prev.value;
    var b := c.blocks[from];
    var blocks := if keep then c.blocks else c.blocks - {c.cur};
    Code(blocks[from := Block(b.quads, Some(x), b.referenced)],
         ch[|ch| - 1],
         Some(if |ch| > 1 then ch[|ch| - 2] else from),
         c.nextId, c.nextVar,
         c.placed + (if keep then {c.cur} else {}) + AllButLast(ch),
         c.chains - {x})
  }

  /** add_basic_blocks */
  ghost function AddBlocks(c: Code, x: BlockId): Code
    requires WF(c) && x in c.chains
  {
    if EndsInIf(c) then Append(WithDummy(c, x), c.nextId) else Append(c, x)
  }

  // ---------- the invariant is kept ----------

  /** A chain is not affected by changes elsewhere. */
  lemma ChainFrame(c: Code, c': Code, ch: seq<BlockId>)
    requires IsChain(c, ch)
    requires forall b :: b in ch && b in c.blocks ==>
      && b in c'.blocks && c'.blocks[b].quads == c.blocks[b].quads && c'.blocks[b].next == c.blocks[b].next
      && (b in c.placed || b !in c'.placed) && (b == c.cur || b != c'.cur)
    ensures IsChain(c', ch)
  {
    forall i | 0 <= i < |ch| ensures Waiting(c', ch, i) {
      assert Waiting(c, ch, i) && ch[i] in ch;
    }
  }

  /** What is known of the blocks of a chain. */
  lemma ChainMembers(c: Code, ch: seq<BlockId>)
    requires IsChain(c, ch)
    ensures forall b :: b in ch ==> b in c.blocks && b !in c.placed && b != c.cur && c.blocks[b].quads == []
  {
    forall b | b in ch ensures b in c.blocks && b !in c.placed && b != c.cur && c.blocks[b].quads == [] {
      var i :| 0 <= i < |ch| && ch[i] == b;
      assert Waiting(c, ch, i);
    }
  }

  lemma ChainHeads(c: Code)
    requires WF(c)
    ensures forall x :: x in c.chains ==> x in c.blocks && x < c.nextId && c.blocks[x].quads == []
    ensures c.nextId !in c.chains
  {
    forall x | x in c.chains ensures x in c.blocks && x < c.nextId && c.blocks[x].quads == [] {
      assert Waiting(c, c.chains[x], 0);
    }
  }

  lemma NewBlockWF(c: Code)
    requires WF(c)
    ensures WF(NewBlock(c)) && Open(c) == Open(NewBlock(c))
  {
    var c' := NewBlock(c);
    forall b | b in c'.placed ensures PlacedOk(c', b) {
      assert PlacedOk(c, b);
    }
    forall x | x in c.chains
      ensures IsChain(c', c.chains[x]) && Apart(c.chains[x], [c.nextId]) && Apart([c.nextId], c.chains[x])
    {
      ChainMembers(c, c.chains[x]);
      ChainFrame(c, c', c.chains[x]);
    }
    assert Waiting(c', [c.nextId], 0);
  }

  lemma AddQuadWF(c: Code, q: Quad)
    requires WF(c)
    ensures WF(AddQuad(c, q))
  {
    var c' := AddQuad(c, q);
    forall b | b in c'.placed ensures PlacedOk(c', b) {
      assert PlacedOk(c, b);
    }
    forall x | x in c.chains ensures IsChain(c', c.chains[x]) {
      ChainMembers(c, c.chains[x]);
      ChainFrame(c, c', c.chains[x]);
    }
  }

  lemma RefLabelWF(c: Code, x: BlockId)
    requires WF(c) && x in c.blocks && (c.blocks[x].quads == [] ==> x in c.chains)
    ensures WF(RefLabel(c, x))
    ensures Open(c) == Open(RefLabel(c, x))
  {
    if c.blocks[x].quads == [] {
      RefLabelList(c, x);
      RefLabelChains(c, x);
    }
  }

  lemma RefLabelList(c: Code, x: BlockId)
    requires WF(c) && x in c.chains && x in c.blocks && c.blocks[x].quads == []
    ensures ListOk(RefLabel(c, x)) && RefLabel(c, x).blocks[c.cur] == c.blocks[c.cur]
  {
    var c', ch := RefLabel(c, x), c.chains[x];
    ChainMembers(c, ch);
    assert ch[0] in ch;
    forall b | b in c'.placed ensures PlacedOk(c', b) {
      assert PlacedOk(c, b);
    }
  }

  lemma RefLabelChains(c: Code, x: BlockId)
    requires WF(c) && x in c.chains && x in c.blocks && c.blocks[x].quads == []
    ensures ChainsOk(RefLabel(c, x))
  {
    var c', ch := RefLabel(c, x), c.chains[x];
    ChainMembers(c, ch);
    forall y | y in c.chains && y != x
      ensures IsChain(c', c.chains[y]) && Apart(c'.chains[x], c.chains[y]) && Apart(c.chains[y], c'.chains[x])
    {
      ChainMembers(c, c.chains[y]);
      assert Apart(ch, c.chains[y]);
      ChainFrame(c, c', c.chains[y]);
    }
    RefLabelChain(c, x);
  }

  lemma RefLabelChain(c: Code, x: BlockId)
    requires WF(c) && x in c.chains && x in c.blocks && c.blocks[x].quads == []
    ensures IsChain(RefLabel(c, x), RefLabel(c, x).chains[x])
  {
    var c', ch := RefLabel(c, x), c.chains[x];
    var ch' := c'.chains[x];
    ChainMembers(c, ch);
    forall i | 0 <= i < |ch'| ensures Waiting(c', ch', i) {
      if c.blocks[x].referenced {
        if i >= 2 {
          assert ch'[i] == ch[i - 1];
          assert Waiting(c, ch, i - 1);
        } else {
          assert Waiting(c, ch, 0);
        }
      } else {
        assert Waiting(c, ch, i);
      }
    }
    if c.blocks[x].referenced {
      forall i, j | 0 <= i < j < |ch'| ensures ch'[i] != ch'[j] {
        if j >= 2 { assert ch'[j] == ch[j - 1] && ch[j - 1] in ch; }
        if i >= 2 { assert ch'[i] == ch[i - 1]; }
      }
    }
  }

  lemma WithDummyWF(c: Code, x: BlockId)
    requires WF(c) && x in c.chains
    ensures WF(WithDummy(c, x)) && c.nextId in WithDummy(c, x).chains
  {
    var c', ch := WithDummy(c, x), c.chains[x];
    forall b | b in c'.placed ensures PlacedOk(c', b) {
      assert PlacedOk(c, b);
    }
    ChainMembers(c, ch);
    WithDummyChain(c, x);
    WithDummyOthers(c, x);
  }

  lemma WithDummyOthers(c: Code, x: BlockId)
    requires WF(c) && x in c.chains
    ensures var c' := WithDummy(c, x);
            forall y :: y in c'.chains && y != c.nextId ==>
              && y in c.chains && c'.chains[y] == c.chains[y] && IsChain(c', c.chains[y])
              && Apart([c.nextId] + c.chains[x], c.chains[y]) && Apart(c.chains[y], [c.nextId] + c.chains[x])
  {
    var c', ch := WithDummy(c, x), c.chains[x];
    var ch' := [c.nextId] + ch;
    forall y | y in c'.chains && y != c.nextId
      ensures IsChain(c', c.chains[y]) && Apart(ch', c.chains[y]) && Apart(c.chains[y], ch')
    {
      ChainMembers(c, c.chains[y]);
      assert Apart(ch, c.chains[y]);
      ChainFrame(c, c', c.chains[y]);
    }
  }

  lemma WithDummyChain(c: Code, x: BlockId)
    requires WF(c) && x in c.chains
    ensures IsChain(WithDummy(c, x), [c.nextId] + c.chains[x])
  {
    var c', ch := WithDummy(c, x), c.chains[x];
    var ch' := [c.nextId] + ch;
    ChainMembers(c, ch);
    forall i | 0 <= i < |ch'| ensures Waiting(c', ch', i) {
      if i > 0 {
        assert Waiting(c, ch, i - 1) && ch[i - 1] in ch;
      }
    }
    forall i, j | 0 <= i < j < |ch'| ensures ch'[i] != ch'[j] {
      assert ch'[j] == ch[j - 1] && ch[j - 1] in ch;
      if i > 0 { assert ch'[i] == ch[i - 1]; }
    }
  }

  lemma AppendWF(c: Code, x: BlockId)
    requires WF(c) && x in c.chains
    ensures WF(Append(c, x)) && Open(Append(c, x))
  {
    var c', ch := Append(c, x), c.chains[x];
    ChainMembers(c, ch);
    forall i | 0 <= i < |ch| ensures ch[i] in ch {}
    assert Waiting(c, ch, |ch| - 1);
    forall y | y in c'.chains ensures IsChain(c', c'.chains[y]) {
      ChainMembers(c, c.chains[y]);
      assert Apart(ch, c.chains[y]);
      ChainFrame(c, c', c.chains[y]);
    }
    forall b | b in c'.placed ensures PlacedOk(c', b) {
      if b in c.placed {
        assert PlacedOk(c, b);
      } else if b in ch {
        var i :| 0 <= i < |ch| && ch[i] == b;
        assert Waiting(c, ch, i);
      }
    }
  }

  // ---------- states that come later ----------

  /** A block of the list keeps its quadruples; only the last link before the current block can still change. */
  ghost predicate KeptAt(c: Code, c': Code, b: BlockId)
    requires b in c.blocks
  {
    && b in c'.placed && b in c'.blocks && c'.blocks[b].quads == c.blocks[b].quads
    && (c.blocks[b].referenced ==> c'.blocks[b].referenced)
    && (c.prev != Some(b) ==> c'.blocks[b].next == c.blocks[b].next)
  }

  ghost predicate CurKept(c: Code, c': Code)
    requires c.cur in c.blocks
  {
    && c.cur in c'.blocks && c.blocks[c.cur].quads <= c'.blocks[c.cur].quads
    && (c.blocks[c.cur].referenced ==> c'.blocks[c.cur].referenced)
    && (if c.cur == c'.cur then c.prev == c'.prev else c.cur in c'.placed)
    && (c.prev.Some? && c.prev.value in c'.blocks ==> c'.blocks[c.prev.value].next == Some(c.cur))
  }

  ghost predicate CurDropped(c: Code, c': Code)
    requires c.cur in c.blocks
  {
    !KeepsCur(c) && c.cur !in c'.blocks
  }

  /** Code generation can lead from `c` to `c'`. */
  ghost predicate Extends(c: Code, c': Code)
    requires ListOk(c) && ListOk(c')
  {
    && (forall b :: b in c.placed ==> PlacedOk(c, b) && KeptAt(c, c', b))
    && (CurKept(c, c') || CurDropped(c, c'))
    && c.nextId <= c'.nextId && c.nextVar <= c'.nextVar
    && (forall b :: b in c'.blocks && b < c.nextId ==> b in c.blocks)
  }

  /** Where the current point of `c` is found in a later state. */
  datatype Point = Point(block: BlockId, index: nat)

  ghost function Here(c: Code, c': Code): Point
    requires ListOk(c) && ListOk(c') && Extends(c, c')
  {
    if c.cur in c'.blocks then Point(c.cur, |c.blocks[c.cur].quads|)
    else
      assert PlacedOk(c', c.prev.value);
      Point(c'.blocks[c.prev.value].next.value, 0)
  }

  lemma ExtendsRefl(c: Code)
    requires ListOk(c)
    ensures Extends(c, c)
  {
    forall b | b in c.placed ensures PlacedOk(c, b) && KeptAt(c, c, b) {
      assert PlacedOk(c, b);
    }
    if c.prev.Some? { assert PlacedOk(c, c.prev.value); }
  }

  lemma ExtendsTrans(c1: Code, c2: Code, c3: Code)
    requires ListOk(c1) && ListOk(c2) && ListOk(c3)
    requires Extends(c1, c2) && Extends(c2, c3)
    ensures Extends(c1, c3)
  {
    forall b | b in c1.placed ensures PlacedOk(c1, b) && KeptAt(c1, c3, b) {
      assert PlacedOk(c1, b) && KeptAt(c1, c2, b) && PlacedOk(c2, b) && KeptAt(c2, c3, b);
      if c1.prev != Some(b) {
        var n := c1.blocks[b].next.value;
        assert n in c1.placed && KeptAt(c1, c2, n);
      }
    }
    if CurDropped(c1, c2) {
      assert CurDropped(c1, c3);
    } else if c1.cur == c2.cur {
      assert CurKept(c1, c3) || CurDropped(c1, c3);
    } else {
      assert PlacedOk(c2, c1.cur) && KeptAt(c2, c3, c1.cur);
      if c1.prev.Some? {
        var p := c1.prev.value;
        assert PlacedOk(c1, p) && KeptAt(c1, c2, p) && PlacedOk(c2, p) && KeptAt(c2, c3, p);
      }
      assert CurKept(c1, c3);
    }
  }

  // ---------- labels of later states ----------

  /** Labels other than those in `gone` keep their places in chains, and marks stay. */
  ghost predicate Grows(c: Code, c': Code, gone: set<BlockId>) {
    && (forall x :: x in c.chains && x !in gone ==> x in c'.chains && forall b :: b in c.chains[x] ==> b in c'.chains[x])
    && (forall b :: b in c.blocks && b in c'.blocks && c.blocks[b].referenced ==> c'.blocks[b].referenced)
  }

  ghost predicate Later(c: Code, c': Code, gone: set<BlockId>) {
    WF(c) && WF(c') && Extends(c, c') && Grows(c, c', gone)
  }

  lemma LaterRefl(c: Code)
    requires WF(c)
    ensures Later(c, c, {})
  {
    ExtendsRefl(c);
  }

  lemma LaterTrans(c1: Code, c2: Code, c3: Code, gone1: set<BlockId>, gone2: set<BlockId>)
    requires Later(c1, c2, gone1) && Later(c2, c3, gone2)
    ensures Later(c1, c3, gone1 + gone2)
  {
    ExtendsTrans(c1, c2, c3);
    forall b | b in c1.blocks && b in c3.blocks && c1.blocks[b].referenced ensures c3.blocks[b].referenced {
      assert b < c1.nextId && b < c2.nextId;
      assert b in c2.blocks;
    }
  }

  /** Labels made after `c` do not matter to `c`. */
  lemma LaterLocal(c: Code, c': Code, gone: set<BlockId>, rest: set<BlockId>)
    requires Later(c, c', gone) && forall x :: x in gone && x !in rest ==> x !in c.chains
    ensures Later(c, c', rest)
  {}

  lemma NewBlockLater(c: Code)
    requires WF(c)
    ensures Later(c, NewBlock(c), {})
    ensures Open(c) == Open(NewBlock(c)) && c.nextId !in c.chains
  {
    NewBlockWF(c);
    KeepsLater(c, NewBlock(c));
    ChainHeads(c);
  }

  /** Operations that leave the list and the current block alone. */
  lemma KeepsLater(c: Code, c': Code)
    requires WF(c) && WF(c') && c'.cur == c.cur && c'.prev == c.prev && c'.placed == c.placed
    requires c.nextId <= c'.nextId && c.nextVar <= c'.nextVar
    requires forall b :: b in c.blocks ==> b in c'.blocks && (c.blocks[b].referenced ==> c'.blocks[b].referenced)
    requires forall b :: b in c'.blocks && b < c.nextId ==> b in c.blocks
    requires forall b :: b in c.placed && b in c.blocks && b in c'.blocks ==>
               c'.blocks[b].next == c.blocks[b].next && c'.blocks[b].quads == c.blocks[b].quads
    requires c.cur in c.blocks && c'.cur in c'.blocks && c.blocks[c.cur].quads <= c'.blocks[c.cur].quads
    ensures Extends(c, c')
  {
    forall b | b in c.placed ensures PlacedOk(c, b) && KeptAt(c, c', b) {
      assert PlacedOk(c, b) && PlacedOk(c', b);
    }
    if c.prev.Some? { assert PlacedOk(c, c.prev.value); }
    assert CurKept(c, c');
  }

  lemma NewVarLater(c: Code)
    requires WF(c)
    ensures Later(c, NewVar(c), {}) && Open(c) == Open(NewVar(c))
  {
    var c' := NewVar(c);
    forall b | b in c'.placed ensures PlacedOk(c', b) { assert PlacedOk(c, b); }
    forall x | x in c'.chains ensures IsChain(c', c'.chains[x]) {
      ChainMembers(c, c.chains[x]);
      ChainFrame(c, c', c.chains[x]);
    }
    KeepsLater(c, c');
  }

  lemma AddQuadLater(c: Code, q: Quad)
    requires WF(c)
    ensures Later(c, AddQuad(c, q), {})
    ensures !EndsBlock(q.op) ==> Open(AddQuad(c, q))
  {
    AddQuadWF(c, q);
    KeepsLater(c, AddQuad(c, q));
  }

  lemma RefLabelLater(c: Code, x: BlockId)
    requires WF(c) && IsLabel(c, x)
    ensures Later(c, RefLabel(c, x), {}) && Open(c) == Open(RefLabel(c, x))
    ensures IsLabel(RefLabel(c, x), x) && IsTarget(RefLabel(c, x), x, LabelOf(c, x))
  {
    RefLabelWF(c, x);
    var c' := RefLabel(c, x);
    if x in c.chains {
      ChainMembers(c, c.chains[x]);
      assert c.chains[x][0] in c.chains[x];
      if c.blocks[x].referenced {
        assert c'.chains[x][1] == c.nextId;
        assert forall b :: b in c.chains[x] ==> b == x || b in c.chains[x][1..];
      }
    }
    KeepsLater(c, c');
  }

  /** A destination of jumps: a label that is not placed, or a block with code. */
  ghost predicate IsLabel(c: Code, x: BlockId) {
    && x in c.blocks
    && (x in c.chains || (x !in c.chains && c.blocks[x].quads != [] && (x in c.placed || x == c.cur)))
  }

  /** A jump to `d` counts as a jump to `x`. */
  ghost predicate IsTarget(c: Code, x: BlockId, d: BlockId) {
    && d in c.blocks
    && if x in c.chains then d in c.chains[x] && c.blocks[d].referenced else d == x
  }

  lemma TargetStays(c: Code, c': Code, gone: set<BlockId>, x: BlockId, d: BlockId)
    requires Later(c, c', gone) && IsLabel(c, x) && x !in gone && IsTarget(c, x, d)
    ensures IsTarget(c', x, d)
  {
    ChainHeads(c');
    if x in c.chains {
      ChainMembers(c', c'.chains[x]);
    } else if x in c.placed {
      assert PlacedOk(c, x) && KeptAt(c, c', x);
    }
  }

  lemma LabelStays(c: Code, c': Code, x: BlockId)
    requires Later(c, c', {}) && IsLabel(c, x)
    ensures IsLabel(c', x)
    ensures forall d :: IsTarget(c, x, d) ==> IsTarget(c', x, d)
  {
    ChainHeads(c');
    if x in c.chains {
      ChainMembers(c', c'.chains[x]);
    } else if x in c.placed {
      assert PlacedOk(c, x) && KeptAt(c, c', x);
    }
  }

  // ---------- placing blocks ----------

  lemma AppendLater(c: Code, x: BlockId)
    requires WF(c) && x in c.chains
    ensures Later(c, Append(c, x), {x})
  {
    AppendWF(c, x);
    var c', ch := Append(c, x), c.chains[x];
    ChainMembers(c, ch);
    forall i | 0 <= i < |ch| ensures ch[i] in ch {}
    forall b | b in c.placed ensures PlacedOk(c, b) && KeptAt(c, c', b) {
      assert PlacedOk(c, b);
    }
    if c.prev.Some? { assert PlacedOk(c, c.prev.value); }
    assert if KeepsCur(c) then CurKept(c, c') else CurDropped(c, c');
  }

  lemma WithDummyLater(c: Code, x: BlockId)
    requires WF(c) && x in c.chains
    ensures Later(c, WithDummy(c, x), {x})
  {
    WithDummyWF(c, x);
    ChainHeads(c);
    ChainMembers(c, c.chains[x]);
    KeepsLater(c, WithDummy(c, x));
  }

  lemma AddBlocksLater(c: Code, x: BlockId)
    requires WF(c) && x in c.chains
    ensures Later(c, AddBlocks(c, x), {x}) && Open(AddBlocks(c, x))
  {
    if EndsInIf(c) {
      WithDummyLater(c, x);
      WithDummyWF(c, x);
      AppendLater(WithDummy(c, x), c.nextId);
      AppendWF(WithDummy(c, x), c.nextId);
      LaterTrans(c, WithDummy(c, x), AddBlocks(c, x), {x}, {c.nextId});
      ChainHeads(c);
    } else {
      AppendLater(c, x);
      AppendWF(c, x);
    }
  }
}
