/**
  Graphs without cycles: one sweep is enough, and the child that counts is the first one at
  which the variable is live.
  */
module NoCycles {
  import opened Quadr
  import opened Flow
  import opened Sweeps
  import opened Distances

  /** Along edges that can be reached, ranks get smaller. */
  ghost predicate Ranked(g: Graph, rank: BlockId -> nat)
    requires ValidGraph(g)
  {
    forall b, c :: 0 <= b < |g.blocks| && FromEntry(g, b) && c in Succ(g, b) ==> rank(c) < rank(b)
  }

  ghost predicate Acyclic(g: Graph)
    requires ValidGraph(g)
  {
    exists rank: BlockId -> nat :: Ranked(g, rank)
  }

  // ---------- the order of a sweep ----------

  /** Blocks are left after their successors. */
  ghost predicate ChildrenFirst(g: Graph, order: seq<BlockId>)
    requires ValidGraph(g)
  {
    forall i :: 0 <= i < |order| ==> order[i] < |g.blocks| && ChildrenIn(g, order[i], order[..i])
  }

  ghost predicate ChildrenIn(g: Graph, b: BlockId, order: seq<BlockId>)
    requires ValidGraph(g) && b < |g.blocks|
  {
    forall c :: c in Succ(g, b) ==> c in order
  }

  /** Blocks that are still open come before `b`. */
  ghost predicate Calm(g: Graph, rank: BlockId -> nat, t: Trail, b: BlockId)
    requires ValidGraph(g)
  {
    && ChildrenFirst(g, t.order)
    && (forall x :: x in t.order ==> x in t.seen)
    && (forall x :: x in t.seen && x !in t.order ==> rank(b) < rank(x))
  }

  lemma OneMore(g: Graph, order: seq<BlockId>, b: BlockId)
    requires ValidGraph(g) && b < |g.blocks| && ChildrenFirst(g, order) && ChildrenIn(g, b, order)
    ensures ChildrenFirst(g, order + [b])
  {
    forall i | 0 <= i < |order + [b]| ensures (order + [b])[i] < |g.blocks| && ChildrenIn(g, (order + [b])[i], (order + [b])[..i]) {
      assert (order + [b])[..i] == order[..i];
      if i == |order| { assert order[..i] == order; }
    }
  }

  lemma {:induction false} WalkCalm(g: Graph, rank: BlockId -> nat, t: Trail, b: BlockId)
    requires ValidGraph(g) && Ranked(g, rank) && b < |g.blocks| && FromEntry(g, b) && b !in t.seen && Calm(g, rank, t, b)
    ensures Calm(g, rank, Walk(g, t, b), b)
    decreases Indices(|g.blocks|) - t.seen, 0
  {
    var t0 := Trail(t.seen + {b}, t.order);
    var t1 := WalkChild(g, t0, g.child1[b]);
    WalkChildCalm(g, rank, t0, b, g.child1[b]);
    WalkChildCalm(g, rank, t1, b, g.child2[b]);
    OneMore(g, WalkChild(g, t1, g.child2[b]).order, b);
  }

  /** In `t`, the open blocks are `b` and blocks before it. */
  ghost predicate CalmBut(g: Graph, rank: BlockId -> nat, t: Trail, b: BlockId)
    requires ValidGraph(g)
  {
    && ChildrenFirst(g, t.order)
    && (forall x :: x in t.order ==> x in t.seen)
    && (forall x :: x in t.seen && x !in t.order ==> x == b || rank(b) < rank(x))
  }

  lemma {:induction false} WalkChildCalm(g: Graph, rank: BlockId -> nat, t: Trail, b: BlockId, c: Option<BlockId>)
    requires ValidGraph(g) && Ranked(g, rank) && b < |g.blocks| && FromEntry(g, b) && (c.Some? ==> c.value in Succ(g, b))
    requires CalmBut(g, rank, t, b)
    ensures CalmBut(g, rank, WalkChild(g, t, c), b) && (c.Some? ==> c.value in WalkChild(g, t, c).order)
    decreases Indices(|g.blocks|) - t.seen, 1
  {
    if c.Some? {
      EntryStep(g, b, c.value);
      assert rank(c.value) < rank(b);
      if c.value !in t.seen { WalkCalm(g, rank, t, c.value); }
    }
  }

  /** Without cycles, every sweep leaves the successors of a block before the block. */
  lemma SuccessorsLeft(g: Graph, b: BlockId, c: BlockId)
    requires ValidGraph(g) && Acyclic(g) && b < |g.blocks| && FromEntry(g, b) && c in Succ(g, b)
    ensures LeftBefore(g, c, b)
  {
    var rank: BlockId -> nat :| Ranked(g, rank);
    assert Reachable(g, 0, []);
    WalkCalm(g, rank, Trail({}, []), 0);
    var order := Order(g);
    assert 0 in order;
    assert ChildrenFirst(g, order);
    InOrder(g, order, b);
    FoundAt(order, b);
    assert ChildrenIn(g, order[Pos(order, b)], order[..Pos(order, b)]);
  }

  lemma {:induction false} FoundAt(order: seq<BlockId>, b: BlockId)
    requires b in order
    ensures Pos(order, b) < |order|
  {
    if order[0] != b { FoundAt(order[1..], b); }
  }

  lemma InOrder(g: Graph, order: seq<BlockId>, b: BlockId)
    requires ValidGraph(g) && ChildrenFirst(g, order) && 0 in order && FromEntry(g, b)
    ensures b in order
  {
    var visited := set x | x in order;
    forall x | x in visited ensures x < |g.blocks| && Succ(g, x) <= visited {
      var i :| 0 <= i < |order| && order[i] == x;
      assert ChildrenIn(g, x, order[..i]);
    }
    var path :| Reachable(g, b, path);
    ReachableClosed(g, visited, b, path);
  }

  // ---------- one sweep ----------

  /** What is recorded is live. */
  lemma {:induction false} RecordedIsLive(g: Graph, k: nat, b: BlockId, v: Var)
    requires ValidGraph(g) && b < |g.blocks| && RecordedBy(g, k, b, v)
    ensures Live(g, b, v)
    decreases k, Pos(Order(g), b)
  {
    if !Exposed(g.blocks[b], v) {
      var c :| c in Succ(g, b) && Available(g, k, b, c, v);
      if LeftBefore(g, c, b) {
        LeftBeforePos(g, c, b);
        RecordedIsLive(g, k, c, v);
      } else {
        RecordedIsLive(g, k - 1, c, v);
      }
      TouchedFirst(g.blocks[b], v);
    }
    LiveEquation(g, b, v);
  }

  /** Everything live is recorded in the first sweep. */
  lemma {:induction false} LiveInFirst(g: Graph, b: BlockId, v: Var)
    requires ValidGraph(g) && Acyclic(g) && b < |g.blocks| && FromEntry(g, b) && Live(g, b, v)
    ensures RecordedBy(g, 1, b, v)
    decreases Pos(Order(g), b)
  {
    LiveEquation(g, b, v);
    TouchedFirst(g.blocks[b], v);
    if !Exposed(g.blocks[b], v) {
      var c :| c in Succ(g, b) && Live(g, c, v);
      SuccessorsLeft(g, b, c);
      LeftBeforePos(g, c, b);
      EntryStep(g, b, c);
      LiveInFirst(g, c, v);
      assert Available(g, 1, b, c, v);
    }
  }

  lemma AvailableIsLive(g: Graph, b: BlockId, c: BlockId, v: Var)
    requires ValidGraph(g) && Acyclic(g) && b < |g.blocks| && FromEntry(g, b) && c in Succ(g, b)
    ensures Available(g, 1, b, c, v) <==> Live(g, c, v)
  {
    SuccessorsLeft(g, b, c);
    EntryStep(g, b, c);
    if Live(g, c, v) { LiveInFirst(g, c, v); }
    if RecordedBy(g, 1, c, v) { RecordedIsLive(g, 1, c, v); }
  }

  ghost predicate LiveAt(g: Graph, c: Option<BlockId>, v: Var)
    requires ValidGraph(g)
  {
    c.Some? && c.value < |g.blocks| && Live(g, c.value, v)
  }

  /** The child that counts is the first one at which the variable is live. */
  lemma CountedIsFirstLive(g: Graph, k: nat, b: BlockId, v: Var)
    requires ValidGraph(g) && Acyclic(g) && b < |g.blocks| && FromEntry(g, b) && Passes(g, b, v) && FirstIn(g, k, b, v)
    ensures k == 1 && CountedIn(g, 1, b, v) == if LiveAt(g, g.child1[b], v) then g.child1[b] else g.child2[b]
  {
    RecordedIsLive(g, k, b, v);
    LiveInFirst(g, b, v);
    if g.child1[b].Some? { AvailableIsLive(g, b, g.child1[b].value, v); }
  }

  /** Wherever a variable that passes through a block is live at both children, the first child's use is not farther. */
  ghost predicate FirstIsNearer(g: Graph)
    requires ValidGraph(g)
  {
    forall b, v :: 0 <= b < |g.blocks| && FromEntry(g, b) && Passes(g, b, v) ==> NotFarther(g, b, v)
  }

  ghost predicate NotFarther(g: Graph, b: BlockId, v: Var)
    requires ValidGraph(g) && b < |g.blocks|
  {
    g.child1[b].Some? && g.child2[b].Some? ==>
      forall n1: nat, n2: nat :: Nearest(g, g.child1[b].value, v, n1) && Nearest(g, g.child2[b].value, v, n2) ==> n1 <= n2
  }

  lemma NotFartherCounts(g: Graph, b: BlockId, v: Var, c: Option<BlockId>)
    requires ValidGraph(g) && b < |g.blocks| && c == if LiveAt(g, g.child1[b], v) then g.child1[b] else g.child2[b]
    ensures NotFarther(g, b, v) <==> NoneNearer(g, b, v, c)
  {
    if NotFarther(g, b, v) && c.Some? && c.value in Succ(g, b) {
      forall c', n: nat, n': nat | c' in Succ(g, b) && Nearest(g, c.value, v, n) && Nearest(g, c', v, n') ensures n <= n' {
        if c' == c.value { OneNearest(g, c', v, n, n'); }
      }
    }
  }

  lemma OneNearest(g: Graph, b: BlockId, v: Var, n: nat, n': nat)
    requires ValidGraph(g) && b < |g.blocks| && Nearest(g, b, v, n) && Nearest(g, b, v, n')
    ensures n == n'
  {}

  /** On graphs without cycles, distances are nearest exactly when the first child is never farther. */
  lemma AcyclicIff(g: Graph)
    requires ValidGraph(g) && Acyclic(g)
    ensures CountedIsNearest(g) <==> FirstIsNearer(g)
  {
    if FirstIsNearer(g) {
      forall b, v, k: nat | 0 <= b < |g.blocks| && FromEntry(g, b) && Passes(g, b, v) && k > 0 && FirstIn(g, k, b, v)
        ensures NoneNearer(g, b, v, CountedIn(g, k, b, v))
      {
        CountedIsFirstLive(g, k, b, v);
        NotFartherCounts(g, b, v, CountedIn(g, k, b, v));
      }
    }
    if CountedIsNearest(g) {
      forall b, v | 0 <= b < |g.blocks| && FromEntry(g, b) && Passes(g, b, v) ensures NotFarther(g, b, v) {
        if Live(g, b, v) { LivePasses(g, b, v); } else { DeadPasses(g, b, v); }
      }
    }
  }

  lemma LivePasses(g: Graph, b: BlockId, v: Var)
    requires ValidGraph(g) && Acyclic(g) && CountedIsNearest(g) && b < |g.blocks| && FromEntry(g, b) && Passes(g, b, v) && Live(g, b, v)
    ensures NotFarther(g, b, v)
  {
    LiveInFirst(g, b, v);
    var k := FirstExists(g, 1, b, v);
    CountedIsFirstLive(g, k, b, v);
    NotFartherCounts(g, b, v, CountedIn(g, k, b, v));
  }

  lemma DeadPasses(g: Graph, b: BlockId, v: Var)
    requires ValidGraph(g) && b < |g.blocks| && Passes(g, b, v) && !Live(g, b, v)
    ensures NotFarther(g, b, v)
  {
    forall c, n: nat | c in Succ(g, b) && UseInDistance(g, c, v, n) ensures Live(g, b, v) {
      PathStep(g, b, c, v, n);
    }
  }

  // ---------- a graph whose distances are not the nearest ----------

  /** The jump leads to the later use, and falling through to the earlier one. */
  ghost function LateUse(): Graph {
    var use := Quad(Return, NoArg, VarArg(0), NoArg);
    Graph([[Quad(IfEq, LabelArg(2), VarArg(1), VarArg(2))], [use], [Quad(Copy, VarArg(1), IntArg(5), NoArg), use]],
          [Some(2), None, None], [Some(1), None, None])
  }

  lemma LateUseUses()
    ensures ValidGraph(LateUse()) && Passes(LateUse(), 0, 0) && FromEntry(LateUse(), 0)
    ensures Nearest(LateUse(), 1, 0, 0) && Nearest(LateUse(), 2, 0, 1) && FirstUse(LateUse().blocks[2], 0, 1)
  {
    var g := LateUse();
    assert Reachable(g, 0, []);
    assert FirstUse(g.blocks[1], 0, 0) && FirstUse(g.blocks[2], 0, 1);
    ExposedNearest(g, 1, 0, 0);
    ExposedNearest(g, 2, 0, 1);
  }

  lemma LateUseNearest()
    ensures ValidGraph(LateUse()) && Nearest(LateUse(), 0, 0, 1) && Live(LateUse(), 0, 0) && !NotFarther(LateUse(), 0, 0)
    ensures FromEntry(LateUse(), 0) && FromEntry(LateUse(), 2) && LiveAt(LateUse(), LateUse().child1[0], 0)
  {
    var g := LateUse();
    LateUseUses();
    PathStep(g, 0, 1, 0, 0);
    PassedNearest(g, 0, 0, 1, 0);
    EntryStep(g, 0, 2);
  }

  lemma LateUseAcyclic()
    ensures ValidGraph(LateUse()) && Acyclic(LateUse())
  {
    assert Ranked(LateUse(), b => if b == 0 then 1 else 0);
  }

  /** The nearest use from the entry is one quadruple away, and the analysis says two. */
  lemma FartherIsRecorded(liveIn: seq<Descr>)
    requires AnalysisResult(LateUse(), liveIn)
    ensures Nearest(LateUse(), 0, 0, 1) && 0 in liveIn[0] && liveIn[0][0] == 2
    ensures !CountedIsNearest(LateUse()) && !AllNearest(LateUse(), liveIn)
  {
    LateUseUses();
    LateUseNearest();
    LateUseAcyclic();
    LateUseFails();
    FirstLiveTaken(LateUse(), liveIn, 0, 0);
    UseRecorded(LateUse(), liveIn, 2, 0, 1);
  }

  lemma LateUseFails()
    requires ValidGraph(LateUse()) && Acyclic(LateUse()) && Passes(LateUse(), 0, 0) && FromEntry(LateUse(), 0)
    requires !NotFarther(LateUse(), 0, 0)
    ensures !CountedIsNearest(LateUse())
  {
    AcyclicIff(LateUse());
  }

  lemma FirstLiveTaken(g: Graph, liveIn: seq<Descr>, b: BlockId, v: Var)
    requires AnalysisResult(g, liveIn) && Acyclic(g) && b < |g.blocks| && FromEntry(g, b) && Passes(g, b, v) && Live(g, b, v)
    ensures v in liveIn[b] && TakesFrom(g, b, liveIn, v, if LiveAt(g, g.child1[b], v) then g.child1[b] else g.child2[b])
  {
    assert ResultAt(g, b, liveIn);
    var k: nat :| k > 0 && FirstIn(g, k, b, v) && TakesFrom(g, b, liveIn, v, CountedIn(g, k, b, v));
    CountedIsFirstLive(g, k, b, v);
  }

  lemma UseRecorded(g: Graph, liveIn: seq<Descr>, b: BlockId, v: Var, n: nat)
    requires AnalysisResult(g, liveIn) && b < |g.blocks| && FromEntry(g, b) && FirstUse(g.blocks[b], v, n)
    ensures v in liveIn[b] && liveIn[b][v] == n
  {
    assert ResultAt(g, b, liveIn);
    assert Exposed(g.blocks[b], v);
  }
}
