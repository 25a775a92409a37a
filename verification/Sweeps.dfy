/**
  The order in which a depth-first sweep leaves the blocks, and in which sweep a variable is
  recorded at a block. Both are read off the graph.
  */
module Sweeps {
  import opened Quadr
  import opened Flow

  ghost function Indices(n: nat): (r: set<BlockId>)
    ensures forall x: BlockId :: x in r <==> x < n
  {
    if n == 0 then {} else Indices(n - 1) + {n - 1}
  }

  // ---------- the depth-first order ----------

  /** Blocks visited so far, and those that have been left, in that order. */
  datatype Trail = Trail(seen: set<BlockId>, order: seq<BlockId>)

  /** Exactly the blocks newly visited have been left. */
  ghost predicate Adds(t: Trail, r: Trail) {
    && (forall x :: x in r.seen ==> x in t.seen || x in r.order)
    && (forall x :: x in r.order ==> x in t.order || (x !in t.seen && x in r.seen))
  }

  ghost function Walk(g: Graph, t: Trail, b: BlockId): (r: Trail)
    requires ValidGraph(g) && b < |g.blocks| && b !in t.seen
    ensures t.seen + {b} <= r.seen && t.order <= r.order && Adds(t, r)
    decreases Indices(|g.blocks|) - t.seen, 0
  {
    var t1 := WalkChild(g, Trail(t.seen + {b}, t.order), g.child1[b]);
    var t2 := WalkChild(g, t1, g.child2[b]);
    var r := Trail(t2.seen, t2.order + [b]);
    assert forall x :: x in r.order <==> x in t2.order || x == b;
    r
  }

  ghost function WalkChild(g: Graph, t: Trail, c: Option<BlockId>): (r: Trail)
    requires ValidGraph(g) && (c.Some? ==> c.value < |g.blocks|)
    ensures t.seen <= r.seen && t.order <= r.order && Adds(t, r) && (c.Some? ==> c.value in r.seen)
    decreases Indices(|g.blocks|) - t.seen, 1
  {
    if c.None? || c.value in t.seen then t else Walk(g, t, c.value)
  }

  /** The steps of a walk from `b`; each of them stays within what the walk has left at its end. */
  lemma WalkSteps(g: Graph, t: Trail, b: BlockId, all: seq<BlockId>)
    requires ValidGraph(g) && b < |g.blocks| && b !in t.seen && Walk(g, t, b).order <= all
    requires forall x :: x in t.order ==> x in t.seen
    ensures var t1 := WalkChild(g, Trail(t.seen + {b}, t.order), g.child1[b]);
            var t2 := WalkChild(g, t1, g.child2[b]);
            && Walk(g, t, b) == Trail(t2.seen, t2.order + [b])
            && t1.order <= all && t2.order <= all && t2.order + [b] <= all && b !in t2.order
  {
    var t1 := WalkChild(g, Trail(t.seen + {b}, t.order), g.child1[b]);
    var t2 := WalkChild(g, t1, g.child2[b]);
    assert t2.order <= t2.order + [b] <= all;
    assert b !in t1.order;
  }

  /** The order in which every sweep from the entry leaves the blocks. */
  ghost function Order(g: Graph): seq<BlockId>
    requires ValidGraph(g)
  {
    Walk(g, Trail({}, []), 0).order
  }

  ghost function Pos(order: seq<BlockId>, b: BlockId): (r: nat)
    ensures r <= |order| && b !in order[..r] && (r < |order| ==> order[r] == b)
  {
    if order == [] || order[0] == b then 0 else
      var r := 1 + Pos(order[1..], b);
      assert order[..r] == [order[0]] + order[1..][..r - 1];
      r
  }

  lemma {:induction false} PosIs(order: seq<BlockId>, b: BlockId, r: nat)
    requires r < |order| && order[r] == b && b !in order[..r]
    ensures Pos(order, b) == r
  {
    if r > 0 {
      assert order[..r] == [order[0]] + order[1..][..r - 1];
      PosIs(order[1..], b, r - 1);
    }
  }

  lemma {:induction false} PosBound(order: seq<BlockId>, b: BlockId, i: nat)
    requires i < |order| && order[i] == b
    ensures Pos(order, b) <= i
  {
    if order[0] != b { PosBound(order[1..], b, i - 1); }
  }

  /** Every sweep leaves `c` before `b`. */
  ghost predicate LeftBefore(g: Graph, c: BlockId, b: BlockId)
    requires ValidGraph(g)
  {
    c in Order(g)[..Pos(Order(g), b)]
  }

  lemma LeftBeforePos(g: Graph, c: BlockId, b: BlockId)
    requires ValidGraph(g) && LeftBefore(g, c, b)
    ensures Pos(Order(g), c) < Pos(Order(g), b)
  {
    var o := Order(g);
    var i :| 0 <= i < Pos(o, b) && o[..Pos(o, b)][i] == c;
    PosBound(o, c, i);
  }

  // ---------- in which sweep a variable is recorded ----------

  /** After `k` sweeps, `v` is recorded at the start of `b`. Uses in the block itself are recorded before the first one. */
  ghost predicate RecordedBy(g: Graph, k: nat, b: BlockId, v: Var)
    requires ValidGraph(g) && b < |g.blocks|
    decreases k, Pos(Order(g), b), 1
  {
    || Exposed(g.blocks[b], v)
    || (k > 0 && NeverAssigns(g.blocks[b], v) && exists c :: c in Succ(g, b) && Available(g, k, b, c, v))
  }

  /** In sweep `k`, `b` finds `v` at its successor `c`: blocks left before are up to date, others as after the last sweep. */
  ghost predicate Available(g: Graph, k: nat, b: BlockId, c: BlockId, v: Var)
    requires ValidGraph(g) && b < |g.blocks| && c < |g.blocks| && k > 0
    decreases k, Pos(Order(g), b), 0
  {
    if LeftBefore(g, c, b) then
      LeftBeforePos(g, c, b);
      RecordedBy(g, k, c, v)
    else RecordedBy(g, k - 1, c, v)
  }

  lemma {:induction false} RecordedMore(g: Graph, k: nat, b: BlockId, v: Var)
    requires ValidGraph(g) && b < |g.blocks| && RecordedBy(g, k, b, v)
    ensures RecordedBy(g, k + 1, b, v)
    decreases k, Pos(Order(g), b)
  {
    if !Exposed(g.blocks[b], v) {
      var c :| c in Succ(g, b) && Available(g, k, b, c, v);
      if LeftBefore(g, c, b) {
        LeftBeforePos(g, c, b);
        RecordedMore(g, k, c, v);
      } else {
        RecordedMore(g, k - 1, c, v);
      }
      assert Available(g, k + 1, b, c, v);
    }
  }

  lemma {:induction false} RecordedStays(g: Graph, j: nat, k: nat, b: BlockId, v: Var)
    requires ValidGraph(g) && b < |g.blocks| && j <= k && RecordedBy(g, j, b, v)
    ensures RecordedBy(g, k, b, v)
    decreases k - j
  {
    if j < k {
      RecordedMore(g, j, b, v);
      RecordedStays(g, j + 1, k, b, v);
    }
  }

  /** `k` is the sweep that records `v` at `b`. */
  ghost predicate FirstIn(g: Graph, k: nat, b: BlockId, v: Var)
    requires ValidGraph(g) && b < |g.blocks|
  {
    RecordedBy(g, k, b, v) && forall j: nat :: j < k ==> !RecordedBy(g, j, b, v)
  }

  lemma {:induction false} FirstExists(g: Graph, k: nat, b: BlockId, v: Var) returns (j: nat)
    requires ValidGraph(g) && b < |g.blocks| && RecordedBy(g, k, b, v)
    ensures j <= k && FirstIn(g, j, b, v)
  {
    if k > 0 && RecordedBy(g, k - 1, b, v) {
      j := FirstExists(g, k - 1, b, v);
    } else {
      j := k;
      forall i: nat | i < k ensures !RecordedBy(g, i, b, v) {
        if RecordedBy(g, i, b, v) { RecordedStays(g, i, k - 1, b, v); }
      }
    }
  }

  lemma OnlyFirst(g: Graph, j: nat, k: nat, b: BlockId, v: Var)
    requires ValidGraph(g) && b < |g.blocks| && FirstIn(g, j, b, v) && FirstIn(g, k, b, v)
    ensures j == k
  {}

  /** The child that counts in sweep `k`: the first one, if the variable is found there. */
  ghost function CountedIn(g: Graph, k: nat, b: BlockId, v: Var): (r: Option<BlockId>)
    requires ValidGraph(g) && b < |g.blocks| && k > 0
  {
    var c := g.child1[b];
    if c.Some? && Available(g, k, b, c.value, v) then c else g.child2[b]
  }

  lemma CountedFound(g: Graph, k: nat, b: BlockId, v: Var)
    requires ValidGraph(g) && b < |g.blocks| && RecordedBy(g, k, b, v) && !Exposed(g.blocks[b], v)
    ensures k > 0 && var c := CountedIn(g, k, b, v);
            c.Some? && c.value in Succ(g, b) && Available(g, k, b, c.value, v)
  {}
}
