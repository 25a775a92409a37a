/**
  Liveness of variables, as a property of paths in the graph of basic blocks, and the
  facts that connect it to the data-flow equations.
  */
module Flow {
  import opened Quadr

  /** Blocks in order, with at most two successors each. Block 0 is the entry. */
  datatype Graph = Graph(blocks: seq<seq<Quad>>, child1: seq<Option<BlockId>>, child2: seq<Option<BlockId>>)

  ghost predicate ValidGraph(g: Graph) {
    && |g.blocks| > 0 && |g.child1| == |g.blocks| && |g.child2| == |g.blocks|
    && (forall b :: 0 <= b < |g.child1| && g.child1[b].Some? ==> g.child1[b].value < |g.blocks|)
    && (forall b :: 0 <= b < |g.child2| && g.child2[b].Some? ==> g.child2[b].value < |g.blocks|)
  }

  ghost function Succ(g: Graph, b: BlockId): (r: set<BlockId>)
    requires ValidGraph(g) && b < |g.blocks|
    ensures forall c :: c in r ==> c < |g.blocks|
  {
    (if g.child1[b].Some? then {g.child1[b].value} else {}) +
    (if g.child2[b].Some? then {g.child2[b].value} else {})
  }

  // ---------- inside a block ----------

  /** The quadruple at `i` uses `v`, and nothing before it assigns `v`. */
  ghost predicate UseAt(qs: seq<Quad>, v: Var, i: nat) {
    i < |qs| && Uses(qs[i], v) && forall j :: 0 <= j < i ==> !Assigns(qs[j], v)
  }

  ghost predicate FirstUse(qs: seq<Quad>, v: Var, i: nat) {
    UseAt(qs, v, i) && forall j :: 0 <= j < i ==> !Uses(qs[j], v)
  }

  ghost predicate Exposed(qs: seq<Quad>, v: Var) { exists i :: UseAt(qs, v, i) }

  ghost predicate NeverAssigns(qs: seq<Quad>, v: Var) {
    forall j :: 0 <= j < |qs| ==> !Assigns(qs[j], v)
  }

  /** `v` is assigned in the block, and not used up to and including that quadruple. */
  ghost predicate KilledAt(qs: seq<Quad>, v: Var, i: nat) {
    i < |qs| && Assigns(qs[i], v) && forall j :: 0 <= j <= i ==> !Uses(qs[j], v)
  }

  ghost predicate Killed(qs: seq<Quad>, v: Var) { exists i :: KilledAt(qs, v, i) }

  /** A variable that a block touches is either used or assigned first. */
  lemma {:induction false} TouchedFirst(qs: seq<Quad>, v: Var)
    ensures !(Exposed(qs, v) && Killed(qs, v))
    ensures Exposed(qs, v) || Killed(qs, v) || NeverAssigns(qs, v)
    ensures NeverAssigns(qs, v) ==> !Killed(qs, v)
  {
    if i: nat, j: nat :| UseAt(qs, v, i) && KilledAt(qs, v, j) {
      assert false;
    }
    if !NeverAssigns(qs, v) {
      FirstTouch(qs, v, 0);
    }
  }

  lemma {:induction false} FirstTouch(qs: seq<Quad>, v: Var, i: nat)
    requires i <= |qs| && !NeverAssigns(qs, v)
    requires forall j :: 0 <= j < i ==> !Assigns(qs[j], v) && !Uses(qs[j], v)
    ensures Exposed(qs, v) || Killed(qs, v)
    decreases |qs| - i
  {
    if Uses(qs[i], v) {
      assert UseAt(qs, v, i);
    } else if Assigns(qs[i], v) {
      assert KilledAt(qs, v, i);
    } else {
      FirstTouch(qs, v, i + 1);
    }
  }

  lemma ExposedHere(q: Quad, rest: seq<Quad>, v: Var)
    ensures Exposed([q] + rest, v) <==> Uses(q, v) || (!Assigns(q, v) && Exposed(rest, v))
    ensures Killed([q] + rest, v) <==> !Uses(q, v) && (Assigns(q, v) || Killed(rest, v))
  {
    var qs := [q] + rest;
    if i: nat :| UseAt(rest, v, i) && !Assigns(q, v) {
      assert UseAt(qs, v, i + 1);
    }
    if Uses(q, v) { assert UseAt(qs, v, 0); }
    if i: nat :| UseAt(qs, v, i) && i > 0 {
      assert !Assigns(qs[0], v);
      forall j | 0 <= j < i - 1 ensures !Assigns(rest[j], v) { assert rest[j] == qs[j + 1]; }
      assert UseAt(rest, v, i - 1);
    }
    if i: nat :| KilledAt(rest, v, i) && !Uses(q, v) {
      assert KilledAt(qs, v, i + 1);
    }
    if Assigns(q, v) && !Uses(q, v) { assert KilledAt(qs, v, 0); }
    if i: nat :| KilledAt(qs, v, i) {
      assert !Uses(qs[0], v);
      if i > 0 {
        forall j | 0 <= j <= i - 1 ensures !Uses(rest[j], v) { assert rest[j] == qs[j + 1]; }
        assert KilledAt(rest, v, i - 1);
      }
    }
  }

  // ---------- paths ----------

  /** From the start of `b`, along `path`, `n` instructions lead to a use of `v` with no assignment on the way. */
  ghost predicate PathTo(g: Graph, b: BlockId, v: Var, path: seq<BlockId>, n: nat)
    requires ValidGraph(g) && b < |g.blocks|
    decreases path
  {
    if path == [] then UseAt(g.blocks[b], v, n)
    else
      && path[0] in Succ(g, b)
      && NeverAssigns(g.blocks[b], v)
      && n >= |g.blocks[b]|
      && PathTo(g, path[0], v, path[1..], n - |g.blocks[b]|)
  }

  ghost predicate UseInDistance(g: Graph, b: BlockId, v: Var, n: nat)
    requires ValidGraph(g) && b < |g.blocks|
  {
    exists path :: PathTo(g, b, v, path, n)
  }

  /** Some path from the start of `b` reaches a use of `v` before any assignment to it. */
  ghost predicate Live(g: Graph, b: BlockId, v: Var)
    requires ValidGraph(g) && b < |g.blocks|
  {
    exists n :: UseInDistance(g, b, v, n)
  }

  ghost predicate Reachable(g: Graph, b: BlockId, path: seq<BlockId>)
    requires ValidGraph(g)
    decreases path
  {
    b < |g.blocks| &&
    if path == [] then b == 0
    else
      var p := path[|path| - 1];
      p < |g.blocks| && b in Succ(g, p) && Reachable(g, p, path[..|path| - 1])
  }

  ghost predicate FromEntry(g: Graph, b: BlockId)
    requires ValidGraph(g)
  {
    exists path :: Reachable(g, b, path)
  }

  lemma PathStep(g: Graph, b: BlockId, c: BlockId, v: Var, n: nat)
    requires ValidGraph(g) && b < |g.blocks| && c in Succ(g, b)
    requires NeverAssigns(g.blocks[b], v) && UseInDistance(g, c, v, n)
    ensures UseInDistance(g, b, v, n + |g.blocks[b]|)
  {
    var path :| PathTo(g, c, v, path, n);
    assert ([c] + path)[1..] == path;
    assert PathTo(g, b, v, [c] + path, n + |g.blocks[b]|);
  }

  lemma {:induction false} ReachableClosed(g: Graph, visited: set<BlockId>, b: BlockId, path: seq<BlockId>)
    requires ValidGraph(g) && 0 in visited
    requires forall x :: x in visited ==> x < |g.blocks| && Succ(g, x) <= visited
    requires Reachable(g, b, path)
    ensures b in visited
    decreases path
  {
    if path != [] {
      ReachableClosed(g, visited, path[|path| - 1], path[..|path| - 1]);
    }
  }

  /** The data-flow equation, for liveness as a property of paths. */
  lemma LiveEquation(g: Graph, b: BlockId, v: Var)
    requires ValidGraph(g) && b < |g.blocks|
    ensures Live(g, b, v) <==>
              Exposed(g.blocks[b], v) || (!Killed(g.blocks[b], v) && exists c :: c in Succ(g, b) && Live(g, c, v))
  {
    TouchedFirst(g.blocks[b], v);
    if i: nat :| UseAt(g.blocks[b], v, i) {
      assert PathTo(g, b, v, [], i);
      assert UseInDistance(g, b, v, i);
    }
    if c :| c in Succ(g, b) && Live(g, c, v) && !Killed(g.blocks[b], v) {
      if !Exposed(g.blocks[b], v) {
        var n :| UseInDistance(g, c, v, n);
        PathStep(g, b, c, v, n);
      }
    }
    if n: nat :| UseInDistance(g, b, v, n) {
      var path :| PathTo(g, b, v, path, n);
      if path == [] {
        assert UseAt(g.blocks[b], v, n);
      } else {
        assert PathTo(g, path[0], v, path[1..], n - |g.blocks[b]|);
        assert UseInDistance(g, path[0], v, n - |g.blocks[b]|);
        assert Live(g, path[0], v);
      }
    }
  }
}
