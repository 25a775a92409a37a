/**
  Nearest uses: which distances the analysis records, and exactly when they are the nearest
  ones.
  */
module Distances {
  import opened Quadr
  import opened Flow
  import opened Sweeps

  type Descr = map<Var, nat>

  /** `n` is the distance of the nearest use. */
  ghost predicate Nearest(g: Graph, b: BlockId, v: Var, n: nat)
    requires ValidGraph(g) && b < |g.blocks|
  {
    UseInDistance(g, b, v, n) && forall k: nat :: UseInDistance(g, b, v, k) ==> n <= k
  }

  /** Every recorded distance is the length of a path to a use. */
  ghost predicate Recorded(g: Graph, b: BlockId, live: Descr)
    requires ValidGraph(g) && b < |g.blocks|
  {
    forall v :: v in live ==> UseInDistance(g, b, v, live[v])
  }

  /** Block `b` neither uses nor assigns `v`. */
  ghost predicate Passes(g: Graph, b: BlockId, v: Var)
    requires b < |g.blocks|
  {
    NeverAssigns(g.blocks[b], v) && !Exposed(g.blocks[b], v)
  }

  /** The distance recorded for `v` is that recorded for child `c`, plus the length of the block. */
  ghost predicate TakesFrom(g: Graph, b: BlockId, liveIn: seq<Descr>, v: Var, c: Option<BlockId>)
    requires ValidGraph(g) && b < |g.blocks| == |liveIn| && v in liveIn[b]
  {
    c.Some? && c.value < |g.blocks| && v in liveIn[c.value] && liveIn[b][v] == liveIn[c.value][v] + |g.blocks[b]|
  }

  /** The distance comes from the child that counts in the sweep that records the variable. */
  ghost predicate TakesCounted(g: Graph, b: BlockId, liveIn: seq<Descr>, v: Var)
    requires ValidGraph(g) && b < |g.blocks| == |liveIn| && v in liveIn[b]
  {
    exists k: nat :: k > 0 && FirstIn(g, k, b, v) && TakesFrom(g, b, liveIn, v, CountedIn(g, k, b, v))
  }

  /** The distance is that of the first use in the block, or comes from some successor. */
  ghost predicate Derived(g: Graph, b: BlockId, liveIn: seq<Descr>, v: Var)
    requires ValidGraph(g) && b < |g.blocks| == |liveIn| && v in liveIn[b]
  {
    || FirstUse(g.blocks[b], v, liveIn[b][v])
    || exists c :: c in Succ(g, b) && TakesFrom(g, b, liveIn, v, Some(c))
  }

  lemma DerivedStays(g: Graph, b: BlockId, liveIn: seq<Descr>, liveIn': seq<Descr>, v: Var)
    requires ValidGraph(g) && b < |g.blocks| == |liveIn| && Kept(liveIn, liveIn')
    requires v in liveIn[b] && Derived(g, b, liveIn, v)
    ensures Derived(g, b, liveIn', v)
  {
    if !FirstUse(g.blocks[b], v, liveIn[b][v]) {
      var c :| c in Succ(g, b) && TakesFrom(g, b, liveIn, v, Some(c));
      assert TakesFrom(g, b, liveIn', v, Some(c));
    }
  }

  /** Entries stay when more is recorded. */
  ghost predicate Kept(liveIn: seq<Descr>, liveIn': seq<Descr>) {
    |liveIn'| == |liveIn| && forall b, v :: 0 <= b < |liveIn| && v in liveIn[b] ==> v in liveIn'[b] && liveIn'[b][v] == liveIn[b][v]
  }

  lemma RecordedLive(g: Graph, b: BlockId, live: Descr, v: Var)
    requires ValidGraph(g) && b < |g.blocks| && Recorded(g, b, live) && v in live
    ensures Live(g, b, v)
  {
    assert UseInDistance(g, b, v, live[v]);
  }

  lemma TakesStays(g: Graph, b: BlockId, liveIn: seq<Descr>, liveIn': seq<Descr>, v: Var)
    requires ValidGraph(g) && b < |g.blocks| == |liveIn| && Kept(liveIn, liveIn')
    requires v in liveIn[b] && TakesCounted(g, b, liveIn, v)
    ensures TakesCounted(g, b, liveIn', v)
  {
    var k: nat :| k > 0 && FirstIn(g, k, b, v) && TakesFrom(g, b, liveIn, v, CountedIn(g, k, b, v));
    assert TakesFrom(g, b, liveIn', v, CountedIn(g, k, b, v));
  }

  lemma EntryStep(g: Graph, b: BlockId, c: BlockId)
    requires ValidGraph(g) && b < |g.blocks| && FromEntry(g, b) && c in Succ(g, b)
    ensures FromEntry(g, c)
  {
    var path :| Reachable(g, b, path);
    assert (path + [b])[..|path|] == path;
    assert Reachable(g, c, path + [b]);
  }

  // ---------- exactly when distances are nearest ----------

  /** No child has a nearer use than child `c`. */
  ghost predicate NoneNearer(g: Graph, b: BlockId, v: Var, c: Option<BlockId>)
    requires ValidGraph(g) && b < |g.blocks|
  {
    c.Some? && c.value in Succ(g, b) ==>
      forall c', n: nat, n': nat :: c' in Succ(g, b) && Nearest(g, c.value, v, n) && Nearest(g, c', v, n') ==> n <= n'
  }

  /** Wherever a variable passes through a block, no child has a nearer use than the one that counts. */
  ghost predicate CountedIsNearest(g: Graph)
    requires ValidGraph(g)
  {
    forall b, v, k: nat :: 0 <= b < |g.blocks| && FromEntry(g, b) && Passes(g, b, v) && k > 0 && FirstIn(g, k, b, v) ==>
      NoneNearer(g, b, v, CountedIn(g, k, b, v))
  }

  ghost predicate AllNearest(g: Graph, liveIn: seq<Descr>)
    requires ValidGraph(g) && |liveIn| == |g.blocks|
  {
    forall b, v :: 0 <= b < |g.blocks| && FromEntry(g, b) && v in liveIn[b] ==> Nearest(g, b, v, liveIn[b][v])
  }

  /** What the analysis leaves behind. */
  ghost predicate AnalysisResult(g: Graph, liveIn: seq<Descr>) {
    && ValidGraph(g) && |liveIn| == |g.blocks|
    && forall b :: 0 <= b < |g.blocks| && FromEntry(g, b) ==> ResultAt(g, b, liveIn)
  }

  ghost predicate ResultAt(g: Graph, b: BlockId, liveIn: seq<Descr>)
    requires ValidGraph(g) && b < |g.blocks| == |liveIn|
  {
    && (forall v :: v in liveIn[b] <==> Live(g, b, v))
    && (forall v :: Exposed(g.blocks[b], v) ==> v in liveIn[b] && FirstUse(g.blocks[b], v, liveIn[b][v]))
    && (forall v :: v in liveIn[b] && !Exposed(g.blocks[b], v) ==> TakesCounted(g, b, liveIn, v))
  }

  /** A use in the block itself is nearer than any other. */
  lemma ExposedNearest(g: Graph, b: BlockId, v: Var, i: nat)
    requires ValidGraph(g) && b < |g.blocks| && FirstUse(g.blocks[b], v, i)
    ensures Nearest(g, b, v, i)
  {
    assert PathTo(g, b, v, [], i);
    forall k: nat | UseInDistance(g, b, v, k) ensures i <= k {
      var path :| PathTo(g, b, v, path, k);
      assert path == [] ==> UseAt(g.blocks[b], v, k);
    }
  }

  lemma ExposedByEmptyPath(g: Graph, b: BlockId, v: Var, path: seq<BlockId>, k: nat)
    requires ValidGraph(g) && b < |g.blocks| && PathTo(g, b, v, path, k)
    ensures path == [] ==> Exposed(g.blocks[b], v)
  {
    if path == [] {
      assert UseAt(g.blocks[b], v, k);
    }
  }

  /** A variable that the block does not use itself is used beyond one of the children. */
  lemma PassedUse(g: Graph, b: BlockId, v: Var, k: nat) returns (c: BlockId)
    requires ValidGraph(g) && b < |g.blocks| && !Exposed(g.blocks[b], v) && UseInDistance(g, b, v, k)
    ensures Passes(g, b, v) && c in Succ(g, b) && k >= |g.blocks[b]| && UseInDistance(g, c, v, k - |g.blocks[b]|)
  {
    var path :| PathTo(g, b, v, path, k);
    ExposedByEmptyPath(g, b, v, path, k);
    c := path[0];
    assert PathTo(g, c, v, path[1..], k - |g.blocks[b]|);
  }

  /** If no use is nearer beyond either child, the distance is the nearest. */
  lemma PassedNearest(g: Graph, b: BlockId, v: Var, c: BlockId, n: nat)
    requires ValidGraph(g) && b < |g.blocks| && Passes(g, b, v) && c in Succ(g, b) && UseInDistance(g, c, v, n)
    requires forall c', k: nat :: c' in Succ(g, b) && UseInDistance(g, c', v, k) ==> n <= k
    ensures Nearest(g, b, v, n + |g.blocks[b]|)
  {
    PathStep(g, b, c, v, n);
    forall k: nat | UseInDistance(g, b, v, k) ensures n + |g.blocks[b]| <= k {
      var c' := PassedUse(g, b, v, k);
    }
  }

  lemma {:induction false} NearestBelow(g: Graph, b: BlockId, v: Var, k: nat) returns (n: nat)
    requires ValidGraph(g) && b < |g.blocks| && UseInDistance(g, b, v, k)
    ensures n <= k && Nearest(g, b, v, n)
  {
    if j: nat :| j < k && UseInDistance(g, b, v, j) {
      n := NearestBelow(g, b, v, j);
    } else {
      n := k;
    }
  }

  /** What is nearest at the child that counts is not farther than any use beyond a child. */
  lemma CountedNearest(g: Graph, b: BlockId, v: Var, c: BlockId, n: nat)
    requires ValidGraph(g) && b < |g.blocks| && c in Succ(g, b) && NoneNearer(g, b, v, Some(c)) && Nearest(g, c, v, n)
    ensures forall c', k: nat :: c' in Succ(g, b) && UseInDistance(g, c', v, k) ==> n <= k
  {
    forall c', k: nat | c' in Succ(g, b) && UseInDistance(g, c', v, k) ensures n <= k {
      var n' := NearestBelow(g, c', v, k);
    }
  }

  /** The child that counts has been recorded before, in an earlier sweep or earlier in the same one. */
  lemma CountedChild(g: Graph, liveIn: seq<Descr>, b: BlockId, v: Var, k: nat) returns (c: BlockId, j: nat, i: nat)
    requires AnalysisResult(g, liveIn) && b < |g.blocks| && FromEntry(g, b) && v in liveIn[b] && !Exposed(g.blocks[b], v)
    requires RecordedBy(g, k, b, v)
    ensures 0 < j <= k && FirstIn(g, j, b, v) && CountedIn(g, j, b, v) == Some(c) && TakesFrom(g, b, liveIn, v, Some(c))
    ensures c in Succ(g, b) && FromEntry(g, c) && RecordedBy(g, i, c, v)
    ensures i < j || (i == j && Pos(Order(g), c) < Pos(Order(g), b))
  {
    assert ResultAt(g, b, liveIn);
    j :| j > 0 && FirstIn(g, j, b, v) && TakesFrom(g, b, liveIn, v, CountedIn(g, j, b, v));
    CountedFound(g, j, b, v);
    c := CountedIn(g, j, b, v).value;
    EntryStep(g, b, c);
    if LeftBefore(g, c, b) { LeftBeforePos(g, c, b); }
    i := if LeftBefore(g, c, b) then j else j - 1;
  }

  /** Where the child that counts has a nearest use, every recorded distance is the nearest. */
  lemma {:induction false} NearerMeansNearest(g: Graph, liveIn: seq<Descr>, b: BlockId, v: Var, k: nat)
    requires AnalysisResult(g, liveIn) && CountedIsNearest(g)
    requires b < |g.blocks| && FromEntry(g, b) && v in liveIn[b] && RecordedBy(g, k, b, v)
    ensures Nearest(g, b, v, liveIn[b][v])
    decreases k, Pos(Order(g), b)
  {
    assert ResultAt(g, b, liveIn);
    if Exposed(g.blocks[b], v) {
      ExposedNearest(g, b, v, liveIn[b][v]);
    } else {
      var c, j, i := CountedChild(g, liveIn, b, v, k);
      NearerMeansNearest(g, liveIn, c, v, i);
      PassedOn(g, liveIn, b, v, j, c);
    }
  }

  lemma PassedOn(g: Graph, liveIn: seq<Descr>, b: BlockId, v: Var, k: nat, c: BlockId)
    requires ValidGraph(g) && |liveIn| == |g.blocks| && CountedIsNearest(g)
    requires b < |g.blocks| && FromEntry(g, b) && v in liveIn[b] && Live(g, b, v) && !Exposed(g.blocks[b], v)
    requires k > 0 && FirstIn(g, k, b, v) && CountedIn(g, k, b, v) == Some(c) && c in Succ(g, b)
    requires TakesFrom(g, b, liveIn, v, Some(c)) && Nearest(g, c, v, liveIn[c][v])
    ensures Nearest(g, b, v, liveIn[b][v])
  {
    var n :| UseInDistance(g, b, v, n);
    var c' := PassedUse(g, b, v, n);
    assert NoneNearer(g, b, v, CountedIn(g, k, b, v));
    CountedNearest(g, b, v, c, liveIn[c][v]);
    PassedNearest(g, b, v, c, liveIn[c][v]);
  }

  /** Where every recorded distance is the nearest, the child that counts had a nearest use. */
  lemma NearestMeansNearer(g: Graph, liveIn: seq<Descr>, b: BlockId, v: Var, k: nat)
    requires AnalysisResult(g, liveIn) && AllNearest(g, liveIn)
    requires b < |g.blocks| && FromEntry(g, b) && Passes(g, b, v) && k > 0 && FirstIn(g, k, b, v)
    ensures NoneNearer(g, b, v, CountedIn(g, k, b, v))
  {
    var o := CountedIn(g, k, b, v);
    if o.Some? && o.value in Succ(g, b) {
      forall c', n: nat, n': nat | c' in Succ(g, b) && Nearest(g, o.value, v, n) && Nearest(g, c', v, n') ensures n <= n' {
        CountedNotFarther(g, liveIn, b, v, k, o.value, c', n, n');
      }
    }
  }

  lemma CountedNotFarther(g: Graph, liveIn: seq<Descr>, b: BlockId, v: Var, k: nat, c: BlockId, c': BlockId, n: nat, n': nat)
    requires AnalysisResult(g, liveIn) && AllNearest(g, liveIn)
    requires b < |g.blocks| && FromEntry(g, b) && Passes(g, b, v) && k > 0 && FirstIn(g, k, b, v)
    requires CountedIn(g, k, b, v) == Some(c) && c in Succ(g, b) && c' in Succ(g, b)
    requires Nearest(g, c, v, n) && Nearest(g, c', v, n')
    ensures n <= n'
  {
    EntryStep(g, b, c);
    PathStep(g, b, c, v, n);
    PathStep(g, b, c', v, n');
    assert ResultAt(g, b, liveIn) && Live(g, b, v);
    var j: nat :| j > 0 && FirstIn(g, j, b, v) && TakesFrom(g, b, liveIn, v, CountedIn(g, j, b, v));
    OnlyFirst(g, j, k, b, v);
    assert Nearest(g, b, v, liveIn[b][v]) && Nearest(g, c, v, liveIn[c][v]);
  }

  lemma SomeSweep(g: Graph, liveIn: seq<Descr>, b: BlockId, v: Var) returns (k: nat)
    requires AnalysisResult(g, liveIn) && b < |g.blocks| && FromEntry(g, b) && v in liveIn[b]
    ensures RecordedBy(g, k, b, v)
  {
    assert ResultAt(g, b, liveIn);
    if Exposed(g.blocks[b], v) {
      k := 0;
    } else {
      k :| k > 0 && FirstIn(g, k, b, v) && TakesFrom(g, b, liveIn, v, CountedIn(g, k, b, v));
    }
  }

  /**
    The distances the analysis leaves behind are those of the nearest uses exactly when,
    wherever a variable passes through a block, no child has a nearer use than the child that
    counts: the one that the depth-first sweeps bring the variable to first.
    */
  lemma NearestIff(g: Graph, liveIn: seq<Descr>)
    requires AnalysisResult(g, liveIn)
    ensures AllNearest(g, liveIn) <==> CountedIsNearest(g)
  {
    if AllNearest(g, liveIn) {
      forall b, v, k: nat | 0 <= b < |g.blocks| && FromEntry(g, b) && Passes(g, b, v) && k > 0 && FirstIn(g, k, b, v)
        ensures NoneNearer(g, b, v, CountedIn(g, k, b, v))
      {
        NearestMeansNearer(g, liveIn, b, v, k);
      }
    }
    if CountedIsNearest(g) {
      forall b, v | 0 <= b < |g.blocks| && FromEntry(g, b) && v in liveIn[b] ensures Nearest(g, b, v, liveIn[b][v]) {
        var k := SomeSweep(g, liveIn, b, v);
        NearerMeansNearest(g, liveIn, b, v, k);
      }
    }
  }
}
