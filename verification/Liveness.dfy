/**
  The liveness analysis of the compiler: sets that grow in repeated depth-first sweeps over
  the block graph until a sweep changes nothing.
  */
module Liveness {
  import opened Quadr
  import opened Flow
  import opened Sweeps
  import opened Distances

  function Put(m: Descr, v: Var, n: nat): Descr { m[v := n] }

  /** What the backward scan of a block leaves in `live_in` and `live_def`. */
  ghost predicate Scanned(qs: seq<Quad>, use: Descr, def: set<Var>) {
    && (forall v :: v in use <==> Exposed(qs, v))
    && (forall v :: v in use ==> FirstUse(qs, v, use[v]))
    && (forall v :: v in def <==> Killed(qs, v))
  }

  /** The variables mentioned anywhere; only they can become live. */
  ghost function Mentioned(qs: seq<Quad>): set<Var> {
    if qs == [] then {}
    else Mentioned(qs[1..]) + ArgVars(qs[0].arg1) + ArgVars(qs[0].arg2) + ArgVars(qs[0].result)
  }

  ghost function ArgVars(a: Arg): set<Var> {
    if a.VarArg? then {a.v} else {}
  }

  lemma {:induction false} MentionedUse(qs: seq<Quad>, v: Var, i: nat)
    requires i < |qs| && Uses(qs[i], v)
    ensures v in Mentioned(qs)
  {
    if i > 0 { MentionedUse(qs[1..], v, i - 1); }
  }

  ghost function AllMentioned(blocks: seq<seq<Quad>>): set<Var> {
    if blocks == [] then {} else Mentioned(blocks[0]) + AllMentioned(blocks[1..])
  }

  lemma {:induction false} AllMentionedAt(blocks: seq<seq<Quad>>, b: BlockId)
    requires b < |blocks|
    ensures Mentioned(blocks[b]) <= AllMentioned(blocks)
  {
    if b > 0 { AllMentionedAt(blocks[1..], b - 1); }
  }

  ghost predicate MentionsAll(g: Graph, vars: set<Var>) {
    forall b, v :: 0 <= b < |g.blocks| && Exposed(g.blocks[b], v) ==> v in vars
  }

  lemma AllExposedMentioned(g: Graph)
    ensures MentionsAll(g, AllMentioned(g.blocks))
  {
    forall b, v | 0 <= b < |g.blocks| && Exposed(g.blocks[b], v) ensures v in AllMentioned(g.blocks) {
      var i: nat :| UseAt(g.blocks[b], v, i);
      MentionedUse(g.blocks[b], v, i);
      AllMentionedAt(g.blocks, b);
    }
  }

  lemma {:induction false} LiveMentioned(g: Graph, vars: set<Var>, b: BlockId, v: Var, path: seq<BlockId>, n: nat)
    requires ValidGraph(g) && MentionsAll(g, vars) && b < |g.blocks| && PathTo(g, b, v, path, n)
    ensures v in vars
    decreases path
  {
    if path == [] {
      assert Exposed(g.blocks[b], v);
    } else {
      LiveMentioned(g, vars, path[0], v, path[1..], n - |g.blocks[b]|);
    }
  }

  /** The sets of block `b` are right about the block itself, and contain only what is justified. */
  ghost predicate SoundAt(g: Graph, b: BlockId, def: set<Var>, liveIn: seq<Descr>, out: set<Var>)
    requires ValidGraph(g) && b < |g.blocks| == |liveIn|
  {
    && (forall v :: v in def <==> Killed(g.blocks[b], v))
    && (forall v :: Exposed(g.blocks[b], v) ==> v in liveIn[b] && FirstUse(g.blocks[b], v, liveIn[b][v]))
    && Recorded(g, b, liveIn[b])
    && (forall v :: v in liveIn[b] ==> Derived(g, b, liveIn, v))
    && (forall v :: v in out ==> exists c :: c in Succ(g, b) && v in liveIn[c])
  }

  ghost predicate AllSound(g: Graph, def: seq<set<Var>>, liveIn: seq<Descr>, out: seq<set<Var>>) {
    && ValidGraph(g) && |def| == |liveIn| == |out| == |g.blocks|
    && forall b :: 0 <= b < |g.blocks| ==> SoundAt(g, b, def[b], liveIn, out[b])
  }

  /** The equations hold between a block and one successor, read from right to left. */
  ghost predicate ClosedFor(def: set<Var>, live: Descr, out: set<Var>, after: Descr) {
    forall v :: v in after ==> v in out && (v in def || v in live)
  }

  /** `live_in` of a block after taking over the variables in `keys` from a successor. */
  ghost function Merge(live: Descr, def: set<Var>, len: nat, after: Descr, keys: set<Var>): Descr {
    map v | v in live.Keys + (after.Keys * keys - def) :: if v in live then live[v] else after[v] + len
  }

  lemma MergeOne(live: Descr, def: set<Var>, len: nat, after: Descr, v: Var)
    ensures Merge(live, def, len, after, {v})
            == if v in after && v !in def && v !in live then Put(live, v, after[v] + len) else live
  {}

  lemma MergeMore(live: Descr, def: set<Var>, len: nat, after: Descr, after': Descr, keys: set<Var>, v: Var)
    requires v in after && v in after' && after[v] == after'[v]
    ensures Merge(Merge(live, def, len, after, keys), def, len, after', {v}) == Merge(live, def, len, after, keys + {v})
  {}

  lemma MergeKeeps(liveIn: seq<Descr>, b: BlockId, def: set<Var>, len: nat, c: BlockId)
    requires b < |liveIn| && c < |liveIn|
    ensures Kept(liveIn, liveIn[b := Merge(liveIn[b], def, len, liveIn[c], liveIn[c].Keys)])
  {}

  /** A variable live after a block that does not touch it is live before the block. */
  lemma MergeRecords(g: Graph, b: BlockId, c: BlockId, def: set<Var>, liveIn: seq<Descr>, out: set<Var>)
    requires ValidGraph(g) && b < |g.blocks| == |liveIn| && c in Succ(g, b)
    requires SoundAt(g, b, def, liveIn, out) && Recorded(g, c, liveIn[c])
    ensures Recorded(g, b, Merge(liveIn[b], def, |g.blocks[b]|, liveIn[c], liveIn[c].Keys))
  {
    forall v | v in liveIn[c] && v !in def && v !in liveIn[b]
      ensures UseInDistance(g, b, v, liveIn[c][v] + |g.blocks[b]|)
    {
      TouchedFirst(g.blocks[b], v);
      PathStep(g, b, c, v, liveIn[c][v]);
    }
  }

  /** Every block stays right when more is recorded for the same reasons. */
  lemma SoundStays(g: Graph, x: BlockId, def: set<Var>, liveIn: seq<Descr>, liveIn': seq<Descr>, out: set<Var>)
    requires ValidGraph(g) && x < |g.blocks| == |liveIn| && Kept(liveIn, liveIn')
    requires SoundAt(g, x, def, liveIn, out) && Recorded(g, x, liveIn'[x])
    requires forall v :: v in liveIn'[x] && v !in liveIn[x] ==> Derived(g, x, liveIn', v)
    ensures SoundAt(g, x, def, liveIn', out)
  {
    forall v | v in liveIn[x] ensures Derived(g, x, liveIn', v) {
      DerivedStays(g, x, liveIn, liveIn', v);
    }
    forall v | v in out ensures exists c :: c in Succ(g, x) && v in liveIn'[c] {
      var c :| c in Succ(g, x) && v in liveIn[c];
      assert v in liveIn'[c];
    }
  }

  /** All `live_in` sets after block `b` has taken over everything live at the start of `c`. */
  ghost function Absorbed(g: Graph, def: seq<set<Var>>, liveIn: seq<Descr>, b: BlockId, c: BlockId): (r: seq<Descr>)
    requires ValidGraph(g) && b < |g.blocks| == |liveIn| == |def| && c < |g.blocks|
  {
    liveIn[b := Merge(liveIn[b], def[b], |g.blocks[b]|, liveIn[c], liveIn[c].Keys)]
  }

  ghost function Flowed(liveIn: seq<Descr>, out: seq<set<Var>>, b: BlockId, c: BlockId): (r: seq<set<Var>>)
    requires b < |out| && c < |liveIn|
  {
    out[b := out[b] + liveIn[c].Keys]
  }

  /** Taking over everything live at the start of a successor keeps all blocks right. */
  lemma AbsorbSound(g: Graph, def: seq<set<Var>>, liveIn: seq<Descr>, out: seq<set<Var>>, b: BlockId, c: BlockId)
    requires AllSound(g, def, liveIn, out) && b < |g.blocks| && c in Succ(g, b)
    ensures AllSound(g, def, Absorbed(g, def, liveIn, b, c), Flowed(liveIn, out, b, c))
    ensures Kept(liveIn, Absorbed(g, def, liveIn, b, c))
  {
    var liveIn', out' := Absorbed(g, def, liveIn, b, c), Flowed(liveIn, out, b, c);
    MergeKeeps(liveIn, b, def[b], |g.blocks[b]|, c);
    assert SoundAt(g, b, def[b], liveIn, out[b]) && SoundAt(g, c, def[c], liveIn, out[c]);
    MergeRecords(g, b, c, def[b], liveIn, out[b]);
    forall v | v in liveIn'[b] && v !in liveIn[b] ensures Derived(g, b, liveIn', v) {
      assert TakesFrom(g, b, liveIn', v, Some(c));
    }
    forall x | 0 <= x < |g.blocks| ensures SoundAt(g, x, def[x], liveIn', out'[x]) {
      assert SoundAt(g, x, def[x], liveIn, out[x]);
      SoundStays(g, x, def[x], liveIn, liveIn', out[x]);
      assert forall v :: v in liveIn[c] ==> v in liveIn'[c];
    }
  }

  /** The pairs of a block and a mentioned variable that are not recorded. */
  ghost function Missing(mentioned: set<Var>, liveIn: seq<Descr>): set<(BlockId, Var)> {
    set x, v | x in Indices(|liveIn|) && v in mentioned && v !in liveIn[x] :: (x, v)
  }

  ghost predicate Grown(liveIn: seq<Descr>, liveIn': seq<Descr>) {
    |liveIn'| == |liveIn| && exists b, v :: 0 <= b < |liveIn| && v in liveIn'[b] && v !in liveIn[b]
  }

  lemma SameKeys(liveIn: seq<Descr>, liveIn': seq<Descr>)
    requires Kept(liveIn, liveIn') && !Grown(liveIn, liveIn')
    ensures liveIn == liveIn'
  {
    forall b | 0 <= b < |liveIn| ensures liveIn[b] == liveIn'[b] {
      assert liveIn[b].Keys == liveIn'[b].Keys;
    }
  }

  lemma FewerMissing(g: Graph, mentioned: set<Var>, def: seq<set<Var>>, liveIn: seq<Descr>, liveIn': seq<Descr>, out: seq<set<Var>>)
    requires MentionsAll(g, mentioned) && AllSound(g, def, liveIn', out)
    requires Kept(liveIn, liveIn') && Grown(liveIn, liveIn')
    ensures Missing(mentioned, liveIn') < Missing(mentioned, liveIn)
  {
    var b, v :| 0 <= b < |liveIn| && v in liveIn'[b] && v !in liveIn[b];
    assert SoundAt(g, b, def[b], liveIn', out[b]);
    var path :| PathTo(g, b, v, path, liveIn'[b][v]);
    LiveMentioned(g, mentioned, b, v, path, liveIn'[b][v]);
    assert (b, v) in Missing(mentioned, liveIn) && (b, v) !in Missing(mentioned, liveIn');
  }

  ghost function AbsorbedFrom(g: Graph, def: seq<set<Var>>, liveIn: seq<Descr>, b: BlockId, c: Option<BlockId>): (r: seq<Descr>)
    requires ValidGraph(g) && b < |g.blocks| == |liveIn| == |def| && (c.Some? ==> c.value < |g.blocks|)
    ensures |r| == |liveIn|
  {
    if c.Some? then Absorbed(g, def, liveIn, b, c.value) else liveIn
  }

  ghost function FlowedFrom(liveIn: seq<Descr>, out: seq<set<Var>>, b: BlockId, c: Option<BlockId>): (r: seq<set<Var>>)
    requires b < |out| && (c.Some? ==> c.value < |liveIn|)
    ensures |r| == |out|
  {
    if c.Some? then Flowed(liveIn, out, b, c.value) else out
  }

  /** The sets after `b` has taken over the variables of both children, the first one first. */
  ghost function CombinedIn(g: Graph, def: seq<set<Var>>, liveIn: seq<Descr>, b: BlockId): (r: seq<Descr>)
    requires ValidGraph(g) && b < |g.blocks| == |liveIn| == |def|
    ensures |r| == |liveIn|
  {
    AbsorbedFrom(g, def, AbsorbedFrom(g, def, liveIn, b, g.child1[b]), b, g.child2[b])
  }

  ghost function CombinedOut(g: Graph, def: seq<set<Var>>, liveIn: seq<Descr>, out: seq<set<Var>>, b: BlockId): (r: seq<set<Var>>)
    requires ValidGraph(g) && b < |g.blocks| == |liveIn| == |def| == |out|
    ensures |r| == |out|
  {
    FlowedFrom(AbsorbedFrom(g, def, liveIn, b, g.child1[b]), FlowedFrom(liveIn, out, b, g.child1[b]), b, g.child2[b])
  }

  /** Only the sets of `b` have changed, and they have grown. */
  ghost predicate GrewAt(liveIn: seq<Descr>, out: seq<set<Var>>, liveIn': seq<Descr>, out': seq<set<Var>>, b: BlockId) {
    && |out| == |liveIn| && |liveIn'| == |liveIn| && |out'| == |out| && b < |liveIn|
    && liveIn' == liveIn[b := liveIn'[b]] && out' == out[b := out'[b]]
    && Kept(liveIn, liveIn') && out[b] <= out'[b]
  }

  lemma AbsorbFromSound(g: Graph, def: seq<set<Var>>, liveIn: seq<Descr>, out: seq<set<Var>>, b: BlockId, c: Option<BlockId>)
    requires AllSound(g, def, liveIn, out) && b < |g.blocks| && (c.Some? ==> c.value in Succ(g, b))
    ensures AllSound(g, def, AbsorbedFrom(g, def, liveIn, b, c), FlowedFrom(liveIn, out, b, c))
    ensures GrewAt(liveIn, out, AbsorbedFrom(g, def, liveIn, b, c), FlowedFrom(liveIn, out, b, c), b)
  {
    if c.Some? {
      AbsorbSound(g, def, liveIn, out, b, c.value);
    }
  }

  lemma GrewTwice(liveIn: seq<Descr>, out: seq<set<Var>>, liveIn1: seq<Descr>, out1: seq<set<Var>>, liveIn2: seq<Descr>, out2: seq<set<Var>>, b: BlockId)
    requires GrewAt(liveIn, out, liveIn1, out1, b) && GrewAt(liveIn1, out1, liveIn2, out2, b)
    ensures GrewAt(liveIn, out, liveIn2, out2, b)
  {}

  /** Combining both children keeps all blocks right. */
  lemma CombineSound(g: Graph, def: seq<set<Var>>, liveIn: seq<Descr>, out: seq<set<Var>>, b: BlockId)
    requires AllSound(g, def, liveIn, out) && b < |g.blocks|
    ensures AllSound(g, def, CombinedIn(g, def, liveIn, b), CombinedOut(g, def, liveIn, out, b))
    ensures GrewAt(liveIn, out, CombinedIn(g, def, liveIn, b), CombinedOut(g, def, liveIn, out, b), b)
  {
    var liveIn1, out1 := AbsorbedFrom(g, def, liveIn, b, g.child1[b]), FlowedFrom(liveIn, out, b, g.child1[b]);
    AbsorbFromSound(g, def, liveIn, out, b, g.child1[b]);
    AbsorbFromSound(g, def, liveIn1, out1, b, g.child2[b]);
    GrewTwice(liveIn, out, liveIn1, out1, CombinedIn(g, def, liveIn, b), CombinedOut(g, def, liveIn, out, b), b);
  }

  lemma CombineCloses(g: Graph, def: seq<set<Var>>, liveIn: seq<Descr>, out: seq<set<Var>>, b: BlockId)
    requires ValidGraph(g) && b < |g.blocks| == |liveIn| == |def| == |out|
    requires CombinedIn(g, def, liveIn, b) == liveIn
    ensures ClosedAt(g, b, def[b], liveIn, CombinedOut(g, def, liveIn, out, b)[b])
  {
    var liveIn1 := AbsorbedFrom(g, def, liveIn, b, g.child1[b]);
    assert liveIn1[b].Keys == liveIn[b].Keys;
    assert liveIn1[b] == liveIn[b];
    assert liveIn1 == liveIn;
  }

  // ---------- sweep by sweep ----------

  /** Block `b` is as it is after `k` sweeps. */
  ghost predicate StageAt(g: Graph, k: nat, b: BlockId, liveIn: seq<Descr>)
    requires ValidGraph(g) && b < |g.blocks| == |liveIn|
  {
    && (forall v :: v in liveIn[b] <==> RecordedBy(g, k, b, v))
    && (forall v :: v in liveIn[b] && !Exposed(g.blocks[b], v) ==> TakesCounted(g, b, liveIn, v))
  }

  /** In sweep `k`, the blocks in `order` have been left. */
  ghost predicate Staged(g: Graph, k: nat, order: seq<BlockId>, liveIn: seq<Descr>)
    requires ValidGraph(g) && |g.blocks| == |liveIn| && k > 0
  {
    forall b :: 0 <= b < |g.blocks| && FromEntry(g, b) ==> StageAt(g, if b in order then k else k - 1, b, liveIn)
  }

  lemma StageStays(g: Graph, k: nat, b: BlockId, liveIn: seq<Descr>, liveIn': seq<Descr>)
    requires ValidGraph(g) && b < |g.blocks| == |liveIn| && Kept(liveIn, liveIn') && liveIn'[b] == liveIn[b]
    requires StageAt(g, k, b, liveIn)
    ensures StageAt(g, k, b, liveIn')
  {
    forall v | v in liveIn[b] && !Exposed(g.blocks[b], v) ensures TakesCounted(g, b, liveIn', v) {
      TakesStays(g, b, liveIn, liveIn', v);
    }
  }

  /** What both children contribute: the first one counts where both have the variable. */
  lemma CombinedValues(g: Graph, def: seq<set<Var>>, liveIn: seq<Descr>, b: BlockId, v: Var)
    requires ValidGraph(g) && b < |g.blocks| == |liveIn| == |def|
    ensures var r := CombinedIn(g, def, liveIn, b);
            var c := if g.child1[b].Some? && v in liveIn[g.child1[b].value] then g.child1[b] else g.child2[b];
            && (v in r[b] <==> v in liveIn[b] || (v !in def[b] && exists c :: c in Succ(g, b) && v in liveIn[c]))
            && (v in r[b] && v !in liveIn[b] ==> c.Some? && v in liveIn[c.value] && r[b][v] == liveIn[c.value][v] + |g.blocks[b]|)
  {
    var live1 := AbsorbedFrom(g, def, liveIn, b, g.child1[b]);
    if g.child1[b].Some? { assert g.child1[b].value in Succ(g, b); }
    if g.child2[b].Some? { assert g.child2[b].value in Succ(g, b); }
  }

  /** The successors of the block that is left next are as `Available` says. */
  lemma ChildAvailable(g: Graph, k: nat, order: seq<BlockId>, liveIn: seq<Descr>, b: BlockId, c: BlockId, v: Var)
    requires ValidGraph(g) && b < |g.blocks| == |liveIn| && k > 0 && FromEntry(g, b) && Staged(g, k, order, liveIn)
    requires b !in order && order + [b] <= Order(g) && c in Succ(g, b)
    ensures v in liveIn[c] <==> Available(g, k, b, c, v)
  {
    PosIs(Order(g), b, |order|);
    assert Order(g)[..|order|] == order;
    EntryStep(g, b, c);
    assert StageAt(g, if c in order then k else k - 1, c, liveIn);
  }

  /** Combining the children brings a block to the current sweep. */
  lemma CombineStage(g: Graph, def: seq<set<Var>>, liveIn: seq<Descr>, out: seq<set<Var>>, k: nat, order: seq<BlockId>, b: BlockId)
    requires AllSound(g, def, liveIn, out) && b < |g.blocks| && k > 0 && FromEntry(g, b) && Staged(g, k, order, liveIn)
    requires b !in order && order + [b] <= Order(g)
    ensures StageAt(g, k, b, CombinedIn(g, def, liveIn, b))
  {
    var r := CombinedIn(g, def, liveIn, b);
    CombineSound(g, def, liveIn, out, b);
    assert SoundAt(g, b, def[b], liveIn, out[b]) && StageAt(g, k - 1, b, liveIn);
    forall v: Var
      ensures v in r[b] <==> RecordedBy(g, k, b, v)
      ensures v in r[b] && !Exposed(g.blocks[b], v) ==> TakesCounted(g, b, r, v)
    {
      CombineVar(g, def, liveIn, out, k, order, b, v);
    }
  }

  lemma CombineVar(g: Graph, def: seq<set<Var>>, liveIn: seq<Descr>, out: seq<set<Var>>, k: nat, order: seq<BlockId>, b: BlockId, v: Var)
    requires AllSound(g, def, liveIn, out) && b < |g.blocks| && k > 0 && FromEntry(g, b) && Staged(g, k, order, liveIn)
    requires b !in order && order + [b] <= Order(g) && StageAt(g, k - 1, b, liveIn) && SoundAt(g, b, def[b], liveIn, out[b])
    requires Kept(liveIn, CombinedIn(g, def, liveIn, b))
    ensures var r := CombinedIn(g, def, liveIn, b);
            && (v in r[b] <==> RecordedBy(g, k, b, v))
            && (v in r[b] && !Exposed(g.blocks[b], v) ==> TakesCounted(g, b, r, v))
  {
    var r := CombinedIn(g, def, liveIn, b);
    TouchedFirst(g.blocks[b], v);
    CombinedValues(g, def, liveIn, b, v);
    forall c | c in Succ(g, b) ensures v in liveIn[c] <==> Available(g, k, b, c, v) {
      ChildAvailable(g, k, order, liveIn, b, c, v);
    }
    if v in liveIn[b] {
      RecordedMore(g, k - 1, b, v);
      if !Exposed(g.blocks[b], v) { TakesStays(g, b, liveIn, r, v); }
    } else if v in r[b] {
      FirstNow(g, k, b, v);
      assert TakesFrom(g, b, r, v, CountedIn(g, k, b, v));
    }
  }

  lemma FirstNow(g: Graph, k: nat, b: BlockId, v: Var)
    requires ValidGraph(g) && b < |g.blocks| && k > 0 && RecordedBy(g, k, b, v) && !RecordedBy(g, k - 1, b, v)
    ensures FirstIn(g, k, b, v)
  {
    forall j: nat | j < k ensures !RecordedBy(g, j, b, v) {
      if RecordedBy(g, j, b, v) { RecordedStays(g, j, k - 1, b, v); }
    }
  }

  lemma CombineStages(g: Graph, def: seq<set<Var>>, liveIn: seq<Descr>, out: seq<set<Var>>, k: nat, order: seq<BlockId>, b: BlockId)
    requires AllSound(g, def, liveIn, out) && b < |g.blocks| && k > 0 && FromEntry(g, b) && Staged(g, k, order, liveIn)
    requires b !in order && order + [b] <= Order(g)
    ensures Staged(g, k, order + [b], CombinedIn(g, def, liveIn, b))
  {
    var r := CombinedIn(g, def, liveIn, b);
    CombineSound(g, def, liveIn, out, b);
    CombineStage(g, def, liveIn, out, k, order, b);
    forall x | 0 <= x < |g.blocks| && FromEntry(g, x) ensures StageAt(g, if x in order + [b] then k else k - 1, x, r) {
      if x != b { StageStays(g, if x in order then k else k - 1, x, liveIn, r); }
    }
  }

  /** Once all blocks have been left, the next sweep can begin. */
  lemma NextSweep(g: Graph, k: nat, order: seq<BlockId>, liveIn: seq<Descr>)
    requires ValidGraph(g) && |g.blocks| == |liveIn| && k > 0 && Staged(g, k, order, liveIn)
    requires forall b :: 0 <= b < |g.blocks| && FromEntry(g, b) ==> b in order
    ensures Staged(g, k + 1, [], liveIn)
  {}

  ghost predicate ExactAt(g: Graph, b: BlockId, liveIn: seq<Descr>, out: set<Var>)
    requires ValidGraph(g) && b < |g.blocks| == |liveIn|
  {
    && (forall v :: v in liveIn[b] <==> Live(g, b, v))
    && (forall v :: v in out <==> exists c :: c in Succ(g, b) && Live(g, c, v))
  }

  ghost predicate ClosedAt(g: Graph, b: BlockId, def: set<Var>, liveIn: seq<Descr>, out: set<Var>)
    requires ValidGraph(g) && b < |g.blocks| == |liveIn|
  {
    forall c :: c in Succ(g, b) ==> ClosedFor(def, liveIn[b], out, liveIn[c])
  }

  /** Where the equations hold along a path to a use, the variable has been recorded. */
  lemma {:induction false} PathRecorded(g: Graph, def: seq<set<Var>>, liveIn: seq<Descr>, out: seq<set<Var>>,
                                        visited: set<BlockId>, b: BlockId, v: Var, path: seq<BlockId>, n: nat)
    requires ValidGraph(g) && |def| == |liveIn| == |out| == |g.blocks|
    requires forall x :: 0 <= x < |g.blocks| ==> SoundAt(g, x, def[x], liveIn, out[x])
    requires forall x :: x in visited ==> x < |g.blocks| && Succ(g, x) <= visited
    requires forall x :: x in visited ==> x < |g.blocks| && ClosedAt(g, x, def[x], liveIn, out[x])
    requires b in visited && PathTo(g, b, v, path, n)
    ensures v in liveIn[b]
    decreases path
  {
    assert SoundAt(g, b, def[b], liveIn, out[b]);
    if path == [] {
      assert UseAt(g.blocks[b], v, n);
    } else {
      PathRecorded(g, def, liveIn, out, visited, path[0], v, path[1..], n - |g.blocks[b]|);
      TouchedFirst(g.blocks[b], v);
    }
  }

  /** Sound sets that satisfy the equations on a closed set of blocks are exact there. */
  lemma FixpointExact(g: Graph, def: seq<set<Var>>, liveIn: seq<Descr>, out: seq<set<Var>>,
                      visited: set<BlockId>, b: BlockId)
    requires ValidGraph(g) && |def| == |liveIn| == |out| == |g.blocks|
    requires forall x :: 0 <= x < |g.blocks| ==> SoundAt(g, x, def[x], liveIn, out[x])
    requires forall x :: x in visited ==> x < |g.blocks| && Succ(g, x) <= visited
    requires forall x :: x in visited ==> x < |g.blocks| && ClosedAt(g, x, def[x], liveIn, out[x])
    requires b in visited
    ensures ExactAt(g, b, liveIn, out[b])
  {
    forall x, v: Var | x in visited ensures v in liveIn[x] <==> Live(g, x, v) {
      assert SoundAt(g, x, def[x], liveIn, out[x]);
      if Live(g, x, v) {
        var n: nat :| UseInDistance(g, x, v, n);
        var path :| PathTo(g, x, v, path, n);
        PathRecorded(g, def, liveIn, out, visited, x, v, path, n);
      }
    }
    assert SoundAt(g, b, def[b], liveIn, out[b]) && ClosedAt(g, b, def[b], liveIn, out[b]);
  }

  /** A sweep that changed nothing leaves exact sets at every block it has reached. */
  lemma SweptExact(g: Graph, def: seq<set<Var>>, liveIn: seq<Descr>, out: seq<set<Var>>, visited: set<BlockId>)
    requires AllSound(g, def, liveIn, out) && 0 in visited
    requires forall x :: x in visited ==> x < |g.blocks| && Succ(g, x) <= visited && ClosedAt(g, x, def[x], liveIn, out[x])
    ensures forall b :: 0 <= b < |g.blocks| && FromEntry(g, b) ==> b in visited && ExactAt(g, b, liveIn, out[b])
  {
    forall b | 0 <= b < |g.blocks| && FromEntry(g, b) ensures b in visited && ExactAt(g, b, liveIn, out[b]) {
      var path :| Reachable(g, b, path);
      ReachableClosed(g, visited, b, path);
      FixpointExact(g, def, liveIn, out, visited, b);
    }
  }

  /** A sweep leaves every block that can be reached. */
  lemma AllLeft(g: Graph, visited: set<BlockId>, order: seq<BlockId>)
    requires ValidGraph(g) && 0 in visited && forall x :: x in visited ==> x < |g.blocks| && Succ(g, x) <= visited
    requires forall x :: x in visited ==> x in order
    ensures forall b :: 0 <= b < |g.blocks| && FromEntry(g, b) ==> b in order
  {
    forall b | 0 <= b < |g.blocks| && FromEntry(g, b) ensures b in order {
      var path :| Reachable(g, b, path);
      ReachableClosed(g, visited, b, path);
    }
  }

  /** Sweeps end with the result of the analysis. */
  lemma SweptResult(g: Graph, def: seq<set<Var>>, liveIn: seq<Descr>, out: seq<set<Var>>, k: nat)
    requires AllSound(g, def, liveIn, out) && k > 0 && Staged(g, k, [], liveIn)
    requires forall b :: 0 <= b < |g.blocks| && FromEntry(g, b) ==> ExactAt(g, b, liveIn, out[b])
    ensures AnalysisResult(g, liveIn)
  {
    forall b | 0 <= b < |g.blocks| && FromEntry(g, b) ensures ResultAt(g, b, liveIn) {
      assert SoundAt(g, b, def[b], liveIn, out[b]) && StageAt(g, k - 1, b, liveIn);
    }
  }

  class Analysis {
    const g: Graph
    var liveDef: seq<set<Var>>
    var liveIn: seq<Descr>
    var liveOut: seq<set<Var>>
    var visited: set<BlockId>
    var changed: bool

    ghost const mentioned: set<Var>

    /** The blocks the current sweep has left, in that order. */
    ghost var order: seq<BlockId>

    constructor (g: Graph)
      requires ValidGraph(g)
      ensures this.g == g && Sized()
    {
      mentioned := AllMentioned(g.blocks);
      order := [];
      AllExposedMentioned(g);
      this.g := g;
      var n := |g.blocks|;
      liveDef := seq(n, _ => {});
      liveIn := seq(n, _ => map[]);
      liveOut := seq(n, _ => {});
      visited := {};
      changed := false;
    }

    ghost predicate Sized()
      reads this
    {
      && ValidGraph(g) && |liveDef| == |liveIn| == |liveOut| == |g.blocks|
      && MentionsAll(g, mentioned)
    }

    ghost predicate Sound()
      reads this
    {
      && Sized()
      && AllSound(g, liveDef, liveIn, liveOut)
    }

    ghost predicate Closed(b: BlockId)
      requires Sized() && b < |g.blocks|
      reads this
    {
      ClosedAt(g, b, liveDef[b], liveIn, liveOut[b])
    }

    // ---------- inside a block ----------

    /** update_live */
    method UpdateLive(b: BlockId, v: Var, nud: nat)
      requires Sized() && b < |g.blocks|
      modifies this`liveDef, this`liveIn
      ensures Sized()
      ensures liveDef == old(liveDef)[b := old(liveDef[b]) - {v}]
      ensures liveIn == old(liveIn)[b := Put(old(liveIn[b]), v, nud)]
    {
      liveDef := liveDef[b := liveDef[b] - {v}];
      liveIn := liveIn[b := Put(liveIn[b], v, nud)];
    }

    /** The sets of other blocks stay as they are. */
    twostate predicate OnlyAt(b: BlockId)
      requires old(Sized()) && Sized() && b < |g.blocks|
      reads this
    {
      && liveDef == old(liveDef)[b := liveDef[b]]
      && liveIn == old(liveIn)[b := liveIn[b]]
      && liveOut == old(liveOut)[b := liveOut[b]]
    }

    /** One round of the scan: first the result, then the arguments. */
    method ScanQuad(b: BlockId, q: Quad, i: nat)
      requires Sized() && b < |g.blocks|
      modifies this`liveDef, this`liveIn
      ensures Sized() && OnlyAt(b)
      ensures StepsTo(q, i, old(liveIn[b]), old(liveDef[b]), liveIn[b], liveDef[b])
    {
      if q.result.VarArg? && Assigns(q, q.result.v) {
        var v := q.result.v;
        liveIn := liveIn[b := liveIn[b] - {v}];
        liveDef := liveDef[b := liveDef[b] + {v}];
      } else if q.result.VarArg? && Uses(q, q.result.v) {
        UpdateLive(b, q.result.v, i);
      }
      ScanArgs(b, q, i);
    }

    method ScanArgs(b: BlockId, q: Quad, i: nat)
      requires Sized() && b < |g.blocks|
      modifies this`liveDef, this`liveIn
      ensures Sized() && OnlyAt(b)
      ensures liveDef[b] == old(liveDef[b]) - ArgVars(q.arg1) - ArgVars(q.arg2)
      ensures liveIn[b].Keys == old(liveIn[b]).Keys + ArgVars(q.arg1) + ArgVars(q.arg2)
      ensures forall v :: v in liveIn[b] ==>
                liveIn[b][v] == if v in ArgVars(q.arg1) + ArgVars(q.arg2) then i else old(liveIn[b])[v]
    {
      if q.arg1.VarArg? {
        UpdateLive(b, q.arg1.v, i);
      }
      if q.arg2.VarArg? {
        UpdateLive(b, q.arg2.v, i);
      }
    }

    /** compute_live_def_use: one backward scan. */
    method ComputeLiveDefUse(b: BlockId)
      requires Sized() && b < |g.blocks|
      modifies this`liveDef, this`liveIn, this`liveOut
      ensures Sized() && OnlyAt(b)
      ensures Scanned(g.blocks[b], liveIn[b], liveDef[b]) && liveOut[b] == {}
    {
      var qs := g.blocks[b];
      liveDef := liveDef[b := {}];
      liveIn := liveIn[b := map[]];
      liveOut := liveOut[b := {}];
      var i := |qs|;
      while i > 0
        invariant 0 <= i <= |qs| && Sized() && liveOut[b] == {}
        invariant ScannedFrom(qs, i, liveIn[b], liveDef[b])
        invariant OnlyAt(b)
      {
        i := i - 1;
        ghost var use, def := liveIn[b], liveDef[b];
        ScanQuad(b, qs[i], i);
        ScanStep(qs, i, use, def, liveIn[b], liveDef[b]);
      }
      ScanDone(qs, liveIn[b], liveDef[b]);
    }

    // ---------- between blocks ----------

    /** Sets only get larger, and a recorded distance never changes. */
    twostate predicate Grew()
      requires old(Sized()) && Sized()
      reads this
    {
      && liveDef == old(liveDef)
      && Kept(old(liveIn), liveIn)
      && (forall b :: 0 <= b < |g.blocks| ==> old(liveOut[b]) <= liveOut[b])
    }

    /** A sweep that sets `changed` has recorded something new; otherwise it has left `live_in` alone. */
    twostate predicate Progress()
      requires old(Sized()) && Sized()
      reads this
    {
      && Grew()
      && (old(changed) ==> changed)
      && (!changed ==> liveIn == old(liveIn))
      && (changed && !old(changed) ==> Grown(old(liveIn), liveIn))
    }

    /** The body of compute_in_out, for one variable live at the start of the successor `c`. */
    method PassUp(b: BlockId, c: BlockId, v: Var)
      requires Sized() && b < |g.blocks| && c < |g.blocks| && v in liveIn[c]
      modifies this`liveIn, this`liveOut, this`changed
      ensures Sized() && OnlyAt(b)
      ensures liveOut[b] == old(liveOut[b]) + {v}
      ensures liveIn[b] == Merge(old(liveIn[b]), liveDef[b], |g.blocks[b]|, old(liveIn[c]), {v})
      ensures changed == (old(changed) || v in liveIn[b].Keys - old(liveIn[b]).Keys)
    {
      MergeOne(liveIn[b], liveDef[b], |g.blocks[b]|, liveIn[c], v);
      if v !in liveDef[b] {
        var nud := liveIn[c][v] + |g.blocks[b]|;
        if v !in liveIn[b] {
          liveIn := liveIn[b := Put(liveIn[b], v, nud)];
          changed := true;
        } else {
          // The source compares `nud` with the descriptor of the successor, which is never
          // larger, so that no recorded distance is ever lowered.
          assert liveIn[c][v] <= nud;
        }
      }
      liveOut := liveOut[b := liveOut[b] + {v}];
    }

    /** compute_in_out: everything live at the start of the successor `c` flows to the end of `b`. */
    method ComputeInOut(b: BlockId, c: BlockId)
      requires Sized() && b < |g.blocks| && c < |g.blocks|
      modifies this`liveIn, this`liveOut, this`changed
      ensures Sized()
      ensures liveIn == Absorbed(g, liveDef, old(liveIn), b, c)
      ensures liveOut == Flowed(old(liveIn), old(liveOut), b, c)
      ensures changed == (old(changed) || Grown(old(liveIn), liveIn))
    {
      var todo := liveIn[c].Keys;
      ghost var live0, after, done := liveIn[b], liveIn[c], {};
      while todo != {}
        invariant Sized() && OnlyAt(b)
        invariant done + todo == after.Keys && (forall v :: v in after ==> v in liveIn[c] && liveIn[c][v] == after[v])
        invariant liveIn[b] == Merge(live0, liveDef[b], |g.blocks[b]|, after, done)
        invariant liveOut[b] == old(liveOut[b]) + done
        invariant changed == (old(changed) || exists v :: v in liveIn[b] && v !in live0)
        decreases todo
      {
        var v :| v in todo;
        MergeMore(live0, liveDef[b], |g.blocks[b]|, after, liveIn[c], done, v);
        PassUp(b, c, v);
        todo, done := todo - {v}, done + {v};
      }
      assert done == after.Keys;
    }

    ghost predicate Visiting()
      reads this
    {
      Sound() && forall x :: x in visited ==> x < |g.blocks|
    }

    ghost function Unvisited(): set<BlockId>
      reads this
    {
      Indices(|g.blocks|) - visited
    }

    /** The blocks visited since `before`, other than `open`, have visited successors and satisfy the equations. */
    ghost predicate Done(before: set<BlockId>, open: set<BlockId>)
      requires Visiting()
      reads this
    {
      forall x :: x in visited && x !in before && x !in open ==>
        Succ(g, x) <= visited && (!changed ==> Closed(x))
    }

    ghost function Now(): Trail
      reads this
    {
      Trail(visited, order)
    }

    /** Sweep `k` is under way. */
    ghost predicate InSweep(k: nat)
      reads this
    {
      Visiting() && k > 0 && Staged(g, k, order, liveIn) && forall x :: x in order ==> x in visited
    }

    /** do_liveness: one depth-first sweep from `b`; the equations of a block are applied after its successors. */
    method DoLiveness(b: BlockId, ghost k: nat)
      requires InSweep(k) && b < |g.blocks| && b !in visited && FromEntry(g, b)
      requires Walk(g, Now(), b).order <= Order(g)
      modifies this`liveIn, this`liveOut, this`changed, this`visited, this`order
      ensures InSweep(k) && Progress()
      ensures Now() == Walk(g, old(Now()), b)
      ensures Done(old(visited), {})
      decreases Unvisited(), 0
    {
      ghost var before := visited;
      WalkSteps(g, Now(), b, Order(g));
      visited := visited + {b};
      Visit(b, g.child1[b], before, k);
      Visit(b, g.child2[b], before, k);
      Combine(b, before, k);
    }

    /** The end of do_liveness: both successors are combined into `b`, which brings it to the current sweep. */
    method Combine(b: BlockId, ghost before: set<BlockId>, ghost k: nat)
      requires InSweep(k) && b in visited && Succ(g, b) <= visited && Done(before, {b})
      requires FromEntry(g, b) && b !in order && order + [b] <= Order(g)
      modifies this`liveIn, this`liveOut, this`changed, this`order
      ensures InSweep(k) && Progress() && Done(before, {}) && order == old(order) + [b]
    {
      ghost var live0, out0 := liveIn, liveOut;
      CombineSound(g, liveDef, live0, out0, b);
      CombineStages(g, liveDef, live0, out0, k, order, b);
      CombineBoth(b);
      order := order + [b];
      if !changed {
        SameKeys(live0, liveIn);
        CombineCloses(g, liveDef, live0, out0, b);
      }
    }

    method CombineBoth(b: BlockId)
      requires Sized() && b < |g.blocks|
      modifies this`liveIn, this`liveOut, this`changed
      ensures Sized()
      ensures liveIn == CombinedIn(g, liveDef, old(liveIn), b)
      ensures liveOut == CombinedOut(g, liveDef, old(liveIn), old(liveOut), b)
      ensures changed == (old(changed) || Grown(old(liveIn), liveIn))
    {
      if g.child1[b].Some? {
        ComputeInOut(b, g.child1[b].value);
      }
      ghost var liveIn1 := liveIn;
      if g.child2[b].Some? {
        ComputeInOut(b, g.child2[b].value);
      }
    }

    method Visit(b: BlockId, c: Option<BlockId>, ghost before: set<BlockId>, ghost k: nat)
      requires InSweep(k) && b in visited && (c.Some? ==> c.value in Succ(g, b)) && b !in before && Done(before, {b})
      requires FromEntry(g, b) && WalkChild(g, Now(), c).order <= Order(g)
      modifies this`liveIn, this`liveOut, this`changed, this`visited, this`order
      ensures InSweep(k) && Progress()
      ensures Now() == WalkChild(g, old(Now()), c) && (c.Some? ==> c.value in visited)
      ensures Done(before, {b})
      decreases Unvisited(), 1
    {
      if c.Some? && c.value !in visited {
        EntryStep(g, b, c.value);
        DoLiveness(c.value, k);
      }
    }

    /** analyze_liveness: scan every block, then sweep until nothing changes. */
    method Analyze()
      requires Sized()
      modifies this
      ensures Sound()
      ensures forall b :: 0 <= b < |g.blocks| && FromEntry(g, b) ==> ExactAt(g, b, liveIn, liveOut[b])
      ensures AnalysisResult(g, liveIn) && (AllNearest(g, liveIn) <==> CountedIsNearest(g))
    {
      ScanAll();
      assert Reachable(g, 0, []);
      changed := true;
      visited, order := {}, [];
      ghost var k := 1;
      while changed
        invariant Sound() && k > 0 && Staged(g, k, [], liveIn)
        invariant !changed ==> Visiting() && 0 in visited && Done({}, {})
        decreases Missing(mentioned, liveIn), if changed then 1 else 0
      {
        k := Sweep(k);
      }
      assert forall x :: x in visited ==> Closed(x);
      SweptExact(g, liveDef, liveIn, liveOut, visited);
      SweptResult(g, liveDef, liveIn, liveOut, k);
      NearestIff(g, liveIn);
    }

    /** One round of the loop in analyze_liveness. */
    method Sweep(ghost k: nat) returns (ghost k': nat)
      requires Sound() && k > 0 && Staged(g, k, [], liveIn) && FromEntry(g, 0)
      modifies this`liveIn, this`liveOut, this`changed, this`visited, this`order
      ensures Visiting() && k' > 0 && Staged(g, k', [], liveIn) && 0 in visited && Done({}, {})
      ensures changed ==> Missing(mentioned, liveIn) < old(Missing(mentioned, liveIn))
      ensures !changed ==> liveIn == old(liveIn)
    {
      ghost var live0 := liveIn;
      changed := false;
      visited, order := {}, [];
      DoLiveness(0, k);
      AllLeft(g, visited, order);
      NextSweep(g, k, order, liveIn);
      k' := k + 1;
      if changed {
        FewerMissing(g, mentioned, liveDef, live0, liveIn, liveOut);
      }
    }

    method ScanAll()
      requires Sized()
      modifies this`liveDef, this`liveIn, this`liveOut
      ensures Sound()
      ensures Staged(g, 1, [], liveIn)
    {
      var b := 0;
      while b < |g.blocks|
        invariant 0 <= b <= |g.blocks| && Sized()
        invariant forall x :: 0 <= x < b ==> Scanned(g.blocks[x], liveIn[x], liveDef[x]) && liveOut[x] == {}
      {
        ComputeLiveDefUse(b);
        b := b + 1;
      }
      forall x | 0 <= x < |g.blocks| ensures SoundAt(g, x, liveDef[x], liveIn, liveOut[x]) {
        assert Scanned(g.blocks[x], liveIn[x], liveDef[x]);
        forall v | v in liveIn[x] ensures UseInDistance(g, x, v, liveIn[x][v]) {
          assert PathTo(g, x, v, [], liveIn[x][v]);
        }
      }
    }

    /** finish_liveness_computation: the variables live at the end of `b`, listed once each. */
    method LiveAtEnd(b: BlockId) returns (vars: seq<Var>)
      requires Sized() && b < |g.blocks|
      ensures forall v :: v in vars <==> v in liveOut[b]
      ensures forall i, j :: 0 <= i < j < |vars| ==> vars[i] != vars[j]
    {
      vars := [];
      var rest := liveOut[b];
      while rest != {}
        invariant rest <= liveOut[b]
        invariant forall v :: v in vars <==> v in liveOut[b] && v !in rest
        invariant forall i, j :: 0 <= i < j < |vars| ==> vars[i] != vars[j]
        decreases rest
      {
        var v :| v in rest;
        vars := vars + [v];
        rest := rest - {v};
      }
    }
  }

  /** What one quadruple does to the sets of the scan. */
  ghost predicate StepsTo(q: Quad, i: nat, use: Descr, def: set<Var>, use': Descr, def': set<Var>) {
    && (forall v :: v in use' <==> Uses(q, v) || (v in use && !Assigns(q, v)))
    && (forall v :: v in use' ==> use'[v] == if Uses(q, v) then i else use[v])
    && (forall v :: v in def' <==> !Uses(q, v) && (Assigns(q, v) || v in def))
  }

  /** The state of the scan: right for `qs[i..]`, with distances counted from the block start. */
  ghost predicate ScannedFrom(qs: seq<Quad>, i: nat, use: Descr, def: set<Var>)
    requires i <= |qs|
  {
    && (forall v :: v in use <==> Exposed(qs[i..], v))
    && (forall v :: v in use ==> use[v] >= i && FirstUse(qs[i..], v, use[v] - i))
    && (forall v :: v in def <==> Killed(qs[i..], v))
  }

  lemma ScanStep(qs: seq<Quad>, i: nat, use: Descr, def: set<Var>, use': Descr, def': set<Var>)
    requires i < |qs| && ScannedFrom(qs, i + 1, use, def)
    requires StepsTo(qs[i], i, use, def, use', def')
    ensures ScannedFrom(qs, i, use', def')
  {
    assert qs[i..] == [qs[i]] + qs[i + 1..];
    forall v: Var
      ensures v in use' <==> Exposed(qs[i..], v)
      ensures v in def' <==> Killed(qs[i..], v)
    {
      ExposedHere(qs[i], qs[i + 1..], v);
    }
    forall v | v in use' ensures use'[v] >= i && FirstUse(qs[i..], v, use'[v] - i) {
      if !Uses(qs[i], v) {
        FirstUseHere(qs[i], qs[i + 1..], v, use[v] - (i + 1));
      }
    }
  }

  lemma FirstUseHere(q: Quad, rest: seq<Quad>, v: Var, k: nat)
    requires FirstUse(rest, v, k) && !Uses(q, v) && !Assigns(q, v)
    ensures FirstUse([q] + rest, v, k + 1)
  {}

  lemma ScanDone(qs: seq<Quad>, use: Descr, def: set<Var>)
    requires ScannedFrom(qs, 0, use, def)
    ensures Scanned(qs, use, def)
  {
    assert qs[0..] == qs;
  }

  // ---------- the block graph ----------

  predicate IsJump(op: Op) { op.Goto? || IsIfOp(op) }

  /** Jumps go to blocks of the function. */
  ghost predicate Targeted(blocks: seq<seq<Quad>>) {
    forall b :: 0 <= b < |blocks| && blocks[b] != [] && IsJump(blocks[b][|blocks[b]| - 1].op) ==>
      var target := blocks[b][|blocks[b]| - 1].result;
      target.LabelArg? && target.block < |blocks|
  }

  /** Control can pass from the end of block `b` to the start of block `c`. */
  ghost predicate CanFollow(blocks: seq<seq<Quad>>, b: BlockId, c: BlockId)
    requires b < |blocks|
  {
    var last := if blocks[b] == [] then None else Some(blocks[b][|blocks[b]| - 1]);
    || (last.Some? && IsJump(last.value.op) && last.value.result == LabelArg(c))
    || (c == b + 1 < |blocks| && !(last.Some? && (last.value.op.Goto? || last.value.op.Return?)))
  }

  /** create_block_graph: two children at most, read off the last quadruple of each block. */
  method CreateBlockGraph(blocks: seq<seq<Quad>>) returns (g: Graph)
    requires blocks != [] && Targeted(blocks)
    ensures ValidGraph(g) && g.blocks == blocks
    ensures forall b, c: BlockId :: 0 <= b < |blocks| ==> (c in Succ(g, b) <==> CanFollow(blocks, b, c))
    ensures forall b :: 0 <= b < |blocks| ==> JumpFirst(blocks, b, g.child1[b], g.child2[b])
  {
    var child1: seq<Option<BlockId>>, child2: seq<Option<BlockId>> := [], [];
    var b := 0;
    while b < |blocks|
      invariant b <= |blocks| && |child1| == |child2| == b
      invariant forall x :: 0 <= x < b ==> ChildrenOf(blocks, x, child1[x], child2[x]) && JumpFirst(blocks, x, child1[x], child2[x])
    {
      var next: Option<BlockId> := if b + 1 < |blocks| then Some(b + 1) else None;
      var c1, c2: Option<BlockId> := next, None;
      if blocks[b] != [] {
        var last := blocks[b][|blocks[b]| - 1];
        if last.op.Return? {
          c1 := None;
        } else if last.op.Goto? {
          c1 := Some(last.result.block);
        } else if IsIfOp(last.op) {
          c1, c2 := Some(last.result.block), next;
        }
      }
      child1, child2 := child1 + [c1], child2 + [c2];
      b := b + 1;
    }
    g := Graph(blocks, child1, child2);
    forall x, c: BlockId | 0 <= x < |blocks| ensures c in Succ(g, x) <==> CanFollow(blocks, x, c) {
      assert ChildrenOf(blocks, x, child1[x], child2[x]);
    }
  }

  /** The target of a jump is the first child, and only a conditional jump has a second one, the next block. */
  ghost predicate JumpFirst(blocks: seq<seq<Quad>>, b: BlockId, c1: Option<BlockId>, c2: Option<BlockId>)
    requires b < |blocks|
  {
    var last := if blocks[b] == [] then None else Some(blocks[b][|blocks[b]| - 1]);
    && (last.Some? && (last.value.op.Goto? || IsIfOp(last.value.op)) ==> c1.Some? && last.value.result == LabelArg(c1.value))
    && (c2.Some? ==> last.Some? && IsIfOp(last.value.op) && c2 == Some(b + 1))
    && (last.Some? && IsIfOp(last.value.op) && b + 1 < |blocks| ==> c2.Some?)
  }

  ghost predicate ChildrenOf(blocks: seq<seq<Quad>>, b: BlockId, c1: Option<BlockId>, c2: Option<BlockId>)
    requires b < |blocks|
  {
    && (c1.Some? ==> c1.value < |blocks|) && (c2.Some? ==> c2.value < |blocks|)
    && forall c: BlockId :: (c1 == Some(c) || c2 == Some(c)) <==> CanFollow(blocks, b, c)
  }
}
