/**
  What the copy and dead-store passes leave in the table, entry by entry: which entries are
  gone, and where one variable has taken the place of another.
  */
module PassResults {
  import opened Quadr
  import opened CopyPasses

  ghost predicate Sets(e: Option<Quad>, v: Var) { e.Some? && e.value.op != WritePtr && e.value.result == VarArg(v) }

  ghost predicate Reads(e: Option<Quad>, v: Var) {
    e.Some? && (e.value.arg1 == VarArg(v) || e.value.arg2 == VarArg(v) || (e.value.op == WritePtr && e.value.result == VarArg(v)))
  }

  ghost predicate CopyOf(e: Option<Quad>, v0: Var, v1: Var) {
    e.Some? && e.value.op == Copy && e.value.result == VarArg(v0) && e.value.arg1 == VarArg(v1)
  }

  ghost predicate IsSelfCopy(e: Option<Quad>) { exists v: Var :: CopyOf(e, v, v) }

  // ---------- redundant copies ----------

  /** Copies of a variable to itself are gone, and nothing else. */
  ghost predicate IsPruning(t: Table, r: Table) {
    |r| == |t| && forall i :: 0 <= i < |t| ==> IsPrunedEntry(t[i], r[i])
  }

  ghost predicate IsPrunedEntry(e: Option<Quad>, e': Option<Quad>) { e' == if IsSelfCopy(e) then None else e }

  lemma PrunedEntry(e: Option<Quad>)
    ensures IsPrunedEntry(e, Pruned(e))
  {
    if Pruned(e) != e { assert CopyOf(e, e.value.result.v, e.value.result.v); }
  }

  lemma {:induction false} PruneAllIs(t: Table)
    ensures IsPruning(t, PruneAll(t))
  {
    if t != [] {
      PruneAllIs(t[1..]);
      PrunedEntry(t[0]);
      var r := PruneAll(t);
      forall i | 0 <= i < |t| ensures IsPrunedEntry(t[i], r[i]) {
        if i > 0 { assert IsPrunedEntry(t[1..][i - 1], PruneAll(t[1..])[i - 1]); }
      }
    }
  }

  // ---------- dead assignments ----------

  /** From entry `i` on, `v` is assigned again at `k` and not used before or there. */
  ghost predicate OverwrittenAt(t: Table, i: nat, v: Var, k: nat) {
    i <= k < |t| && Sets(t[k], v) && forall j :: i <= j <= k ==> !Reads(t[j], v)
  }

  ghost predicate Overwritten(t: Table, i: nat, v: Var) { exists k :: OverwrittenAt(t, i, v, k) }

  /** Entry `e` assigns a variable that is overwritten from entry `i` on. */
  ghost predicate Dead(e: Option<Quad>, t: Table, i: nat) { exists v: Var :: Sets(e, v) && Overwritten(t, i, v) }

  /** Exactly the assignments that are dead in what is left behind them are gone. */
  ghost predicate IsSweep(t: Table, r: Table) {
    |r| == |t| && forall i :: 0 <= i < |t| ==> IsSweptEntry(t, r, i)
  }

  ghost predicate IsSweptEntry(t: Table, r: Table, i: nat)
    requires i < |t| == |r|
  {
    r[i] == if Dead(t[i], r, i + 1) then None else t[i]
  }

  lemma OverwrittenNext(t: Table, i: nat, v: Var)
    requires i < |t|
    ensures Overwritten(t, i, v) <==> !Reads(t[i], v) && (Sets(t[i], v) || Overwritten(t, i + 1, v))
  {
    if Overwritten(t, i, v) {
      var k: nat :| OverwrittenAt(t, i, v, k);
      if k > i { assert OverwrittenAt(t, i + 1, v, k); }
    }
    if !Reads(t[i], v) {
      if Sets(t[i], v) {
        assert OverwrittenAt(t, i, v, i);
      } else if Overwritten(t, i + 1, v) {
        var k: nat :| OverwrittenAt(t, i + 1, v, k);
        assert OverwrittenAt(t, i, v, k);
      }
    }
  }

  lemma {:induction false} DoomedIff(t: Table, i: nat, v: Var)
    requires i <= |t|
    ensures v in Doomed(t[i..]) <==> Overwritten(t, i, v)
    decreases |t| - i
  {
    if i < |t| {
      assert t[i..][1..] == t[i + 1..];
      DoomedIff(t, i + 1, v);
      OverwrittenNext(t, i, v);
    }
  }

  lemma DeadIff(e: Option<Quad>, t: Table, i: nat)
    requires i <= |t|
    ensures Dead(e, t, i) <==> e.Some? && DeadBefore(e.value, Doomed(t[i..]))
  {
    if Dead(e, t, i) {
      var v :| Sets(e, v) && Overwritten(t, i, v);
      DoomedIff(t, i, v);
    }
    if e.Some? && e.value.result.VarArg? { DoomedIff(t, i, e.value.result.v); }
  }

  lemma {:induction false} SweepAt(t: Table, i: nat)
    requires i < |t|
    ensures Sweep(t)[i] == if t[i].Some? && DeadBefore(t[i].value, Doomed(Sweep(t)[i + 1..])) then None else t[i]
  {
    var r := Sweep(t);
    if i > 0 {
      SweepAt(t[1..], i - 1);
      assert r[i + 1..] == Sweep(t[1..])[i..];
    } else {
      assert r[1..] == Sweep(t[1..]);
    }
  }

  lemma SweepIs(t: Table)
    ensures IsSweep(t, Sweep(t))
  {
    var r := Sweep(t);
    forall i | 0 <= i < |t| ensures IsSweptEntry(t, r, i) {
      SweepAt(t, i);
      DeadIff(t[i], r, i + 1);
    }
  }

  /** There is only one such table, so the order in which the rounds remove entries does not matter. */
  lemma {:induction false} SweepOnly(t: Table, r: Table, r': Table, i: nat)
    requires IsSweep(t, r) && IsSweep(t, r') && i <= |t|
    ensures r[i..] == r'[i..]
    decreases |t| - i
  {
    if i < |t| {
      SweepOnly(t, r, r', i + 1);
      assert IsSweptEntry(t, r, i) && IsSweptEntry(t, r', i);
      DeadIff(t[i], r, i + 1);
      DeadIff(t[i], r', i + 1);
      assert r[i..] == [r[i]] + r[i + 1..] && r'[i..] == [r'[i]] + r'[i + 1..];
    }
  }

  // ---------- renaming ----------

  /** `v1` has taken the place of `v0`; a copy that has become one of a variable to itself is gone. */
  ghost predicate IsRenamed(e: Option<Quad>, e': Option<Quad>, v0: Var, v1: Var) {
    if e.None? then e'.None?
    else
      var q := e.value;
      var result := if q.result == VarArg(v0) then VarArg(v1) else q.result;
      var arg1 := if q.arg1 == VarArg(v0) then VarArg(v1) else q.arg1;
      var arg2 := if q.arg2 == VarArg(v0) then VarArg(v1) else q.arg2;
      IsPrunedEntry(Some(Quad(q.op, result, arg1, arg2)), e')
  }

  /** Only in the arguments. */
  ghost predicate IsArgRenamed(e: Option<Quad>, e': Option<Quad>, v0: Var, v1: Var) {
    && e.Some? && e'.Some? && e'.value.op == e.value.op && e'.value.result == e.value.result
    && e'.value.arg1 == (if e.value.arg1 == VarArg(v0) then VarArg(v1) else e.value.arg1)
    && e'.value.arg2 == (if e.value.arg2 == VarArg(v0) then VarArg(v1) else e.value.arg2)
  }

  /** One of the two variables gets a value other than that of the other. */
  ghost predicate Parts(e: Option<Quad>, v0: Var, v1: Var) {
    (Sets(e, v0) || Sets(e, v1)) && !(e.value.op == Copy && (e.value.arg1 == VarArg(v0) || e.value.arg1 == VarArg(v1)))
  }

  ghost predicate NoneParts(t: Table, i: nat, k: nat, v0: Var, v1: Var)
    requires k <= |t|
  {
    forall m :: i <= m < k ==> !Parts(t[m], v0, v1)
  }

  /** From `i` on, `v1` takes the place of `v0` up to the first entry that parts them, where only arguments are renamed. */
  ghost predicate IsForwardEntry(t: Table, r: Table, i: nat, k: nat, v0: Var, v1: Var)
    requires i <= k < |t| == |r|
  {
    if !NoneParts(t, i, k, v0, v1) then r[k] == t[k]
    else if Parts(t[k], v0, v1) then IsArgRenamed(t[k], r[k], v0, v1)
    else IsRenamed(t[k], r[k], v0, v1)
  }

  ghost predicate IsForward(t: Table, r: Table, i: nat, v0: Var, v1: Var) {
    |r| == |t| && forall k :: i <= k < |t| ==> IsForwardEntry(t, r, i, k, v0, v1)
  }

  lemma PartsIff(q: Quad, v0: Var, v1: Var)
    ensures Parts(Some(q), v0, v1) <==> StopsForward(SubstArgs(q, v0, v1), v0, v1)
  {}

  lemma RenamedEntry(q: Quad, v0: Var, v1: Var)
    ensures var q' := SubstArgs(q, v0, v1); IsRenamed(Some(q), Pruned(Some(q'.(result := Subst(q'.result, v0, v1)))), v0, v1)
  {
    var q' := SubstArgs(q, v0, v1);
    PrunedEntry(Some(q'.(result := Subst(q'.result, v0, v1))));
  }

  lemma {:induction false} ForwardAt(t: Table, v0: Var, v1: Var, k: nat)
    requires k < |t|
    ensures IsForwardEntry(t, Forward(t, v0, v1), 0, k, v0, v1)
  {
    var r := Forward(t, v0, v1);
    if t[0].Some? {
      PartsIff(t[0].value, v0, v1);
      RenamedEntry(t[0].value, v0, v1);
    }
    if k > 0 {
      if t[0].Some? && Parts(t[0], v0, v1) {
        assert !NoneParts(t, 0, k, v0, v1);
      } else {
        ForwardAt(t[1..], v0, v1, k - 1);
        assert forall m :: 0 <= m < k - 1 ==> t[1..][m] == t[m + 1];
        assert NoneParts(t, 0, k, v0, v1) <==> NoneParts(t[1..], 0, k - 1, v0, v1) by {
          if NoneParts(t[1..], 0, k - 1, v0, v1) {
            forall m | 0 <= m < k ensures !Parts(t[m], v0, v1) { if m > 0 { assert !Parts(t[1..][m - 1], v0, v1); } }
          }
        }
        assert r[k] == Forward(t[1..], v0, v1)[k - 1];
      }
    }
  }

  lemma ForwardIs(t: Table, i: nat, v0: Var, v1: Var)
    requires i <= |t|
    ensures IsForward(t, t[..i] + Forward(t[i..], v0, v1), i, v0, v1)
  {
    var r := t[..i] + Forward(t[i..], v0, v1);
    forall k | i <= k < |t| ensures IsForwardEntry(t, r, i, k, v0, v1) {
      ForwardAt(t[i..], v0, v1, k - i);
      NonePartsBehind(t, i, k, v0, v1);
    }
  }

  lemma NonePartsBehind(t: Table, i: nat, k: nat, v0: Var, v1: Var)
    requires i <= k <= |t|
    ensures NoneParts(t, i, k, v0, v1) <==> NoneParts(t[i..], 0, k - i, v0, v1)
  {
    if NoneParts(t[i..], 0, k - i, v0, v1) {
      forall m | i <= m < k ensures !Parts(t[m], v0, v1) { assert t[i..][m - i] == t[m]; }
    }
  }

  /** Whatever is in front. */
  lemma ForwardElsewhere(t: Table, r: Table, i: nat, v0: Var, v1: Var)
    requires i <= |t| == |r| && r[i..] == Forward(t[i..], v0, v1)
    ensures IsForward(t, r, i, v0, v1)
  {
    ForwardIs(t, i, v0, v1);
    var r' := t[..i] + Forward(t[i..], v0, v1);
    forall k | i <= k < |t| ensures IsForwardEntry(t, r, i, k, v0, v1) {
      assert IsForwardEntry(t, r', i, k, v0, v1) && r[k] == r[i..][k - i] && r'[k] == r[i..][k - i];
    }
  }

  /** One step of forward propagation. */
  ghost predicate IsForwardStep(t: Table, r: Table, i: nat)
    requires i < |t|
  {
    && |r| == |t| && r[..i] == t[..i] && IsPrunedEntry(t[i], r[i])
    && (forall v0, v1 :: CopyOf(r[i], v0, v1) ==> IsForward(t, r, i + 1, v0, v1))
    && ((forall v0, v1 :: !CopyOf(r[i], v0, v1)) ==> r[i + 1..] == t[i + 1..])
  }

  lemma ForwardStepIs(t: Table, i: nat)
    requires i < |t|
    ensures IsForwardStep(t, ForwardStepAt(t, i), i)
  {
    var e, r := Pruned(t[i]), ForwardStepAt(t, i);
    PrunedEntry(t[i]);
    if IsCopy(e) {
      var v0, v1 := e.value.result.v, e.value.arg1.v;
      assert CopyOf(r[i], v0, v1);
      ForwardElsewhere(t, r, i + 1, v0, v1);
    }
  }

  /** Steps of forward propagation at the entries from `i` on, from the first to the last. */
  ghost predicate IsForwardRun(t: Table, r: Table, i: nat)
    requires i <= |t|
    decreases |t| - i
  {
    if i == |t| then r == t else exists t' :: IsForwardStep(t, t', i) && IsForwardRun(t', r, i + 1)
  }

  lemma {:induction false} ForwardAllRuns(t: Table, i: nat)
    requires i <= |t|
    ensures IsForwardRun(t, ForwardAll(t, i), i)
    decreases |t| - i
  {
    if i < |t| {
      ForwardStepIs(t, i);
      ForwardAllRuns(ForwardStepAt(t, i), i + 1);
    }
  }

  // ---------- turning copies around ----------

  /** The source `v1` is assigned at `j`, and between there and `i` it is not assigned again and `v0` is not mentioned. */
  ghost predicate IsSource(t: Table, j: nat, i: nat, v0: Var, v1: Var)
    requires i <= |t|
  {
    j < i && Sets(t[j], v1) && forall k :: j < k < i ==> !Sets(t[k], v1) && !Reads(t[k], v0) && !Sets(t[k], v0)
  }

  lemma {:induction false} CanIff(t: Table, i: nat, v0: Var, v1: Var)
    requires i <= |t|
    ensures CanBackpropagate(t[..i], v0, v1) <==> exists j :: IsSource(t, j, i, v0, v1)
    decreases i
  {
    if i > 0 {
      assert t[..i][..i - 1] == t[..i - 1];
      var h := i - 1;
      CanIff(t, h, v0, v1);
      if Sets(t[h], v1) { assert IsSource(t, h, i, v0, v1); }
      if exists j: nat :: IsSource(t, j, i, v0, v1) {
        var j: nat :| IsSource(t, j, i, v0, v1);
        if j < h { assert IsSource(t, j, h, v0, v1); }
      }
      if exists j: nat :: IsSource(t, j, h, v0, v1) {
        var j: nat :| IsSource(t, j, h, v0, v1);
        if !Sets(t[h], v1) && !Reads(t[h], v0) && !Sets(t[h], v0) { assert IsSource(t, j, i, v0, v1); }
      }
    }
  }

  lemma SourceOnce(t: Table, i: nat, v0: Var, v1: Var, j: nat, j': nat)
    requires i <= |t| && IsSource(t, j, i, v0, v1) && IsSource(t, j', i, v0, v1)
    ensures j == j'
  {}

  /** Before the copy at `i`: from the definition of the source at `j` on, `v0` takes the place of `v1`. */
  ghost predicate IsBackward(t: Table, r: Table, j: nat, i: nat, v0: Var, v1: Var)
    requires j < i <= |t| == |r|
  {
    && r[..j] == t[..j] && t[j].Some? && r[j] == Some(t[j].value.(result := VarArg(v0)))
    && forall k :: j < k < i ==> IsRenamed(t[k], r[k], v1, v0)
  }

  /** One step of backward propagation: the copy at `i` is turned around, or stays if it has no source. */
  ghost predicate IsBackStep(t: Table, r: Table, i: nat)
    requires i < |t|
  {
    && |r| == |t|
    && (forall v0, v1, j :: CopyOf(t[i], v0, v1) && v0 != v1 && IsSource(t, j, i, v0, v1) ==>
          IsBackward(t, r, j, i, v0, v1) && CopyOf(r[i], v1, v0) && IsForward(t, r, i + 1, v1, v0))
    && ((forall v0, v1, j :: CopyOf(t[i], v0, v1) && v0 != v1 ==> !IsSource(t, j, i, v0, v1)) ==>
          IsPrunedEntry(t[i], r[i]) && r[..i] == t[..i] && r[i + 1..] == t[i + 1..])
  }

  lemma {:induction false} BackwardIs(t: Table, i: nat, v0: Var, v1: Var, j: nat)
    requires i <= |t| && v0 != v1 && IsSource(t, j, i, v0, v1)
    ensures var b := Backward(t[..i], v0, v1);
            && b[..j] == t[..j] && t[j].Some? && b[j] == Some(t[j].value.(result := VarArg(v0)))
            && forall k :: j < k < i ==> IsRenamed(t[k], b[k], v1, v0)
    decreases i
  {
    assert t[..i][..i - 1] == t[..i - 1];
    var b := Backward(t[..i], v0, v1);
    if j < i - 1 {
      BackwardIs(t, i - 1, v0, v1, j);
      var b' := Backward(t[..i - 1], v0, v1);
      assert b[..j] == b'[..j];
      if t[i - 1].Some? { RenamedBackEntry(t[i - 1].value, v0, v1); }
      forall k | j < k < i ensures IsRenamed(t[k], b[k], v1, v0) {
        if k < i - 1 { assert b[k] == b'[k]; }
      }
    } else {
      assert b[..j] == t[..j];
    }
  }

  lemma RenamedBackEntry(q: Quad, v0: Var, v1: Var)
    ensures var q' := SubstArgs(q.(result := Subst(q.result, v1, v0)), v1, v0); IsRenamed(Some(q), Pruned(Some(q')), v1, v0)
  {
    PrunedEntry(Some(SubstArgs(q.(result := Subst(q.result, v1, v0)), v1, v0)));
  }

  lemma BackStepIs(t: Table, i: nat)
    requires i < |t|
    ensures IsBackStep(t, BackStep(t, i), i)
  {
    var e, r := Pruned(t[i]), BackStep(t, i);
    PrunedEntry(t[i]);
    forall v0, v1, j | CopyOf(t[i], v0, v1) && v0 != v1 && IsSource(t, j, i, v0, v1)
      ensures IsBackward(t, r, j, i, v0, v1) && CopyOf(r[i], v1, v0) && IsForward(t, r, i + 1, v1, v0)
    {
      CanIff(t, i, v0, v1);
      TurnedAround(t, i, v0, v1, j);
    }
    if forall v0, v1, j :: CopyOf(t[i], v0, v1) && v0 != v1 ==> !IsSource(t, j, i, v0, v1) {
      if IsCopy(e) {
        var v0, v1 := e.value.result.v, e.value.arg1.v;
        assert CopyOf(t[i], v0, v1) && v0 != v1;
        CanIff(t, i, v0, v1);
      }
      assert r == t[i := e];
    }
  }

  lemma TurnedAround(t: Table, i: nat, v0: Var, v1: Var, j: nat)
    requires i < |t| && CopyOf(t[i], v0, v1) && v0 != v1 && IsSource(t, j, i, v0, v1) && CanBackpropagate(t[..i], v0, v1)
    ensures var r := BackStep(t, i); IsBackward(t, r, j, i, v0, v1) && CopyOf(r[i], v1, v0) && IsForward(t, r, i + 1, v1, v0)
  {
    var r, b := BackStep(t, i), Backward(t[..i], v0, v1);
    assert Pruned(t[i]) == t[i];
    BackwardIs(t, i, v0, v1, j);
    assert forall k :: 0 <= k < i ==> r[k] == b[k];
    assert r[..j] == b[..j];
    ForwardElsewhere(t, r, i + 1, v1, v0);
  }

  /** Steps of backward propagation at the entries before `n`, from the last to the first. */
  ghost predicate IsBackRun(t: Table, r: Table, n: nat)
    requires n <= |t|
    decreases n
  {
    if n == 0 then r == t
    else
      var i := n - 1;
      exists t' :: IsBackStep(t, t', i) && IsBackRun(t', r, i)
  }

  lemma BackRunStep(t: Table, t': Table, r: Table, n: nat)
    requires n < |t| == |t'| && IsBackStep(t, t', n) && IsBackRun(t', r, n)
    ensures IsBackRun(t, r, n + 1)
  {}

  lemma {:induction false} BackAllRuns(t: Table, n: nat, r: Table)
    requires n <= |t| && r == BackAll(t, n)
    ensures IsBackRun(t, r, n)
    decreases n
  {
    if n > 0 {
      var i, t' := n - 1, BackStep(t, n - 1);
      BackAllRuns(t', i, r);
      BackStepIs(t, i);
      BackRunStep(t, t', r, i);
    }
  }

  /** The four passes, one after the other. */
  lemma OptimizedIs(t: Table) returns (p: Table, s: Table, b: Table)
    ensures |s| == |t| == |b| && IsPruning(t, p) && IsSweep(p, s) && IsBackRun(s, b, |t|) && IsForwardRun(b, Optimized(t), 0)
  {
    p := PruneAll(t);
    s := Sweep(p);
    b := BackAll(s, |t|);
    PruneAllIs(t);
    SweepIs(p);
    BackAllRuns(s, |t|, b);
    ForwardAllRuns(b, 0);
  }

  // ---------- what is gone at the end ----------

  lemma {:induction false} RunStays(t: Table, r: Table, n: nat, i: nat)
    requires i < n <= |t| && IsForwardRun(t, r, n)
    ensures |r| == |t| && r[i] == t[i]
    decreases |t| - n
  {
    if n < |t| {
      var t' :| IsForwardStep(t, t', n) && IsForwardRun(t', r, n + 1);
      RunStays(t', r, n + 1, i);
      assert t'[..n][i] == t[..n][i];
    }
  }

  lemma {:induction false} RunPrunes(t: Table, r: Table, n: nat, i: nat)
    requires n <= i < |t| && IsForwardRun(t, r, n)
    ensures |r| == |t| && !IsSelfCopy(r[i])
    decreases |t| - n
  {
    var t' :| IsForwardStep(t, t', n) && IsForwardRun(t', r, n + 1);
    if n < i {
      RunPrunes(t', r, n + 1, i);
    } else {
      RunStays(t', r, n + 1, i);
      assert IsPrunedEntry(t[i], r[i]);
    }
  }

  /** In the end no variable is copied to itself. */
  lemma NoSelfCopies(t: Table, i: nat)
    requires i < |t|
    ensures !IsSelfCopy(Optimized(t)[i])
  {
    var b := BackAll(Sweep(PruneAll(t)), |t|);
    ForwardAllRuns(b, 0);
    RunPrunes(b, Optimized(t), 0, i);
  }

  // ---------- copies that have been propagated ----------

  ghost predicate SetsEither(e: Option<Quad>, v0: Var, v1: Var) { Sets(e, v0) || Sets(e, v1) }

  ghost predicate NoneSets(t: Table, n: nat, k: nat, v0: Var, v1: Var)
    requires k <= |t|
  {
    forall m :: n <= m < k ==> !SetsEither(t[m], v0, v1)
  }

  /** From `n` on, `v0` is not used up to and including the first entry that assigns one of the two. */
  ghost predicate Unused(t: Table, n: nat, v0: Var, v1: Var) {
    forall k :: n <= k < |t| && NoneSets(t, n, k, v0, v1) ==> !Reads(t[k], v0)
  }

  /** Entries that are still there assign what they assigned. */
  ghost predicate SameSets(e: Option<Quad>, e': Option<Quad>) {
    e'.Some? ==> e.Some? && forall x :: Sets(e, x) <==> Sets(e', x)
  }

  lemma RenamedSets(e: Option<Quad>, e': Option<Quad>, v0: Var, v1: Var)
    requires IsRenamed(e, e', v0, v1) && !Parts(e, v0, v1)
    ensures SameSets(e, e')
  {
    if e.Some? && SetsEither(e, v0, v1) {
      var result := if e.value.result == VarArg(v0) then VarArg(v1) else e.value.result;
      var arg1 := if e.value.arg1 == VarArg(v0) then VarArg(v1) else e.value.arg1;
      var arg2 := if e.value.arg2 == VarArg(v0) then VarArg(v1) else e.value.arg2;
      assert CopyOf(Some(Quad(e.value.op, result, arg1, arg2)), v1, v1);
    }
  }

  lemma ForwardEntrySets(t: Table, r: Table, i: nat, k: nat, v0: Var, v1: Var)
    requires i <= k < |t| == |r| && IsForwardEntry(t, r, i, k, v0, v1)
    ensures SameSets(t[k], r[k])
  {
    if NoneParts(t, i, k, v0, v1) && !Parts(t[k], v0, v1) { RenamedSets(t[k], r[k], v0, v1); }
  }

  lemma StepSets(t: Table, r: Table, i: nat, k: nat)
    requires i < |t| && k < |t| && IsForwardStep(t, r, i)
    ensures SameSets(t[k], r[k])
  {
    if k < i {
      assert t[..i][k] == r[..i][k];
    } else if k > i {
      if exists v0, v1 :: CopyOf(r[i], v0, v1) {
        var v0, v1 :| CopyOf(r[i], v0, v1);
        assert IsForwardEntry(t, r, i + 1, k, v0, v1);
        ForwardEntrySets(t, r, i + 1, k, v0, v1);
      } else {
        assert t[i + 1..][k - (i + 1)] == r[i + 1..][k - (i + 1)];
      }
    }
  }

  /** Right after the step at a copy, its target is not used up to and including the next assignment to one of the two variables. */
  lemma StepUnused(t: Table, r: Table, i: nat, v0: Var, v1: Var)
    requires i < |t| && IsForwardStep(t, r, i) && CopyOf(r[i], v0, v1)
    ensures v0 != v1 && Unused(r, i + 1, v0, v1)
  {
    assert v0 != v1 by { if v0 == v1 { assert IsSelfCopy(t[i]); } }
    forall k | i + 1 <= k < |r| && NoneSets(r, i + 1, k, v0, v1) ensures !Reads(r[k], v0) {
      forall m | i + 1 <= m < k ensures !Parts(t[m], v0, v1) {
        assert !SetsEither(r[m], v0, v1);
        assert IsForwardEntry(t, r, i + 1, m, v0, v1);
        if Parts(t[m], v0, v1) { PartsStay(t, r, i + 1, m, v0, v1); }
      }
      assert IsForwardEntry(t, r, i + 1, k, v0, v1);
    }
  }

  lemma PartsStay(t: Table, r: Table, i: nat, m: nat, v0: Var, v1: Var)
    requires i <= m < |t| == |r| && IsForwardEntry(t, r, i, m, v0, v1) && Parts(t[m], v0, v1)
    ensures SetsEither(r[m], v0, v1)
  {}

  /** `v0` is not used up to and including the first entry that assigns one of the two in the table `q`. */
  ghost predicate UnusedAs(q: Table, t: Table, n: nat, v0: Var, v1: Var)
    requires |q| == |t|
  {
    forall k :: n <= k < |t| && NoneSets(q, n, k, v0, v1) ==> !Reads(t[k], v0)
  }

  ghost predicate AllSameSets(q: Table, t: Table) { |q| == |t| && forall k :: 0 <= k < |t| ==> SameSets(q[k], t[k]) }

  lemma SetsFollow(q: Table, t: Table, t': Table, n: nat)
    requires AllSameSets(q, t) && n < |t| && IsForwardStep(t, t', n)
    ensures AllSameSets(q, t')
  {
    forall k | 0 <= k < |t'| ensures SameSets(q[k], t'[k]) {
      StepSets(t, t', n, k);
      assert SameSets(q[k], t[k]);
    }
  }

  /** A later step brings `v0` back only where it was. */
  lemma StepKeepsUnused(q: Table, t: Table, t': Table, n: nat, i: nat, v0: Var, v1: Var)
    requires |q| == |t| && i < n < |t| && IsForwardStep(t, t', n) && UnusedAs(q, t, i + 1, v0, v1)
    ensures UnusedAs(q, t', i + 1, v0, v1)
  {
    forall k | i + 1 <= k < |t'| && NoneSets(q, i + 1, k, v0, v1) ensures !Reads(t'[k], v0) {
      if k < n {
        assert t[..n][k] == t'[..n][k];
      } else if k > n {
        assert NoneSets(q, i + 1, n, v0, v1) && !Reads(t[n], v0);
        StepReads(t, t', n, k, v0);
      }
    }
  }

  lemma StepReads(t: Table, r: Table, n: nat, k: nat, v: Var)
    requires n < k < |t| && IsForwardStep(t, r, n) && !Reads(t[n], v)
    ensures Reads(r[k], v) ==> Reads(t[k], v)
  {
    if exists v0, v1 :: CopyOf(r[n], v0, v1) {
      var v0, v1 :| CopyOf(r[n], v0, v1);
      assert v1 != v;
      assert IsForwardEntry(t, r, n + 1, k, v0, v1);
    } else {
      assert t[n + 1..][k - (n + 1)] == r[n + 1..][k - (n + 1)];
    }
  }

  lemma {:induction false} RunKeepsUnused(q: Table, t: Table, r: Table, n: nat, i: nat, v0: Var, v1: Var)
    requires |q| == |t| && i < n <= |t| && IsForwardRun(t, r, n) && UnusedAs(q, t, i + 1, v0, v1)
    ensures |r| == |t| && UnusedAs(q, r, i + 1, v0, v1)
    decreases |t| - n
  {
    if n < |t| {
      var t' :| IsForwardStep(t, t', n) && IsForwardRun(t', r, n + 1);
      StepKeepsUnused(q, t, t', n, i, v0, v1);
      RunKeepsUnused(q, t', r, n + 1, i, v0, v1);
    }
  }

  lemma {:induction false} RunUnused(q: Table, t: Table, r: Table, n: nat, i: nat, v0: Var, v1: Var)
    requires AllSameSets(q, t) && n <= i < |t| && IsForwardRun(t, r, n) && |r| == |t| && CopyOf(r[i], v0, v1)
    ensures AllSameSets(q, r) && UnusedAs(q, r, i + 1, v0, v1)
    decreases |t| - n
  {
    var t' :| IsForwardStep(t, t', n) && IsForwardRun(t', r, n + 1);
    SetsFollow(q, t, t', n);
    if n < i {
      RunUnused(q, t', r, n + 1, i, v0, v1);
    } else {
      RunStays(t', r, n + 1, i);
      StepUnused(t, t', i, v0, v1);
      forall k | i + 1 <= k < |t'| && NoneSets(q, i + 1, k, v0, v1) ensures !Reads(t'[k], v0) {
        forall m | i + 1 <= m < k ensures !SetsEither(t'[m], v0, v1) { assert !SetsEither(q[m], v0, v1) && SameSets(q[m], t'[m]); }
        assert NoneSets(t', i + 1, k, v0, v1);
      }
      RunKeepsUnused(q, t', r, n + 1, i, v0, v1);
      RunSets(q, t', r, n + 1);
    }
  }

  lemma {:induction false} RunSets(q: Table, t: Table, r: Table, n: nat)
    requires AllSameSets(q, t) && n <= |t| && IsForwardRun(t, r, n)
    ensures AllSameSets(q, r)
    decreases |t| - n
  {
    if n < |t| {
      var t' :| IsForwardStep(t, t', n) && IsForwardRun(t', r, n + 1);
      SetsFollow(q, t, t', n);
      RunSets(q, t', r, n + 1);
    }
  }

  /**
    In the end, behind every remaining copy `v0 := v1`, `v0` is not used up to and including the
    first entry that assigned one of the two variables before the pass.
    */
  lemma CopiesUnused(t: Table, r: Table, i: nat, v0: Var, v1: Var)
    requires r == ForwardAll(t, 0) && i < |t| && CopyOf(r[i], v0, v1)
    ensures UnusedAs(t, r, i + 1, v0, v1) && AllSameSets(t, r)
  {
    ForwardAllRuns(t, 0);
    RunUnused(t, t, r, 0, i, v0, v1);
  }

  /** `j` is the first entry from `n` on that assigns one of the two variables. */
  ghost predicate IsFirstSet(t: Table, n: nat, j: nat, v0: Var, v1: Var) {
    n <= j < |t| && NoneSets(t, n, j, v0, v1) && SetsEither(t[j], v0, v1)
  }

  /**
    In the table that is left, that goes as far as the next assignment to one of the variables,
    unless the entry at which propagation ended has been removed later and `v0` is used behind it.
    */
  lemma CopiesUnusedIff(t: Table, r: Table, i: nat, v0: Var, v1: Var)
    requires r == ForwardAll(t, 0) && i < |t| && CopyOf(r[i], v0, v1)
    ensures Unused(r, i + 1, v0, v1)
            <==> forall j: nat :: IsFirstSet(t, i + 1, j, v0, v1) && r[j].None? ==> Unused(r, j + 1, v0, v1)
  {
    CopiesUnused(t, r, i, v0, v1);
    UnusedIff(t, r, i, v0, v1);
  }

  lemma UnusedIff(t: Table, r: Table, i: nat, v0: Var, v1: Var)
    requires AllSameSets(t, r) && i < |t| && UnusedAs(t, r, i + 1, v0, v1)
    ensures Unused(r, i + 1, v0, v1)
            <==> forall j: nat :: IsFirstSet(t, i + 1, j, v0, v1) && r[j].None? ==> Unused(r, j + 1, v0, v1)
  {
    if Unused(r, i + 1, v0, v1) {
      forall j: nat | IsFirstSet(t, i + 1, j, v0, v1) && r[j].None? ensures Unused(r, j + 1, v0, v1) {
        UnusedBehind(t, r, i, j, v0, v1);
      }
    } else {
      var k: nat :| i + 1 <= k < |r| && NoneSets(r, i + 1, k, v0, v1) && Reads(r[k], v0);
      var j := FirstSet(t, i + 1, k, v0, v1);
      assert SameSets(t[j], r[j]) && !SetsEither(r[j], v0, v1);
      assert NoneSets(r, j + 1, k, v0, v1);
    }
  }

  lemma FirstSet(t: Table, n: nat, k: nat, v0: Var, v1: Var) returns (j: nat)
    requires n <= k <= |t| && !NoneSets(t, n, k, v0, v1)
    ensures IsFirstSet(t, n, j, v0, v1) && j < k
  {
    j := n;
    while j < k && !SetsEither(t[j], v0, v1)
      invariant n <= j <= k && NoneSets(t, n, j, v0, v1)
    {
      j := j + 1;
    }
  }

  lemma UnusedBehind(t: Table, r: Table, i: nat, j: nat, v0: Var, v1: Var)
    requires AllSameSets(t, r) && IsFirstSet(t, i + 1, j, v0, v1) && r[j].None? && Unused(r, i + 1, v0, v1)
    ensures Unused(r, j + 1, v0, v1)
  {
    forall k | j + 1 <= k < |r| && NoneSets(r, j + 1, k, v0, v1) ensures !Reads(r[k], v0) {
      forall m | i + 1 <= m < k ensures !SetsEither(r[m], v0, v1) {
        if m < j { assert !SetsEither(t[m], v0, v1) && SameSets(t[m], r[m]); }
      }
    }
  }

  /**
    `y := x; w := x; x := w; z := y + 1`: propagation of the first copy ends at the third entry, which the step at
    the second copy removes, so that the last entry still uses `y` although it equals `x`.
    */
  lemma RemovedBetween()
    ensures var t := [Some(Quad(Copy, VarArg(1), VarArg(0), NoArg)), Some(Quad(Copy, VarArg(2), VarArg(0), NoArg)),
                      Some(Quad(Copy, VarArg(0), VarArg(2), NoArg)), Some(Quad(Add, VarArg(3), VarArg(1), IntArg(1)))];
            ForwardAll(t, 0) == [t[0], t[1], None, t[3]] && !Unused(ForwardAll(t, 0), 1, 1, 0)
  {
    var a, b := Some(Quad(Copy, VarArg(1), VarArg(0), NoArg)), Some(Quad(Copy, VarArg(2), VarArg(0), NoArg));
    var c, d := Some(Quad(Copy, VarArg(0), VarArg(2), NoArg)), Some(Quad(Add, VarArg(3), VarArg(1), IntArg(1)));
    var t, r := [a, b, c, d], [a, b, None, d];
    assert t[1..] == [b, c, d] && [b, c, d][1..] == [c, d];
    assert Forward([b, c, d], 1, 0) == [b] + Forward([c, d], 1, 0) == [b, c, d];
    assert ForwardStepAt(t, 0) == t;
    assert t[2..] == [c, d] && [c, d][1..] == [d] && [d][1..] == [];
    assert Forward([d], 2, 0) == [d];
    assert Forward([c, d], 2, 0) == [None] + Forward([d], 2, 0);
    assert ForwardStepAt(t, 1) == t[..1] + [b] + [None, d] == r;
    assert ForwardStepAt(r, 2) == r && ForwardStepAt(r, 3) == r;
    assert ForwardAll(t, 0) == ForwardAll(t, 1) == ForwardAll(r, 2) == ForwardAll(r, 3) == ForwardAll(r, 4) == r;
    assert NoneSets(r, 1, 3, 1, 0) && Reads(r[3], 1);
  }
}
