/**
  `optimize_local_2`: the in-place passes over the table of a block's quadruples.
  Every method is proved against the function of the same pass in `CopyPasses`.
  */
module LocalOpt {
  import opened Quadr
  import opened CopyPasses

  method RemoveRedundantCopy(i: nat, qtab: array<Option<Quad>>)
    requires i < qtab.Length
    modifies qtab
    ensures qtab[..] == old(qtab[..])[i := Pruned(old(qtab[i]))]
  {
    var e := qtab[i];
    if e.Some? && e.value.op.Copy? && e.value.arg1.VarArg? && e.value.result == e.value.arg1 {
      qtab[i] := None;
    }
  }

  lemma {:induction false} PruneAt(qs: Table, i: nat)
    requires i < |qs|
    ensures PruneAll(qs)[i] == Pruned(qs[i])
  {
    if i > 0 {
      PruneAt(qs[1..], i - 1);
    }
  }

  method RemoveRedundantCopies(qtab: array<Option<Quad>>)
    modifies qtab
    ensures qtab[..] == PruneAll(old(qtab[..]))
  {
    ghost var qs := qtab[..];
    var i := 0;
    while i < qtab.Length
      invariant i <= qtab.Length
      invariant forall k :: 0 <= k < i ==> qtab[k] == Pruned(qs[k])
      invariant forall k :: i <= k < qtab.Length ==> qtab[k] == qs[k]
    {
      ghost var before := qtab[..];
      RemoveRedundantCopy(i, qtab);
      assert forall k :: 0 <= k < qtab.Length ==> qtab[k] == qtab[..][k];
      i := i + 1;
    }
    forall k | 0 <= k < |qs| ensures qtab[k] == PruneAll(qs)[k] {
      PruneAt(qs, k);
    }
  }

  // ---------- dead assignments ----------

  ghost function Count(qs: Table): nat {
    if qs == [] then 0 else Count(qs[1..]) + if qs[0].Some? then 1 else 0
  }

  lemma {:induction false} CountRemove(qs: Table, i: nat)
    requires i < |qs| && qs[i].Some?
    ensures Count(qs[i := None]) == Count(qs) - 1
  {
    if i == 0 {
      assert qs[i := None][1..] == qs[1..];
    } else {
      assert qs[i := None][1..] == qs[1..][i - 1 := None];
      CountRemove(qs[1..], i - 1);
    }
  }

  lemma DoomedStep(qs: Table, j: nat, v: Var)
    requires j < |qs|
    ensures qs[j].None? ==> Doomed(qs[j..]) == Doomed(qs[j + 1..])
    ensures qs[j].Some? && Uses(qs[j].value, v) ==> v !in Doomed(qs[j..])
    ensures qs[j].Some? && !Uses(qs[j].value, v) && Assigns(qs[j].value, v) ==> v in Doomed(qs[j..])
    ensures qs[j].Some? && !Uses(qs[j].value, v) && !Assigns(qs[j].value, v) ==>
              (v in Doomed(qs[j..]) <==> v in Doomed(qs[j + 1..]))
  {
    assert qs[j..][1..] == qs[j + 1..];
  }

  /** The inner loop: is `v` assigned again, before any use, after position `i`? */
  method OverwrittenLater(i: nat, qtab: array<Option<Quad>>, v: Var) returns (dead: bool)
    requires i < qtab.Length
    ensures dead <==> v in Doomed(qtab[i + 1..])
  {
    ghost var qs := qtab[..];
    assert qs[i + 1..] == qtab[i + 1..];
    var j := i + 1;
    while j < qtab.Length
      invariant i + 1 <= j <= qtab.Length
      invariant v in Doomed(qs[i + 1..]) <==> v in Doomed(qs[j..])
    {
      DoomedStep(qs, j, v);
      if qtab[j].Some? {
        if Uses(qtab[j].value, v) {
          return false;
        } else if Assigns(qtab[j].value, v) {
          return true;
        }
      }
      j := j + 1;
    }
    return false;
  }

  method RemoveDeadAssignments(qtab: array<Option<Quad>>)
    modifies qtab
    ensures qtab[..] == Sweep(old(qtab[..])) && Settled(qtab[..])
  {
    ghost var qs := qtab[..];
    var changed := true;
    while changed
      invariant Sweep(qtab[..]) == Sweep(qs)
      invariant !changed ==> Settled(qtab[..])
      decreases Count(qtab[..]), if changed then 1 else 0
    {
      changed := false;
      ghost var start := qtab[..];
      var i := 0;
      while i < qtab.Length
        invariant i <= qtab.Length
        invariant Sweep(qtab[..]) == Sweep(qs)
        invariant Count(qtab[..]) <= Count(start)
        invariant changed ==> Count(qtab[..]) < Count(start)
        invariant !changed ==> forall k :: 0 <= k < i && qtab[k].Some? ==>
                    !DeadBefore(qtab[k].value, Doomed(qtab[..][k + 1..]))
      {
        var e := qtab[i];
        if e.Some? && !e.value.op.WritePtr? && e.value.result.VarArg? {
          var dead := OverwrittenLater(i, qtab, e.value.result.v);
          ghost var before := qtab[..];
          assert before[i + 1..] == qtab[i + 1..];
          if dead {
            SweepRemove(before, i);
            CountRemove(before, i);
            qtab[i] := None;
            assert qtab[..] == before[i := None];
            changed := true;
          }
        }
        i := i + 1;
      }
    }
    SettledSweep(qtab[..]);
  }

  // ---------- backward propagation ----------

  method CanBackpropagateFrom(i: int, qtab: array<Option<Quad>>, v0: Var, v1: Var) returns (can: bool)
    requires -1 <= i < qtab.Length
    ensures can <==> CanBackpropagate(qtab[..i + 1], v0, v1)
  {
    var k := i;
    while k >= 0
      invariant -1 <= k <= i
      invariant CanBackpropagate(qtab[..i + 1], v0, v1) <==> CanBackpropagate(qtab[..k + 1], v0, v1)
    {
      assert qtab[..k + 1][..k] == qtab[..k];
      if qtab[k].Some? {
        if Assigns(qtab[k].value, v1) {
          return true;
        }
        if Uses(qtab[k].value, v0) || Assigns(qtab[k].value, v0) {
          return false;
        }
      }
      k := k - 1;
    }
    return false;
  }

  lemma UpdateLast(start: Table, done: Table, rest: Table, e: Option<Quad>)
    requires start != []
    ensures var init := start[..|start| - 1];
            && (start + done + rest)[|start| - 1 := e] == init + ([e] + done) + rest
            && (start + done + rest)[|start| - 1 := e] == (init + [e] + done) + rest
    ensures forall r: Table :: r + [e] + done == r + ([e] + done)
  {}

  method PropagateBackwards(i: int, qtab: array<Option<Quad>>, v0: Var, v1: Var)
    requires -1 <= i < qtab.Length
    modifies qtab
    ensures qtab[..] == Backward(old(qtab[..i + 1]), v0, v1) + old(qtab[i + 1..])
  {
    ghost var p, rest := qtab[..i + 1], qtab[i + 1..];
    ghost var start: Table, done: Table := p, [];
    var k := i;
    while k >= 0
      invariant -1 <= k <= i && |start| == k + 1
      invariant qtab[..] == start + done + rest
      invariant Backward(p, v0, v1) == Backward(start, v0, v1) + done
    {
      ghost var before := qtab[..];
      assert qtab[k] == start[k];
      if qtab[k].Some? {
        var q := qtab[k].value;
        if q.result == VarArg(v1) {
          q := q.(result := VarArg(v0));
        }
        if Assigns(q, v0) {
          qtab[k] := Some(q);
          UpdateLast(start, done, rest, Some(q));
          return;
        }
        q := SubstArgs(q, v1, v0);
        qtab[k] := Some(q);
        RemoveRedundantCopy(k, qtab);
      }
      assert qtab[..] == before[k := qtab[k]];
      UpdateLast(start, done, rest, qtab[k]);
      start, done := start[..k], [qtab[k]] + done;
      k := k - 1;
    }
    assert start == [];
  }

  // ---------- forward propagation ----------

  lemma UpdateEntry(start: Table, done: Table, rest: Table, e: Option<Quad>)
    requires rest != []
    ensures (start + done + rest)[|start| + |done| := e] == start + (done + [e]) + rest[1..]
    ensures (start + done + rest)[|start| + |done| := e] == start + (done + ([e] + rest[1..]))
    ensures forall r: Table :: done + ([e] + r) == (done + [e]) + r
  {}

  method PropagateForwards(i: nat, qtab: array<Option<Quad>>, v0: Var, v1: Var)
    requires i <= qtab.Length
    modifies qtab
    ensures qtab[..] == old(qtab[..i]) + Forward(old(qtab[i..]), v0, v1)
  {
    ghost var start, qs := qtab[..i], qtab[i..];
    ghost var done, rest: Table := [], qs;
    var k := i;
    while k < qtab.Length
      invariant i <= k <= qtab.Length && |start| == i && |done| == k - i
      invariant qtab[..] == start + done + rest
      invariant Forward(qs, v0, v1) == done + Forward(rest, v0, v1)
    {
      ghost var before := qtab[..];
      assert qtab[k] == rest[0];
      if qtab[k].Some? {
        var q := SubstArgs(qtab[k].value, v0, v1);
        if Assigns(q, v0) && !CopyBetween(q, v0, v1) {
          qtab[k] := Some(q);
          UpdateEntry(start, done, rest, Some(q));
          return;
        }
        if Assigns(q, v1) && !CopyBetween(q, v0, v1) {
          qtab[k] := Some(q);
          UpdateEntry(start, done, rest, Some(q));
          return;
        }
        if q.result == VarArg(v0) {
          q := q.(result := VarArg(v1));
        }
        qtab[k] := Some(q);
        RemoveRedundantCopy(k, qtab);
      }
      assert qtab[..] == before[k := qtab[k]];
      UpdateEntry(start, done, rest, qtab[k]);
      done, rest := done + [qtab[k]], rest[1..];
      k := k + 1;
    }
    assert rest == [];
  }

  // ---------- the passes ----------

  method CopyBackpropagation(qtab: array<Option<Quad>>)
    modifies qtab
    ensures qtab[..] == BackAll(old(qtab[..]), qtab.Length)
  {
    var i := qtab.Length - 1;
    while i >= 0
      invariant -1 <= i < qtab.Length
      invariant BackAll(qtab[..], i + 1) == BackAll(old(qtab[..]), qtab.Length)
    {
      ghost var qs := qtab[..];
      RemoveRedundantCopy(i, qtab);
      var e := qtab[i];
      assert qtab[..i] == qs[..i];
      if e.Some? && e.value.op.Copy? && e.value.arg1.VarArg? && e.value.result.VarArg? {
        var v0, v1 := e.value.result.v, e.value.arg1.v;
        var can := CanBackpropagateFrom(i - 1, qtab, v0, v1);
        if can {
          ExchangeCopy(i, qtab, v0, v1, qs);
        }
      }
      assert qtab[..] == BackStep(qs, i);
      i := i - 1;
    }
  }

  /** Rename on both sides of the copy at `i`, and turn it around. */
  method ExchangeCopy(i: nat, qtab: array<Option<Quad>>, v0: Var, v1: Var, ghost qs: Table)
    requires i < qtab.Length == |qs| && qtab[..] == qs[i := Pruned(qs[i])]
    requires IsCopy(qtab[i]) && qtab[i].value.result == VarArg(v0) && qtab[i].value.arg1 == VarArg(v1)
    requires CanBackpropagate(qs[..i], v0, v1)
    modifies qtab
    ensures qtab[..] == BackStep(qs, i)
  {
    var q := qtab[i].value;
    assert qtab[..i] == qs[..i] && qtab[i..] == [Some(q)] + qs[i + 1..];
    PropagateBackwards(i - 1, qtab, v0, v1);
    ghost var b := Backward(qs[..i], v0, v1);
    assert qtab[i + 1..] == qs[i + 1..] && qtab[..i + 1] == b + [Some(q)];
    PropagateForwards(i + 1, qtab, v1, v0);
    assert qtab[i] == Some(q);
    qtab[i] := Some(q.(result := VarArg(v1), arg1 := VarArg(v0)));
  }

  method CopyPropagation(qtab: array<Option<Quad>>)
    modifies qtab
    ensures qtab[..] == ForwardAll(old(qtab[..]), 0)
  {
    var i := 0;
    while i < qtab.Length
      invariant i <= qtab.Length
      invariant ForwardAll(qtab[..], i) == ForwardAll(old(qtab[..]), 0)
    {
      ghost var qs := qtab[..];
      RemoveRedundantCopy(i, qtab);
      var e := qtab[i];
      assert qtab[..i + 1] == qs[..i] + [e] && qtab[i + 1..] == qs[i + 1..];
      if e.Some? && e.value.op.Copy? && e.value.arg1.VarArg? && e.value.result.VarArg? {
        PropagateForwards(i + 1, qtab, e.value.result.v, e.value.arg1.v);
      }
      assert qtab[..] == ForwardStepAt(qs, i);
      i := i + 1;
    }
  }

  method Optimize(qtab: array<Option<Quad>>)
    modifies qtab
    ensures qtab[..] == Optimized(old(qtab[..]))
  {
    RemoveRedundantCopies(qtab);
    RemoveDeadAssignments(qtab);
    CopyBackpropagation(qtab);
    CopyPropagation(qtab);
  }

  /** optimize_local_2: the block's list becomes a table, is optimised, and is linked up again. */
  method OptimizeBlock(block: seq<Quad>) returns (out: seq<Quad>)
    ensures out == Compact(Optimized(Wrap(block)))
  {
    var qtab := new Option<Quad>[|block|](i requires 0 <= i < |block| => Some(block[i]));
    assert qtab[..] == Wrap(block);
    Optimize(qtab);
    ghost var qs := qtab[..];
    out := [];
    var i := qtab.Length;
    while i > 0
      invariant 0 <= i <= qtab.Length
      invariant out == Compact(qs[i..]) && qtab[..] == qs
    {
      i := i - 1;
      assert qs[i..] == [qs[i]] + qs[i + 1..];
      if qtab[i].Some? {
        out := [qtab[i].value] + out;
      }
    }
    assert qs[0..] == qs;
  }
}
