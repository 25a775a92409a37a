/**
  Both groups of local optimisations, one after the other, as they are run on every block:
  exactly when the block still does what it did, as a condition on its own quadruples.
  */
module LocalPasses {
  import opened Quadr
  import opened Dag
  import opened DagEmit
  import opened DagBlock
  import opened DagOrder
  import opened GraphOpt
  import CopyPasses
  import LocalOpt

  // ---------- the condition ----------

  /**
    The variables that are assigned before they are used. The second pass does not see uses by
    assignments it removes, but the first one has read the operands of arithmetic and copies
    into variables of its own, and these uses remain.
    */
  ghost function Overwritten(qs: seq<Quad>): set<Var> {
    if qs == [] then {}
    else
      var after := Overwritten(qs[1..]);
      if !IsPure(qs[0]) && CopyPasses.DeadBefore(qs[0], after) then after else CopyPasses.DoomedBefore(qs[0], after)
  }

  /** No call has a result that is overwritten. */
  ghost predicate CallsNeeded(qs: seq<Quad>) {
    qs != [] ==>
      CallsNeeded(qs[1..]) && (qs[0].op.Call? ==> !CopyPasses.DeadBefore(qs[0], Overwritten(qs[1..])))
  }

  // ---------- how a segment touches variables ----------

  datatype Touch = Untouched | Used | Written

  function TouchOf(q: Quad, v: Var): Touch {
    if Uses(q, v) then Used else if Assigns(q, v) then Written else Untouched
  }

  function FirstTouch(qs: seq<Quad>, v: Var): Touch {
    if qs == [] then Untouched
    else
      var t := FirstTouch(qs[..|qs| - 1], v);
      if t != Untouched then t else TouchOf(qs[|qs| - 1], v)
  }

  lemma DoomedMember(q: Quad, after: set<Var>, v: Var)
    ensures v in CopyPasses.DoomedBefore(q, after) <==> !Uses(q, v) && (Assigns(q, v) || v in after)
  {}

  /** Whether a variable is overwritten, given its first touch and whether it is overwritten behind that. */
  predicate Lost(t: Touch, after: bool) { t.Written? || (t.Untouched? && after) }

  lemma {:induction false} OverwrittenBehind(qs: seq<Quad>, rest: seq<Quad>, v: Var)
    requires AllPure(qs)
    ensures v in Overwritten(qs + rest) <==> Lost(FirstTouch(qs, v), v in Overwritten(rest))
    decreases |qs|
  {
    if qs == [] {
      assert qs + rest == rest;
    } else {
      var init, q := qs[..|qs| - 1], qs[|qs| - 1];
      assert qs + rest == init + ([q] + rest);
      assert ([q] + rest)[1..] == rest;
      OverwrittenBehind(init, [q] + rest, v);
      DoomedMember(q, Overwritten(rest), v);
    }
  }

  // ---------- the second pass on lists of quadruples ----------

  /** What the sweep finds overwritten before `code`, given what it finds behind it. */
  ghost function Before(code: seq<Quad>, after: set<Var>): set<Var> {
    if code == [] then after
    else
      var a := Before(code[1..], after);
      if CopyPasses.DeadBefore(code[0], a) then a else CopyPasses.DoomedBefore(code[0], a)
  }

  ghost predicate KeepsCalls(code: seq<Quad>, after: set<Var>) {
    code != [] ==>
      KeepsCalls(code[1..], after) && (code[0].op.Call? ==> !CopyPasses.DeadBefore(code[0], Before(code[1..], after)))
  }

  lemma {:induction false} BeforeAppend(a: seq<Quad>, b: seq<Quad>, after: set<Var>)
    ensures Before(a + b, after) == Before(a, Before(b, after))
    ensures KeepsCalls(a + b, after) <==> KeepsCalls(a, Before(b, after)) && KeepsCalls(b, after)
  {
    if a == [] {
      assert a + b == b;
    } else {
      assert (a + b)[1..] == a[1..] + b;
      BeforeAppend(a[1..], b, after);
    }
  }

  lemma {:induction false} WrappedCalls(code: seq<Quad>)
    ensures CopyPasses.Unneeded(CopyPasses.Wrap(code)) == Before(code, {})
    ensures CopyPasses.CallsKept(CopyPasses.Wrap(code)) <==> KeepsCalls(code, {})
  {
    if code != [] {
      assert CopyPasses.Wrap(code)[1..] == CopyPasses.Wrap(code[1..]);
      WrappedCalls(code[1..]);
    }
  }

  // ---------- code of a segment ----------

  ghost predicate AssignedIn(code: seq<Quad>, v: Var) { exists i :: 0 <= i < |code| && Assigns(code[i], v) }

  /** Well-formed arithmetic and copies that use no variable of the program, and assign only new variables and those of the program. */
  ghost predicate BodyQuad(q: Quad, lo: Var, hi: Var, vars: Var) {
    && WellFormed(q) && IsPure(q)
    && (forall v: Var :: v < vars ==> !Uses(q, v))
    && (q.result.v < vars || lo <= q.result.v < hi)
  }

  ghost predicate BodyOk(body: seq<Quad>, lo: Var, hi: Var, vars: Var) {
    forall i :: 0 <= i < |body| ==> BodyQuad(body[i], lo, hi, vars)
  }

  lemma AssignedAppend(a: seq<Quad>, b: seq<Quad>, v: Var)
    ensures AssignedIn(a + b, v) <==> AssignedIn(a, v) || AssignedIn(b, v)
  {
    if i :| 0 <= i < |a| && Assigns(a[i], v) { assert Assigns((a + b)[i], v); }
    if i :| 0 <= i < |b| && Assigns(b[i], v) { assert Assigns((a + b)[|a| + i], v); }
    if i :| 0 <= i < |a + b| && Assigns((a + b)[i], v) {
      assert if i < |a| then Assigns(a[i], v) else Assigns(b[i - |a|], v);
    }
  }

  /** Removing what is dead does not change which variables of the program the body overwrites. */
  lemma {:induction false} BodyBefore(body: seq<Quad>, lo: Var, hi: Var, vars: Var, after: set<Var>, v: Var)
    requires BodyOk(body, lo, hi, vars) && v < vars
    ensures v in Before(body, after) <==> v in after || AssignedIn(body, v)
    ensures KeepsCalls(body, after)
  {
    if body != [] {
      var q, rest := body[0], body[1..];
      forall i | 0 <= i < |rest| ensures BodyQuad(rest[i], lo, hi, vars) { assert BodyQuad(body[i + 1], lo, hi, vars); }
      BodyBefore(rest, lo, hi, vars, after, v);
      assert BodyQuad(q, lo, hi, vars);
      assert body == [q] + rest;
      AssignedAppend([q], rest, v);
      assert AssignedIn([q], v) <==> Assigns(q, v) by { assert [q][0] == q; }
      DoomedMember(q, Before(rest, after), v);
    }
  }

  /** A variable that is not assigned is not overwritten. */
  lemma {:induction false} UnassignedBefore(code: seq<Quad>, after: set<Var>, t: Var)
    requires !AssignedIn(code, t) && t !in after
    ensures t !in Before(code, after)
  {
    if code != [] {
      assert code == [code[0]] + code[1..];
      AssignedAppend([code[0]], code[1..], t);
      assert [code[0]][0] == code[0];
      UnassignedBefore(code[1..], after, t);
      DoomedMember(code[0], Before(code[1..], after), t);
    }
  }

  // ---------- the code of input leaves ----------

  /** Every input is copied to the next new variable. */
  ghost function InputCode(nodes: seq<Node>, ids: seq<Id>, t: Var): seq<Quad>
    requires forall k :: 0 <= k < |ids| ==> ids[k] < |nodes| && nodes[ids[k]].Leaf?
  {
    if ids == [] then [] else [Quad(Copy, VarArg(t), nodes[ids[0]].arg, NoArg)] + InputCode(nodes, ids[1..], t + 1)
  }

  lemma {:induction false} GenInputsCode(nodes: seq<Node>, out: Out, ids: seq<Id>)
    requires forall k :: 0 <= k < |ids| ==> ids[k] < |nodes| && nodes[ids[k]].Leaf?
    ensures var out' := GenInputs(nodes, out, ids);
            && out'.code == out.code + InputCode(nodes, ids, out.nextVar) && out'.nextVar == out.nextVar + |ids|
            && forall i :: i in out'.results ==>
                 (i in out.results && out'.results[i] == out.results[i]) || out'.results[i] >= out.nextVar
    decreases |ids|
  {
    if ids != [] { GenInputsCode(nodes, GenLeaf(nodes, out, ids[0]), ids[1..]); }
  }

  ghost predicate IsInputOf(nodes: seq<Node>, ids: seq<Id>, v: Var) {
    exists k :: 0 <= k < |ids| && IsLeafOf(nodes, ids[k], VarArg(v))
  }

  lemma IsInputOfFirst(nodes: seq<Node>, ids: seq<Id>, v: Var)
    requires ids != []
    ensures IsInputOf(nodes, ids, v) <==> IsLeafOf(nodes, ids[0], VarArg(v)) || IsInputOf(nodes, ids[1..], v)
  {
    if k :| 0 <= k < |ids| && IsLeafOf(nodes, ids[k], VarArg(v)) {
      if k > 0 { assert IsLeafOf(nodes, ids[1..][k - 1], VarArg(v)); }
    }
    if k :| 0 <= k < |ids[1..]| && IsLeafOf(nodes, ids[1..][k], VarArg(v)) {
      assert IsLeafOf(nodes, ids[k + 1], VarArg(v));
    }
  }

  /** The copies are kept, so the inputs are used before anything else. */
  lemma {:induction false} InputsBefore(nodes: seq<Node>, ids: seq<Id>, t: Var, vars: Var, after: set<Var>, v: Var)
    requires forall k :: 0 <= k < |ids| ==> ids[k] < |nodes| && nodes[ids[k]].Leaf? && IsInput(nodes, ids[k])
    requires vars <= t && v < vars && forall u :: t <= u < t + |ids| ==> u !in after
    ensures var code := InputCode(nodes, ids, t);
            && (v in Before(code, after) <==> v in after && !IsInputOf(nodes, ids, v))
            && KeepsCalls(code, after)
            && (forall u :: u in Before(code, after) && u !in after ==> t <= u < t + |ids|)
            && (forall i :: 0 <= i < |code| ==> WellFormed(code[i]) && IsPure(code[i]) && t <= code[i].result.v < t + |ids|)
    decreases |ids|
  {
    if ids != [] {
      var q := Quad(Copy, VarArg(t), nodes[ids[0]].arg, NoArg);
      var code, rest := InputCode(nodes, ids, t), InputCode(nodes, ids[1..], t + 1);
      assert code[1..] == rest && code[0] == q;
      InputsBefore(nodes, ids[1..], t + 1, vars, after, v);
      IsInputOfFirst(nodes, ids, v);
      assert t !in Before(rest, after);
      DoomedMember(q, Before(rest, after), v);
      assert Uses(q, v) <==> IsLeafOf(nodes, ids[0], VarArg(v));
    }
  }

  // ---------- the code of operators and copies ----------

  ghost predicate SetBy(nodes: seq<Node>, updates: seq<Id>, v: Var) {
    exists j :: 0 <= j < |updates| && Sets(nodes, updates[j], v)
  }

  lemma SetByAppend(nodes: seq<Node>, updates: seq<Id>, i: Id, v: Var)
    ensures SetBy(nodes, updates + [i], v) <==> SetBy(nodes, updates, v) || Sets(nodes, i, v)
  {
    if j :| 0 <= j < |updates| && Sets(nodes, updates[j], v) { assert Sets(nodes, (updates + [i])[j], v); }
    if Sets(nodes, i, v) { assert Sets(nodes, (updates + [i])[|updates|], v); }
  }

  /** Behind the quadruples `ins`, the code assigns the variables in the lists that have been copied. */
  ghost predicate Shaped(nodes: seq<Node>, out: Out, ins: seq<Quad>, lo: Var, vars: Var) {
    && ins <= out.code && vars <= lo <= out.nextVar
    && BodyOk(out.code[|ins|..], lo, out.nextVar, vars)
    && (forall i :: i in out.results ==> vars <= out.results[i])
    && (forall i :: i in out.folded ==> out.folded[i].IntArg? || out.folded[i].DoubleArg?)
    && (forall v: Var :: v < vars ==> (AssignedIn(out.code[|ins|..], v) <==> SetBy(nodes, out.updates, v)))
  }

  lemma BodyMore(body: seq<Quad>, more: seq<Quad>, lo: Var, hi: Var, hi': Var, vars: Var)
    requires BodyOk(body, lo, hi, vars) && BodyOk(more, lo, hi', vars) && hi <= hi'
    ensures BodyOk(body + more, lo, hi', vars)
  {
    forall i | 0 <= i < |body + more| ensures BodyQuad((body + more)[i], lo, hi', vars) {
      if i < |body| { assert BodyQuad(body[i], lo, hi, vars); } else { assert BodyQuad(more[i - |body|], lo, hi', vars); }
    }
  }

  lemma AddResultShaped(nodes: seq<Node>, out: Out, i: Id, op: Op, a: Arg, b: Arg, ins: seq<Quad>, lo: Var, vars: Var)
    requires Shaped(nodes, out, ins, lo, vars)
    requires BodyQuad(Quad(op, VarArg(out.nextVar), a, b), lo, out.nextVar + 1, vars)
    ensures Shaped(nodes, AddResult(out, i, op, a, b), ins, lo, vars)
  {
    var q, out' := Quad(op, VarArg(out.nextVar), a, b), AddResult(out, i, op, a, b);
    assert out'.code[|ins|..] == out.code[|ins|..] + [q];
    BodyMore(out.code[|ins|..], [q], lo, out.nextVar, out'.nextVar, vars);
    forall v: Var | v < vars ensures AssignedIn(out'.code[|ins|..], v) <==> SetBy(nodes, out'.updates, v) {
      AssignedAppend(out.code[|ins|..], [q], v);
      assert [q][0] == q;
    }
  }

  lemma {:induction false} CopiesShaped(vs: seq<Var>, own: Option<Var>, r: Var, lo: Var, hi: Var, vars: Var)
    requires vars <= r && AllBelow(vs, vars)
    ensures BodyOk(Copies(vs, own, r), lo, hi, vars)
    ensures forall v: Var :: AssignedIn(Copies(vs, own, r), v) <==> v in vs && own != Some(v)
  {
    if vs != [] {
      assert forall x :: x in vs[1..] ==> x in vs;
      assert vs[0] in vs;
      CopiesShaped(vs[1..], own, r, lo, hi, vars);
      var head, rest := if own == Some(vs[0]) then [] else [Quad(Copy, VarArg(vs[0]), VarArg(r), NoArg)], Copies(vs[1..], own, r);
      assert BodyOk(head, lo, hi, vars);
      BodyMore(head, rest, lo, hi, hi, vars);
      forall v: Var ensures AssignedIn(Copies(vs, own, r), v) <==> v in vs && own != Some(v) {
        AssignedAppend(head, rest, v);
        assert head != [] ==> Assigns(head[0], vs[0]);
        assert v in vs <==> v == vs[0] || v in vs[1..];
      }
    }
  }

  lemma UpdateShaped(nodes: seq<Node>, out: Out, i: Id, ins: seq<Quad>, lo: Var, vars: Var)
    requires Shaped(nodes, out, ins, lo, vars) && i < |nodes| && i in out.results && AllBelow(nodes[i].vars, vars)
    ensures Shaped(nodes, Update(nodes, out, i), ins, lo, vars)
  {
    var out' := Update(nodes, out, i);
    var cs := Copies(nodes[i].vars, OwnVar(nodes[i]), out.results[i]);
    assert out'.code[|ins|..] == out.code[|ins|..] + cs;
    CopiesShaped(nodes[i].vars, OwnVar(nodes[i]), out.results[i], lo, out.nextVar, vars);
    BodyMore(out.code[|ins|..], cs, lo, out.nextVar, out.nextVar, vars);
    forall v: Var | v < vars ensures AssignedIn(out'.code[|ins|..], v) <==> SetBy(nodes, out'.updates, v) {
      AssignedAppend(out.code[|ins|..], cs, v);
      SetByAppend(nodes, out.updates, i, v);
    }
  }

  lemma ComputeShaped(fold: Folding, nodes: seq<Node>, out: Out, i: Id, ins: seq<Quad>, lo: Var, vars: Var)
    requires Shape(nodes) && Shaped(nodes, out, ins, lo, vars) && i < |nodes| && nodes[i].Apply? && NodeShape(nodes[i], i)
    requires nodes[i].left in out.results && nodes[i].right in out.results
    ensures Shaped(nodes, Compute(fold, nodes, out, i), ins, lo, vars)
  {
    var n := nodes[i];
    var a, b := ConstOf(nodes, out, n.left), ConstOf(nodes, out, n.right);
    if BothConst(a, b) {
      var c := Folded(fold, n.op, a, b);
      var out1 := out.(folded := out.folded[i := c], failed := out.failed || DividesByZero(n.op, b));
      assert Shaped(nodes, out1, ins, lo, vars);
      AddResultShaped(nodes, out1, i, Copy, c, NoArg, ins, lo, vars);
    } else {
      AddResultShaped(nodes, out, i, n.op, VarArg(out.results[n.left]), VarArg(out.results[n.right]), ins, lo, vars);
    }
  }

  lemma {:induction false} GenNodeShaped(fold: Folding, nodes: seq<Node>, out: Out, i: Id, ins: seq<Quad>, lo: Var, vars: Var)
    requires Shape(nodes) && ListsBelow(nodes, vars) && i < |nodes| && InputsDone(nodes, out) && Shaped(nodes, out, ins, lo, vars)
    ensures Shaped(nodes, GenNode(fold, nodes, out, i), ins, lo, vars) && InputsDone(nodes, GenNode(fold, nodes, out, i))
    decreases i
  {
    assert NodeShape(nodes[i], i);
    if i !in out.results {
      if nodes[i].Leaf? {
        assert !IsInput(nodes, i);
        AddResultShaped(nodes, out, i, Copy, nodes[i].arg, NoArg, ins, lo, vars);
        UpdateShaped(nodes, GenLeaf(nodes, out, i), i, ins, lo, vars);
      } else {
        var o1 := GenNode(fold, nodes, out, nodes[i].left);
        var o2 := GenNode(fold, nodes, o1, nodes[i].right);
        GenNodeShaped(fold, nodes, out, nodes[i].left, ins, lo, vars);
        GenNodeShaped(fold, nodes, o1, nodes[i].right, ins, lo, vars);
        ComputeShaped(fold, nodes, o2, i, ins, lo, vars);
        UpdateShaped(nodes, Compute(fold, nodes, o2, i), i, ins, lo, vars);
      }
    }
  }

  lemma {:induction false} GenAllShaped(fold: Folding, nodes: seq<Node>, out: Out, ids: seq<Id>, ins: seq<Quad>, lo: Var, vars: Var)
    requires Shape(nodes) && ListsBelow(nodes, vars) && (forall j :: 0 <= j < |ids| ==> ids[j] < |nodes|)
    requires InputsDone(nodes, out) && Shaped(nodes, out, ins, lo, vars)
    ensures Shaped(nodes, GenAll(fold, nodes, out, ids), ins, lo, vars)
    decreases |ids|
  {
    if ids != [] {
      GenNodeShaped(fold, nodes, out, ids[0], ins, lo, vars);
      GenAllShaped(fold, nodes, GenNode(fold, nodes, out, ids[0]), ids[1..], ins, lo, vars);
    }
  }

  lemma {:induction false} UpdateAllShaped(nodes: seq<Node>, out: Out, ids: seq<Id>, ins: seq<Quad>, lo: Var, vars: Var)
    requires ListsBelow(nodes, vars) && (forall j :: 0 <= j < |ids| ==> ids[j] < |nodes| && ids[j] in out.results)
    requires Shaped(nodes, out, ins, lo, vars)
    ensures Shaped(nodes, UpdateAll(nodes, out, ids), ins, lo, vars)
    decreases |ids|
  {
    if ids != [] {
      UpdateShaped(nodes, out, ids[0], ins, lo, vars);
      UpdateAllShaped(nodes, Update(nodes, out, ids[0]), ids[1..], ins, lo, vars);
    }
  }

  lemma {:induction false} InputCodeLength(nodes: seq<Node>, ids: seq<Id>, t: Var)
    requires forall k :: 0 <= k < |ids| ==> ids[k] < |nodes| && nodes[ids[k]].Leaf?
    ensures |InputCode(nodes, ids, t)| == |ids|
  {
    if ids != [] { InputCodeLength(nodes, ids[1..], t + 1); }
  }

  lemma InputsShaped(g: Graph, n: Var, vars: Var)
    requires Valid(g) && vars <= n && forall k :: 0 <= k < |g.inputs| ==> g.inputs[k] < |g.nodes| && g.nodes[g.inputs[k]].Leaf?
    ensures var o1 := GenInputs(g.nodes, Start(n), g.inputs);
            && InputsDone(g.nodes, o1)
            && Shaped(g.nodes, o1, InputCode(g.nodes, g.inputs, n), n + |g.inputs|, vars)
            && o1.code == InputCode(g.nodes, g.inputs, n)
  {
    var o1, ins := GenInputs(g.nodes, Start(n), g.inputs), InputCode(g.nodes, g.inputs, n);
    GenInputsFollows(g.nodes, Start(n), g.inputs);
    GenInputsCode(g.nodes, Start(n), g.inputs);
    assert [] + ins == ins && o1.code[|ins|..] == [];
    forall i | 0 <= i < |g.nodes| && IsInput(g.nodes, i) ensures i in o1.results { InputsExact(g, i); }
  }

  /** The code of a segment: copies of the inputs, and then code that does not use variables of the program. */
  lemma EmissionShaped(fold: Folding, g: Graph, order: seq<Id>, n: Var, vars: Var)
    requires Valid(g) && IsOrder(g, order) && ListsBelow(g.nodes, vars) && vars <= n
    requires forall k :: 0 <= k < |g.inputs| ==> g.inputs[k] < |g.nodes| && g.nodes[g.inputs[k]].Leaf?
    ensures Shaped(g.nodes, Emission(fold, g, order, n), InputCode(g.nodes, g.inputs, n), n + |g.inputs|, vars)
  {
    InputsListed(g);
    InputsShaped(g, n, vars);
    GenInputsResults(g.nodes, Start(n), g.inputs);
    var o1, ins := GenInputs(g.nodes, Start(n), g.inputs), InputCode(g.nodes, g.inputs, n);
    GenAllShaped(fold, g.nodes, o1, order, ins, n + |g.inputs|, vars);
    UpdateAllShaped(g.nodes, GenAll(fold, g.nodes, o1, order), g.inputs, ins, n + |g.inputs|, vars);
  }

  /** Copies of inputs into `[n, n + |ids|)`, and then a body that uses no variable of the program. */
  lemma TwoParts(nodes: seq<Node>, ids: seq<Id>, n: Var, body: seq<Quad>, hi: Var, vars: Var, after: set<Var>, v: Var)
    requires forall k :: 0 <= k < |ids| ==> ids[k] < |nodes| && nodes[ids[k]].Leaf? && IsInput(nodes, ids[k])
    requires vars <= n && v < vars && BodyOk(body, n + |ids|, hi, vars) && n + |ids| <= hi
    requires forall u :: n <= u < hi ==> u !in after
    ensures var code := InputCode(nodes, ids, n) + body;
            && (v in Before(code, after) <==> !IsInputOf(nodes, ids, v) && (v in after || AssignedIn(body, v)))
            && KeepsCalls(code, after)
  {
    BeforeAppend(InputCode(nodes, ids, n), body, after);
    BodyBefore(body, n + |ids|, hi, vars, after, v);
    forall u | n <= u < n + |ids| ensures u !in Before(body, after) {
      TempUnassigned(body, n + |ids|, hi, vars, after, u);
    }
    InputsBefore(nodes, ids, n, vars, Before(body, after), v);
  }

  /** Which variables of the program the code of a segment overwrites, for any code behind it that has other new variables. */
  lemma EmissionBefore(fold: Folding, g: Graph, order: seq<Id>, n: Var, vars: Var, after: set<Var>, v: Var)
    requires Valid(g) && IsOrder(g, order) && ListsBelow(g.nodes, vars) && vars <= n && v < vars
    requires var out := Emission(fold, g, order, n); forall u :: n <= u < out.nextVar ==> u !in after
    ensures var out := Emission(fold, g, order, n);
            && (v in Before(out.code, after) <==>
                  !IsInputOf(g.nodes, g.inputs, v) && (v in after || SetBy(g.nodes, CopyOrder(g, order), v)))
            && KeepsCalls(out.code, after)
  {
    InputsListed(g);
    EmissionShaped(fold, g, order, n, vars);
    EmissionFollows(fold, g, order, n);
    ShapedBefore(g.nodes, g.inputs, Emission(fold, g, order, n), n, vars, after, v);
  }

  lemma ShapedBefore(nodes: seq<Node>, ids: seq<Id>, out: Out, n: Var, vars: Var, after: set<Var>, v: Var)
    requires forall k :: 0 <= k < |ids| ==> ids[k] < |nodes| && nodes[ids[k]].Leaf? && IsInput(nodes, ids[k])
    requires Shaped(nodes, out, InputCode(nodes, ids, n), n + |ids|, vars) && vars <= n && v < vars
    requires forall u :: n <= u < out.nextVar ==> u !in after
    ensures v in Before(out.code, after) <==> !IsInputOf(nodes, ids, v) && (v in after || SetBy(nodes, out.updates, v))
    ensures KeepsCalls(out.code, after)
  {
    var ins := InputCode(nodes, ids, n);
    assert out.code == ins + out.code[|ins|..];
    TwoParts(nodes, ids, n, out.code[|ins|..], out.nextVar, vars, after, v);
  }

  lemma TempUnassigned(body: seq<Quad>, lo: Var, hi: Var, vars: Var, after: set<Var>, u: Var)
    requires BodyOk(body, lo, hi, vars) && vars <= u < lo && u !in after
    ensures u !in Before(body, after)
  {
    forall i | 0 <= i < |body| ensures !Assigns(body[i], u) { assert BodyQuad(body[i], lo, hi, vars); }
    UnassignedBefore(body, after, u);
  }

  // ---------- what the graph knows of a segment ----------

  ghost predicate Listed(g: Graph) {
    forall i, v: Var :: 0 <= i < |g.nodes| && v in g.nodes[i].vars ==> v in g.at
  }

  /** The graph of a segment: inputs are the variables used before they are assigned, and touched variables have nodes. */
  ghost predicate Reads(g: Graph, qs: seq<Quad>) {
    && (forall v: Var :: v in g.at <==> !FirstTouch(qs, v).Untouched?)
    && (forall v: Var :: IsInputOf(g.nodes, g.inputs, v) <==> FirstTouch(qs, v).Used?)
    && Listed(g)
  }

  lemma InputsKept(g: Graph, g': Graph, v: Var)
    requires Keeps(g.nodes, g'.nodes) && g'.inputs == g.inputs && forall k :: 0 <= k < |g.inputs| ==> g.inputs[k] < |g.nodes|
    ensures IsInputOf(g'.nodes, g'.inputs, v) <==> IsInputOf(g.nodes, g.inputs, v)
  {
    forall k | 0 <= k < |g.inputs|
      ensures IsLeafOf(g'.nodes, g.inputs[k], VarArg(v)) <==> IsLeafOf(g.nodes, g.inputs[k], VarArg(v))
    {
      assert SameValue(g.nodes[g.inputs[k]], g'.nodes[g.inputs[k]]);
    }
  }

  /** Reading an operand touches its variable. */
  lemma GetNodeReads(g: Graph, a: Arg, v: Var)
    requires Valid(g) && IsOperand(a)
    ensures var f := GetNode(g, a);
            && (v in f.g.at <==> v in g.at || a == VarArg(v))
            && (IsInputOf(f.g.nodes, f.g.inputs, v) <==> IsInputOf(g.nodes, g.inputs, v) || (a == VarArg(v) && v !in g.at))
            && (Listed(g) ==> Listed(f.g))
  {
    InputsListed(g);
    GetNodeValid(g, a);
    var f := GetNode(g, a);
    if f.g.inputs == g.inputs {
      InputsKept(g, f.g, v);
    } else {
      assert f.g.nodes[|g.nodes|] == Leaf(a, [a.v]);
      OneMoreInput(g, f.g, v);
    }
  }

  lemma OneMoreInput(g: Graph, g': Graph, v: Var)
    requires |g'.inputs| == |g.inputs| + 1 && g'.inputs[..|g.inputs|] == g.inputs && Keeps(g.nodes, g'.nodes)
    requires forall k :: 0 <= k < |g.inputs| ==> g.inputs[k] < |g.nodes|
    ensures IsInputOf(g'.nodes, g'.inputs, v) <==> IsInputOf(g.nodes, g.inputs, v) || IsLeafOf(g'.nodes, g'.inputs[|g.inputs|], VarArg(v))
  {
    forall k | 0 <= k < |g.inputs|
      ensures IsLeafOf(g'.nodes, g'.inputs[k], VarArg(v)) <==> IsLeafOf(g.nodes, g.inputs[k], VarArg(v))
    {
      assert g'.inputs[k] == g.inputs[k] && SameValue(g.nodes[g.inputs[k]], g'.nodes[g.inputs[k]]);
    }
    if k :| 0 <= k < |g.inputs| && IsLeafOf(g.nodes, g.inputs[k], VarArg(v)) {
      assert IsLeafOf(g'.nodes, g'.inputs[k], VarArg(v));
    }
  }

  lemma NewNodeLists(addr: Id -> int, g: Graph, op: Op, left: Id, right: Id)
    requires left < |g.nodes| && right < |g.nodes|
    ensures var f := NewNode(addr, g, op, left, right);
            && f.g.inputs == g.inputs && f.g.at == g.at && |f.g.nodes| >= |g.nodes|
            && forall k :: 0 <= k < |f.g.nodes| ==> f.g.nodes[k].vars == if k < |g.nodes| then g.nodes[k].vars else []
  {}

  lemma NewNodeReads(addr: Id -> int, g: Graph, op: Op, left: Id, right: Id, v: Var)
    requires Valid(g) && IsArith(op) && left < |g.nodes| && right < |g.nodes| && |g.nodes| <= MaxNodes
    ensures var f := NewNode(addr, g, op, left, right);
            && (v in f.g.at <==> v in g.at)
            && (IsInputOf(f.g.nodes, f.g.inputs, v) <==> IsInputOf(g.nodes, g.inputs, v))
            && (Listed(g) ==> Listed(f.g))
  {
    InputsListed(g);
    NewNodeValid(addr, g, op, left, right);
    NewNodeLists(addr, g, op, left, right);
    InputsKept(g, NewNode(addr, g, op, left, right).g, v);
  }

  lemma RebindReads(g: Graph, x: Var, i: Id, v: Var)
    requires Valid(g) && i < |g.nodes|
    ensures var g' := Rebind(g, x, i);
            && (v in g'.at <==> v in g.at || v == x)
            && (IsInputOf(g'.nodes, g'.inputs, v) <==> IsInputOf(g.nodes, g.inputs, v))
            && (Listed(g) ==> Listed(g'))
  {
    InputsListed(g);
    RebindNodes(g, x, i);
    InputsKept(g, Rebind(g, x, i), v);
    if Listed(g) {
      forall k, w: Var | 0 <= k < |g.nodes| && w in Rebind(g, x, i).nodes[k].vars ensures w == x || w in g.at {
        RebindLists(g, x, i, k);
      }
    }
  }

  lemma ReadValueReads(addr: Id -> int, g: Graph, q: Quad, v: Var)
    requires Valid(g) && IsPure(q) && WellFormed(q) && |g.nodes| + 2 <= MaxNodes
    ensures var f := ReadValue(addr, g, q);
            && (v in f.g.at <==> v in g.at || Uses(q, v))
            && (IsInputOf(f.g.nodes, f.g.inputs, v) <==> IsInputOf(g.nodes, g.inputs, v) || (Uses(q, v) && v !in g.at))
            && (Listed(g) ==> Listed(f.g))
  {
    GetNodeValid(g, q.arg1);
    GetNodeReads(g, q.arg1, v);
    if !q.op.Copy? {
      var a := GetNode(g, q.arg1);
      GetNodeValid(a.g, q.arg2);
      GetNodeReads(a.g, q.arg2, v);
      var b := GetNode(a.g, q.arg2);
      NewNodeReads(addr, b.g, q.op, a.i, b.i, v);
    }
  }

  lemma ReadQuadReads(addr: Id -> int, g: Graph, qs: seq<Quad>, q: Quad)
    requires Valid(g) && IsPure(q) && WellFormed(q) && |g.nodes| + 2 <= MaxNodes && Reads(g, qs)
    ensures Reads(ReadQuad(addr, g, q), qs + [q])
  {
    var g' := ReadQuad(addr, g, q);
    assert (qs + [q])[..|qs|] == qs;
    forall v: Var
      ensures v in g'.at <==> !FirstTouch(qs + [q], v).Untouched?
      ensures IsInputOf(g'.nodes, g'.inputs, v) <==> FirstTouch(qs + [q], v).Used?
    {
      ReadVarReads(addr, g, q, v);
    }
    ReadVarReads(addr, g, q, 0);
  }

  lemma ReadVarReads(addr: Id -> int, g: Graph, q: Quad, v: Var)
    requires Valid(g) && IsPure(q) && WellFormed(q) && |g.nodes| + 2 <= MaxNodes
    ensures var g' := ReadQuad(addr, g, q);
            && (v in g'.at <==> v in g.at || Uses(q, v) || Assigns(q, v))
            && (IsInputOf(g'.nodes, g'.inputs, v) <==> IsInputOf(g.nodes, g.inputs, v) || (Uses(q, v) && v !in g.at))
            && (Listed(g) ==> Listed(g'))
  {
    ReadValueValid(addr, g, q);
    var f := ReadValue(addr, g, q);
    ReadValueReads(addr, g, q, v);
    RebindReads(f.g, q.result.v, f.i, v);
  }

  lemma OwnIsInput(g: Graph, i: Id, v: Var)
    requires Valid(g) && i < |g.nodes|
    ensures OwnVar(g.nodes[i]) == Some(v) ==> IsInputOf(g.nodes, g.inputs, v)
  {
    if OwnVar(g.nodes[i]) == Some(v) {
      InputsExact(g, i);
      var k :| 0 <= k < |g.inputs| && g.inputs[k] == i;
      assert IsLeafOf(g.nodes, g.inputs[k], VarArg(v));
    }
  }

  /** What has a node is an input, or is set from some list. */
  lemma SetByList(fold: Folding, g: Graph, order: seq<Id>, v: Var)
    requires Valid(g) && IsOrder(g, order) && Listed(g) && !IsInputOf(g.nodes, g.inputs, v)
    ensures SetBy(g.nodes, CopyOrder(g, order), v) <==> v in g.at
  {
    CopyOrderOnce(fold, g, order);
    if v in g.at {
      var i := g.at[v];
      OwnIsInput(g, i, v);
      assert i in CopyOrder(g, order);
      var j :| 0 <= j < |CopyOrder(g, order)| && CopyOrder(g, order)[j] == i;
      assert Sets(g.nodes, CopyOrder(g, order)[j], v);
    }
  }

  /** The code of a segment overwrites the variables that the segment overwrites. */
  lemma SegmentBefore(fold: Folding, g: Graph, order: seq<Id>, qs: seq<Quad>, n: Var, vars: Var, after: set<Var>, v: Var)
    requires Valid(g) && IsOrder(g, order) && ListsBelow(g.nodes, vars) && vars <= n && v < vars && Reads(g, qs)
    requires var out := Emission(fold, g, order, n); forall u :: n <= u < out.nextVar ==> u !in after
    ensures var out := Emission(fold, g, order, n);
            && (v in Before(out.code, after) <==> Lost(FirstTouch(qs, v), v in after))
            && KeepsCalls(out.code, after)
  {
    EmissionBefore(fold, g, order, n, vars, after, v);
    if !IsInputOf(g.nodes, g.inputs, v) { SetByList(fold, g, order, v); }
  }

  // ---------- whole blocks ----------

  ghost predicate AllWellFormed(qs: seq<Quad>) { forall i :: 0 <= i < |qs| ==> WellFormed(qs[i]) }

  /** Only variables of the program and new ones are overwritten. */
  ghost predicate Within(s: set<Var>, n: Var, vars: Var) { forall u: Var :: u in s ==> u < vars || u >= n }

  /** No call, and no old variable but those of the program is assigned. */
  ghost predicate FormQuad(q: Quad, n: Var, vars: Var) {
    WellFormed(q) && !q.op.Call? && (q.result.VarArg? ==> q.result.v < vars || q.result.v >= n)
  }

  ghost predicate AllForm(code: seq<Quad>, n: Var, vars: Var) { forall i :: 0 <= i < |code| ==> FormQuad(code[i], n, vars) }

  lemma {:induction false} InputsForm(nodes: seq<Node>, ids: seq<Id>, t: Var, n: Var, vars: Var)
    requires n <= t && forall k :: 0 <= k < |ids| ==> ids[k] < |nodes| && nodes[ids[k]].Leaf?
    ensures AllForm(InputCode(nodes, ids, t), n, vars)
    decreases |ids|
  {
    if ids != [] { InputsForm(nodes, ids[1..], t + 1, n, vars); }
  }

  lemma ShapedForm(nodes: seq<Node>, ids: seq<Id>, out: Out, n: Var, vars: Var)
    requires forall k :: 0 <= k < |ids| ==> ids[k] < |nodes| && nodes[ids[k]].Leaf?
    requires Shaped(nodes, out, InputCode(nodes, ids, n), n + |ids|, vars)
    ensures AllForm(out.code, n, vars)
  {
    var ins := InputCode(nodes, ids, n);
    InputsForm(nodes, ids, n, n, vars);
    forall i | 0 <= i < |out.code| ensures FormQuad(out.code[i], n, vars) {
      if i < |ins| {
        assert out.code[i] == ins[i];
      } else {
        assert BodyQuad(out.code[|ins|..][i - |ins|], n + |ids|, out.nextVar, vars);
      }
    }
  }

  lemma EmissionForm(fold: Folding, g: Graph, order: seq<Id>, n: Var, vars: Var)
    requires Valid(g) && IsOrder(g, order) && ListsBelow(g.nodes, vars) && vars <= n
    ensures AllForm(Emission(fold, g, order, n).code, n, vars) && n <= Emission(fold, g, order, n).nextVar
  {
    InputsListed(g);
    EmissionShaped(fold, g, order, n, vars);
    ShapedForm(g.nodes, g.inputs, Emission(fold, g, order, n), n, vars);
  }

  lemma {:induction false} FormBefore(code: seq<Quad>, n: Var, vars: Var, after: set<Var>)
    requires AllForm(code, n, vars) && Within(after, n, vars)
    ensures AllWellFormed(code) && Within(Before(code, after), n, vars) && KeepsCalls(code, after)
  {
    forall i | 0 <= i < |code| ensures WellFormed(code[i]) { assert FormQuad(code[i], n, vars); }
    if code != [] {
      forall i | 0 <= i < |code[1..]| ensures FormQuad(code[1..][i], n, vars) { assert FormQuad(code[i + 1], n, vars); }
      FormBefore(code[1..], n, vars, after);
      assert FormQuad(code[0], n, vars);
      forall u: Var | u in Before(code, after) ensures u < vars || u >= n {
        DoomedMember(code[0], Before(code[1..], after), u);
      }
    }
  }

  /** A quadruple that ends a segment. */
  lemma EndBefore(q: Quad, rest: seq<Quad>, tail: seq<Quad>, vars: Var)
    requires !IsPure(q) && QuadBelow(q, vars)
    requires forall v: Var :: v < vars ==> (v in Before(rest, {}) <==> v in Overwritten(tail))
    requires KeepsCalls(rest, {}) <==> CallsNeeded(tail)
    ensures forall v: Var :: v < vars ==> (v in Before([q] + rest, {}) <==> v in Overwritten([q] + tail))
    ensures KeepsCalls([q] + rest, {}) <==> CallsNeeded([q] + tail)
    ensures forall v: Var :: v in Before([q] + rest, {}) ==> v in Before(rest, {}) || v < vars
  {
    assert ([q] + rest)[1..] == rest && ([q] + tail)[1..] == tail;
    forall v: Var
      ensures v < vars ==> (v in Before([q] + rest, {}) <==> v in Overwritten([q] + tail))
      ensures v in Before([q] + rest, {}) ==> v in Before(rest, {}) || v < vars
    {
      DoomedMember(q, Before(rest, {}), v);
      DoomedMember(q, Overwritten(tail), v);
    }
  }

  ghost predicate Matches(code: seq<Quad>, read: seq<Quad>, qs: seq<Quad>, n: Var, vars: Var) {
    && (forall v: Var :: v < vars ==> (v in Before(code, {}) <==> v in Overwritten(read + qs)))
    && (KeepsCalls(code, {}) <==> CallsNeeded(qs))
    && AllWellFormed(code) && Within(Before(code, {}), n, vars)
  }

  /** The code of a segment, in front of code that matches the rest of the block. */
  lemma FlushMatches(cfg: Config, g: Graph, read: seq<Quad>, rest: seq<Quad>, tail: seq<Quad>, n: Var, vars: Var)
    requires OrderOk(cfg) && Valid(g) && Reads(g, read) && AllPure(read) && ListsBelow(g.nodes, vars) && vars <= n
    requires Matches(rest, [], tail, Flush(cfg, g, n).nextVar, vars)
    ensures Matches(Flush(cfg, g, n).code + rest, read, tail, n, vars) && n <= Flush(cfg, g, n).nextVar
  {
    assert IsOrder(g, cfg.order(g));
    var out, after := Flush(cfg, g, n), Before(rest, {});
    assert [] + tail == tail;
    EmissionForm(cfg.fold, g, cfg.order(g), n, vars);
    FormBefore(out.code, n, vars, after);
    BeforeAppend(out.code, rest, {});
    forall v: Var | v < vars ensures v in Before(out.code + rest, {}) <==> v in Overwritten(read + tail) {
      SegmentBefore(cfg.fold, g, cfg.order(g), read, n, vars, after, v);
      OverwrittenBehind(read, tail, v);
    }
  }

  lemma NothingMatches(n: Var, vars: Var)
    ensures Matches([], [], [], n, vars)
  {
    var none: seq<Quad> := [];
    assert none + none == none;
  }

  lemma EmptyReads()
    ensures Reads(EmptyGraph, []) && NodesBelow(EmptyGraph.nodes, 0)
  {}

  lemma NodeLists(nodes: seq<Node>, vars: Var)
    requires NodesBelow(nodes, vars)
    ensures ListsBelow(nodes, vars)
  {
    forall i | 0 <= i < |nodes| ensures AllBelow(nodes[i].vars, vars) { assert NodeBelow(nodes[i], vars); }
  }

  /** The state of reading: the quadruples of the current segment have gone into the graph. */
  ghost predicate Reading(g: Graph, read: seq<Quad>, vars: Var) {
    Valid(g) && Reads(g, read) && AllPure(read) && NodesBelow(g.nodes, vars)
  }

  lemma ReadMore(cfg: Config, g: Graph, read: seq<Quad>, q: Quad, vars: Var)
    requires Reading(g, read, vars) && IsPure(q) && WellFormed(q) && QuadBelow(q, vars) && |g.nodes| + 2 <= MaxNodes
    ensures Reading(ReadQuad(cfg.addr, g, q), read + [q], vars)
  {
    ReadQuadValid(cfg.addr, g, q);
    ReadQuadReads(cfg.addr, g, read, q);
    ReadQuadBelow(cfg.addr, g, q, vars);
  }

  lemma EndMatches(cfg: Config, g: Graph, read: seq<Quad>, rest: seq<Quad>, q: Quad, tail: seq<Quad>, n: Var, vars: Var)
    requires OrderOk(cfg) && Reading(g, read, vars) && !IsPure(q) && WellFormed(q) && QuadBelow(q, vars) && vars <= n
    requires Matches(rest, [], tail, Flush(cfg, g, n).nextVar, vars)
    ensures Matches(Flush(cfg, g, n).code + ([q] + rest), read, [q] + tail, n, vars)
  {
    assert [] + tail == tail;
    EndBefore(q, rest, tail, vars);
    assert [] + ([q] + tail) == [q] + tail;
    NodeLists(g.nodes, vars);
    FlushMatches(cfg, g, read, [q] + rest, [q] + tail, n, vars);
  }

  /** Splitting off the first quadruple, which does not end a segment. */
  lemma MovedOver(code: seq<Quad>, read: seq<Quad>, qs: seq<Quad>, n: Var, vars: Var)
    requires qs != [] && IsPure(qs[0]) && Matches(code, read + [qs[0]], qs[1..], n, vars)
    ensures Matches(code, read, qs, n, vars)
  {
    assert read + [qs[0]] + qs[1..] == read + qs;
  }

  /** The rewritten block overwrites what the block overwrites, and needs the calls it needs. */
  lemma {:induction false} RewriteMatches(cfg: Config, g: Graph, read: seq<Quad>, qs: seq<Quad>, n: Var, vars: Var)
    requires OrderOk(cfg) && Reading(g, read, vars) && Room(cfg, g, qs)
    requires AllQuadsBelow(qs, vars) && AllWellFormed(qs) && vars <= n
    ensures Matches(Rewrite(cfg, g, qs, n).code, read, qs, n, vars)
    decreases |qs|, 1
  {
    if qs == [] {
      NothingMatches(Flush(cfg, g, n).nextVar, vars);
      NodeLists(g.nodes, vars);
      FlushMatches(cfg, g, read, [], [], n, vars);
      assert Flush(cfg, g, n).code + [] == Flush(cfg, g, n).code;
    } else if IsPure(qs[0]) {
      ReadMore(cfg, g, read, qs[0], vars);
      RewriteMatches(cfg, ReadQuad(cfg.addr, g, qs[0]), read + [qs[0]], qs[1..], n, vars);
      MovedOver(Rewrite(cfg, g, qs, n).code, read, qs, n, vars);
    } else {
      SegmentMatches(cfg, g, read, qs, n, vars);
    }
  }

  lemma SegmentMatches(cfg: Config, g: Graph, read: seq<Quad>, qs: seq<Quad>, n: Var, vars: Var)
    requires OrderOk(cfg) && Reading(g, read, vars) && Room(cfg, g, qs)
    requires AllQuadsBelow(qs, vars) && AllWellFormed(qs) && vars <= n && qs != [] && !IsPure(qs[0])
    ensures Matches(Rewrite(cfg, g, qs, n).code, read, qs, n, vars)
    decreases |qs|, 0
  {
    var out := Flush(cfg, g, n);
    RewriteEnds(cfg, g, qs, n);
    FlushGrows(cfg, g, n, vars);
    EmptyReading(vars);
    RewriteMatches(cfg, EmptyGraph, [], qs[1..], out.nextVar, vars);
    EndMatches(cfg, g, read, Rewrite(cfg, EmptyGraph, qs[1..], out.nextVar).code, qs[0], qs[1..], n, vars);
  }

  lemma RewriteEnds(cfg: Config, g: Graph, qs: seq<Quad>, n: Var)
    requires OrderOk(cfg) && Valid(g) && Room(cfg, g, qs) && qs != [] && !IsPure(qs[0])
    ensures Valid(EmptyGraph) && Room(cfg, EmptyGraph, qs[1..]) && [qs[0]] + qs[1..] == qs
    ensures var out := Flush(cfg, g, n);
            Rewrite(cfg, g, qs, n).code == out.code + ([qs[0]] + Rewrite(cfg, EmptyGraph, qs[1..], out.nextVar).code)
  {
    var out := Flush(cfg, g, n);
    var rest := Rewrite(cfg, EmptyGraph, qs[1..], out.nextVar).code;
    assert out.code + ([qs[0]] + rest) == out.code + [qs[0]] + rest;
  }

  lemma EmptyReading(vars: Var)
    requires Valid(EmptyGraph)
    ensures Reading(EmptyGraph, [], vars)
  {
    EmptyReads();
  }

  lemma FlushGrows(cfg: Config, g: Graph, n: Var, vars: Var)
    requires OrderOk(cfg) && Valid(g) && NodesBelow(g.nodes, vars) && vars <= n
    ensures n <= Flush(cfg, g, n).nextVar
  {
    assert IsOrder(g, cfg.order(g));
    NodeLists(g.nodes, vars);
    EmissionForm(cfg.fold, g, cfg.order(g), n, vars);
  }

  // ---------- all blocks of a function ----------

  /** `code` is the block after both passes, with new variables from `n` on. */
  ghost predicate OptimizedAt(cfg: Config, qs: seq<Quad>, code: seq<Quad>, n: Var) {
    && OrderOk(cfg) && Valid(EmptyGraph) && Room(cfg, EmptyGraph, qs)
    && code == CopyPasses.Compact(CopyPasses.Optimized(CopyPasses.Wrap(Rewrite(cfg, EmptyGraph, qs, n).code)))
  }

  lemma {:induction false} UpdateAllVars(nodes: seq<Node>, out: Out, ids: seq<Id>)
    requires forall k :: 0 <= k < |ids| ==> ids[k] < |nodes| && ids[k] in out.results
    ensures UpdateAll(nodes, out, ids).nextVar == out.nextVar
    decreases |ids|
  {
    if ids != [] { UpdateAllVars(nodes, Update(nodes, out, ids[0]), ids[1..]); }
  }

  lemma EmissionGrows(fold: Folding, g: Graph, order: seq<Id>, n: Var)
    requires Valid(g) && forall k :: 0 <= k < |order| ==> order[k] < |g.nodes|
    ensures n <= Emission(fold, g, order, n).nextVar
  {
    InputsListed(g);
    var o1 := GenInputs(g.nodes, Start(n), g.inputs);
    GenInputsCode(g.nodes, Start(n), g.inputs);
    GenInputsResults(g.nodes, Start(n), g.inputs);
    UpdateAllVars(g.nodes, GenAll(fold, g.nodes, o1, order), g.inputs);
  }

  lemma {:induction false} RewriteGrows(cfg: Config, g: Graph, qs: seq<Quad>, n: Var)
    requires OrderOk(cfg) && Valid(g) && Room(cfg, g, qs)
    ensures n <= Rewrite(cfg, g, qs, n).nextVar
    decreases |qs|
  {
    if qs != [] && IsPure(qs[0]) {
      ReadQuadValid(cfg.addr, g, qs[0]);
      RewriteGrows(cfg, ReadQuad(cfg.addr, g, qs[0]), qs[1..], n);
    } else {
      assert IsOrder(g, cfg.order(g));
      EmissionGrows(cfg.fold, g, cfg.order(g), n);
      if qs != [] { RewriteGrows(cfg, EmptyGraph, qs[1..], Flush(cfg, g, n).nextVar); }
    }
  }

  /** The new variables of a block are from `start` on and below `end`; an error was reported, or not. */
  datatype Extent = Extent(start: Var, end: Var, failed: bool)

  ghost predicate ExtentAt(cfg: Config, qs: seq<Quad>, code: seq<Quad>, x: Extent) {
    && OptimizedAt(cfg, qs, code, x.start)
    && var r := Rewrite(cfg, EmptyGraph, qs, x.start); x.end == r.nextVar && x.failed == r.failed
  }

  /** The first blocks have been optimised; no two of them share new variables, and `bad` says that an error was reported for one. */
  ghost predicate OptimizedTo(cfg: Config, blocks: seq<seq<Quad>>, done: seq<seq<Quad>>, xs: seq<Extent>, bad: bool, first: Var, next: Var) {
    && |done| == |xs| <= |blocks| && first <= next
    && (forall b :: 0 <= b < |done| ==> ExtentAt(cfg, blocks[b], done[b], xs[b]))
    && Disjoint(xs, bad, first, next)
  }

  ghost predicate Disjoint(xs: seq<Extent>, bad: bool, first: Var, next: Var) {
    && (forall b :: 0 <= b < |xs| ==> first <= xs[b].start && xs[b].end <= next)
    && (forall b, c :: 0 <= b < c < |xs| ==> xs[b].end <= xs[c].start)
    && (bad <==> exists b :: 0 <= b < |xs| && xs[b].failed)
  }

  lemma DisjointMore(xs: seq<Extent>, bad: bool, first: Var, x: Extent)
    requires Disjoint(xs, bad, first, x.start) && first <= x.start <= x.end
    ensures Disjoint(xs + [x], bad || x.failed, first, x.end)
  {
    var xs' := xs + [x];
    assert xs'[|xs|] == x && forall b :: 0 <= b < |xs| ==> xs'[b] == xs[b];
  }

  lemma OptimizedMore(cfg: Config, blocks: seq<seq<Quad>>, done: seq<seq<Quad>>, xs: seq<Extent>, bad: bool, first: Var,
                      code: seq<Quad>, x: Extent)
    requires OptimizedTo(cfg, blocks, done, xs, bad, first, x.start) && |done| < |blocks|
    requires ExtentAt(cfg, blocks[|done|], code, x) && x.start <= x.end
    ensures OptimizedTo(cfg, blocks, done + [code], xs + [x], bad || x.failed, first, x.end)
  {
    DisjointMore(xs, bad, first, x);
    ExtentsMore(cfg, blocks, done, xs, code, x);
  }

  lemma ExtentsMore(cfg: Config, blocks: seq<seq<Quad>>, done: seq<seq<Quad>>, xs: seq<Extent>, code: seq<Quad>, x: Extent)
    requires |done| == |xs| < |blocks| && forall b :: 0 <= b < |done| ==> ExtentAt(cfg, blocks[b], done[b], xs[b])
    requires ExtentAt(cfg, blocks[|done|], code, x)
    ensures forall b :: 0 <= b < |done| + 1 ==> ExtentAt(cfg, blocks[b], (done + [code])[b], (xs + [x])[b])
  {
    forall b | 0 <= b < |done| + 1 ensures ExtentAt(cfg, blocks[b], (done + [code])[b], (xs + [x])[b]) {
      if b < |done| { assert ExtentAt(cfg, blocks[b], done[b], xs[b]); }
    }
  }

  /** Both passes over one block. */
  method OptimizeBoth(o: Optimizer, block: seq<Quad>) returns (code: seq<Quad>, err: bool)
    requires o.Now() == EmptyGraph && Valid(EmptyGraph) && o.Emit() == Start(o.nextVar) && OrderOk(o.cfg) && Room(o.cfg, EmptyGraph, block)
    modifies o
    ensures o.Now() == EmptyGraph && o.Emit() == Start(o.nextVar) && old(o.nextVar) <= o.nextVar
    ensures OptimizedAt(o.cfg, block, code, old(o.nextVar))
    ensures var r := Rewrite(o.cfg, EmptyGraph, block, old(o.nextVar)); err == r.failed && o.nextVar == r.nextVar
  {
    RewriteGrows(o.cfg, EmptyGraph, block, o.nextVar);
    code, err := o.OptimizeLocal(block);
    code := LocalOpt.OptimizeBlock(code);
  }

  /** perform_local_optimizations */
  method PerformLocalOptimizations(o: Optimizer, blocks: seq<seq<Quad>>)
    returns (done: seq<seq<Quad>>, bad: bool, ghost xs: seq<Extent>)
    requires o.Now() == EmptyGraph && Valid(EmptyGraph) && o.Emit() == Start(o.nextVar) && OrderOk(o.cfg)
    requires forall b :: 0 <= b < |blocks| ==> Room(o.cfg, EmptyGraph, blocks[b])
    modifies o
    ensures |done| == |blocks| && OptimizedTo(o.cfg, blocks, done, xs, bad, old(o.nextVar), o.nextVar)
  {
    done, bad, xs := [], false, [];
    var b := 0;
    while b < |blocks|
      invariant 0 <= b <= |blocks| && |done| == b
      invariant o.Now() == EmptyGraph && o.Emit() == Start(o.nextVar)
      invariant OptimizedTo(o.cfg, blocks, done, xs, bad, old(o.nextVar), o.nextVar)
    {
      ghost var start := o.nextVar;
      var code, err := OptimizeBoth(o, blocks[b]);
      ghost var x := Extent(start, o.nextVar, err);
      OptimizedMore(o.cfg, blocks, done, xs, bad, old(o.nextVar), code, x);
      done, bad, xs := done + [code], bad || err, xs + [x];
      b := b + 1;
    }
  }

  // ---------- what is preserved ----------

  /**
    If labels match at the end of every segment, both passes over a block preserve its effects
    and all variables there were before if and only if no call has a result that is overwritten.
    */
  lemma LocalPreserved(m: Machine, cfg: Config, qs: seq<Quad>, code: seq<Quad>, n: Var, s: State)
    requires Commutes(m) && Agrees(m, cfg.fold) && AllQuadsBelow(qs, n) && AllWellFormed(qs)
    requires OptimizedAt(cfg, qs, code, n) && AllMatch(cfg, EmptyGraph, qs, n)
    ensures Alike(RunBlock(m, qs, s), RunBlock(m, code, s), n) <==> CallsNeeded(qs)
  {
    var first := Rewrite(cfg, EmptyGraph, qs, n).code;
    BlockPreserved(m, cfg, qs, s, n);
    EmptyReads();
    RewriteMatches(cfg, EmptyGraph, [], qs, n, n);
    WrappedCalls(first);
    CopyPasses.BlockPreserved(m, first, s);
    if !CallsNeeded(qs) {
      CopyPasses.LostCallShows(m, first, s);
    }
  }

  /** Labels match in blocks whose segments neither assign a copied variable again nor divide a constant by zero. */
  lemma StandingPreserved(m: Machine, cfg: Config, qs: seq<Quad>, code: seq<Quad>, n: Var, s: State)
    requires Commutes(m) && Agrees(m, cfg.fold) && AllQuadsBelow(qs, n) && AllWellFormed(qs)
    requires OptimizedAt(cfg, qs, code, n) && SegmentsStand(qs) && NoZeroDivisions(cfg, EmptyGraph, qs)
    ensures Alike(RunBlock(m, qs, s), RunBlock(m, code, s), n) <==> CallsNeeded(qs)
  {
    StandingMatches(cfg, qs, n);
    LocalPreserved(m, cfg, qs, code, n, s);
  }
}
