/**
  The second group of local optimisations: redundant copies, dead assignments, backward
  and forward copy propagation. Each pass works in place on the table of a block's
  quadruples; it is proved equal to a function on sequences, and the functions are
  proved to preserve what the block does.
  */
module CopyPasses {
  import opened Quadr

  type Table = seq<Option<Quad>>

  ghost predicate WF(qs: Table) {
    forall i :: 0 <= i < |qs| && qs[i].Some? ==> WellFormed(qs[i].value)
  }

  // ---------- redundant copies ----------

  function Pruned(e: Option<Quad>): Option<Quad> {
    if e.Some? && e.value.op.Copy? && e.value.arg1.VarArg? && e.value.result == e.value.arg1 then None else e
  }

  ghost function PruneAll(qs: Table): (r: Table)
    ensures |r| == |qs|
  {
    if qs == [] then [] else [Pruned(qs[0])] + PruneAll(qs[1..])
  }

  // ---------- dead assignments ----------

  /** The variables that are assigned in `qs` before they are used. */
  ghost function Doomed(qs: Table): set<Var> {
    if qs == [] then {}
    else if qs[0].None? then Doomed(qs[1..])
    else DoomedBefore(qs[0].value, Doomed(qs[1..]))
  }

  function DoomedBefore(q: Quad, after: set<Var>): set<Var> {
    var written := if !q.op.WritePtr? && q.result.VarArg? then {q.result.v} else {};
    (after + written) - UsedVars(q)
  }

  function UsedVars(q: Quad): set<Var> {
    (if q.arg1.VarArg? then {q.arg1.v} else {}) +
    (if q.arg2.VarArg? then {q.arg2.v} else {}) +
    (if q.op.WritePtr? && q.result.VarArg? then {q.result.v} else {})
  }

  predicate DeadBefore(q: Quad, doomed: set<Var>) {
    !q.op.WritePtr? && q.result.VarArg? && q.result.v in doomed
  }

  /** One backward sweep that removes every assignment whose variable is overwritten before it is used. */
  ghost function Sweep(qs: Table): (r: Table)
    ensures |r| == |qs|
  {
    if qs == [] then []
    else
      var rest := Sweep(qs[1..]);
      if qs[0].Some? && DeadBefore(qs[0].value, Doomed(rest)) then [None] + rest else [qs[0]] + rest
  }

  /** No entry is dead any more. */
  ghost predicate Settled(qs: Table) {
    forall i :: 0 <= i < |qs| && qs[i].Some? ==> !DeadBefore(qs[i].value, Doomed(qs[i + 1..]))
  }

  lemma {:induction false} SettledSweep(qs: Table)
    requires Settled(qs)
    ensures Sweep(qs) == qs
  {
    if qs != [] {
      forall i | 0 <= i < |qs[1..]| && qs[1..][i].Some?
        ensures !DeadBefore(qs[1..][i].value, Doomed(qs[1..][i + 1..]))
      {
        assert qs[1..][i + 1..] == qs[i + 2..];
      }
      SettledSweep(qs[1..]);
      assert qs == [qs[0]] + qs[1..];
    }
  }

  lemma {:induction false} SweepSettled(qs: Table)
    ensures Settled(Sweep(qs))
  {
    if qs != [] {
      SweepSettled(qs[1..]);
      var r, rest := Sweep(qs), Sweep(qs[1..]);
      forall i | 0 <= i < |r| && r[i].Some? ensures !DeadBefore(r[i].value, Doomed(r[i + 1..])) {
        assert r[i + 1..] == rest[i..];
        if i > 0 {
          assert r[i] == rest[i - 1];
        } else {
          assert rest[i..] == rest;
        }
      }
    }
  }

  lemma {:induction false} DoomedGrows(qs: Table)
    ensures Doomed(qs) <= Doomed(Sweep(qs))
  {
    if qs != [] {
      DoomedGrows(qs[1..]);
      var r := Sweep(qs);
      assert r[1..] == Sweep(qs[1..]);
    }
  }

  /** The sweep of a whole depends on the sweep of its tail only. */
  lemma {:induction false} SweepPrefix(a: Table, b: Table, b': Table)
    requires Sweep(b) == Sweep(b')
    ensures Sweep(a + b) == Sweep(a + b')
  {
    if a == [] {
      assert a + b == b && a + b' == b';
    } else {
      assert (a + b)[1..] == a[1..] + b && (a + b')[1..] == a[1..] + b';
      SweepPrefix(a[1..], b, b');
    }
  }

  /** Removing one dead entry, in any order, does not change what the sweep will leave. */
  lemma SweepRemove(qs: Table, i: nat)
    requires i < |qs| && qs[i].Some? && DeadBefore(qs[i].value, Doomed(qs[i + 1..]))
    ensures Sweep(qs[i := None]) == Sweep(qs)
  {
    DoomedGrows(qs[i + 1..]);
    assert qs[i..][1..] == qs[i + 1..];
    var b' := [None] + qs[i + 1..];
    assert b'[1..] == qs[i + 1..];
    SweepPrefix(qs[..i], qs[i..], b');
    assert qs == qs[..i] + qs[i..];
    assert qs[i := None] == qs[..i] + b';
  }

  /**
    The variables of which no value is needed at the start of `qs`: they are assigned before
    they are used, where a use by an assignment that is itself not needed does not count.
    */
  ghost function Unneeded(qs: Table): set<Var> {
    if qs == [] then {}
    else
      var after := Unneeded(qs[1..]);
      if qs[0].None? || DeadBefore(qs[0].value, after) then after else DoomedBefore(qs[0].value, after)
  }

  /** The sweep finds exactly those variables overwritten. */
  lemma {:induction false} UnneededSwept(qs: Table)
    ensures Doomed(Sweep(qs)) == Unneeded(qs)
  {
    if qs != [] {
      UnneededSwept(qs[1..]);
      assert Sweep(qs)[1..] == Sweep(qs[1..]);
    }
  }

  /** The value assigned by `q` is needed by the code behind it. */
  ghost predicate Needed(q: Quad, rest: Table) { !DeadBefore(q, Unneeded(rest)) }

  /** The block needs the results of all its calls. */
  ghost predicate CallsKept(qs: Table) {
    qs != [] ==>
      && CallsKept(qs[1..])
      && (qs[0].Some? && qs[0].value.op.Call? ==> Needed(qs[0].value, qs[1..]))
  }

  ghost predicate AgreeExcept(s: State, s': State, vars: set<Var>) {
    s.trace == s'.trace && forall v: Var :: v !in vars ==> s.env[v] == s'.env[v]
  }

  lemma ExecAgree(m: Machine, q: Quad, s: State, s': State, after: set<Var>)
    requires WellFormed(q) && AgreeExcept(s, s', DoomedBefore(q, after))
    ensures AgreeExcept(Exec(m, q, s), Exec(m, q, s'), after)
  {
    assert forall v :: Uses(q, v) ==> v in UsedVars(q);
    assert forall v :: Uses(q, v) ==> s.env[v] == s'.env[v];
    assert Eval(q.arg1, s.env) == Eval(q.arg1, s'.env);
    assert Eval(q.arg2, s.env) == Eval(q.arg2, s'.env);
    assert HasEffect(q.op) && q.op.WritePtr? ==> Eval(q.result, s.env) == Eval(q.result, s'.env);
  }

  lemma {:induction false} SweepRun(m: Machine, qs: Table, s: State, s': State)
    requires WF(qs) && CallsKept(qs) && AgreeExcept(s, s', Doomed(Sweep(qs)))
    ensures Run(m, qs, s) == Run(m, Sweep(qs), s')
  {
    if qs == [] {
      assert s.env == s'.env;
    } else {
      var r, rest := Sweep(qs), Sweep(qs[1..]);
      assert r[1..] == rest;
      UnneededSwept(qs[1..]);
      if qs[0].None? {
        SweepRun(m, qs[1..], s, s');
      } else if r[0].Some? {
        ExecAgree(m, qs[0].value, s, s', Doomed(rest));
        SweepRun(m, qs[1..], Exec(m, qs[0].value, s), Exec(m, qs[0].value, s'));
      } else {
        SweepRun(m, qs[1..], Exec(m, qs[0].value, s), s');
      }
    }
  }

  ghost function Effects(qs: Table): nat {
    if qs == [] then 0 else Effects(qs[1..]) + if qs[0].Some? && HasEffect(qs[0].value.op) then 1 else 0
  }

  lemma {:induction false} TraceLength(m: Machine, qs: Table, s: State)
    ensures |Run(m, qs, s).trace| == |s.trace| + Effects(qs)
  {
    if qs != [] {
      TraceLength(m, qs[1..], if qs[0].Some? then Exec(m, qs[0].value, s) else s);
    }
  }

  lemma {:induction false} SweepEffects(qs: Table)
    requires WF(qs)
    ensures Effects(Sweep(qs)) <= Effects(qs)
    ensures Effects(Sweep(qs)) == Effects(qs) <==> CallsKept(qs)
  {
    if qs != [] {
      SweepEffects(qs[1..]);
      UnneededSwept(qs[1..]);
      assert Sweep(qs)[1..] == Sweep(qs[1..]);
    }
  }

  /** Dead-assignment removal preserves what a block does if and only if it removes no call. */
  lemma SweepPreserves(m: Machine, qs: Table, s: State)
    requires WF(qs)
    ensures Run(m, Sweep(qs), s) == Run(m, qs, s) <==> CallsKept(qs)
  {
    if CallsKept(qs) {
      SweepRun(m, qs, s, s);
    } else {
      SweepEffects(qs);
      TraceLength(m, qs, s);
      TraceLength(m, Sweep(qs), s);
    }
  }

  // ---------- redundant copies, continued ----------

  lemma {:induction false} PrunePreserves(m: Machine, qs: Table, s: State)
    ensures Run(m, PruneAll(qs), s) == Run(m, qs, s)
  {
    if qs != [] {
      var r := PruneAll(qs);
      assert r[1..] == PruneAll(qs[1..]);
      PrunedRun(m, qs[0], s);
      PrunePreserves(m, qs[1..], if qs[0].Some? then Exec(m, qs[0].value, s) else s);
    }
  }

  lemma PrunedRun(m: Machine, e: Option<Quad>, s: State)
    ensures e.Some? && Pruned(e).None? ==> Exec(m, e.value, s) == s
  {
    if e.Some? && Pruned(e).None? {
      var v := e.value.result.v;
      assert s.env[v := s.env[v]] == s.env;
    }
  }

  /** Copies of a variable to itself do not influence which calls are kept. */
  lemma {:induction false} PruneCalls(qs: Table)
    requires WF(qs)
    ensures Unneeded(PruneAll(qs)) == Unneeded(qs)
    ensures CallsKept(PruneAll(qs)) <==> CallsKept(qs)
  {
    if qs != [] {
      var r := PruneAll(qs);
      assert r[1..] == PruneAll(qs[1..]);
      PruneCalls(qs[1..]);
    }
  }

  // ---------- forward propagation ----------

  function Subst(a: Arg, from: Var, to: Var): Arg {
    if a == VarArg(from) then VarArg(to) else a
  }

  function SubstArgs(q: Quad, from: Var, to: Var): Quad {
    q.(arg1 := Subst(q.arg1, from, to), arg2 := Subst(q.arg2, from, to))
  }

  predicate CopyBetween(q: Quad, v0: Var, v1: Var) {
    q.op.Copy? && (q.arg1 == VarArg(v1) || q.arg1 == VarArg(v0))
  }

  /** Whether the propagation of `v0 = v1` ends at `q`, whose arguments are already renamed. */
  predicate StopsForward(q: Quad, v0: Var, v1: Var) {
    (Assigns(q, v0) || Assigns(q, v1)) && !CopyBetween(q, v0, v1)
  }

  /** Replace `v0` by `v1` until one of them is assigned something else. */
  ghost function Forward(qs: Table, v0: Var, v1: Var): (r: Table)
    ensures |r| == |qs|
  {
    if qs == [] then []
    else if qs[0].None? then [None] + Forward(qs[1..], v0, v1)
    else
      var q := SubstArgs(qs[0].value, v0, v1);
      if StopsForward(q, v0, v1) then [Some(q)] + qs[1..]
      else [Pruned(Some(q.(result := Subst(q.result, v0, v1))))] + Forward(qs[1..], v0, v1)
  }

  lemma {:induction false} ForwardPreserves(m: Machine, qs: Table, v0: Var, v1: Var, s: State)
    requires WF(qs) && v0 != v1 && s.env[v0] == s.env[v1]
    ensures Run(m, Forward(qs, v0, v1), s) == Run(m, qs, s)
  {
    if qs != [] {
      var r := Forward(qs, v0, v1);
      if qs[0].None? {
        assert r[1..] == Forward(qs[1..], v0, v1);
        ForwardPreserves(m, qs[1..], v0, v1, s);
      } else {
        var q0 := qs[0].value;
        var q := SubstArgs(q0, v0, v1);
        assert Exec(m, q, s) == Exec(m, q0, s);
        if StopsForward(q, v0, v1) {
          assert r[1..] == qs[1..];
        } else {
          assert r[1..] == Forward(qs[1..], v0, v1);
          ForwardStep(m, q, v0, v1, s);
          ForwardPreserves(m, qs[1..], v0, v1, Exec(m, q0, s));
        }
      }
    }
  }

  lemma ForwardStep(m: Machine, q: Quad, v0: Var, v1: Var, s: State)
    requires WellFormed(q) && v0 != v1 && s.env[v0] == s.env[v1] && !StopsForward(q, v0, v1)
    requires q.arg1 != VarArg(v0) && q.arg2 != VarArg(v0)
    ensures var s' := Exec(m, q, s); s'.env[v0] == s'.env[v1]
    ensures var e := Pruned(Some(q.(result := Subst(q.result, v0, v1))));
      Exec(m, q, s) == if e.Some? then Exec(m, e.value, s) else s
  {
    if Assigns(q, v0) || Assigns(q, v1) {
      assert s.env[v0 := s.env[v1]] == s.env && s.env[v1 := s.env[v1]] == s.env;
    }
  }

  // ---------- backward propagation ----------

  /** Going backwards, `v1` is assigned before `v0` is used or assigned. */
  ghost predicate CanBackpropagate(p: Table, v0: Var, v1: Var) {
    p != [] &&
    var e, rest := p[|p| - 1], p[..|p| - 1];
    if e.None? then CanBackpropagate(rest, v0, v1)
    else Assigns(e.value, v1) || (!Uses(e.value, v0) && !Assigns(e.value, v0) && CanBackpropagate(rest, v0, v1))
  }

  /** Going backwards, replace `v1` by `v0`, up to and including the assignment to it. */
  ghost function Backward(p: Table, v0: Var, v1: Var): (r: Table)
    ensures |r| == |p|
  {
    if p == [] then []
    else
      var e, rest := p[|p| - 1], p[..|p| - 1];
      if e.None? then Backward(rest, v0, v1) + [None]
      else
        var q := e.value.(result := Subst(e.value.result, v1, v0));
        if Assigns(q, v0) then rest + [Some(q)]
        else Backward(rest, v0, v1) + [Pruned(Some(SubstArgs(q, v1, v0)))]
  }

  /** The renamed code computes in `v0` what the original computes in `v1`. */
  ghost predicate Exchanged(s: State, s': State, v0: Var, v1: Var) {
    && s'.trace == s.trace && s'.env[v0] == s.env[v1]
    && forall v: Var :: v != v0 && v != v1 ==> s'.env[v] == s.env[v]
  }

  lemma {:induction false} BackwardExchanges(m: Machine, p: Table, v0: Var, v1: Var, s: State)
    requires WF(p) && v0 != v1 && CanBackpropagate(p, v0, v1)
    ensures Exchanged(Run(m, p, s), Run(m, Backward(p, v0, v1), s), v0, v1)
  {
    var e, rest := p[|p| - 1], p[..|p| - 1];
    var r := Backward(p, v0, v1);
    assert p == rest + [e] && r == r[..|p| - 1] + [r[|p| - 1]];
    RunAppend(m, rest, [e], s);
    RunAppend(m, r[..|p| - 1], [r[|p| - 1]], s);
    RunOne(m, e, Run(m, rest, s));
    RunOne(m, r[|p| - 1], Run(m, r[..|p| - 1], s));
    if e.None? {
      assert r[..|p| - 1] == Backward(rest, v0, v1);
      BackwardExchanges(m, rest, v0, v1, s);
    } else if Assigns(e.value, v1) {
      assert r[..|p| - 1] == rest;
    } else {
      assert r[..|p| - 1] == Backward(rest, v0, v1);
      BackwardExchanges(m, rest, v0, v1, s);
      BackwardStep(m, e.value, v0, v1, Run(m, rest, s), Run(m, Backward(rest, v0, v1), s));
    }
  }

  lemma RunOne(m: Machine, e: Option<Quad>, s: State)
    ensures Run(m, [e], s) == if e.Some? then Exec(m, e.value, s) else s
  {}

  lemma BackwardStep(m: Machine, q: Quad, v0: Var, v1: Var, s: State, s': State)
    requires WellFormed(q) && v0 != v1 && Exchanged(s, s', v0, v1)
    requires !Assigns(q, v1) && !Assigns(q, v0) && !Uses(q, v0)
    ensures var e := Pruned(Some(SubstArgs(q.(result := Subst(q.result, v1, v0)), v1, v0)));
      Exchanged(Exec(m, q, s), if e.Some? then Exec(m, e.value, s') else s', v0, v1)
  {
    var q' := SubstArgs(q.(result := Subst(q.result, v1, v0)), v1, v0);
    assert Eval(q'.arg1, s'.env) == Eval(q.arg1, s.env) && Eval(q'.arg2, s'.env) == Eval(q.arg2, s.env);
    assert q.op.WritePtr? ==> Eval(q'.result, s'.env) == Eval(q.result, s.env);
    assert Exchanged(Exec(m, q, s), Exec(m, q', s'), v0, v1);
    PrunedRun(m, Some(q'), s');
  }

  // ---------- whole passes ----------

  predicate IsCopy(e: Option<Quad>) {
    e.Some? && e.value.op.Copy? && e.value.result.VarArg? && e.value.arg1.VarArg?
  }

  /** One round of backward propagation: the copy `v0 := v1` at `i` becomes `v1 := v0`. */
  ghost function BackStep(qs: Table, i: nat): (r: Table)
    requires i < |qs|
    ensures |r| == |qs|
  {
    var e := Pruned(qs[i]);
    if !IsCopy(e) then qs[i := e]
    else
      var v0, v1 := e.value.result.v, e.value.arg1.v;
      if CanBackpropagate(qs[..i], v0, v1) then
        Backward(qs[..i], v0, v1)
        + [Some(e.value.(result := VarArg(v1), arg1 := VarArg(v0)))]
        + Forward(qs[i + 1..], v1, v0)
      else qs[i := e]
  }

  ghost function BackAll(qs: Table, n: nat): (r: Table)
    requires n <= |qs|
    ensures |r| == |qs|
    decreases n
  {
    if n == 0 then qs else BackAll(BackStep(qs, n - 1), n - 1)
  }

  ghost function ForwardStepAt(qs: Table, i: nat): (r: Table)
    requires i < |qs|
    ensures |r| == |qs|
  {
    var e := Pruned(qs[i]);
    if IsCopy(e) then qs[..i] + [e] + Forward(qs[i + 1..], e.value.result.v, e.value.arg1.v)
    else qs[i := e]
  }

  ghost function ForwardAll(qs: Table, i: nat): (r: Table)
    requires i <= |qs|
    ensures |r| == |qs|
    decreases |qs| - i
  {
    if i == |qs| then qs else ForwardAll(ForwardStepAt(qs, i), i + 1)
  }

  ghost function Optimized(qs: Table): Table {
    ForwardAll(BackAll(Sweep(PruneAll(qs)), |qs|), 0)
  }

  // ---------- well-formedness is kept ----------

  lemma {:induction false} PruneWF(qs: Table)
    requires WF(qs)
    ensures WF(PruneAll(qs))
  {
    if qs != [] { PruneWF(qs[1..]); }
  }

  lemma {:induction false} SweepWF(qs: Table)
    requires WF(qs)
    ensures WF(Sweep(qs))
  {
    if qs != [] { SweepWF(qs[1..]); }
  }

  lemma {:induction false} ForwardWF(qs: Table, v0: Var, v1: Var)
    requires WF(qs)
    ensures WF(Forward(qs, v0, v1))
  {
    if qs != [] { ForwardWF(qs[1..], v0, v1); }
  }

  lemma {:induction false} BackwardWF(p: Table, v0: Var, v1: Var)
    requires WF(p)
    ensures WF(Backward(p, v0, v1))
  {
    if p != [] { BackwardWF(p[..|p| - 1], v0, v1); }
  }

  lemma BackStepWF(qs: Table, i: nat)
    requires WF(qs) && i < |qs|
    ensures WF(BackStep(qs, i))
  {
    var e := Pruned(qs[i]);
    if IsCopy(e) {
      BackwardWF(qs[..i], e.value.result.v, e.value.arg1.v);
      ForwardWF(qs[i + 1..], e.value.arg1.v, e.value.result.v);
    }
  }

  lemma ForwardStepWF(qs: Table, i: nat)
    requires WF(qs) && i < |qs|
    ensures WF(ForwardStepAt(qs, i))
  {
    var e := Pruned(qs[i]);
    if IsCopy(e) {
      ForwardWF(qs[i + 1..], e.value.result.v, e.value.arg1.v);
    }
  }

  // ---------- meaning is kept ----------

  /** Running a table around one entry. */
  lemma RunAround(m: Machine, a: Table, e: Option<Quad>, b: Table, s: State)
    ensures Run(m, a + [e] + b, s)
            == Run(m, b, if e.Some? then Exec(m, e.value, Run(m, a, s)) else Run(m, a, s))
  {
    RunAppend(m, a + [e], b, s);
    RunAppend(m, a, [e], s);
    RunOne(m, e, Run(m, a, s));
  }

  /** Renaming before and after a copy, and turning the copy around. */
  lemma ExchangeRun(m: Machine, a: Table, q: Quad, b: Table, s: State)
    requires WF(a) && WF(b) && IsCopy(Some(q)) && q.result != q.arg1
    requires CanBackpropagate(a, q.result.v, q.arg1.v)
    ensures var v0, v1 := q.result.v, q.arg1.v;
      Run(m, Backward(a, v0, v1) + [Some(q.(result := VarArg(v1), arg1 := VarArg(v0)))] + Forward(b, v1, v0), s)
      == Run(m, b, Exec(m, q, Run(m, a, s)))
  {
    var v0, v1 := q.result.v, q.arg1.v;
    var q' := q.(result := VarArg(v1), arg1 := VarArg(v0));
    BackwardExchanges(m, a, v0, v1, s);
    RunAround(m, Backward(a, v0, v1), Some(q'), Forward(b, v1, v0), s);
    var s2 := Exec(m, q, Run(m, a, s));
    assert s2.env == Exec(m, q', Run(m, Backward(a, v0, v1), s)).env;
    ForwardPreserves(m, b, v1, v0, s2);
  }

  lemma BackStepPreserves(m: Machine, qs: Table, i: nat, s: State)
    requires WF(qs) && i < |qs|
    ensures Run(m, BackStep(qs, i), s) == Run(m, qs, s)
  {
    var a, e, b := qs[..i], Pruned(qs[i]), qs[i + 1..];
    assert qs == a + [qs[i]] + b && qs[i := e] == a + [e] + b;
    RunAround(m, a, qs[i], b, s);
    RunAround(m, a, e, b, s);
    PrunedRun(m, qs[i], Run(m, a, s));
    if IsCopy(e) && CanBackpropagate(a, e.value.result.v, e.value.arg1.v) {
      ExchangeRun(m, a, e.value, b, s);
    }
  }

  lemma ForwardStepPreserves(m: Machine, qs: Table, i: nat, s: State)
    requires WF(qs) && i < |qs|
    ensures Run(m, ForwardStepAt(qs, i), s) == Run(m, qs, s)
  {
    var a, e, b := qs[..i], Pruned(qs[i]), qs[i + 1..];
    assert qs == a + [qs[i]] + b && qs[i := e] == a + [e] + b;
    RunAround(m, a, qs[i], b, s);
    RunAround(m, a, e, b, s);
    PrunedRun(m, qs[i], Run(m, a, s));
    if IsCopy(e) {
      var v0, v1 := e.value.result.v, e.value.arg1.v;
      RunAround(m, a, e, Forward(b, v0, v1), s);
      ForwardPreserves(m, b, v0, v1, Exec(m, e.value, Run(m, a, s)));
    }
  }

  lemma {:induction false} BackAllPreserves(m: Machine, qs: Table, n: nat, s: State)
    requires WF(qs) && n <= |qs|
    ensures WF(BackAll(qs, n)) && Run(m, BackAll(qs, n), s) == Run(m, qs, s)
    decreases n
  {
    if n > 0 {
      BackStepWF(qs, n - 1);
      BackStepPreserves(m, qs, n - 1, s);
      BackAllPreserves(m, BackStep(qs, n - 1), n - 1, s);
    }
  }

  lemma {:induction false} ForwardAllPreserves(m: Machine, qs: Table, i: nat, s: State)
    requires WF(qs) && i <= |qs|
    ensures Run(m, ForwardAll(qs, i), s) == Run(m, qs, s)
    decreases |qs| - i
  {
    if i < |qs| {
      ForwardStepWF(qs, i);
      ForwardStepPreserves(m, qs, i, s);
      ForwardAllPreserves(m, ForwardStepAt(qs, i), i + 1, s);
    }
  }

  /**
    For every machine and every entry state, the optimised block ends with the same values,
    calls, parameters, writes and final jump as the original, if and only if the block needs
    the result of every call in it.
    */
  lemma OptimizedPreserves(m: Machine, qs: Table, s: State)
    requires WF(qs)
    ensures Run(m, Optimized(qs), s) == Run(m, qs, s) <==> CallsKept(qs)
  {
    var p := PruneAll(qs);
    PruneWF(qs);
    PruneCalls(qs);
    PrunePreserves(m, qs, s);
    SweepPreserves(m, p, s);
    SweepWF(p);
    BackAllPreserves(m, Sweep(p), |qs|, s);
    ForwardAllPreserves(m, BackAll(Sweep(p), |qs|), 0, s);
  }

  // ---------- what the passes achieve ----------

  /** Where forward propagation ends. */
  ghost function StopIndex(qs: Table, v0: Var, v1: Var): (k: nat)
    ensures k <= |qs|
  {
    if qs == [] then 0
    else if qs[0].Some? && StopsForward(SubstArgs(qs[0].value, v0, v1), v0, v1) then 0
    else 1 + StopIndex(qs[1..], v0, v1)
  }

  /** Up to its end, forward propagation leaves no mention of `v0`; beyond it nothing changes. */
  lemma {:induction false} ForwardRenames(qs: Table, v0: Var, v1: Var, k: nat)
    requires WF(qs) && v0 != v1 && k < |qs|
    ensures var r, stop := Forward(qs, v0, v1), StopIndex(qs, v0, v1);
      && (k < stop && r[k].Some? ==> !Uses(r[k].value, v0) && !Assigns(r[k].value, v0))
      && (k == stop ==> r[k].Some? && r[k].value.arg1 != VarArg(v0) && r[k].value.arg2 != VarArg(v0))
      && (k > stop ==> r[k] == qs[k])
  {
    if k > 0 {
      if StopIndex(qs, v0, v1) > 0 {
        ForwardRenames(qs[1..], v0, v1, k - 1);
      }
    }
  }

  /** After backward propagation `v0` is computed directly, and `v1` is not mentioned between there and the copy. */
  lemma {:induction false} BackwardRenames(p: Table, v0: Var, v1: Var) returns (j: nat)
    requires WF(p) && v0 != v1 && CanBackpropagate(p, v0, v1)
    ensures var r := Backward(p, v0, v1);
      && j < |p| && r[..j] == p[..j]
      && p[j].Some? && Assigns(p[j].value, v1) && r[j] == Some(p[j].value.(result := VarArg(v0)))
      && forall k :: j < k < |p| && r[k].Some? ==> !Uses(r[k].value, v1) && !Assigns(r[k].value, v1)
  {
    var e, rest := p[|p| - 1], p[..|p| - 1];
    if e.Some? && Assigns(e.value, v1) {
      j := |p| - 1;
    } else {
      j := BackwardRenames(rest, v0, v1);
      assert Backward(p, v0, v1)[..|p| - 1] == Backward(rest, v0, v1);
      assert p[..j] == rest[..j];
    }
  }

  /** A call whose result is overwritten unread disappears, and with it its effect. */
  lemma OverwrittenCallIsLost(m: Machine, s: State)
    ensures var qs := [Some(Quad(Call, VarArg(0), FuncArg(0), NoArg)), Some(Quad(Copy, VarArg(0), IntArg(1), NoArg))];
      && WF(qs) && !CallsKept(qs)
      && |Run(m, qs, s).trace| == |s.trace| + 1
      && Sweep(PruneAll(qs)) == [None, qs[1]]
      && Run(m, Optimized(qs), s) != Run(m, qs, s)
  {
    var call, copy := Some(Quad(Call, VarArg(0), FuncArg(0), NoArg)), Some(Quad(Copy, VarArg(0), IntArg(1), NoArg));
    var qs := [call, copy];
    assert qs[1..] == [copy];
    assert [copy][1..] == [];
    assert PruneAll([copy]) == [copy] && PruneAll(qs) == qs;
    assert Doomed([]) == {};
    assert Sweep([copy]) == [copy];
    assert Doomed([copy]) == {0};
    UnneededSwept([copy]);
    assert Sweep(qs) == [None, copy];
    TraceLength(m, qs, s);
    OptimizedPreserves(m, qs, s);
  }

  // ---------- blocks ----------

  ghost function Wrap(block: seq<Quad>): (r: Table)
    ensures |r| == |block| && forall i :: 0 <= i < |block| ==> r[i] == Some(block[i])
  {
    seq(|block|, i requires 0 <= i < |block| => Some(block[i]))
  }

  ghost function Compact(qs: Table): seq<Quad> {
    if qs == [] then [] else (if qs[0].Some? then [qs[0].value] else []) + Compact(qs[1..])
  }

  lemma {:induction false} CompactRun(m: Machine, qs: Table, s: State)
    ensures RunBlock(m, Compact(qs), s) == Run(m, qs, s)
  {
    if qs != [] {
      CompactRun(m, qs[1..], if qs[0].Some? then Exec(m, qs[0].value, s) else s);
      if qs[0].Some? {
        assert Compact(qs)[1..] == Compact(qs[1..]);
      } else {
        assert Compact(qs) == Compact(qs[1..]);
      }
    }
  }

  lemma {:induction false} WrapCompact(block: seq<Quad>)
    ensures Compact(Wrap(block)) == block
  {
    if block != [] {
      assert Wrap(block)[1..] == Wrap(block[1..]);
      WrapCompact(block[1..]);
    }
  }

  /** The main theorem for blocks as lists of quadruples. */
  lemma BlockPreserved(m: Machine, block: seq<Quad>, s: State)
    requires WF(Wrap(block))
    ensures RunBlock(m, Compact(Optimized(Wrap(block))), s) == RunBlock(m, block, s) <==> CallsKept(Wrap(block))
  {
    CompactRun(m, Optimized(Wrap(block)), s);
    CompactRun(m, Wrap(block), s);
    WrapCompact(block);
    OptimizedPreserves(m, Wrap(block), s);
  }

  /** A call that is not kept is missing from the effects. */
  lemma LostCallShows(m: Machine, block: seq<Quad>, s: State)
    requires WF(Wrap(block)) && !CallsKept(Wrap(block))
    ensures |RunBlock(m, Compact(Optimized(Wrap(block))), s).trace| < |RunBlock(m, block, s).trace|
  {
    var qs := Wrap(block);
    var p := PruneAll(qs);
    CompactRun(m, Optimized(qs), s);
    CompactRun(m, qs, s);
    WrapCompact(block);
    PruneWF(qs);
    PruneCalls(qs);
    PrunePreserves(m, qs, s);
    SweepWF(p);
    SweepEffects(p);
    TraceLength(m, p, s);
    TraceLength(m, Sweep(p), s);
    BackAllPreserves(m, Sweep(p), |qs|, s);
    ForwardAllPreserves(m, BackAll(Sweep(p), |qs|), 0, s);
  }
}
