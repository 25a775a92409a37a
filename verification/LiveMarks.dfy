/**
  The live flags of variables while code is generated for a block: a backward pass computes
  them and marks what it changed, and a forward pass undoes the changes one quadruple at a time.
  */
module LiveMarks {
  import opened Quadr

  datatype Mark = Mark(result: bool, arg1: bool, arg2: bool)

  function ArgVar(a: Arg): set<Var> { if a.VarArg? then {a.v} else {} }

  function UsedIn(q: Quad): set<Var> {
    ArgVar(q.arg1) + ArgVar(q.arg2) + if q.op.WritePtr? then ArgVar(q.result) else {}
  }

  function AssignedIn(q: Quad): set<Var> { if q.op.WritePtr? then {} else ArgVar(q.result) }

  /** The variables live before a quadruple, given those live after it. */
  function LiveBefore(q: Quad, after: set<Var>): set<Var> { (after - AssignedIn(q)) + UsedIn(q) }

  /** The variables live after quadruple `i`. */
  ghost function LiveAfter(qs: seq<Quad>, i: nat, end: set<Var>): set<Var>
    requires i < |qs|
    decreases |qs| - i
  {
    if i + 1 == |qs| then end else LiveBefore(qs[i + 1], LiveAfter(qs, i + 1, end))
  }

  ghost function LiveAtStart(qs: seq<Quad>, end: set<Var>): set<Var> {
    if qs == [] then end else LiveBefore(qs[0], LiveAfter(qs, 0, end))
  }

  // ---------- one quadruple ----------

  datatype Marked = Marked(live: set<Var>, mark: Mark)

  function MarkResult(q: Quad, live: set<Var>): Marked {
    if q.result.VarArg? && Assigns(q, q.result.v) && q.result.v in live then
      Marked(live - {q.result.v}, Mark(true, false, false))
    else if q.result.VarArg? && Uses(q, q.result.v) && q.result.v !in live then
      Marked(live + {q.result.v}, Mark(true, false, false))
    else Marked(live, Mark(false, false, false))
  }

  function MarkArg(a: Arg, live: set<Var>): Marked {
    if a.VarArg? && a.v !in live then Marked(live + {a.v}, Mark(true, true, true)) else Marked(live, Mark(false, false, false))
  }

  /** The backward step. */
  function Backward(q: Quad, live: set<Var>): Marked {
    var r := MarkResult(q, live);
    var a := MarkArg(q.arg1, r.live);
    var b := MarkArg(q.arg2, a.live);
    Marked(b.live, Mark(r.mark.result, a.mark.arg1, b.mark.arg2))
  }

  /** The forward step: the last change is undone first. */
  function Undo(q: Quad, mark: Mark, live: set<Var>): set<Var> {
    var b := if mark.arg2 then live - ArgVar(q.arg2) else live;
    var a := if mark.arg1 then b - ArgVar(q.arg1) else b;
    if !mark.result then a
    else if AssignedIn(q) != {} then a + ArgVar(q.result) else a - ArgVar(q.result)
  }

  /** A quadruple that reads the variable it assigns does not leave it dead. */
  predicate Consistent(q: Quad, after: set<Var>) {
    q.result.VarArg? && Assigns(q, q.result.v) && Uses(q, q.result.v) ==> q.result.v in after
  }

  /** The backward step computes liveness. */
  lemma BackwardIsLiveness(q: Quad, after: set<Var>)
    ensures Backward(q, after).live == LiveBefore(q, after)
  {}

  /** Undoing the marks gives back the variables live after the quadruple if and only if it is consistent. */
  lemma UndoIff(q: Quad, after: set<Var>)
    ensures Undo(q, Backward(q, after).mark, Backward(q, after).live) == after <==> Consistent(q, after)
  {
    if !Consistent(q, after) {
      var v := q.result.v;
      assert Backward(q, after).mark.result && v in Undo(q, Backward(q, after).mark, Backward(q, after).live);
    }
  }

  // ---------- a block ----------

  ghost predicate MarkedAt(qs: seq<Quad>, mark: Mark, i: nat, end: set<Var>)
    requires i < |qs|
  {
    mark == Backward(qs[i], LiveAfter(qs, i, end)).mark
  }

  /** The marks of a block, quadruple by quadruple. */
  ghost predicate IsMarking(qs: seq<Quad>, marks: seq<Mark>, end: set<Var>) {
    |marks| == |qs| && forall i :: 0 <= i < |qs| ==> MarkedAt(qs, marks[i], i, end)
  }

  /** The flags when code is generated for quadruple `i`. */
  ghost function FlagsAt(qs: seq<Quad>, marks: seq<Mark>, i: nat, end: set<Var>): set<Var>
    requires i < |qs| == |marks|
  {
    Undo(qs[i], marks[i], if i == 0 then LiveAtStart(qs, end) else FlagsAt(qs, marks, i - 1, end))
  }

  ghost predicate ConsistentAt(qs: seq<Quad>, i: nat, end: set<Var>)
    requires i < |qs|
  {
    Consistent(qs[i], LiveAfter(qs, i, end))
  }

  ghost predicate AllConsistent(qs: seq<Quad>, n: nat, end: set<Var>)
    requires n <= |qs|
  {
    forall i :: 0 <= i < n ==> ConsistentAt(qs, i, end)
  }

  ghost predicate RightAt(qs: seq<Quad>, flags: set<Var>, i: nat, end: set<Var>)
    requires i < |qs|
  {
    flags == LiveAfter(qs, i, end)
  }

  lemma {:induction false} FlagsFollow(qs: seq<Quad>, marks: seq<Mark>, n: nat, end: set<Var>)
    requires IsMarking(qs, marks, end) && n < |qs| && AllConsistent(qs, n + 1, end)
    ensures FlagsAt(qs, marks, n, end) == LiveAfter(qs, n, end)
  {
    if n > 0 { FlagsFollow(qs, marks, n - 1, end); }
    assert MarkedAt(qs, marks[n], n, end) && ConsistentAt(qs, n, end);
    BackwardIsLiveness(qs[n], LiveAfter(qs, n, end));
    UndoIff(qs[n], LiveAfter(qs, n, end));
  }

  /** The flags are right at every quadruple if and only if every quadruple is consistent. */
  lemma {:induction false} ReplayIff(qs: seq<Quad>, marks: seq<Mark>, end: set<Var>)
    requires IsMarking(qs, marks, end)
    ensures (forall i :: 0 <= i < |qs| ==> RightAt(qs, FlagsAt(qs, marks, i, end), i, end)) <==> AllConsistent(qs, |qs|, end)
  {
    if AllConsistent(qs, |qs|, end) {
      forall i | 0 <= i < |qs| ensures RightAt(qs, FlagsAt(qs, marks, i, end), i, end) {
        FlagsFollow(qs, marks, i, end);
      }
    } else {
      var n := FirstInconsistent(qs, end);
      if n > 0 { FlagsFollow(qs, marks, n - 1, end); }
      assert MarkedAt(qs, marks[n], n, end);
      BackwardIsLiveness(qs[n], LiveAfter(qs, n, end));
      UndoIff(qs[n], LiveAfter(qs, n, end));
      assert !RightAt(qs, FlagsAt(qs, marks, n, end), n, end);
    }
  }

  /** `x := x + 1` with `x` dead at the end: the forward pass shows `x` live behind it, where an assertion of the source fails. */
  lemma DeadIncrement(x: Var, marks: seq<Mark>)
    requires IsMarking([Quad(Add, VarArg(x), VarArg(x), IntArg(1))], marks, {})
    ensures var qs := [Quad(Add, VarArg(x), VarArg(x), IntArg(1))];
            && !AllConsistent(qs, 1, {}) && LiveAfter(qs, 0, {}) == {}
            && FlagsAt(qs, marks, 0, {}) == {x}
  {
    var qs := [Quad(Add, VarArg(x), VarArg(x), IntArg(1))];
    assert MarkedAt(qs, marks[0], 0, {});
    assert !ConsistentAt(qs, 0, {});
  }

  lemma FirstInconsistent(qs: seq<Quad>, end: set<Var>) returns (n: nat)
    requires !AllConsistent(qs, |qs|, end)
    ensures n < |qs| && AllConsistent(qs, n, end) && !ConsistentAt(qs, n, end)
  {
    n := 0;
    while ConsistentAt(qs, n, end)
      invariant n < |qs| && AllConsistent(qs, n, end)
      decreases |qs| - n
    {
      n := n + 1;
    }
  }

  // ---------- flags in place ----------

  class Flags {
    var live: set<Var>

    /** The backward pass over a block; flags were clear before it. */
    method ComputeMarks(qs: seq<Quad>, end: set<Var>, marks: array<Mark>)
      requires marks.Length == |qs| && live == {}
      modifies this, marks
      ensures IsMarking(qs, marks[..], end) && live == LiveAtStart(qs, end)
    {
      live := end;
      var i := |qs|;
      while i > 0
        invariant 0 <= i <= |qs|
        invariant live == if i == |qs| then end else LiveBefore(qs[i], LiveAfter(qs, i, end))
        invariant forall k :: i <= k < |qs| ==> MarkedAt(qs, marks[k], k, end)
      {
        i := i - 1;
        BackwardIsLiveness(qs[i], LiveAfter(qs, i, end));
        marks[i] := MarkQuad(qs[i]);
        assert MarkedAt(qs, marks[i], i, end);
      }
    }

    method MarkQuad(q: Quad) returns (mark: Mark)
      modifies this
      ensures Marked(live, mark) == Backward(q, old(live))
    {
      mark := Mark(false, false, false);
      if q.result.VarArg? && Assigns(q, q.result.v) && q.result.v in live {
        mark := mark.(result := true);
        live := live - {q.result.v};
      } else if q.result.VarArg? && Uses(q, q.result.v) && q.result.v !in live {
        mark := mark.(result := true);
        live := live + {q.result.v};
      }
      if q.arg1.VarArg? && q.arg1.v !in live {
        mark := mark.(arg1 := true);
        live := live + {q.arg1.v};
      }
      if q.arg2.VarArg? && q.arg2.v !in live {
        mark := mark.(arg2 := true);
        live := live + {q.arg2.v};
      }
    }

    method UndoQuad(q: Quad, mark: Mark)
      modifies this
      ensures live == Undo(q, mark, old(live))
    {
      if mark.arg2 && q.arg2.VarArg? { live := live - {q.arg2.v}; }
      if mark.arg1 && q.arg1.VarArg? { live := live - {q.arg1.v}; }
      if mark.result && q.result.VarArg? {
        if Assigns(q, q.result.v) { live := live + {q.result.v}; } else { live := live - {q.result.v}; }
      }
    }

    /** The forward pass; `seen` are the flags when code is generated for each quadruple. */
    method Replay(qs: seq<Quad>, end: set<Var>, marks: array<Mark>) returns (ghost seen: seq<set<Var>>)
      requires IsMarking(qs, marks[..], end) && live == LiveAtStart(qs, end) && AllConsistent(qs, |qs|, end)
      modifies this
      ensures |seen| == |qs| && forall i :: 0 <= i < |qs| ==> RightAt(qs, seen[i], i, end)
      ensures live == end
    {
      seen := [];
      var i := 0;
      while i < |qs|
        invariant 0 <= i <= |qs| && |seen| == i
        invariant forall k :: 0 <= k < i ==> RightAt(qs, seen[k], k, end)
        invariant live == if i == 0 then LiveAtStart(qs, end) else LiveAfter(qs, i - 1, end)
      {
        BackwardIsLiveness(qs[i], LiveAfter(qs, i, end));
        UndoIff(qs[i], LiveAfter(qs, i, end));
        assert MarkedAt(qs, marks[..][i], i, end) && ConsistentAt(qs, i, end);
        UndoQuad(qs[i], marks[i]);
        seen := seen + [live];
        i := i + 1;
      }
    }
  }
}
