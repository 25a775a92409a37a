/**
  Exactly which segments are preserved: those in which the code copies to every variable last
  what has the label of its node.
  */
module DagExact {
  import opened Quadr
  import opened Dag
  import opened DagEmit
  import opened DagOrder
  import opened DagLabels
  import opened DagBlock

  ghost predicate Preserves(m: Machine, out: Out, qs: seq<Quad>, s: State, vars: Var) {
    Alike(RunBlock(m, out.code, s), RunBlock(m, qs, s), vars)
  }

  /** A segment, small enough for the keys of its graph, and an order of roots and constants. */
  ghost predicate Readable(addr: Id -> int, qs: seq<Quad>, order: seq<Id>, vars: Var) {
    && AllPure(qs) && AllQuadsBelow(qs, vars) && Valid(EmptyGraph) && Fits(addr, EmptyGraph, qs)
    && IsOrder(ReadAll(addr, EmptyGraph, qs), order)
  }

  /**
    A rewritten segment does on every machine and in every state what the segment does, if and
    only if labels match. Labels and the order of copies are read off the graph.
    */
  lemma SegmentExact(fold: Folding, addr: Id -> int, qs: seq<Quad>, order: seq<Id>, vars: Var)
    requires FoldCommutes(fold) && Readable(addr, qs, order, vars)
    ensures var g := ReadAll(addr, EmptyGraph, qs);
            var out := Emission(fold, g, order, vars);
            (forall m: Machine, s: State :: Commutes(m) && Agrees(m, fold) ==> Preserves(m, out, qs, s, vars))
            <==> LabelsMatch(fold, g, order, vars)
  {
    var g := ReadAll(addr, EmptyGraph, qs);
    var out := Emission(fold, g, order, vars);
    if LabelsMatch(fold, g, order, vars) {
      forall m: Machine, s: State | Commutes(m) && Agrees(m, fold) ensures Preserves(m, out, qs, s, vars) {
        MatchPreserves(m, fold, addr, qs, order, s, vars);
      }
    } else {
      var x: Var :| x < vars && !LabelMatches(fold, g, CopyOrder(g, order), x);
      MismatchFound(fold, addr, qs, order, vars, x);
    }
  }

  lemma MatchPreserves(m: Machine, fold: Folding, addr: Id -> int, qs: seq<Quad>, order: seq<Id>, s: State, vars: Var)
    requires Commutes(m) && Agrees(m, fold) && Readable(addr, qs, order, vars)
    requires LabelsMatch(fold, ReadAll(addr, EmptyGraph, qs), order, vars)
    ensures Preserves(m, Emission(fold, ReadAll(addr, EmptyGraph, qs), order, vars), qs, s, vars)
  {
    var g := ReadAll(addr, EmptyGraph, qs);
    var copies := CopyOrder(g, order);
    SegmentIff(m, fold, addr, qs, order, s, vars);
    forall x: Var | x < vars ensures FinalValue(m, fold, g.nodes, copies, x, s.env) == CurrentValue(m, g, x, s.env) {
      assert LabelMatches(fold, g, copies, x);
      MatchShows(m, fold, g, copies, x, s.env);
    }
  }

  lemma MismatchFound(fold: Folding, addr: Id -> int, qs: seq<Quad>, order: seq<Id>, vars: Var, x: Var)
    requires FoldCommutes(fold) && Readable(addr, qs, order, vars) && x < vars
    requires var g := ReadAll(addr, EmptyGraph, qs); !LabelMatches(fold, g, CopyOrder(g, order), x)
    ensures exists m: Machine, s: State :: Commutes(m) && Agrees(m, fold)
              && !Preserves(m, Emission(fold, ReadAll(addr, EmptyGraph, qs), order, vars), qs, s, vars)
  {
    var g := ReadAll(addr, EmptyGraph, qs);
    var m, s := Generic(fold, Both(fold, g.nodes)), State(GenericEnv(), []);
    GenericOk(fold, Both(fold, g.nodes));
    MismatchShows(fold, g, CopyOrder(g, order), x);
    SegmentIff(m, fold, addr, qs, order, s, vars);
    assert Commutes(m) && Agrees(m, fold) && !Preserves(m, Emission(fold, g, order, vars), qs, s, vars);
  }
}
