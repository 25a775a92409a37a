/**
  What the code from a graph can be known to do before it is written: in which order the
  lists of variables are copied, and whether a division of constants by zero is reported.
  */
module DagOrder {
  import opened Quadr
  import opened Dag
  import opened DagEmit

  /** A node whose code exists already when the roots are reached, or that has been visited. */
  ghost predicate Visited(nodes: seq<Node>, seen: seq<Id>, i: Id)
    requires i < |nodes|
  {
    IsInput(nodes, i) || i in seen
  }

  /** Operands before operators, left before right, every node once. */
  ghost function PostOrder(nodes: seq<Node>, seen: seq<Id>, i: Id): seq<Id>
    requires Shape(nodes) && i < |nodes|
    decreases i
  {
    assert NodeShape(nodes[i], i);
    if Visited(nodes, seen, i) then seen
    else if nodes[i].Leaf? then seen + [i]
    else PostOrder(nodes, PostOrder(nodes, seen, nodes[i].left), nodes[i].right) + [i]
  }

  ghost function PostOrders(nodes: seq<Node>, seen: seq<Id>, ids: seq<Id>): seq<Id>
    requires Shape(nodes) && forall k :: 0 <= k < |ids| ==> ids[k] < |nodes|
    decreases |ids|
  {
    if ids == [] then seen else PostOrders(nodes, PostOrder(nodes, seen, ids[0]), ids[1..])
  }

  /** The order in which lists are copied: that of the operators, and the input leaves at the end. */
  ghost function CopyOrder(g: Graph, order: seq<Id>): seq<Id>
    requires Valid(g) && forall k :: 0 <= k < |order| ==> order[k] < |g.nodes|
  {
    PostOrders(g.nodes, [], order) + g.inputs
  }

  // ---------- the code follows the order ----------

  /** A node is computed when its list has been copied, or when it is an input. */
  ghost predicate Follows(nodes: seq<Node>, out: Out) {
    && (forall i :: i in out.results ==> i < |nodes|)
    && forall i :: 0 <= i < |nodes| ==> (i in out.results <==> Visited(nodes, out.updates, i))
  }

  lemma StepFollows(nodes: seq<Node>, out: Out, out': Out, i: Id)
    requires i < |nodes| && !IsInput(nodes, i) && Follows(nodes, out)
    requires out'.results.Keys == out.results.Keys + {i} && out'.updates == out.updates + [i]
    ensures Follows(nodes, out')
  {
    assert forall j :: j in out'.results <==> j in out.results || j == i;
  }

  lemma {:induction false} GenNodeFollows(fold: Folding, nodes: seq<Node>, out: Out, i: Id)
    requires Shape(nodes) && i < |nodes| && Follows(nodes, out)
    ensures Follows(nodes, GenNode(fold, nodes, out, i))
    ensures GenNode(fold, nodes, out, i).updates == PostOrder(nodes, out.updates, i)
    decreases i
  {
    assert NodeShape(nodes[i], i);
    if i !in out.results {
      if nodes[i].Leaf? {
        StepFollows(nodes, out, GenNode(fold, nodes, out, i), i);
      } else {
        var o1 := GenNode(fold, nodes, out, nodes[i].left);
        var o2 := GenNode(fold, nodes, o1, nodes[i].right);
        GenNodeFollows(fold, nodes, out, nodes[i].left);
        GenNodeFollows(fold, nodes, o1, nodes[i].right);
        StepFollows(nodes, o2, GenNode(fold, nodes, out, i), i);
      }
    }
  }

  lemma {:induction false} GenAllFollows(fold: Folding, nodes: seq<Node>, out: Out, ids: seq<Id>)
    requires Shape(nodes) && Follows(nodes, out) && forall k :: 0 <= k < |ids| ==> ids[k] < |nodes|
    ensures GenAll(fold, nodes, out, ids).updates == PostOrders(nodes, out.updates, ids)
    decreases |ids|
  {
    if ids != [] {
      GenNodeFollows(fold, nodes, out, ids[0]);
      GenAllFollows(fold, nodes, GenNode(fold, nodes, out, ids[0]), ids[1..]);
    }
  }

  lemma {:induction false} GenInputsFollows(nodes: seq<Node>, out: Out, ids: seq<Id>)
    requires forall k :: 0 <= k < |ids| ==> ids[k] < |nodes| && nodes[ids[k]].Leaf?
    ensures var out' := GenInputs(nodes, out, ids);
            && out'.updates == out.updates && out'.failed == out.failed && out'.folded == out.folded
            && forall i :: i in out'.results <==> i in out.results || i in ids
    decreases |ids|
  {
    if ids != [] {
      GenInputsFollows(nodes, GenLeaf(nodes, out, ids[0]), ids[1..]);
      assert forall i :: i in ids <==> i == ids[0] || i in ids[1..];
    }
  }

  lemma InputsExact(g: Graph, i: Id)
    requires Valid(g)
    ensures i in g.inputs <==> i < |g.nodes| && IsInput(g.nodes, i)
  {
    if i < |g.nodes| && IsInput(g.nodes, i) { assert LeafFound(g, i); }
  }

  lemma InputsFollow(g: Graph, nextVar: Var)
    requires Valid(g) && forall k :: 0 <= k < |g.inputs| ==> g.inputs[k] < |g.nodes| && g.nodes[g.inputs[k]].Leaf?
    ensures Follows(g.nodes, GenInputs(g.nodes, Start(nextVar), g.inputs))
  {
    GenInputsFollows(g.nodes, Start(nextVar), g.inputs);
    forall i: Id ensures i in g.inputs <==> i < |g.nodes| && IsInput(g.nodes, i) { InputsExact(g, i); }
  }

  /** Lists are copied in the order read off the graph, whatever the folding and the names of new variables. */
  lemma EmissionFollows(fold: Folding, g: Graph, order: seq<Id>, nextVar: Var)
    requires Valid(g) && forall k :: 0 <= k < |order| ==> order[k] < |g.nodes|
    ensures Emission(fold, g, order, nextVar).updates == CopyOrder(g, order)
  {
    InputsListed(g);
    InputsFollow(g, nextVar);
    var o1 := GenInputs(g.nodes, Start(nextVar), g.inputs);
    GenInputsFollows(g.nodes, Start(nextVar), g.inputs);
    GenAllFollows(fold, g.nodes, o1, order);
    UpdateAllFollows(g.nodes, GenAll(fold, g.nodes, o1, order), g.inputs);
  }

  // ---------- every node once ----------

  ghost predicate Once(ids: seq<Id>) { forall j, k :: 0 <= j < k < |ids| ==> ids[j] != ids[k] }

  ghost predicate NoInputs(nodes: seq<Node>, seen: seq<Id>) { forall i :: i in seen ==> i < |nodes| && !IsInput(nodes, i) }

  /** An operator comes after both its operands. */
  ghost predicate OperandsFirst(nodes: seq<Node>, seen: seq<Id>) {
    forall k :: 0 <= k < |seen| && seen[k] < |nodes| ==> ReadyAt(nodes, seen, k)
  }

  ghost predicate ReadyAt(nodes: seq<Node>, seen: seq<Id>, k: nat)
    requires k < |seen| && seen[k] < |nodes|
  {
    var n := nodes[seen[k]];
    n.Apply? ==> n.left < |nodes| && n.right < |nodes|
                 && Visited(nodes, seen[..k], n.left) && Visited(nodes, seen[..k], n.right)
  }

  lemma OneMore(nodes: seq<Node>, seen: seq<Id>, i: Id)
    requires i < |nodes| && Once(seen) && NoInputs(nodes, seen) && OperandsFirst(nodes, seen) && !Visited(nodes, seen, i)
    requires nodes[i].Apply? ==> nodes[i].left < |nodes| && nodes[i].right < |nodes|
    requires nodes[i].Apply? ==> Visited(nodes, seen, nodes[i].left) && Visited(nodes, seen, nodes[i].right)
    ensures Once(seen + [i]) && NoInputs(nodes, seen + [i]) && OperandsFirst(nodes, seen + [i])
  {
    var seen' := seen + [i];
    forall k | 0 <= k < |seen'| && seen'[k] < |nodes| ensures ReadyAt(nodes, seen', k) {
      if k < |seen| {
        assert ReadyAt(nodes, seen, k) && seen'[..k] == seen[..k];
      } else {
        assert seen'[..k] == seen;
      }
    }
  }

  lemma {:induction false} PostOrderOnce(nodes: seq<Node>, seen: seq<Id>, i: Id)
    requires Shape(nodes) && i < |nodes| && Once(seen) && NoInputs(nodes, seen) && OperandsFirst(nodes, seen)
    ensures var r := PostOrder(nodes, seen, i);
            && Once(r) && NoInputs(nodes, r) && OperandsFirst(nodes, r) && Visited(nodes, r, i)
            && (forall j :: j in seen ==> j in r) && (forall j :: j in r ==> j in seen || j <= i)
    decreases i
  {
    assert NodeShape(nodes[i], i);
    if !Visited(nodes, seen, i) {
      if nodes[i].Leaf? {
        OneMore(nodes, seen, i);
      } else {
        var s1 := PostOrder(nodes, seen, nodes[i].left);
        PostOrderOnce(nodes, seen, nodes[i].left);
        PostOrderOnce(nodes, s1, nodes[i].right);
        OneMore(nodes, PostOrder(nodes, s1, nodes[i].right), i);
      }
    }
  }

  lemma {:induction false} PostOrdersOnce(nodes: seq<Node>, seen: seq<Id>, ids: seq<Id>)
    requires Shape(nodes) && Once(seen) && NoInputs(nodes, seen) && OperandsFirst(nodes, seen)
    requires forall k :: 0 <= k < |ids| ==> ids[k] < |nodes|
    ensures var r := PostOrders(nodes, seen, ids); Once(r) && NoInputs(nodes, r) && OperandsFirst(nodes, r)
    decreases |ids|
  {
    if ids != [] {
      PostOrderOnce(nodes, seen, ids[0]);
      PostOrdersOnce(nodes, PostOrder(nodes, seen, ids[0]), ids[1..]);
    }
  }

  lemma OperatorsListed(fold: Folding, g: Graph, order: seq<Id>)
    requires Valid(g) && IsOrder(g, order)
    ensures forall i :: 0 <= i < |g.nodes| && !IsInput(g.nodes, i) ==> i in PostOrders(g.nodes, [], order)
  {
    InputsListed(g);
    InputsFollow(g, 0);
    var o1 := GenInputs(g.nodes, Start(0), g.inputs);
    GenInputsFollows(g.nodes, Start(0), g.inputs);
    GenAllFollows(fold, g.nodes, o1, order);
    OthersUpdated(fold, g, order, o1);
  }

  /** Every node is listed exactly once, and operators after their operands. */
  lemma CopyOrderOnce(fold: Folding, g: Graph, order: seq<Id>)
    requires Valid(g) && IsOrder(g, order)
    ensures Once(CopyOrder(g, order)) && (forall i: Id :: i in CopyOrder(g, order) <==> i < |g.nodes|)
    ensures OperandsFirst(g.nodes, PostOrders(g.nodes, [], order))
  {
    var os := PostOrders(g.nodes, [], order);
    PostOrdersOnce(g.nodes, [], order);
    OperatorsListed(fold, g, order);
    forall i: Id ensures i in g.inputs <==> i < |g.nodes| && IsInput(g.nodes, i) { InputsExact(g, i); }
    JoinedOnce(os, g.inputs);
    forall i: Id ensures i in CopyOrder(g, order) <==> i < |g.nodes| {
      assert i in os ==> i < |g.nodes|;
      assert i < |g.nodes| ==> i in os || i in g.inputs;
    }
  }

  lemma JoinedOnce(a: seq<Id>, b: seq<Id>)
    requires Once(a) && Once(b) && forall i :: i in a ==> i !in b
    ensures Once(a + b) && forall i :: i in a + b <==> i in a || i in b
  {
    var c := a + b;
    forall j, k | 0 <= j < k < |c| ensures c[j] != c[k] {
      assert j < |a| ==> c[j] in a;
      assert k >= |a| ==> c[k] in b;
    }
  }

  /** No variable holds two nodes. */
  ghost predicate Apart(out: Out) {
    && (forall i :: i in out.results ==> out.results[i] < out.nextVar)
    && (forall i, j :: i in out.results && j in out.results && i != j ==> out.results[i] != out.results[j])
  }

  lemma AddResultApart(out: Out, i: Id, op: Op, a: Arg, b: Arg)
    requires Apart(out)
    ensures Apart(AddResult(out, i, op, a, b))
  {}

  lemma ComputeApart(fold: Folding, nodes: seq<Node>, out: Out, i: Id)
    requires Apart(out) && i < |nodes| && nodes[i].Apply? && nodes[i].left < |nodes| && nodes[i].right < |nodes|
    requires nodes[i].left in out.results && nodes[i].right in out.results
    ensures Apart(Compute(fold, nodes, out, i))
  {}

  lemma {:induction false} GenNodeApart(fold: Folding, nodes: seq<Node>, out: Out, i: Id)
    requires Shape(nodes) && i < |nodes| && Apart(out)
    ensures Apart(GenNode(fold, nodes, out, i))
    decreases i
  {
    assert NodeShape(nodes[i], i);
    if i !in out.results {
      if nodes[i].Leaf? {
        AddResultApart(out, i, Copy, nodes[i].arg, NoArg);
      } else {
        var o1 := GenNode(fold, nodes, out, nodes[i].left);
        var o2 := GenNode(fold, nodes, o1, nodes[i].right);
        GenNodeApart(fold, nodes, out, nodes[i].left);
        GenNodeApart(fold, nodes, o1, nodes[i].right);
        ComputeApart(fold, nodes, o2, i);
      }
    }
  }

  lemma {:induction false} GenAllApart(fold: Folding, nodes: seq<Node>, out: Out, ids: seq<Id>)
    requires Shape(nodes) && Apart(out) && forall k :: 0 <= k < |ids| ==> ids[k] < |nodes|
    ensures Apart(GenAll(fold, nodes, out, ids))
    decreases |ids|
  {
    if ids != [] {
      GenNodeApart(fold, nodes, out, ids[0]);
      GenAllApart(fold, nodes, GenNode(fold, nodes, out, ids[0]), ids[1..]);
    }
  }

  lemma {:induction false} GenInputsApart(nodes: seq<Node>, out: Out, ids: seq<Id>)
    requires Apart(out) && forall k :: 0 <= k < |ids| ==> ids[k] < |nodes| && nodes[ids[k]].Leaf?
    ensures Apart(GenInputs(nodes, out, ids))
    decreases |ids|
  {
    if ids != [] { GenInputsApart(nodes, GenLeaf(nodes, out, ids[0]), ids[1..]); }
  }

  lemma {:induction false} UpdateAllApart(nodes: seq<Node>, out: Out, ids: seq<Id>)
    requires Apart(out) && forall k :: 0 <= k < |ids| ==> ids[k] < |nodes| && ids[k] in out.results
    ensures Apart(UpdateAll(nodes, out, ids))
    decreases |ids|
  {
    if ids != [] { UpdateAllApart(nodes, Update(nodes, out, ids[0]), ids[1..]); }
  }

  /** Every node is computed into a variable of its own. */
  lemma EmissionApart(fold: Folding, g: Graph, order: seq<Id>, nextVar: Var)
    requires Valid(g) && forall k :: 0 <= k < |order| ==> order[k] < |g.nodes|
    ensures Apart(Emission(fold, g, order, nextVar))
  {
    InputsListed(g);
    var o1 := GenInputs(g.nodes, Start(nextVar), g.inputs);
    GenInputsApart(g.nodes, Start(nextVar), g.inputs);
    GenInputsResults(g.nodes, Start(nextVar), g.inputs);
    GenAllApart(fold, g.nodes, o1, order);
    UpdateAllApart(g.nodes, GenAll(fold, g.nodes, o1, order), g.inputs);
  }

  // ---------- when an error is reported ----------

  /** Constants so far are those of the graph, and an error has been reported for every division by zero. */
  ghost predicate Reports(fold: Folding, nodes: seq<Node>, out: Out)
    requires Shape(nodes)
  {
    && (forall i :: i in out.folded ==> i in out.results)
    && (forall i :: i in out.results ==> i < |nodes| && ConstOf(nodes, out, i) == FoldedTo(fold, nodes, i))
    && (out.failed <==> exists i :: i in out.results && i < |nodes| && ZeroDivision(fold, nodes, i))
  }

  lemma ResultReports(fold: Folding, nodes: seq<Node>, out: Out, out': Out, i: Id)
    requires Shape(nodes) && Reports(fold, nodes, out) && i < |nodes| && i !in out.results
    requires out'.results.Keys == out.results.Keys + {i} && out'.folded.Keys <= out'.results.Keys
    requires forall j :: j in out.results ==> ConstOf(nodes, out', j) == ConstOf(nodes, out, j)
    requires ConstOf(nodes, out', i) == FoldedTo(fold, nodes, i) && out'.failed == (out.failed || ZeroDivision(fold, nodes, i))
    ensures Reports(fold, nodes, out')
  {
    assert forall j :: j in out'.results <==> j in out.results || j == i;
  }

  lemma LeafReports(fold: Folding, nodes: seq<Node>, out: Out, i: Id)
    requires Shape(nodes) && Reports(fold, nodes, out) && i < |nodes| && i !in out.results && nodes[i].Leaf?
    ensures Reports(fold, nodes, GenLeaf(nodes, out, i))
  {
    ResultReports(fold, nodes, out, GenLeaf(nodes, out, i), i);
  }

  lemma ComputeReports(fold: Folding, nodes: seq<Node>, out: Out, i: Id)
    requires Shape(nodes) && Reports(fold, nodes, out) && i < |nodes| && i !in out.results && nodes[i].Apply?
    requires nodes[i].left in out.results && nodes[i].right in out.results
    ensures Reports(fold, nodes, Compute(fold, nodes, out, i))
  {
    assert NodeShape(nodes[i], i);
    ResultReports(fold, nodes, out, Compute(fold, nodes, out, i), i);
  }

  lemma UpdateReports(fold: Folding, nodes: seq<Node>, out: Out, i: Id)
    requires Shape(nodes) && Reports(fold, nodes, out) && i < |nodes| && i in out.results
    ensures Reports(fold, nodes, Update(nodes, out, i))
  {
    assert forall j :: j in out.results ==> ConstOf(nodes, Update(nodes, out, i), j) == ConstOf(nodes, out, j);
  }

  lemma {:induction false} GenNodeReports(fold: Folding, nodes: seq<Node>, out: Out, i: Id)
    requires Shape(nodes) && i < |nodes| && Reports(fold, nodes, out)
    ensures Reports(fold, nodes, GenNode(fold, nodes, out, i))
    ensures forall j :: j in GenNode(fold, nodes, out, i).results ==> j in out.results || j <= i
    decreases i
  {
    assert NodeShape(nodes[i], i);
    if i !in out.results {
      if nodes[i].Leaf? {
        LeafReports(fold, nodes, out, i);
        UpdateReports(fold, nodes, GenLeaf(nodes, out, i), i);
      } else {
        var o1 := GenNode(fold, nodes, out, nodes[i].left);
        var o2 := GenNode(fold, nodes, o1, nodes[i].right);
        GenNodeReports(fold, nodes, out, nodes[i].left);
        GenNodeReports(fold, nodes, o1, nodes[i].right);
        ComputeReports(fold, nodes, o2, i);
        UpdateReports(fold, nodes, Compute(fold, nodes, o2, i), i);
      }
    }
  }

  lemma {:induction false} GenAllReports(fold: Folding, nodes: seq<Node>, out: Out, ids: seq<Id>)
    requires Shape(nodes) && Reports(fold, nodes, out) && forall k :: 0 <= k < |ids| ==> ids[k] < |nodes|
    ensures Reports(fold, nodes, GenAll(fold, nodes, out, ids))
    decreases |ids|
  {
    if ids != [] {
      GenNodeReports(fold, nodes, out, ids[0]);
      GenAllReports(fold, nodes, GenNode(fold, nodes, out, ids[0]), ids[1..]);
    }
  }

  lemma InputsReport(fold: Folding, g: Graph, nextVar: Var)
    requires Valid(g) && forall k :: 0 <= k < |g.inputs| ==> g.inputs[k] < |g.nodes| && g.nodes[g.inputs[k]].Leaf?
    ensures var o1 := GenInputs(g.nodes, Start(nextVar), g.inputs);
            InputsEmitted(g, o1) && Reports(fold, g.nodes, o1)
  {
    InputsListed(g);
    GenInputsFollows(g.nodes, Start(nextVar), g.inputs);
  }

  lemma AllReported(fold: Folding, nodes: seq<Node>, out: Out)
    requires Shape(nodes) && RootsOk(nodes) && Closed(nodes, out) && Reports(fold, nodes, out)
    requires forall i :: 0 <= i < |nodes| && IsStart(nodes[i]) ==> i in out.results
    ensures out.failed <==> SomeZeroDivision(fold, nodes)
  {
    forall i | 0 <= i < |nodes| && ZeroDivision(fold, nodes, i) ensures i in out.results {
      OperatorsDone(nodes, out, i);
    }
  }

  /** A division of constants by zero is reported exactly when the graph contains one. */
  lemma FailsIff(fold: Folding, g: Graph, order: seq<Id>, nextVar: Var)
    requires Valid(g) && IsOrder(g, order)
    ensures Emission(fold, g, order, nextVar).failed <==> SomeZeroDivision(fold, g.nodes)
  {
    InputsListed(g);
    InputsReport(fold, g, nextVar);
    var o1 := GenInputs(g.nodes, Start(nextVar), g.inputs);
    GenInputsResults(g.nodes, Start(nextVar), g.inputs);
    GenAllReports(fold, g.nodes, o1, order);
    var o2 := GenAll(fold, g.nodes, o1, order);
    UpdateAllFollows(g.nodes, o2, g.inputs);
    InputsClosed(g, o1);
    GenAllClosed(fold, g.nodes, o1, order);
    StartsDone(g, order, o2);
    AllReported(fold, g.nodes, o2);
  }
}
