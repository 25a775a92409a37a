/**
  The tree as the program has it: a root, a sentinel, a stack for the path from the root, and
  the stored black height. The ghost field `tree` is the shape the nodes in the heap represent.
  */
module RbTreeModel {
  import opened RbShape

  class RbTree {
    var root: RbNode
    var nil: RbNode
    var stack: array<RbNode>
    var bh: nat

    ghost var tree: Tree

    constructor (nil: RbNode)
      requires nil.color.Black?
      ensures this.nil == nil && Valid() && Contents() == []
    {
      this.nil, root, bh, tree := nil, nil, 0, Nil;
      stack := new RbNode[0];
    }

    ghost predicate OnStack(c: Ctx, depth: nat)
      reads this, stack
    {
      depth == Depth(c) && depth < stack.Length && stack[..depth + 1] == Spine(c, nil)
    }

    /** The tail shared by both rotations: the parent, or the root, now points to `r`. */
    method ReplaceChild(parent: RbNode, node: RbNode, r: RbNode, ghost c: Ctx)
      requires CtxProper(c) && Linked(c, root, node, nil)
      requires node != nil && node !in CtxRefs(c)
      requires parent == TopRef(c, nil)
      modifies this`root, parent`left, parent`right
      ensures Linked(c, root, r, nil)
    {
      LinkedNil(c, root, node, nil);
      if c.Hole? { RepsNil(c.sib, c.ref.Child(Other(c.side)), nil); }
      if parent.left == node {
        parent.left := r;
      } else {
        parent.right := r;
      }
      if node == root {
        root := r;
      }
    }

    method LeftRotate(node: RbNode, parent: RbNode, ghost c: Ctx, ghost t: Tree)
      requires Focus(c, t, root, node, nil) && t.Node? && t.right.Node?
      requires parent == TopRef(c, nil)
      modifies this`root, node`right, t.right.ref`left, parent`left, parent`right
      ensures Focus(c, Lift(t, R), root, t.right.ref, nil)
    {
      LiftParts(c, t, R);
      RepsNil(t, node, nil);
      RepsNil(t.right, node.right, nil);
      LinkedNil(c, root, node, nil);
      var r: RbNode := node.right;
      var b := r.left;
      r.left := node;
      node.right := b;
      ghost var t' := Lift(t, R);
      assert parent !in Refs(t');
      assert allocated(Refs(t'));
      ReplaceChild(parent, node, r, c);
    }

    method RightRotate(node: RbNode, parent: RbNode, ghost c: Ctx, ghost t: Tree)
      requires Focus(c, t, root, node, nil) && t.Node? && t.left.Node?
      requires parent == TopRef(c, nil)
      modifies this`root, node`left, t.left.ref`right, parent`left, parent`right
      ensures Focus(c, Lift(t, L), root, t.left.ref, nil)
    {
      LiftParts(c, t, L);
      RepsNil(t, node, nil);
      RepsNil(t.left, node.left, nil);
      LinkedNil(c, root, node, nil);
      var l: RbNode := node.left;
      var b := l.right;
      l.right := node;
      node.left := b;
      ghost var t' := Lift(t, L);
      assert parent !in Refs(t');
      assert allocated(Refs(t'));
      ReplaceChild(parent, node, l, c);
    }

    /** What both fixups establish: `tree` is the red-black tree below `root`, over the nodes `refs`. */
    ghost predicate Fixed(refs: set<RbNode>, contents: seq<Entry>)
      reads this, refs
    {
      && Refs(tree) == refs && Proper(tree) && Reps(tree, root, nil)
      && RB(tree) && !IsRed(tree) && bh == Bh(tree)
      && Inorder(tree) == contents
    }

    /** Reading the spine from the stack. */
    lemma StackTop(c: Ctx, depth: nat)
      requires OnStack(c, depth)
      ensures stack[depth] == TopRef(c, nil)
      ensures c.Hole? ==> depth >= 1 && OnStack(c.up, depth - 1)
    {
      assert stack[depth] == stack[..depth + 1][depth];
      if c.Hole? {
        assert stack[..depth] == stack[..depth + 1][..depth];
      }
    }

    /** `node->color = color`, for a node inside the tree. */
    method SetColor(node: RbNode, color: Color, ghost c: Ctx, ghost t: Tree)
      requires Focus(c, t, root, node, nil) && t.Node?
      modifies node`color
      ensures Focus(c, Paint(t, color), root, node, nil)
    {
      PaintRefs(t, color);
      node.color := color;
    }

    /** The uncle is red: parent and uncle turn black, the grandparent red. */
    method RecolorUncle(node: RbNode, p: RbNode, pp: RbNode, uncle: RbNode, ghost c: Ctx, ghost t: Tree)
      requires Focus(c, t, root, node, nil)
      requires c.Hole? && c.up.Hole? && c.up.sib.Node?
      requires p == c.ref && pp == c.up.ref && uncle == c.up.sib.ref
      modifies pp`color, p`color, uncle`color
      ensures Focus(c.up.up, Recolored(c, t), root, pp, nil)
    {
      UpFocus(c, t, root, node, nil);
      AcrossFocus(c.up, FrameTree(c, t), root, p, nil);
      SetColor(uncle, Black, Across(c.up, FrameTree(c, t)), c.up.sib);
      AcrossFocus(Across(c.up, FrameTree(c, t)), Paint(c.up.sib, Black), root, uncle, nil);
      ghost var cp := Across(Across(c.up, FrameTree(c, t)), Paint(c.up.sib, Black));
      SetColor(p, Black, cp, FrameTree(c, t));
      UpFocus(cp, Paint(FrameTree(c, t), Black), root, p, nil);
      SetColor(pp, Red, c.up.up, FrameTree(cp, Paint(FrameTree(c, t), Black)));
    }

    ghost predicate InsertState(c: Ctx, t: Tree, node: RbNode, depth: nat)
      reads this, stack, nil, AllRefs(c, t)
    {
      && Focus(c, t, root, node, nil) && OnStack(c, depth) && nil.color.Black?
      && RB(t) && IsRed(t) && CtxRB(c, Bh(t)) && bh == TotalBh(c, Bh(t))
    }

    method InsertRecolor(node: RbNode, p: RbNode, pp: RbNode, uncle: RbNode, depth: nat, ghost c: Ctx, ghost t: Tree)
      requires InsertState(c, t, node, depth) && RedRed(c, t) && IsRed(c.up.sib)
      requires p == c.ref && pp == c.up.ref && uncle == c.up.sib.ref && depth >= 2
      modifies pp`color, p`color, uncle`color
      ensures InsertState(c.up.up, Recolored(c, t), pp, depth - 2)
      ensures AllRefs(c.up.up, Recolored(c, t)) == AllRefs(c, t)
      ensures Whole(c.up.up, Recolored(c, t)) == Whole(c, t)
    {
      LinkedNil(c, root, node, nil);
      RecolorStep(c, t);
      RecolorInorder(c, t);
      RecolorRefs(c, t);
      StackTop(c, depth);
      StackTop(c.up, depth - 1);
      RecolorUncle(node, p, pp, uncle, c, t);
    }

    /** The end of a repair: the zipper is closed. */
    ghost method Close(node: RbNode, c: Ctx, t: Tree)
      requires Focus(c, t, root, node, nil)
      requires RB(t) && CtxRB(c, Bh(t)) && bh == TotalBh(c, Bh(t))
      requires IsRed(t) ==> RedFits(c)
      modifies this`tree
      ensures Fixed(AllRefs(c, t), Whole(c, t))
    {
      PlugHeap(c, t, root, node, nil);
      PlugInorder(c, t);
      PlugRB(c, t);
      tree := Plug(c, t);
    }

    /** What one round of the insertion repair finds around a red node with a red parent. */
    lemma InsertReads(c: Ctx, t: Tree, node: RbNode, depth: nat)
      requires InsertState(c, t, node, depth) && TopRef(c, nil).color.Red?
      ensures RedRed(c, t) && depth >= 2
      ensures stack[depth - 1] == c.up.ref && stack[depth - 2] == TopRef(c.up.up, nil)
      ensures Focus(c.up, FrameTree(c, t), root, c.ref, nil)
      ensures var p, pp := c.ref, c.up.ref;
        && (p == pp.left <==> c.up.side.L?)
        && (node == p.right <==> c.side.R?)
        && (node == p.left <==> c.side.L?)
        && (c.up.side.L? ==> pp.right != null && (pp.right.color.Red? <==> IsRed(c.up.sib))
                             && (IsRed(c.up.sib) ==> pp.right == c.up.sib.ref))
        && (c.up.side.R? ==> pp.left != null && (pp.left.color.Red? <==> IsRed(c.up.sib))
                             && (IsRed(c.up.sib) ==> pp.left == c.up.sib.ref))
    {
      ParentReads(c, t, root, node, nil);
      UpFocus(c, t, root, node, nil);
      ParentReads(c.up, FrameTree(c, t), root, c.ref, nil);
      StackTop(c, depth);
      StackTop(c.up, depth - 1);
      StackTop(c.up.up, depth - 2);
    }

    /** `top->color = black; child->color = red`, for a child on side `side`. */
    method SwapColorsAt(top: RbNode, child: RbNode, side: Side, ghost c: Ctx, ghost t: Tree)
      requires Focus(c, t, root, top, nil) && t.Node? && Child(t, side).Node? && child == Child(t, side).ref
      modifies top`color, child`color
      ensures Focus(c, SwapColors(t, side), root, top, nil)
    {
      SetColor(top, Black, c, t);
      ghost var t1 := Paint(t, Black);
      DownFocus(c, t1, side, root, top, nil);
      RepsNil(Child(t1, side), top.Child(side), nil);
      SetColor(child, Red, Down(c, t1, side), Child(t1, side));
      UpFocus(Down(c, t1, side), Paint(Child(t1, side), Red), root, child, nil);
    }

    /** The uncle is black and the parent a left child: one or two rotations end the repair. */
    method InsertRotateL(node: RbNode, p0: RbNode, pp: RbNode, ppp: RbNode, ghost c: Ctx, ghost t: Tree) returns (p: RbNode)
      requires Focus(c, t, root, node, nil) && nil.color.Black?
      requires t.Node? && c.Hole? && c.up.Hole? && c.up.side.L?
      requires p0 == c.ref && pp == c.up.ref && ppp == TopRef(c.up.up, nil)
      modifies this`root, node`color, node`left, node`right, p0, pp, ppp`left, ppp`right
      ensures Focus(c.up.up, Rotated(c, t), root, p, nil)
    {
      p := p0;
      ParentReads(c, t, root, node, nil);
      UpFocus(c, t, root, node, nil);
      if node == p.right {
        LeftRotate(p, pp, c.up, FrameTree(c, t));
        p := node;
      }
      UpFocus(c.up, Straight(c, t), root, p, nil);
      RightRotate(pp, ppp, c.up.up, FrameTree(c.up, Straight(c, t)));
      SwapColorsAt(p, pp, R, c.up.up, Lift(FrameTree(c.up, Straight(c, t)), L));
    }

    /** The uncle is black and the parent a right child. */
    method InsertRotateR(node: RbNode, p0: RbNode, pp: RbNode, ppp: RbNode, ghost c: Ctx, ghost t: Tree) returns (p: RbNode)
      requires Focus(c, t, root, node, nil) && nil.color.Black?
      requires t.Node? && c.Hole? && c.up.Hole? && c.up.side.R?
      requires p0 == c.ref && pp == c.up.ref && ppp == TopRef(c.up.up, nil)
      modifies this`root, node`color, node`left, node`right, p0, pp, ppp`left, ppp`right
      ensures Focus(c.up.up, Rotated(c, t), root, p, nil)
    {
      p := p0;
      ParentReads(c, t, root, node, nil);
      UpFocus(c, t, root, node, nil);
      if node == p.left {
        RightRotate(p, pp, c.up, FrameTree(c, t));
        p := node;
      }
      UpFocus(c.up, Straight(c, t), root, p, nil);
      LeftRotate(pp, ppp, c.up.up, FrameTree(c.up, Straight(c, t)));
      SwapColorsAt(p, pp, L, c.up.up, Lift(FrameTree(c.up, Straight(c, t)), R));
    }

    ghost method CloseRotated(p: RbNode, c: Ctx, t: Tree)
      requires Sep(c, t) && RedRed(c, t) && !IsRed(c.up.sib) && bh == TotalBh(c, Bh(t))
      requires Focus(c.up.up, Rotated(c, t), root, p, nil)
      modifies this`tree
      ensures Fixed(AllRefs(c, t), Whole(c, t))
    {
      RotateStep(c, t);
      RotatedSep(c, t);
      RotateInorder(c, t);
      Close(p, c.up.up, Rotated(c, t));
    }

    /** One round below a left parent `p`: recolour and move up two levels, or rotate and stop. */
    method InsertRoundL(node: RbNode, p: RbNode, depth: nat, ghost c: Ctx, ghost t: Tree)
      returns (done: bool, node': RbNode, depth': nat, ghost c': Ctx, ghost t': Tree)
      requires InsertState(c, t, node, depth) && p == TopRef(c, nil) && p.color.Red?
      requires c.Hole? ==> c.up.Hole? && c.up.side.L?
      modifies this`root, this`tree, nil`left, nil`right, AllRefs(c, t)
      ensures done ==> Fixed(AllRefs(c, t), Whole(c, t))
      ensures !done ==> InsertState(c', t', node', depth') && Depth(c') < Depth(c)
      ensures !done ==> AllRefs(c', t') == AllRefs(c, t) && Whole(c', t') == Whole(c, t)
    {
      InsertReads(c, t, node, depth);
      var pp := stack[depth - 1];
      if pp.right.color.Red? {
        InsertRecolor(node, p, pp, pp.right, depth, c, t);
        done, node', depth', c', t' := false, pp, depth - 2, c.up.up, Recolored(c, t);
      } else {
        done, node', depth', c', t' := true, node, depth, c, t;
        var p' := InsertRotateL(node, p, pp, stack[depth - 2], c, t);
        CloseRotated(p', c, t);
      }
    }

    /** One round below a right parent `p`: recolour and move up two levels, or rotate and stop. */
    method InsertRoundR(node: RbNode, p: RbNode, depth: nat, ghost c: Ctx, ghost t: Tree)
      returns (done: bool, node': RbNode, depth': nat, ghost c': Ctx, ghost t': Tree)
      requires InsertState(c, t, node, depth) && p == TopRef(c, nil) && p.color.Red?
      requires c.Hole? ==> c.up.Hole? && c.up.side.R?
      modifies this`root, this`tree, nil`left, nil`right, AllRefs(c, t)
      ensures done ==> Fixed(AllRefs(c, t), Whole(c, t))
      ensures !done ==> InsertState(c', t', node', depth') && Depth(c') < Depth(c)
      ensures !done ==> AllRefs(c', t') == AllRefs(c, t) && Whole(c', t') == Whole(c, t)
    {
      InsertReads(c, t, node, depth);
      var pp := stack[depth - 1];
      if pp.left.color.Red? {
        InsertRecolor(node, p, pp, pp.left, depth, c, t);
        done, node', depth', c', t' := false, pp, depth - 2, c.up.up, Recolored(c, t);
      } else {
        done, node', depth', c', t' := true, node, depth, c, t;
        var p' := InsertRotateR(node, p, pp, stack[depth - 2], c, t);
        CloseRotated(p', c, t);
      }
    }

    method InsertFixup(node0: RbNode, depth0: nat, ghost c0: Ctx, ghost t0: Tree)
      requires InsertState(c0, t0, node0, depth0)
      modifies this`root, this`bh, this`tree, nil`left, nil`right, AllRefs(c0, t0)
      ensures Fixed(AllRefs(c0, t0), Whole(c0, t0))
    {
      ghost var c, t := c0, t0;
      var node, depth, done := node0, depth0, false;
      StackTop(c, depth);
      var p := stack[depth];
      while p.color.Red?
        invariant InsertState(c, t, node, depth) && p == TopRef(c, nil)
        invariant AllRefs(c, t) == AllRefs(c0, t0)
        invariant Whole(c, t) == Whole(c0, t0)
        decreases Depth(c)
      {
        InsertReads(c, t, node, depth);
        var pp := stack[depth - 1];
        if p == pp.left {
          done, node, depth, c, t := InsertRoundL(node, p, depth, c, t);
        } else {
          done, node, depth, c, t := InsertRoundR(node, p, depth, c, t);
        }
        if done {
          return;
        }
        StackTop(c, depth);
        p := stack[depth];
      }
      InsertFinish(node, c, t);
    }

    /** The parent is black: only a red root is left to repair. */
    method InsertFinish(node: RbNode, ghost c: Ctx, ghost t: Tree)
      requires Focus(c, t, root, node, nil) && nil.color.Black? && TopRef(c, nil).color.Black?
      requires RB(t) && IsRed(t) && CtxRB(c, Bh(t)) && bh == TotalBh(c, Bh(t))
      modifies this`bh, this`tree, node`color
      ensures Fixed(AllRefs(c, t), Whole(c, t))
    {
      ParentReads(c, t, root, node, nil);
      if node == root {
        SetColor(node, Black, c, t);
        PaintRefs(t, Black);
        PaintInorder(t, Black);
        bh := bh + 1;
        Close(node, c, Paint(t, Black));
      } else {
        Close(node, c, t);
      }
    }

    /** `w->color = color` and both children of `w` black. */
    method PaintFamilyAt(w: RbNode, color: Color, ghost c: Ctx, ghost t: Tree)
      requires Focus(c, t, root, w, nil) && t.Node? && t.left.Node? && t.right.Node?
      modifies w`color, t.left.ref`color, t.right.ref`color
      ensures Focus(c, PaintFamily(t, color), root, w, nil)
    {
      SetColor(w, color, c, t);
      ghost var t1 := Paint(t, color);
      DownFocus(c, t1, L, root, w, nil);
      RepsNil(t1.left, w.left, nil);
      SetColor(w.left, Black, Down(c, t1, L), t1.left);
      UpFocus(Down(c, t1, L), Paint(t1.left, Black), root, w.left, nil);
      ghost var t2 := FrameTree(Down(c, t1, L), Paint(t1.left, Black));
      DownFocus(c, t2, R, root, w, nil);
      RepsNil(t2.right, w.right, nil);
      SetColor(w.right, Black, Down(c, t2, R), t2.right);
      UpFocus(Down(c, t2, R), Paint(t2.right, Black), root, w.right, nil);
    }

    ghost predicate DeleteState(c: Ctx, t: Tree, node: RbNode, depth: nat)
      reads this, stack, nil, AllRefs(c, t)
    {
      && Focus(c, t, root, node, nil) && OnStack(c, depth) && nil.color.Black?
      && Short(c, t) && bh == TotalBh(c, Bh(t) + 1) && stack.Length >= 2 * bh + 1
    }

    lemma AcrossRead(c: Ctx, t: Tree, root: RbNode, node: RbNode, nil: RbNode)
      requires Focus(c, t, root, node, nil) && c.Hole?
      ensures c.ref.Child(c.side) == node
    {}

    /** `stack[++depth] = p; stack[depth - 1] = w;` */
    method PushPromoted(ghost node: RbNode, p: RbNode, w: RbNode, depth: nat, ghost c: Ctx, ghost t: Tree)
      requires c.Hole? && c.sib.Node? && p == c.ref && w == c.sib.ref
      requires OnStack(c, depth) && depth + 1 < stack.Length
      requires Focus(Promoted(c, t), t, root, node, nil)
      modifies stack
      ensures OnStack(Promoted(c, t), depth + 1)
      ensures Focus(Promoted(c, t), t, root, node, nil)
    {
      StackTop(c, depth);
      ghost var prefix := stack[..depth];
      stack[depth + 1] := p;
      stack[depth] := w;
      assert stack[..depth] == prefix == Spine(c.up, nil);
      assert stack[..depth + 1] == prefix + [w];
      assert stack[..depth + 2] == prefix + [w] + [p];
    }

    /** Case 2 below a left child: rotate the red sibling up and push it under `p` on the stack. */
    method PromoteSiblingL(node: RbNode, p: RbNode, w: RbNode, depth: nat, ghost c: Ctx, ghost t: Tree)
      requires DeleteState(c, t, node, depth) && !IsRed(t) && c.Hole? && c.side.L? && IsRed(c.sib)
      requires p == c.ref && w == c.sib.ref && depth >= 1
      modifies this`root, stack, nil`left, nil`right, AllRefs(c, t)
      ensures depth + 1 < stack.Length
      ensures DeleteState(Promoted(c, t), t, node, depth + 1)
      ensures AllRefs(Promoted(c, t), t) == AllRefs(c, t) && Whole(Promoted(c, t), t) == Whole(c, t)
      ensures DeleteMeasure(Promoted(c, t), t) < DeleteMeasure(c, t)
    {
      PromoteStep(c, t);
      StackTop(c, depth);
      StackTop(c.up, depth - 1);
      PromoteRotateL(node, p, w, stack[depth - 1], c, t);
      PushPromoted(node, p, w, depth, c, t);
    }

    method PromoteRotateL(node: RbNode, p: RbNode, w: RbNode, pp: RbNode, ghost c: Ctx, ghost t: Tree)
      requires Focus(c, t, root, node, nil) && c.Hole? && c.side.L? && c.sib.Node?
      requires p == c.ref && w == c.sib.ref && pp == TopRef(c.up, nil)
      modifies this`root, p, w, pp`left, pp`right
      ensures Focus(Promoted(c, t), t, root, node, nil)
      ensures AllRefs(Promoted(c, t), t) == AllRefs(c, t) && Whole(Promoted(c, t), t) == Whole(c, t)
    {
      LinkedNil(c, root, node, nil);
      UpFocus(c, t, root, node, nil);
      FrameInorder(c, t);
      ghost var f := FrameTree(c, t);
      LeftRotate(p, pp, c.up, f);
      LiftInorder(f, R);
      LiftParts(c.up, f, R);
      ghost var x := Lift(f, R);
      SwapColorsAt(w, p, L, c.up, x);
      ghost var y := SwapColors(x, L);
      PaintInorder(Child(x, L), Red);
      PaintRefs(Child(x, L), Red);
      DownFocus(c.up, y, L, root, w, nil);
      DownFocus(Down(c.up, y, L), Child(y, L), L, root, p, nil);
      DownWhole(c.up, y, L);
      DownWhole(Down(c.up, y, L), Child(y, L), L);
    }

    /** Case 3 below a left child: bring the red child of `w` to the far side. Returns the new sibling. */
    method FarRotateL(node: RbNode, p: RbNode, w0: RbNode, ghost c: Ctx, ghost t: Tree) returns (w: RbNode)
      requires Focus(c, t, root, node, nil) && nil.color.Black?
      requires c.Hole? && c.side.L? && HasRedChild(c.sib) && p == c.ref && w0 == c.sib.ref
      modifies this`root, p`left, p`right, w0, if c.sib.left.Node? then {c.sib.left.ref} else {}
      ensures Focus(WithSib(c, FarRed(c.sib, c.side)), t, root, node, nil)
      ensures w == FarRed(c.sib, c.side).ref
    {
      w := w0;
      AcrossFocus(c, t, root, node, nil);
      ghost var cw := Across(c, t);
      DownFocus(cw, c.sib, R, root, w, nil);
      ParentReads(Down(cw, c.sib, R), c.sib.right, root, w.right, nil);
      RepsNil(c.sib.left, w.left, nil);
      if w.right.color.Black? {
        RightRotate(w, p, cw, c.sib);
        w := p.right;
        AcrossRead(cw, Lift(c.sib, L), root, c.sib.left.ref, nil);
        SwapColorsAt(w, w0, R, cw, Lift(c.sib, L));
      }
      AcrossFocus(cw, FarRed(c.sib, L), root, w, nil);
    }

    /** Case 4 below a left child: the far red child absorbs the extra black. */
    method AbsorbRotateL(node: RbNode, p: RbNode, w: RbNode, pp: RbNode, ghost c: Ctx, ghost t: Tree)
      requires Focus(c, t, root, node, nil) && c.Hole? && c.side.L?
      requires c.sib.Node? && c.sib.right.Node?
      requires p == c.ref && w == c.sib.ref && pp == TopRef(c.up, nil)
      modifies this`root, p, w, pp`left, pp`right, c.sib.right.ref`color
      ensures Focus(c.up, PaintFamily(Lift(FrameTree(c, t), R), c.color), root, w, nil)
    {
      UpFocus(c, t, root, node, nil);
      ghost var f := FrameTree(c, t);
      LeftRotate(p, pp, c.up, f);
      PaintFamilyAt(w, p.color, c.up, Lift(f, R));
    }

    /** Case 2 below a right child: rotate the red sibling up and push it under `p` on the stack. */
    method PromoteSiblingR(node: RbNode, p: RbNode, w: RbNode, depth: nat, ghost c: Ctx, ghost t: Tree)
      requires DeleteState(c, t, node, depth) && !IsRed(t) && c.Hole? && c.side.R? && IsRed(c.sib)
      requires p == c.ref && w == c.sib.ref && depth >= 1
      modifies this`root, stack, nil`left, nil`right, AllRefs(c, t)
      ensures depth + 1 < stack.Length
      ensures DeleteState(Promoted(c, t), t, node, depth + 1)
      ensures AllRefs(Promoted(c, t), t) == AllRefs(c, t) && Whole(Promoted(c, t), t) == Whole(c, t)
      ensures DeleteMeasure(Promoted(c, t), t) < DeleteMeasure(c, t)
    {
      StackTop(c, depth);
      StackTop(c.up, depth - 1);
      PromoteStep(c, t);
      PromoteRotateR(node, p, w, stack[depth - 1], c, t);
      PushPromoted(node, p, w, depth, c, t);
    }

    method PromoteRotateR(node: RbNode, p: RbNode, w: RbNode, pp: RbNode, ghost c: Ctx, ghost t: Tree)
      requires Focus(c, t, root, node, nil) && c.Hole? && c.side.R? && c.sib.Node?
      requires p == c.ref && w == c.sib.ref && pp == TopRef(c.up, nil)
      modifies this`root, p, w, pp`left, pp`right
      ensures Focus(Promoted(c, t), t, root, node, nil)
      ensures AllRefs(Promoted(c, t), t) == AllRefs(c, t) && Whole(Promoted(c, t), t) == Whole(c, t)
    {
      LinkedNil(c, root, node, nil);
      UpFocus(c, t, root, node, nil);
      FrameInorder(c, t);
      ghost var f := FrameTree(c, t);
      RightRotate(p, pp, c.up, f);
      LiftInorder(f, L);
      LiftParts(c.up, f, L);
      ghost var x := Lift(f, L);
      SwapColorsAt(w, p, R, c.up, x);
      ghost var y := SwapColors(x, R);
      PaintInorder(Child(x, R), Red);
      PaintRefs(Child(x, R), Red);
      DownFocus(c.up, y, R, root, w, nil);
      DownFocus(Down(c.up, y, R), Child(y, R), R, root, p, nil);
      DownWhole(c.up, y, R);
      DownWhole(Down(c.up, y, R), Child(y, R), R);
    }

    /** Case 3 below a right child: bring the red child of `w` to the far side. Returns the new sibling. */
    method FarRotateR(node: RbNode, p: RbNode, w0: RbNode, ghost c: Ctx, ghost t: Tree) returns (w: RbNode)
      requires Focus(c, t, root, node, nil) && nil.color.Black?
      requires c.Hole? && c.side.R? && HasRedChild(c.sib) && p == c.ref && w0 == c.sib.ref
      modifies this`root, p`left, p`right, w0, if c.sib.right.Node? then {c.sib.right.ref} else {}
      ensures Focus(WithSib(c, FarRed(c.sib, c.side)), t, root, node, nil)
      ensures w == FarRed(c.sib, c.side).ref
    {
      w := w0;
      AcrossFocus(c, t, root, node, nil);
      ghost var cw := Across(c, t);
      DownFocus(cw, c.sib, L, root, w, nil);
      ParentReads(Down(cw, c.sib, L), c.sib.left, root, w.left, nil);
      RepsNil(c.sib.right, w.right, nil);
      if w.left.color.Black? {
        LeftRotate(w, p, cw, c.sib);
        w := p.left;
        AcrossRead(cw, Lift(c.sib, R), root, c.sib.right.ref, nil);
        SwapColorsAt(w, w0, L, cw, Lift(c.sib, R));
      }
      AcrossFocus(cw, FarRed(c.sib, R), root, w, nil);
    }

    /** Case 4 below a right child: the far red child absorbs the extra black. */
    method AbsorbRotateR(node: RbNode, p: RbNode, w: RbNode, pp: RbNode, ghost c: Ctx, ghost t: Tree)
      requires Focus(c, t, root, node, nil) && c.Hole? && c.side.R?
      requires c.sib.Node? && c.sib.left.Node?
      requires p == c.ref && w == c.sib.ref && pp == TopRef(c.up, nil)
      modifies this`root, p, w, pp`left, pp`right, c.sib.left.ref`color
      ensures Focus(c.up, PaintFamily(Lift(FrameTree(c, t), L), c.color), root, w, nil)
    {
      UpFocus(c, t, root, node, nil);
      ghost var f := FrameTree(c, t);
      RightRotate(p, pp, c.up, f);
      PaintFamilyAt(w, p.color, c.up, Lift(f, L));
    }

    lemma SiblingReads(c: Ctx, t: Tree, node: RbNode)
      requires Focus(c, t, root, node, nil) && nil.color.Black? && Short(c, t) && c.Hole?
      ensures c.sib.Node? && c.ref.Child(Other(c.side)) == c.sib.ref
      ensures var w := c.sib.ref;
        && w.left != null && w.right != null
        && (w.color.Red? <==> IsRed(c.sib))
        && (w.left.color.Red? <==> IsRed(c.sib.left))
        && (w.right.color.Red? <==> IsRed(c.sib.right))
      ensures IsRed(c.sib) ==> !HasRedChild(c.sib)
    {
      ShortSibling(c, t);
      ParentReads(c, t, root, node, nil);
      var w := c.sib.ref;
      RepsNil(c.sib.left, w.left, nil);
      RepsNil(c.sib.right, w.right, nil);
    }

    lemma AbsorbReads(c: Ctx, t: Tree)
      requires c.Hole? && RB(c.sib) && HasRedChild(c.sib)
      ensures var s := FarRed(c.sib, c.side);
        && s.Node? && Child(s, Other(c.side)).Node?
        && (s.ref == c.sib.ref || (Child(c.sib, c.side).Node? && s.ref == Child(c.sib, c.side).ref))
        && Child(s, Other(c.side)).ref in Refs(c.sib) && s.ref in Refs(c.sib)
    {}

    /** Case 1. */
    method DemoteSibling(node: RbNode, p: RbNode, w: RbNode, depth: nat, ghost c: Ctx, ghost t: Tree)
      requires DeleteState(c, t, node, depth) && !IsRed(t) && c.Hole? && p == c.ref
      requires c.sib.Node? && c.sib.color.Black? && !HasRedChild(c.sib) && w == c.sib.ref
      modifies w`color
      ensures depth >= 1 && DeleteState(c.up, Demoted(c, t), p, depth - 1)
      ensures AllRefs(c.up, Demoted(c, t)) == AllRefs(c, t) && Whole(c.up, Demoted(c, t)) == Whole(c, t)
    {
      DemoteStep(c, t);
      DemoteWhole(c, t);
      StackTop(c, depth);
      LinkedNil(c, root, node, nil);
      AcrossFocus(c, t, root, node, nil);
      SetColor(w, Red, Across(c, t), c.sib);
      UpFocus(Across(c, t), Paint(c.sib, Red), root, w, nil);
    }

    ghost method CloseAbsorbed(w: RbNode, c: Ctx, t: Tree)
      requires Sep(c, t) && Short(c, t) && !IsRed(t) && bh == TotalBh(c, Bh(t) + 1)
      requires c.Hole? && HasRedChild(c.sib)
      requires Focus(c.up, Absorbed(c, t), root, w, nil)
      modifies this`tree
      ensures Fixed(AllRefs(c, t), Whole(c, t))
    {
      AbsorbStep(c, t);
      AbsorbWhole(c, t);
      Close(w, c.up, Absorbed(c, t));
    }

    /** Cases 3 and 4: one or two rotations end the repair. */
    method AbsorbExtraL(node: RbNode, p: RbNode, w0: RbNode, pp: RbNode, ghost c: Ctx, ghost t: Tree)
      requires Focus(c, t, root, node, nil) && nil.color.Black?
      requires Short(c, t) && !IsRed(t) && bh == TotalBh(c, Bh(t) + 1)
      requires c.Hole? && c.side.L? && HasRedChild(c.sib)
      requires p == c.ref && w0 == c.sib.ref && pp == TopRef(c.up, nil)
      modifies this`root, this`tree, pp`left, pp`right, AllRefs(c, t)
      ensures Fixed(AllRefs(c, t), Whole(c, t))
    {
      AbsorbReads(c, t);
      LinkedNil(c, root, node, nil);
      var w := FarRotateL(node, p, w0, c, t);
      ghost var c1 := WithSib(c, FarRed(c.sib, c.side));
      assert c1.Hole? && c1.side.L? && c1.up == c.up && c1.ref == p && c1.color == c.color;
      AbsorbRotateL(node, p, w, pp, c1, t);
      assert Focus(c.up, Absorbed(c, t), root, w, nil);
      CloseAbsorbed(w, c, t);
    }

    /** One round of the deletion repair below a parent whose short subtree is on the left. */
    method DeleteRoundL(node: RbNode, p: RbNode, depth: nat, ghost c: Ctx, ghost t: Tree)
      returns (done: bool, node': RbNode, depth': nat, ghost c': Ctx, ghost t': Tree)
      requires DeleteState(c, t, node, depth) && !IsRed(t) && c.Hole? && c.side.L? && p == c.ref
      modifies this`root, this`tree, stack, nil`left, nil`right, AllRefs(c, t)
      ensures done ==> Fixed(AllRefs(c, t), Whole(c, t))
      ensures !done ==> DeleteState(c', t', node', depth') && DeleteMeasure(c', t') < DeleteMeasure(c, t)
      ensures !done ==> AllRefs(c', t') == AllRefs(c, t) && Whole(c', t') == Whole(c, t)
    {
      SiblingReads(c, t, node);
      StackTop(c, depth);
      done, node', depth', c', t' := false, node, depth, c, t;
      var w := p.right;
      if w.left.color.Black? && w.right.color.Black? {
        if w.color.Black? {
          DemoteSibling(node, p, w, depth, c, t);
          node', depth', c', t' := p, depth - 1, c.up, Demoted(c, t);
        } else {
          PromoteSiblingL(node, p, w, depth, c, t);
          depth', c' := depth + 1, Promoted(c, t);
        }
      } else {
        done := true;
        StackTop(c.up, depth - 1);
        AbsorbExtraL(node, p, w, stack[depth - 1], c, t);
      }
    }

    /** Cases 3 and 4: one or two rotations end the repair. */
    method AbsorbExtraR(node: RbNode, p: RbNode, w0: RbNode, pp: RbNode, ghost c: Ctx, ghost t: Tree)
      requires Focus(c, t, root, node, nil) && nil.color.Black?
      requires Short(c, t) && !IsRed(t) && bh == TotalBh(c, Bh(t) + 1)
      requires c.Hole? && c.side.R? && HasRedChild(c.sib)
      requires p == c.ref && w0 == c.sib.ref && pp == TopRef(c.up, nil)
      modifies this`root, this`tree, pp`left, pp`right, AllRefs(c, t)
      ensures Fixed(AllRefs(c, t), Whole(c, t))
    {
      AbsorbReads(c, t);
      LinkedNil(c, root, node, nil);
      var w := FarRotateR(node, p, w0, c, t);
      ghost var c1 := WithSib(c, FarRed(c.sib, c.side));
      assert c1.Hole? && c1.side.R? && c1.up == c.up && c1.ref == p && c1.color == c.color;
      AbsorbRotateR(node, p, w, pp, c1, t);
      assert Focus(c.up, Absorbed(c, t), root, w, nil);
      CloseAbsorbed(w, c, t);
    }

    /** One round of the deletion repair below a parent whose short subtree is on the right. */
    method DeleteRoundR(node: RbNode, p: RbNode, depth: nat, ghost c: Ctx, ghost t: Tree)
      returns (done: bool, node': RbNode, depth': nat, ghost c': Ctx, ghost t': Tree)
      requires DeleteState(c, t, node, depth) && !IsRed(t) && c.Hole? && c.side.R? && p == c.ref
      modifies this`root, this`tree, stack, nil`left, nil`right, AllRefs(c, t)
      ensures done ==> Fixed(AllRefs(c, t), Whole(c, t))
      ensures !done ==> DeleteState(c', t', node', depth') && DeleteMeasure(c', t') < DeleteMeasure(c, t)
      ensures !done ==> AllRefs(c', t') == AllRefs(c, t) && Whole(c', t') == Whole(c, t)
    {
      SiblingReads(c, t, node);
      StackTop(c, depth);
      done, node', depth', c', t' := false, node, depth, c, t;
      var w := p.left;
      if w.left.color.Black? && w.right.color.Black? {
        if w.color.Black? {
          DemoteSibling(node, p, w, depth, c, t);
          node', depth', c', t' := p, depth - 1, c.up, Demoted(c, t);
        } else {
          PromoteSiblingR(node, p, w, depth, c, t);
          depth', c' := depth + 1, Promoted(c, t);
        }
      } else {
        done := true;
        StackTop(c.up, depth - 1);
        AbsorbExtraR(node, p, w, stack[depth - 1], c, t);
      }
    }

    /** `node` carries an extra black; every round moves it up, or removes it. */
    method DeleteFixup(node0: RbNode, depth0: nat, ghost c0: Ctx, ghost t0: Tree)
      requires DeleteState(c0, t0, node0, depth0)
      modifies this`root, this`bh, this`tree, stack, nil`left, nil`right, AllRefs(c0, t0)
      ensures Fixed(AllRefs(c0, t0), Whole(c0, t0))
    {
      ghost var c, t := c0, t0;
      var node, depth, done := node0, depth0, false;
      ParentReads(c, t, root, node, nil);
      while node.color.Black?
        invariant DeleteState(c, t, node, depth)
        invariant node.color.Red? <==> IsRed(t)
        invariant AllRefs(c, t) == AllRefs(c0, t0) && Whole(c, t) == Whole(c0, t0)
        decreases DeleteMeasure(c, t)
      {
        if node == root {
          DeleteAtRoot(node, depth, c, t);
          return;
        }
        done, node, depth, c, t := DeleteRound(node, depth, c, t);
        if done {
          return;
        }
      }
      DeleteFinish(node, c, t);
    }

    /** At the root the whole tree loses one level. */
    method DeleteAtRoot(node: RbNode, ghost depth: nat, ghost c: Ctx, ghost t: Tree)
      requires DeleteState(c, t, node, depth) && !IsRed(t) && node == root
      modifies this`bh, this`tree
      ensures Fixed(AllRefs(c, t), Whole(c, t))
    {
      ParentReads(c, t, root, node, nil);
      bh := bh - 1;
      Close(node, c, t);
    }

    /** One round below the root. */
    method DeleteRound(node: RbNode, depth: nat, ghost c: Ctx, ghost t: Tree)
      returns (done: bool, node': RbNode, depth': nat, ghost c': Ctx, ghost t': Tree)
      requires DeleteState(c, t, node, depth) && !IsRed(t) && node != root
      modifies this`root, this`tree, stack, nil`left, nil`right, AllRefs(c, t)
      ensures done ==> Fixed(AllRefs(c, t), Whole(c, t))
      ensures !done ==> DeleteState(c', t', node', depth') && DeleteMeasure(c', t') < DeleteMeasure(c, t)
      ensures !done ==> AllRefs(c', t') == AllRefs(c, t) && Whole(c', t') == Whole(c, t)
      ensures !done ==> (node'.color.Red? <==> IsRed(t'))
    {
      ParentReads(c, t, root, node, nil);
      ShortSibling(c, t);
      StackTop(c, depth);
      var p := stack[depth];
      if p.left == node {
        done, node', depth', c', t' := DeleteRoundL(node, p, depth, c, t);
      } else {
        done, node', depth', c', t' := DeleteRoundR(node, p, depth, c, t);
      }
      if !done { ParentReads(c', t', root, node', nil); }
    }

    /** A red node absorbs the extra black. */
    method DeleteFinish(node: RbNode, ghost c: Ctx, ghost t: Tree)
      requires Focus(c, t, root, node, nil) && IsRed(t) && Short(c, t) && bh == TotalBh(c, Bh(t) + 1)
      modifies this`tree, node`color
      ensures Fixed(AllRefs(c, t), Whole(c, t))
    {
      SetColor(node, Black, c, t);
      PaintRefs(t, Black);
      PaintInorder(t, Black);
      Close(node, c, Paint(t, Black));
    }

    // ---------- the public operations ----------

    ghost predicate Valid()
      reads this, nil, Refs(tree)
    {
      nil.color.Black? && Fixed(Refs(tree), Inorder(tree)) && Sorted(Inorder(tree))
    }

    ghost function Contents(): seq<Entry>
      reads this
    {
      Inorder(tree)
    }

    /** Grow the stack to at least `size` cells, keeping what it holds. */
    method ReallocateStack(size: nat)
      requires size >= stack.Length
      modifies this`stack
      ensures fresh(stack) && stack.Length == if 2 * old(stack.Length) > size then 2 * old(stack.Length) else size
      ensures stack[..old(stack.Length)] == old(stack[..])
    {
      var n := if 2 * stack.Length > size then 2 * stack.Length else size;
      var filler := nil;
      var bigger := new RbNode[n](_ => filler);
      var i := 0;
      while i < stack.Length
        invariant i <= stack.Length <= bigger.Length && fresh(bigger) && stack == old(stack)
        invariant bigger[..i] == stack[..i] && stack[..] == old(stack[..])
      {
        bigger[i] := stack[i];
        i := i + 1;
      }
      stack := bigger;
    }

    method ReserveStack()
      requires Valid()
      modifies this`stack
      ensures Valid() && (stack == old(stack) || fresh(stack))
      ensures stack.Length >= 2 * bh + 1
    {
      assert allocated(Refs(tree));
      if 2 * bh >= stack.Length {
        ReallocateStack(2 * bh + 1);
      }
    }

    /** A walk down from the root, recorded on the stack. */
    ghost predicate Walk(c: Ctx, t: Tree, node: RbNode, depth: nat)
      reads this, stack, nil, AllRefs(c, t)
    {
      && Focus(c, t, root, node, nil) && OnStack(c, depth) && nil.color.Black?
      && RB(t) && CtxRB(c, Bh(t)) && bh == TotalBh(c, Bh(t))
      && (IsRed(t) ==> RedFits(c))
      && stack.Length >= 2 * bh + 1
      && Plug(c, t) == tree && AllRefs(c, t) == Refs(tree) && Whole(c, t) == Inorder(tree)
    }

    /** `stack[0] = nil; node = tree->root;` */
    method StartWalk() returns (node: RbNode)
      requires Valid() && stack.Length >= 2 * bh + 1
      modifies stack
      ensures Valid() && Walk(Top, tree, node, 0) && node == root
    {
      stack[0] := nil;
      node := root;
      RepsNil(tree, root, nil);
    }

    /** One round of every search loop: `stack[++depth] = node;`, then left if `x` is less, else right. */
    method StepDown(node: RbNode, depth: nat, x: Entry, ghost c: Ctx, ghost t: Tree)
      returns (next: RbNode, ghost c': Ctx, ghost t': Tree)
      requires Walk(c, t, node, depth) && node != nil
      requires Sorted(Inorder(tree)) && Upper(c, x.first)
      modifies stack
      ensures t.Node? && depth + 1 <= 2 * bh
      ensures var side := if x.first < t.key.first then L else R;
        c' == Down(c, t, side) && t' == Child(t, side)
      ensures Walk(c', t', next, depth + 1) && Upper(c', x.first)
      ensures AllLt(Pre(c), x.first) && t.key.first != x.first ==> AllLt(Pre(c'), x.first)
    {
      RepsNil(t, node, nil);
      UpperDown(c, t, x.first);
      next := Descend(node, depth, if x.first < node.key.first then L else R, c, t);
      ghost var side := if x.first < t.key.first then L else R;
      c', t' := Down(c, t, side), Child(t, side);
    }

    method Descend(node: RbNode, depth: nat, side: Side, ghost c: Ctx, ghost t: Tree) returns (next: RbNode)
      requires Walk(c, t, node, depth) && t.Node?
      modifies stack
      ensures depth + 1 <= 2 * bh
      ensures Walk(Down(c, t, side), Child(t, side), next, depth + 1)
    {
      DownFocus(c, t, side, root, node, nil);
      DownRB(c, t, side);
      DownWhole(c, t, side);
      DownPlug(c, t, side);
      DepthBound(Down(c, t, side), Bh(Child(t, side)));
      ghost var prefix := stack[..depth + 1];
      stack[depth + 1] := node;
      assert stack[..depth + 1] == prefix;
      assert stack[..depth + 2] == prefix + [node];
      next := node.Child(side);
    }

    /** Hang a new red node below the last node of the walk, and repair. */
    method DoInsert(x: Entry, depth: nat, ghost c: Ctx) returns (node: RbNode)
      requires Walk(c, Nil, nil, depth) && Sorted(Contents()) && Upper(c, x.first)
      modifies this`root, this`bh, this`tree, nil`left, nil`right, Refs(tree)
      ensures Valid() && Contents() == SortedInsert(old(Contents()), x)
      ensures fresh(node) && Refs(tree) == old(Refs(tree)) + {node}
    {
      assert allocated(CtxRefs(c));
      LinkedNil(c, root, nil, nil);
      node := new RbNode(x, nil, nil, Red);
      ghost var t := Node(node, Red, x, Nil, Nil);
      InsertWhole(c, t, Contents());
      InsertLeaf(node, depth, c, t);
    }

    method InsertLeaf(node: RbNode, depth: nat, ghost c: Ctx, ghost t: Tree)
      requires CtxProper(c) && Linked(c, root, nil, nil)
      requires nil.color.Black? && OnStack(c, depth) && CtxRB(c, 0) && bh == TotalBh(c, 0)
      requires t.Node? && t.left == t.right == Nil && t.color.Red? && node !in CtxRefs(c)
      requires Reps(t, node, nil) && Upper(c, t.key.first)
      modifies this`root, this`bh, this`tree, nil`left, nil`right, AllRefs(c, t)
      ensures Fixed(AllRefs(c, t), Whole(c, t))
    {
      StackTop(c, depth);
      LinkedNil(c, root, nil, nil);
      var parent := stack[depth];
      if parent != nil {
        Hang(parent, node, depth, c, t);
        InsertFixup(node, depth, c, t);
      } else {
        FirstNode(node, t);
      }
    }

    /** The tree was empty: the new node is a black root. */
    method FirstNode(node: RbNode, ghost t: Tree)
      requires t.Node? && t.left == t.right == Nil && t.color.Red?
      requires Proper(t) && Reps(t, node, nil) && bh == 0
      modifies this`root, this`bh, this`tree, node`color
      ensures Fixed(Refs(t), Whole(Top, t))
    {
      root := node;
      node.color := Black;
      bh := bh + 1;
      Close(node, Top, Paint(t, Black));
    }

    method Hang(parent: RbNode, node: RbNode, ghost depth: nat, ghost c: Ctx, ghost t: Tree)
      requires CtxProper(c) && Linked(c, root, nil, nil) && c.Hole? && parent == c.ref
      requires nil.color.Black? && OnStack(c, depth) && CtxRB(c, 0) && bh == TotalBh(c, 0)
      requires t.Node? && t.left == t.right == Nil && t.color.Red? && node !in CtxRefs(c)
      requires Reps(t, node, nil)
      requires c.side.L? <==> t.key.first < c.key.first
      modifies parent`left, parent`right
      ensures InsertState(c, t, node, depth)
    {
      LinkedNil(c, root, nil, nil);
      if node.key.first < parent.key.first {
        parent.left := node;
      } else {
        parent.right := node;
      }
    }

    /** rb_insert: always inserts, behind any equal keys. */
    method Insert(x: Entry)
      requires Valid()
      modifies this, stack, nil`left, nil`right, Refs(tree)
      ensures Valid() && Contents() == SortedInsert(old(Contents()), x)
      ensures fresh(Refs(tree) - old(Refs(tree))) && nil == old(nil)
      ensures stack == old(stack) || fresh(stack)
    {
      ghost var c, t;
      var node, depth;
      node, depth, c, t := InsertWalk(x);
      assert Refs(tree) == old(Refs(tree)) && Contents() == old(Contents());
      node := DoInsert(x, depth, c);
    }

    /** The walk of rb_insert down to the sentinel. */
    method InsertWalk(x: Entry) returns (node: RbNode, depth: nat, ghost c: Ctx, ghost t: Tree)
      requires Valid()
      modifies this`stack, stack
      ensures stack == old(stack) || fresh(stack)
      ensures Walk(c, t, node, depth) && Upper(c, x.first) && node == nil && t == Nil
    {
      ReserveStack();
      node := StartWalk();
      depth := 0;
      c, t := Top, tree;
      while node != nil
        invariant Walk(c, t, node, depth) && Upper(c, x.first)
        decreases t
        modifies stack
      {
        node, c, t := StepDown(node, depth, x, c, t);
        depth := depth + 1;
      }
      RepsNil(t, node, nil);
    }

    /** `tree->nil->key = x;` */
    method SetSentinel(x: Entry)
      requires Valid()
      modifies nil`key
      ensures Valid() && nil.key == x
    {
      RepsNil(tree, root, nil);
      nil.key := x;
    }

    /** The walk begins at the root, with the key in the sentinel. */
    method StartSearch(x: Entry) returns (node: RbNode)
      requires Valid()
      modifies this`stack, stack, nil`key
      ensures stack == old(stack) || fresh(stack)
      ensures Searching(x, Top, tree, node, 0)
    {
      ReserveStack();
      SetSentinel(x);
      node := StartWalk();
    }

    /** The search loop shared by rb_insert_if_absent and rb_delete. */
    method SearchWalk(x: Entry) returns (node: RbNode, depth: nat, ghost c: Ctx, ghost t: Tree)
      requires Valid()
      modifies this`stack, stack, nil`key
      ensures stack == old(stack) || fresh(stack)
      ensures Walk(c, t, node, depth) && Upper(c, x.first)
      ensures node == nil ==> t == Nil && AllLt(Pre(c), x.first)
      ensures node != nil ==> t.Node? && t.key.first == x.first
    {
      node := StartSearch(x);
      depth := 0;
      c, t := Top, tree;
      while x.first != node.key.first
        invariant Searching(x, c, t, node, depth)
        decreases t
        modifies stack
      {
        node, c, t := SearchStep(node, depth, x, c, t);
        depth := depth + 1;
      }
      RepsNil(t, node, nil);
    }

    /** A walk on which no key has matched yet. */
    ghost predicate Searching(x: Entry, c: Ctx, t: Tree, node: RbNode, depth: nat)
      reads this, stack, nil, AllRefs(c, t)
    {
      Walk(c, t, node, depth) && Upper(c, x.first) && AllLt(Pre(c), x.first) && nil.key == x && Sorted(Inorder(tree))
    }

    method SearchStep(node: RbNode, depth: nat, x: Entry, ghost c: Ctx, ghost t: Tree)
      returns (next: RbNode, ghost c': Ctx, ghost t': Tree)
      requires Searching(x, c, t, node, depth) && x.first != node.key.first
      modifies stack
      ensures Searching(x, c', t', next, depth + 1) && t.Node? && (t' == t.left || t' == t.right)
    {
      RepsNil(t, node, nil);
      next, c', t' := StepDown(node, depth, x, c, t);
    }

    /** Leaving a walk without changing anything. */
    lemma WalkValid(c: Ctx, t: Tree, node: RbNode, depth: nat)
      requires Walk(c, t, node, depth) && Sorted(Contents())
      ensures Valid() && (node != nil ==> t.Node? && node in Refs(tree) && node.key == t.key)
    {
      PlugHeap(c, t, root, node, nil);
      PlugRB(c, t);
      RepsNil(t, node, nil);
    }

    /** rb_insert_if_absent: the sentinel's key is overwritten so that the search always stops. */
    method InsertIfAbsent(x: Entry) returns (found: RbNode?)
      requires Valid()
      modifies this, stack, nil`key, nil`left, nil`right, Refs(tree)
      ensures Valid() && nil == old(nil) && (stack == old(stack) || fresh(stack))
      ensures found == null <==> !HasKey(old(Contents()), x.first)
      ensures found == null ==> Contents() == SortedInsert(old(Contents()), x)
      ensures found == null ==> fresh(Refs(tree) - old(Refs(tree)))
      ensures found != null ==> tree == old(tree) && found in Refs(tree)
      ensures found != null ==> found.key.first == x.first && found.key in Contents()
    {
      ghost var c, t;
      var node, depth;
      node, depth, c, t := SearchWalk(x);
      if node != nil {
        FoundKey(c, t);
        WalkValid(c, t, node, depth);
        found := node;
      } else {
        AbsentKey(c, x.first);
        node := DoInsert(x, depth, c);
        found := null;
      }
    }

    /** rb_search */
    method Search(x: Entry) returns (found: RbNode?)
      requires Valid()
      modifies nil`key
      ensures Valid()
      ensures found == null <==> !HasKey(Contents(), x.first)
      ensures found != null ==> found in Refs(tree) && found.key.first == x.first && found.key in Contents()
    {
      SetSentinel(x);
      var node: RbNode := root;
      ghost var c, t := Top, tree;
      while x.first != node.key.first
        invariant Looking(x, c, t, node)
        decreases t
      {
        LookDown(x, c, t, node);
        if x.first < node.key.first {
          c, t := Down(c, t, L), t.left;
          node := node.left;
        } else {
          c, t := Down(c, t, R), t.right;
          node := node.right;
        }
      }
      LookDone(x, c, t, node);
      if node != nil {
        found := node;
      } else {
        found := null;
      }
    }

    ghost predicate Looking(x: Entry, c: Ctx, t: Tree, node: RbNode)
      reads this, nil, AllRefs(c, t)
    {
      && Focus(c, t, root, node, nil) && nil.key == x && nil.color.Black?
      && Plug(c, t) == tree && Whole(c, t) == Inorder(tree)
      && RB(tree) && !IsRed(tree) && bh == Bh(tree) && Sorted(Inorder(tree))
      && Upper(c, x.first) && AllLt(Pre(c), x.first)
    }

    lemma LookDown(x: Entry, c: Ctx, t: Tree, node: RbNode)
      requires Looking(x, c, t, node) && x.first != node.key.first
      ensures t.Node? && node == t.ref
      ensures var side := if x.first < node.key.first then L else R;
        node.Child(side) != null && Looking(x, Down(c, t, side), Child(t, side), node.Child(side))
    {
      RepsNil(t, node, nil);
      UpperDown(c, t, x.first);
      var side := if x.first < node.key.first then L else R;
      DownFocus(c, t, side, root, node, nil);
      DownWhole(c, t, side);
      DownPlug(c, t, side);
    }

    lemma LookDone(x: Entry, c: Ctx, t: Tree, node: RbNode)
      requires Looking(x, c, t, node) && x.first == node.key.first
      ensures Valid()
      ensures node == nil <==> !HasKey(Contents(), x.first)
      ensures node != nil ==> node in Refs(tree) && node.key in Contents()
    {
      RepsNil(t, node, nil);
      PlugHeap(c, t, root, node, nil);
      if node != nil {
        FoundKey(c, t);
      } else {
        AbsentKey(c, x.first);
      }
    }

    // ---------- deletion ----------

    /** `node->key = k;`, for a node on the spine above the focus. */
    method SetKey(node: RbNode, k: Entry, ghost c: Ctx, ghost t: Tree)
      requires t.Node? && Focus(c, t, root, t.ref, nil) && SuccPath(c, node)
      modifies node`key
      ensures Focus(Rekey(c, node, k), t, root, t.ref, nil)
    {
      FocusUp(c, t, node, root, nil);
      ghost var s := SpineTree(c, t, node);
      node.key := k;
      assert Focus(Above(c, node), Node(s.ref, s.color, k, s.left, s.right), root, node, nil);
      RekeySpine(c, t, node, k);
      RekeyShape(c, node, k, nil);
      FocusDown(Rekey(c, node, k), t, node, root, nil);
    }

    /** The only child of `y`, or the sentinel, takes the place of `y`. */
    method Unlink(y: RbNode, w: RbNode, depth: nat, ghost c: Ctx, ghost t: Tree)
      requires Focus(c, t, root, y, nil) && OneChild(t) && OnStack(c, depth)
      requires w == if y.right != nil then y.right else y.left
      modifies this`root, CtxRefs(c)
      ensures Focus(c, OnlyChild(t), root, w, nil)
    {
      OnlyChildRefs(c, t);
      RepsNil(t, y, nil);
      RepsNil(t.left, y.left, nil);
      RepsNil(t.right, y.right, nil);
      StackTop(c, depth);
      if depth == 0 {
        root := w;
      } else {
        RepsNil(c.sib, c.ref.Child(Other(c.side)), nil);
        var p := stack[depth];
        if p.left == y {
          p.left := w;
        } else {
          p.right := w;
        }
      }
    }

    ghost predicate AtNode(t: Tree, y: RbNode)
      reads this, y
    {
      t.Node? && y == t.ref && y.left != null && (y.left == nil <==> t.left.Nil?)
    }

    /** One step further down, to a node. */
    method DescendInto(node: RbNode, depth: nat, side: Side, ghost c: Ctx, ghost t: Tree) returns (next: RbNode)
      requires Walk(c, t, node, depth) && t.Node? && Child(t, side).Node?
      modifies stack
      ensures Walk(Down(c, t, side), Child(t, side), next, depth + 1) && AtNode(Child(t, side), next)
    {
      next := Descend(node, depth, side, c, t);
      RepsNil(Child(t, side), next, nil);
      RepsNil(Child(t, side).left, next.left, nil);
    }

    /** The leftmost node of the right subtree. */
    method Successor(node: RbNode, depth0: nat, ghost c0: Ctx, ghost t0: Tree)
      returns (y: RbNode, depth: nat, ghost c: Ctx, ghost t: Tree)
      requires Walk(c0, t0, node, depth0) && t0.Node? && t0.right.Node?
      modifies stack
      ensures Walk(c, t, y, depth) && t.Node? && t.left.Nil? && y != node && y == t.ref
      ensures SuccPath(c, node) && Pre(c) == Pre(c0) + Inorder(t0.left) + [t0.key]
    {
      y := DescendInto(node, depth0, R, c0, t0);
      y, depth, c, t := Leftmost(y, depth0 + 1, Down(c0, t0, R), t0.right, node);
    }

    method Leftmost(y0: RbNode, depth0: nat, ghost c0: Ctx, ghost t0: Tree, ghost node: RbNode)
      returns (y: RbNode, depth: nat, ghost c: Ctx, ghost t: Tree)
      requires Walk(c0, t0, y0, depth0) && AtNode(t0, y0) && SuccPath(c0, node)
      modifies stack
      ensures Walk(c, t, y, depth) && t.Node? && t.left.Nil? && y != node && y == t.ref
      ensures SuccPath(c, node) && Pre(c) == Pre(c0)
    {
      y, depth, c, t := y0, depth0, c0, t0;
      while y.left != nil
        invariant Walk(c, t, y, depth) && AtNode(t, y) && SuccPath(c, node) && Pre(c) == Pre(c0)
        decreases t
        modifies stack
      {
        y, c, t := StepLeft(y, depth, c, t, node);
        depth := depth + 1;
      }
      SuccDown(c, t, node);
    }

    method StepLeft(y: RbNode, depth: nat, ghost c: Ctx, ghost t: Tree, ghost node: RbNode)
      returns (next: RbNode, ghost c': Ctx, ghost t': Tree)
      requires Walk(c, t, y, depth) && AtNode(t, y) && t.left.Node? && SuccPath(c, node)
      modifies stack
      ensures Walk(c', t', next, depth + 1) && AtNode(t', next) && SuccPath(c', node) && Pre(c') == Pre(c) && t' == t.left
    {
      SuccDown(c, t, node);
      next := DescendInto(y, depth, L, c, t);
      c', t' := Down(c, t, L), t.left;
    }

    ghost predicate RemoveState(c: Ctx, t: Tree, y: RbNode, depth: nat)
      reads this, stack, nil, AllRefs(c, t)
    {
      && Focus(c, t, root, y, nil) && OnStack(c, depth) && nil.color.Black?
      && RB(t) && CtxRB(c, Bh(t)) && bh == TotalBh(c, Bh(t)) && (IsRed(t) ==> RedFits(c))
      && stack.Length >= 2 * bh + 1
    }

    /** The key of the successor moves up to `node`; the shape below the root stays. */
    method MoveKey(node: RbNode, y: RbNode, ghost depth: nat, ghost c: Ctx, ghost t: Tree)
      requires RemoveState(c, t, y, depth) && t.Node? && y == t.ref && SuccPath(c, node)
      modifies node`key
      ensures RemoveState(Rekey(c, node, t.key), t, y, depth)
    {
      RekeyShape(c, node, t.key, nil);
      RekeyRB(c, node, t.key, Bh(t));
      LinkedNil(c, root, y, nil);
      SetKey(node, y.key, c, t);
    }

    /** Unlink `y`, which has at most one child, and repair if it was black. */
    method RemoveNode(y: RbNode, depth: nat, ghost c: Ctx, ghost t: Tree)
      requires RemoveState(c, t, y, depth) && OneChild(t)
      modifies this`root, this`bh, this`tree, stack, nil`left, nil`right, AllRefs(c, t)
      ensures Fixed(AllRefs(c, OnlyChild(t)), Whole(c, OnlyChild(t)))
    {
      OnlyChildRB(c, t);
      OnlyChildRefs(c, t);
      RepsNil(t, y, nil);
      LinkedNil(c, root, y, nil);
      RepsNil(t.left, y.left, nil);
      RepsNil(t.right, y.right, nil);
      var w := if y.right != nil then y.right else y.left;
      Unlink(y, w, depth, c, t);
      if y.color.Black? {
        DeleteFixup(w, depth, c, OnlyChild(t));
      } else {
        Close(w, c, OnlyChild(t));
      }
    }

    /** rb_delete_node: a node with two children takes over the key of its successor, which is unlinked instead. */
    method DeleteNode(node: RbNode, depth0: nat, ghost c0: Ctx, ghost t0: Tree)
      requires Walk(c0, t0, node, depth0) && t0.Node? && node == t0.ref && Sorted(Contents())
      modifies this`root, this`bh, this`tree, stack, nil`left, nil`right, Refs(tree)
      ensures Valid() && RemovesAt(old(Contents()), Contents(), Place(c0, t0)) && old(Contents())[Place(c0, t0)] == t0.key
      ensures Refs(tree) < old(Refs(tree))
    {
      PlaceKey(c0, t0);
      RepsNil(t0.left, node.left, nil);
      RepsNil(t0.right, node.right, nil);
      if node.right == nil || node.left == nil {
        DeleteSimple(node, depth0, c0, t0);
      } else {
        DeleteSuccessor(node, depth0, c0, t0);
      }
      assert RemovesOne(old(Contents()), Contents(), t0.key.first);
      RemovesOneProps(old(Contents()), Contents(), t0.key.first);
    }

    method DeleteSimple(node: RbNode, depth: nat, ghost c: Ctx, ghost t: Tree)
      requires Walk(c, t, node, depth) && OneChild(t) && node == t.ref
      modifies this`root, this`bh, this`tree, stack, nil`left, nil`right, Refs(tree)
      ensures nil.color.Black? && Fixed(Refs(tree), Contents())
      ensures RemovesAt(old(Contents()), Contents(), Place(c, t))
      ensures Refs(tree) < old(Refs(tree))
    {
      LinkedNil(c, root, node, nil);
      RepsNil(t, node, nil);
      UnlinkWhole(c, t);
      OnlyChildRefs(c, t);
      RemoveNode(node, depth, c, t);
    }

    method DeleteSuccessor(node: RbNode, depth0: nat, ghost c0: Ctx, ghost t0: Tree)
      requires Walk(c0, t0, node, depth0) && t0.Node? && node == t0.ref && t0.right.Node?
      modifies this`root, this`bh, this`tree, stack, nil`left, nil`right, Refs(tree)
      ensures nil.color.Black? && Fixed(Refs(tree), Contents())
      ensures RemovesAt(old(Contents()), Contents(), Place(c0, t0))
      ensures Refs(tree) < old(Refs(tree))
    {
      var y, depth;
      ghost var c, t;
      y, depth, c, t := Successor(node, depth0, c0, t0);
      SuccessorRemoves(c0, t0, c, t, node, nil);
      ReplaceBySuccessor(node, y, depth, c, t);
    }

    /** `node->key = y->key`, then unlink `y`. */
    method ReplaceBySuccessor(node: RbNode, y: RbNode, depth: nat, ghost c: Ctx, ghost t: Tree)
      requires RemoveState(c, t, y, depth) && OneChild(t) && y == t.ref && SuccPath(c, node)
      modifies this`root, this`bh, this`tree, stack, nil`left, nil`right, AllRefs(c, t)
      ensures nil.color.Black? && Fixed(Refs(tree), Contents()) && Refs(tree) < AllRefs(c, t)
      ensures Contents() == Whole(Rekey(c, node, t.key), OnlyChild(t))
    {
      LinkedNil(c, root, y, nil);
      RepsNil(t, y, nil);
      OnlyChildRefs(c, t);
      RekeyShape(c, node, t.key, nil);
      MoveKey(node, y, depth, c, t);
      RemoveNode(y, depth, Rekey(c, node, t.key), t);
    }

    method DeleteFound(node: RbNode, depth0: nat, ghost c0: Ctx, ghost t0: Tree)
      requires Walk(c0, t0, node, depth0) && t0.Node? && node == t0.ref && Sorted(Contents())
      modifies this`root, this`bh, this`tree, stack, nil`left, nil`right, Refs(tree)
      ensures Valid() && RemovesOne(old(Contents()), Contents(), t0.key.first)
      ensures Refs(tree) < old(Refs(tree))
    {
      DeleteNode(node, depth0, c0, t0);
    }

    /** rb_delete: removes one entry with the key of `x`, if there is one. */
    method Delete(x: Entry)
      requires Valid()
      modifies this, stack, nil`key, nil`left, nil`right, Refs(tree)
      ensures Valid() && nil == old(nil) && (stack == old(stack) || fresh(stack))
      ensures HasKey(old(Contents()), x.first) ==> RemovesOne(old(Contents()), Contents(), x.first)
      ensures !HasKey(old(Contents()), x.first) ==> tree == old(tree)
      ensures Refs(tree) <= old(Refs(tree))
    {
      ghost var c, t;
      var node, depth;
      node, depth, c, t := SearchWalk(x);
      if node != nil {
        FoundKey(c, t);
        assert HasKey(old(Contents()), x.first);
        DeleteFound(node, depth, c, t);
      } else {
        WalkValid(c, t, node, depth);
        AbsentKey(c, x.first);
        assert !HasKey(old(Contents()), x.first);
      }
    }

    /** The other tree goes to the right: walk down the right edge to a black node of black height `bh2`. */
    method EdgeWalkR(bh2: nat) returns (node: RbNode, depth: nat, ghost c: Ctx, ghost t: Tree)
      requires Valid() && stack.Length >= 2 * bh + 1 && bh >= bh2 >= 1
      modifies stack
      ensures Walk(c, t, node, depth) && OnEdge(c, R)
      ensures Bh(t) == bh2 && !IsRed(t)
    {
      node := StartWalk();
      depth := 0;
      var counter := bh;
      c, t := Top, tree;
      RepsNil(t, node, nil);
      while node != nil && counter != bh2
        invariant Walk(c, t, node, depth) && OnEdge(c, R) && Counts(t, counter, bh2)
        invariant node == nil <==> t.Nil?
        decreases t
      {
        CountsStep(t, R, counter, bh2);
        node := Descend(node, depth, R, c, t);
        depth, c, t := depth + 1, Down(c, t, R), t.right;
        RepsNil(t, node, nil);
        if node.color.Black? {
          counter := counter - 1;
        }
      }
    }

    method JoinR(x: Entry, root2: RbNode, bh2: nat, ghost t2: Tree)
      requires Valid() && bh >= bh2 >= 1
      requires Proper(t2) && Reps(t2, root2, nil) && RB(t2) && !IsRed(t2) && Bh(t2) == bh2
      requires Refs(t2) !! Refs(tree) && Sorted(Inorder(t2))
      requires AllLe(Contents(), x.first) && AllGe(Inorder(t2), x.first)
      modifies this, stack, nil`left, nil`right, Refs(tree), Refs(t2)
      ensures Valid() && Contents() == old(Contents()) + [x] + Inorder(t2)
      ensures fresh(Refs(tree) - old(Refs(tree)) - Refs(t2)) && nil == old(nil)
      ensures stack == old(stack) || fresh(stack)
    {
      assert allocated(Refs(t2));
      ReserveStack();
      ghost var c, t;
      var node, depth;
      node, depth, c, t := EdgeWalkR(bh2);
      RepsNil(t2, root2, nil);
      SortedJoin(Contents(), x, Inorder(t2));
      var n := AttachR(x, node, root2, depth, c, t, t2);
    }

    method AttachR(x: Entry, node: RbNode, root2: RbNode, depth: nat, ghost c: Ctx, ghost t: Tree, ghost t2: Tree) returns (n: RbNode)
      requires Walk(c, t, node, depth) && OnEdge(c, R) && !IsRed(t)
      requires Proper(t2) && Reps(t2, root2, nil) && RB(t2) && !IsRed(t2) && Bh(t2) == Bh(t)
      requires Refs(t2) !! Refs(tree)
      modifies this`root, this`bh, this`tree, nil`left, nil`right, Refs(tree), Refs(t2)
      ensures nil.color.Black? && Fixed(Refs(tree), Contents()) && Contents() == old(Contents()) + [x] + Inorder(t2)
      ensures fresh(n) && Refs(tree) == old(Refs(tree)) + {n} + Refs(t2)
    {
      assert allocated(AllRefs(c, t)) && allocated(Refs(t2));
      LinkedNil(c, root, node, nil);
      RepsNil(t, node, nil);
      RepsNil(t2, root2, nil);
      n := new RbNode(x, node, root2, Red);
      ghost var nt := Node(n, Red, x, t, t2);
      JoinNode(c, t, t2, R, n, x);
      HangJoined(n, depth, R, node, c, nt);
    }

    /** The other tree goes to the left: walk down the left edge. */
    method EdgeWalkL(bh2: nat) returns (node: RbNode, depth: nat, ghost c: Ctx, ghost t: Tree)
      requires Valid() && stack.Length >= 2 * bh + 1 && bh >= bh2 >= 1
      modifies stack
      ensures Walk(c, t, node, depth) && OnEdge(c, L)
      ensures Bh(t) == bh2 && !IsRed(t)
    {
      node := StartWalk();
      depth := 0;
      var counter := bh;
      c, t := Top, tree;
      RepsNil(t, node, nil);
      while node != nil && counter != bh2
        invariant Walk(c, t, node, depth) && OnEdge(c, L) && Counts(t, counter, bh2)
        invariant node == nil <==> t.Nil?
        decreases t
      {
        CountsStep(t, L, counter, bh2);
        node := Descend(node, depth, L, c, t);
        depth, c, t := depth + 1, Down(c, t, L), t.left;
        RepsNil(t, node, nil);
        if node.color.Black? {
          counter := counter - 1;
        }
      }
    }

    method JoinL(x: Entry, root2: RbNode, bh2: nat, ghost t2: Tree)
      requires Valid() && bh >= bh2 >= 1
      requires Proper(t2) && Reps(t2, root2, nil) && RB(t2) && !IsRed(t2) && Bh(t2) == bh2
      requires Refs(t2) !! Refs(tree) && Sorted(Inorder(t2))
      requires AllGe(Contents(), x.first) && AllLe(Inorder(t2), x.first)
      modifies this, stack, nil`left, nil`right, Refs(tree), Refs(t2)
      ensures Valid() && Contents() == Inorder(t2) + [x] + old(Contents())
      ensures fresh(Refs(tree) - old(Refs(tree)) - Refs(t2)) && nil == old(nil)
      ensures stack == old(stack) || fresh(stack)
    {
      assert allocated(Refs(t2));
      ReserveStack();
      ghost var c, t;
      var node, depth;
      node, depth, c, t := EdgeWalkL(bh2);
      RepsNil(t2, root2, nil);
      SortedJoin(Inorder(t2), x, Contents());
      var n := AttachL(x, node, root2, depth, c, t, t2);
    }

    method AttachL(x: Entry, node: RbNode, root2: RbNode, depth: nat, ghost c: Ctx, ghost t: Tree, ghost t2: Tree) returns (n: RbNode)
      requires Walk(c, t, node, depth) && OnEdge(c, L) && !IsRed(t)
      requires Proper(t2) && Reps(t2, root2, nil) && RB(t2) && !IsRed(t2) && Bh(t2) == Bh(t)
      requires Refs(t2) !! Refs(tree)
      modifies this`root, this`bh, this`tree, nil`left, nil`right, Refs(tree), Refs(t2)
      ensures nil.color.Black? && Fixed(Refs(tree), Contents()) && Contents() == Inorder(t2) + [x] + old(Contents())
      ensures fresh(n) && Refs(tree) == old(Refs(tree)) + {n} + Refs(t2)
    {
      assert allocated(AllRefs(c, t)) && allocated(Refs(t2));
      LinkedNil(c, root, node, nil);
      RepsNil(t, node, nil);
      RepsNil(t2, root2, nil);
      n := new RbNode(x, root2, node, Red);
      ghost var nt := Node(n, Red, x, t2, t);
      JoinNode(c, t, t2, L, n, x);
      HangJoined(n, depth, L, node, c, nt);
    }

    /** `parent->right = n;` or `parent->left = n;` and the repair, or a new root. */
    method HangJoined(n: RbNode, depth: nat, side: Side, ghost node: RbNode, ghost c: Ctx, ghost t: Tree)
      requires OnEdge(c, side) && Linked(c, root, node, nil)
      requires nil.color.Black? && OnStack(c, depth) && Sep(c, t) && Reps(t, n, nil)
      requires RB(t) && IsRed(t) && CtxRB(c, Bh(t)) && bh == TotalBh(c, Bh(t))
      modifies this`root, this`bh, this`tree, nil`left, nil`right, AllRefs(c, t)
      ensures Fixed(AllRefs(c, t), Whole(c, t))
    {
      StackTop(c, depth);
      LinkedNil(c, root, node, nil);
      var parent := stack[depth];
      if parent != nil {
        if side.L? {
          parent.left := n;
        } else {
          parent.right := n;
        }
        InsertFixup(n, depth, c, t);
      } else {
        root := n;
        n.color := Black;
        bh := bh + 1;
        PaintRefs(t, Black);
        PaintInorder(t, Black);
        Close(n, Top, Paint(t, Black));
      }
    }
  }

  /** rb_join: consumes both trees; the taller one takes the other in. */
  method Join(tree1: RbTree, x: Entry, tree2: RbTree) returns (res: RbTree)
    requires tree1 != tree2 && tree1.nil == tree2.nil && tree1.stack != tree2.stack
    requires tree1.Valid() && tree2.Valid() && Refs(tree1.tree) !! Refs(tree2.tree)
    requires AllLe(tree1.Contents(), x.first) && AllGe(tree2.Contents(), x.first)
    modifies tree1, tree2, tree1.stack, tree2.stack, tree1.nil`left, tree1.nil`right
    modifies Refs(tree1.tree), Refs(tree2.tree)
    ensures res == tree1 || res == tree2
    ensures res.Valid() && res.Contents() == JoinResult(old(tree1.Contents()), x, old(tree2.Contents()))
    ensures res.nil == old(tree1.nil)
    ensures fresh(Refs(res.tree) - old(Refs(tree1.tree)) - old(Refs(tree2.tree)))
  {
    RepsNil(tree1.tree, tree1.root, tree1.nil);
    RepsNil(tree2.tree, tree2.root, tree2.nil);
    if tree1.root == tree1.nil {
      return tree2;
    } else if tree2.root == tree2.nil {
      return tree1;
    }
    if tree1.bh >= tree2.bh {
      tree1.JoinR(x, tree2.root, tree2.bh, tree2.tree);
      tree2.root := tree2.nil;
      res := tree1;
    } else {
      tree2.JoinL(x, tree1.root, tree1.bh, tree1.tree);
      tree1.root := tree1.nil;
      res := tree2;
    }
  }
}
