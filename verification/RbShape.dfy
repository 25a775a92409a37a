/**
  Shapes of red-black trees: the mathematical trees and zippers that the
  pointer structure of `RbTree` is proved against.

  A `Tree` records, node by node, the object, colour and key of a heap-allocated
  tree; `Reps` says that the heap holds exactly that tree. A `Ctx` is such a tree
  with one subtree missing, seen from the hole upwards; the nodes on its spine
  are what the source keeps on `tree->stack`.
  */
module RbShape {

  datatype Color = Red | Black

  datatype Side = L | R

  /** A key is a pointer to a record. The order looks at the `first` component only. */
  datatype Entry = Entry(first: int, data: int)

  class RbNode {
    var key: Entry
    var left: RbNode?
    var right: RbNode?
    var color: Color

    constructor (key: Entry, left: RbNode?, right: RbNode?, color: Color)
      ensures this.key == key && this.left == left && this.right == right && this.color == color
    {
      this.key, this.left, this.right, this.color := key, left, right, color;
    }

    function Child(side: Side): RbNode?
      reads this
    {
      if side.L? then left else right
    }
  }

  datatype Tree =
    | Nil
    | Node(ref: RbNode, color: Color, key: Entry, left: Tree, right: Tree)

  datatype Ctx =
    | Top
    | Hole(up: Ctx, side: Side, ref: RbNode, color: Color, key: Entry, sib: Tree)

  // ---------- trees ----------

  ghost function Refs(t: Tree): set<RbNode> {
    if t.Nil? then {} else {t.ref} + Refs(t.left) + Refs(t.right)
  }

  ghost predicate Proper(t: Tree) {
    t.Node? ==>
      && t.ref !in Refs(t.left) && t.ref !in Refs(t.right)
      && Refs(t.left) !! Refs(t.right)
      && Proper(t.left) && Proper(t.right)
  }

  ghost function Inorder(t: Tree): seq<Entry> {
    if t.Nil? then [] else Inorder(t.left) + [t.key] + Inorder(t.right)
  }

  ghost predicate IsRed(t: Tree) { t.Node? && t.color.Red? }

  /** The number of black nodes on the leftmost path; on every path, if `RB(t)`. */
  ghost function Bh(t: Tree): nat {
    if t.Nil? then 0 else Bh(t.left) + if t.color.Black? then 1 else 0
  }

  /** Equal black heights, and no red node with a red child. */
  ghost predicate RB(t: Tree) {
    t.Node? ==>
      && RB(t.left) && RB(t.right)
      && Bh(t.left) == Bh(t.right)
      && (t.color.Red? ==> !IsRed(t.left) && !IsRed(t.right))
  }

  // ---------- sorted sequences ----------

  ghost predicate Sorted(s: seq<Entry>) {
    forall i, j :: 0 <= i < j < |s| ==> s[i].first <= s[j].first
  }

  ghost predicate AllLe(s: seq<Entry>, k: int) { forall i :: 0 <= i < |s| ==> s[i].first <= k }

  ghost predicate AllLt(s: seq<Entry>, k: int) { forall i :: 0 <= i < |s| ==> s[i].first < k }

  ghost predicate AllGt(s: seq<Entry>, k: int) { forall i :: 0 <= i < |s| ==> k < s[i].first }

  ghost predicate HasKey(s: seq<Entry>, k: int) { exists i :: 0 <= i < |s| && s[i].first == k }

  /** Insertion into a sorted sequence, behind all entries with an equal key. */
  ghost function SortedInsert(s: seq<Entry>, x: Entry): seq<Entry> {
    if s == [] || x.first < s[0].first then [x] + s else [s[0]] + SortedInsert(s[1..], x)
  }

  /** `s'` is `s` without one entry whose key is `k`. */
  ghost predicate RemovesOne(s: seq<Entry>, s': seq<Entry>, k: int) {
    exists i :: 0 <= i < |s| && s[i].first == k && s' == s[..i] + s[i + 1..]
  }

  /** The entry at index `i`, and no other, is gone. */
  ghost predicate RemovesAt(s: seq<Entry>, s': seq<Entry>, i: nat) { i < |s| && s' == s[..i] + s[i + 1..] }

  ghost function Child(t: Tree, side: Side): Tree
    requires t.Node?
  {
    if side.L? then t.left else t.right
  }

  ghost function Other(side: Side): Side { if side.L? then R else L }

  ghost function MkNode(ref: RbNode, color: Color, key: Entry, side: Side, t: Tree, sib: Tree): Tree {
    if side.L? then Node(ref, color, key, t, sib) else Node(ref, color, key, sib, t)
  }

  ghost function Paint(t: Tree, color: Color): Tree
    requires t.Node?
  {
    Node(t.ref, color, t.key, t.left, t.right)
  }

  /** A single rotation that lifts the child on side `side` above its parent. */
  ghost function Lift(t: Tree, side: Side): Tree
    requires t.Node? && Child(t, side).Node?
  {
    var x := Child(t, side);
    MkNode(x.ref, x.color, x.key, Other(side),
           MkNode(t.ref, t.color, t.key, side, Child(x, Other(side)), Child(t, Other(side))),
           Child(x, side))
  }

  // ---------- contexts ----------

  ghost function CtxRefs(c: Ctx): set<RbNode> {
    if c.Top? then {} else CtxRefs(c.up) + {c.ref} + Refs(c.sib)
  }

  ghost predicate CtxProper(c: Ctx) {
    c.Hole? ==>
      && c.ref !in Refs(c.sib) && c.ref !in CtxRefs(c.up)
      && Refs(c.sib) !! CtxRefs(c.up)
      && Proper(c.sib) && CtxProper(c.up)
  }

  ghost predicate Sep(c: Ctx, t: Tree) {
    CtxProper(c) && Proper(t) && CtxRefs(c) !! Refs(t)
  }

  ghost function FrameTree(c: Ctx, t: Tree): Tree
    requires c.Hole?
  {
    MkNode(c.ref, c.color, c.key, c.side, t, c.sib)
  }

  ghost function Plug(c: Ctx, t: Tree): Tree {
    if c.Top? then t else Plug(c.up, FrameTree(c, t))
  }

  ghost function Pre(c: Ctx): seq<Entry> {
    if c.Top? then []
    else if c.side.L? then Pre(c.up)
    else Pre(c.up) + Inorder(c.sib) + [c.key]
  }

  ghost function Post(c: Ctx): seq<Entry> {
    if c.Top? then []
    else if c.side.L? then [c.key] + Inorder(c.sib) + Post(c.up)
    else Post(c.up)
  }

  ghost function Depth(c: Ctx): nat {
    if c.Top? then 0 else 1 + Depth(c.up)
  }

  /** What `tree->stack[..depth + 1]` holds: the sentinel, then the spine from the root down. */
  ghost function Spine(c: Ctx, nil: RbNode): (s: seq<RbNode>)
    ensures |s| == Depth(c) + 1
  {
    if c.Top? then [nil] else Spine(c.up, nil) + [c.ref]
  }

  /** The parent of the hole, as a walk sees it. */
  ghost function TopRef(c: Ctx, nil: RbNode): RbNode {
    if c.Top? then nil else c.ref
  }

  ghost function AllRefs(c: Ctx, t: Tree): set<RbNode> { CtxRefs(c) + Refs(t) }

  ghost function Whole(c: Ctx, t: Tree): seq<Entry> { Pre(c) + Inorder(t) + Post(c) }

  /** Everything outside the hole is red-black for a black subtree of black height `h`. */
  ghost predicate CtxRB(c: Ctx, h: nat) {
    c.Hole? ==>
      && RB(c.sib) && Bh(c.sib) == h
      && (c.color.Red? ==> !IsRed(c.sib) && c.up.Hole? && c.up.color.Black?)
      && CtxRB(c.up, UpBh(c, h))
  }

  ghost function UpBh(c: Ctx, h: nat): nat
    requires c.Hole?
  {
    h + if c.color.Black? then 1 else 0
  }

  ghost function TotalBh(c: Ctx, h: nat): nat {
    if c.Top? then h else TotalBh(c.up, UpBh(c, h))
  }

  /** A red subtree is allowed in the hole. */
  ghost predicate RedFits(c: Ctx) { c.Hole? && c.color.Black? }

  // ---------- the heap ----------

  ghost predicate Reps(t: Tree, n: RbNode?, nil: RbNode)
    reads Refs(t)
  {
    match t
    case Nil => n == nil
    case Node(ref, color, key, left, right) =>
      && n == ref && ref != nil
      && ref.color == color && ref.key == key
      && Reps(left, ref.left, nil) && Reps(right, ref.right, nil)
  }

  ghost predicate Linked(c: Ctx, root: RbNode, hole: RbNode?, nil: RbNode)
    reads CtxRefs(c)
  {
    match c
    case Top => root == hole
    case Hole(up, side, ref, color, key, sib) =>
      && ref != nil
      && ref.color == color && ref.key == key
      && ref.Child(side) == hole
      && Reps(sib, ref.Child(Other(side)), nil)
      && Linked(up, root, ref, nil)
  }

  /** The state of a walk: the heap below `root` is `Plug(c, t)`, `node` is the root of `t`. */
  ghost predicate Focus(c: Ctx, t: Tree, root: RbNode, node: RbNode, nil: RbNode)
    reads CtxRefs(c), Refs(t)
  {
    Sep(c, t) && Linked(c, root, node, nil) && Reps(t, node, nil)
  }

  // ---------- lemmas ----------

  lemma {:induction false} RepsNil(t: Tree, n: RbNode?, nil: RbNode)
    requires Reps(t, n, nil)
    ensures n != null && (n == nil <==> t.Nil?)
    ensures n != nil ==> t.Node? && t.ref == n && n in Refs(t)
    ensures nil !in Refs(t)
  {
    match t
    case Nil =>
    case Node(ref, color, key, left, right) =>
      RepsNil(left, ref.left, nil);
      RepsNil(right, ref.right, nil);
  }

  lemma {:induction false} LinkedNil(c: Ctx, root: RbNode, hole: RbNode?, nil: RbNode)
    requires Linked(c, root, hole, nil)
    ensures nil !in CtxRefs(c)
    ensures c.Hole? ==> root in CtxRefs(c)
  {
    match c
    case Top =>
    case Hole(up, side, ref, color, key, sib) =>
      RepsNil(sib, ref.Child(Other(side)), nil);
      LinkedNil(up, root, ref, nil);
  }

  lemma {:induction false} PlugHeap(c: Ctx, t: Tree, root: RbNode, node: RbNode, nil: RbNode)
    requires Focus(c, t, root, node, nil)
    ensures Refs(Plug(c, t)) == AllRefs(c, t)
    ensures Proper(Plug(c, t))
    ensures Reps(Plug(c, t), root, nil)
    decreases c
  {
    match c
    case Top =>
    case Hole(up, side, ref, color, key, sib) =>
      PlugHeap(up, FrameTree(c, t), root, ref, nil);
  }

  lemma {:induction false} PlugInorder(c: Ctx, t: Tree)
    ensures Inorder(Plug(c, t)) == Whole(c, t)
    decreases c
  {
    if c.Hole? {
      PlugInorder(c.up, FrameTree(c, t));
    }
  }

  /** A red-black subtree in a red-black context is a red-black tree with a black root. */
  lemma {:induction false} PlugRB(c: Ctx, t: Tree)
    requires RB(t) && CtxRB(c, Bh(t))
    requires IsRed(t) ==> RedFits(c)
    ensures RB(Plug(c, t)) && !IsRed(Plug(c, t))
    ensures Bh(Plug(c, t)) == TotalBh(c, Bh(t))
    decreases c
  {
    if c.Hole? {
      PlugRB(c.up, FrameTree(c, t));
    }
  }

  /** At least half of any path below the black root is black, so `2 * bh + 1` stack cells suffice. */
  lemma {:induction false} DepthBound(c: Ctx, h: nat)
    requires CtxRB(c, h)
    ensures Depth(c) + 2 * h + (if RedFits(c) then 1 else 0) <= 2 * TotalBh(c, h)
    decreases c
  {
    if c.Hole? {
      DepthBound(c.up, UpBh(c, h));
    }
  }

  /** The context of a child of the focused subtree. */
  ghost function Down(c: Ctx, t: Tree, side: Side): Ctx
    requires t.Node?
  {
    Hole(c, side, t.ref, t.color, t.key, Child(t, Other(side)))
  }

  lemma DownFocus(c: Ctx, t: Tree, side: Side, root: RbNode, node: RbNode, nil: RbNode)
    requires Focus(c, t, root, node, nil) && t.Node?
    ensures node.Child(side) != null && Focus(Down(c, t, side), Child(t, side), root, node.Child(side), nil)
    ensures AllRefs(Down(c, t, side), Child(t, side)) == AllRefs(c, t)
  {
    RepsNil(Child(t, side), node.Child(side), nil);
  }

  lemma DownRB(c: Ctx, t: Tree, side: Side)
    requires RB(t) && CtxRB(c, Bh(t)) && t.Node?
    requires IsRed(t) ==> RedFits(c)
    ensures RB(Child(t, side)) && CtxRB(Down(c, t, side), Bh(Child(t, side)))
    ensures IsRed(Child(t, side)) ==> RedFits(Down(c, t, side))
    ensures TotalBh(Down(c, t, side), Bh(Child(t, side))) == TotalBh(c, Bh(t))
  {}

  /** Moving the focus does not change what is below the root. */
  lemma DownPlug(c: Ctx, t: Tree, side: Side)
    requires t.Node?
    ensures Plug(Down(c, t, side), Child(t, side)) == Plug(c, t)
  {}

  /** The focus can be handed from a subtree to its sibling. */
  ghost function Across(c: Ctx, t: Tree): Ctx
    requires c.Hole?
  {
    Hole(c.up, Other(c.side), c.ref, c.color, c.key, t)
  }

  /** What the code reads off the parent of the focused node. */
  lemma ParentReads(c: Ctx, t: Tree, root: RbNode, node: RbNode, nil: RbNode)
    requires Focus(c, t, root, node, nil) && nil.color.Black?
    ensures (node == root) <==> c.Top?
    ensures node.color.Red? <==> IsRed(t)
    ensures c.Hole? ==>
      && c.ref != nil && c.ref.color == c.color
      && c.ref.Child(c.side) == node
      && var sibNode := c.ref.Child(Other(c.side));
      && sibNode != null
      && (sibNode == nil <==> c.sib.Nil?)
      && (c.sib.Node? ==> sibNode == c.sib.ref)
      && (sibNode.color.Red? <==> IsRed(c.sib))
    ensures c.Hole? && (t.Node? || c.sib.Node?) ==> (c.ref.left == node <==> c.side.L?)
    ensures c.Hole? && (t.Node? || c.sib.Node?) ==> (c.ref.right == node <==> c.side.R?)
  {
    RepsNil(t, node, nil);
    LinkedNil(c, root, node, nil);
    if c.Hole? {
      RepsNil(c.sib, c.ref.Child(Other(c.side)), nil);
    }
  }

  lemma AcrossFocus(c: Ctx, t: Tree, root: RbNode, node: RbNode, nil: RbNode)
    requires Focus(c, t, root, node, nil) && c.Hole?
    ensures var sibNode := c.ref.Child(Other(c.side));
      sibNode != null && Focus(Across(c, t), c.sib, root, sibNode, nil)
    ensures AllRefs(Across(c, t), c.sib) == AllRefs(c, t)
    ensures c.sib.Node? ==> c.ref.Child(Other(c.side)) == c.sib.ref
  {
    RepsNil(c.sib, c.ref.Child(Other(c.side)), nil);
  }

  lemma LiftInorder(t: Tree, side: Side)
    requires t.Node? && Child(t, side).Node?
    ensures Inorder(Lift(t, side)) == Inorder(t)
  {}

  /** Disjointness facts about the three subtrees that a rotation rearranges. */
  lemma LiftParts(c: Ctx, t: Tree, side: Side)
    requires Sep(c, t) && t.Node? && Child(t, side).Node?
    ensures Refs(Lift(t, side)) == Refs(t)
    ensures Sep(c, Lift(t, side))
  {
    var x := Child(t, side);
    var lower := MkNode(t.ref, t.color, t.key, side, Child(x, Other(side)), Child(t, Other(side)));
    assert Refs(x) == {x.ref} + Refs(Child(x, side)) + Refs(Child(x, Other(side)));
    assert Refs(lower) == {t.ref} + Refs(Child(x, Other(side))) + Refs(Child(t, Other(side)));
    assert Proper(x);
    assert Proper(lower);
  }

  lemma UpFocus(c: Ctx, t: Tree, root: RbNode, node: RbNode, nil: RbNode)
    requires Focus(c, t, root, node, nil) && c.Hole?
    ensures Focus(c.up, FrameTree(c, t), root, c.ref, nil)
    ensures AllRefs(c.up, FrameTree(c, t)) == AllRefs(c, t)
  {}

  // ---------- insertion ----------

  /** A red node below a red parent. */
  ghost predicate RedRed(c: Ctx, t: Tree) {
    && RB(t) && IsRed(t) && CtxRB(c, Bh(t)) && c.Hole? && c.color.Red?
  }

  /** The grandparent after the parent and the uncle have been blackened. */
  ghost function Recolored(c: Ctx, t: Tree): Tree
    requires c.Hole? && c.up.Hole? && c.up.sib.Node?
  {
    MkNode(c.up.ref, Red, c.up.key, c.up.side,
           Paint(FrameTree(c, t), Black), Paint(c.up.sib, Black))
  }

  lemma RecolorStep(c: Ctx, t: Tree)
    requires RedRed(c, t) && IsRed(c.up.sib)
    ensures RB(Recolored(c, t)) && IsRed(Recolored(c, t))
    ensures CtxRB(c.up.up, Bh(Recolored(c, t)))
    ensures TotalBh(c.up.up, Bh(Recolored(c, t))) == TotalBh(c, Bh(t))
  {
    assert CtxRB(c.up, UpBh(c, Bh(t)));
    var frame := FrameTree(c, t);
    assert RB(Paint(frame, Black)) && Bh(Paint(frame, Black)) == Bh(t) + 1;
    assert RB(Paint(c.up.sib, Black)) && Bh(Paint(c.up.sib, Black)) == Bh(c.up.sib) + 1;
    assert Bh(Recolored(c, t)) == UpBh(c.up, UpBh(c, Bh(t)));
  }

  lemma RecolorInorder(c: Ctx, t: Tree)
    requires c.Hole? && c.up.Hole? && c.up.sib.Node?
    ensures Whole(c.up.up, Recolored(c, t)) == Whole(c, t)
  {
    FrameInorder(c, t);
    FrameInorder(c.up, FrameTree(c, t));
    PaintInorder(FrameTree(c, t), Black);
    PaintInorder(c.up.sib, Black);
    assert Inorder(Recolored(c, t)) == Inorder(FrameTree(c.up, FrameTree(c, t)));
  }

  lemma PaintInorder(t: Tree, color: Color)
    requires t.Node?
    ensures Inorder(Paint(t, color)) == Inorder(t)
  {}

  lemma FrameInorder(c: Ctx, t: Tree)
    requires c.Hole?
    ensures Whole(c.up, FrameTree(c, t)) == Whole(c, t)
  {}

  lemma RecolorRefs(c: Ctx, t: Tree)
    requires Sep(c, t) && c.Hole? && c.up.Hole? && c.up.sib.Node?
    ensures Sep(c.up.up, Recolored(c, t))
    ensures AllRefs(c.up.up, Recolored(c, t)) == AllRefs(c, t)
  {
    UpSep(c, t);
    UpSep(c.up, FrameTree(c, t));
    PaintRefs(FrameTree(c, t), Black);
    PaintRefs(c.up.sib, Black);
  }

  lemma UpSep(c: Ctx, t: Tree)
    requires Sep(c, t) && c.Hole?
    ensures Sep(c.up, FrameTree(c, t))
    ensures AllRefs(c.up, FrameTree(c, t)) == AllRefs(c, t)
  {}

  lemma PaintRefs(t: Tree, color: Color)
    requires t.Node?
    ensures Refs(Paint(t, color)) == Refs(t)
    ensures Proper(t) ==> Proper(Paint(t, color))
  {}

  /** The parent's subtree once the red pair leans to the same side as the parent. */
  ghost function Straight(c: Ctx, t: Tree): Tree
    requires c.Hole? && c.up.Hole? && t.Node?
  {
    if c.side == c.up.side then FrameTree(c, t) else Lift(FrameTree(c, t), c.side)
  }

  /** Exchange the colours of a red node and its black child on side `side`. */
  ghost function SwapColors(t: Tree, side: Side): Tree
    requires t.Node? && Child(t, side).Node?
  {
    MkNode(t.ref, Black, t.key, side, Paint(Child(t, side), Red), Child(t, Other(side)))
  }

  ghost function Rotated(c: Ctx, t: Tree): Tree
    requires c.Hole? && c.up.Hole? && t.Node?
  {
    SwapColors(Lift(FrameTree(c.up, Straight(c, t)), c.up.side), Other(c.up.side))
  }

  lemma RotateStep(c: Ctx, t: Tree)
    requires RedRed(c, t) && !IsRed(c.up.sib)
    ensures RB(Rotated(c, t)) && Rotated(c, t).color.Black?
    ensures CtxRB(c.up.up, Bh(Rotated(c, t)))
    ensures TotalBh(c.up.up, Bh(Rotated(c, t))) == TotalBh(c, Bh(t))
  {
    assert CtxRB(c.up, UpBh(c, Bh(t)));
    assert Bh(Rotated(c, t)) == UpBh(c.up, UpBh(c, Bh(t)));
  }

  lemma RotatedSep(c: Ctx, t: Tree)
    requires Sep(c, t) && c.Hole? && c.up.Hole? && t.Node?
    ensures Sep(c.up.up, Rotated(c, t))
    ensures AllRefs(c.up.up, Rotated(c, t)) == AllRefs(c, t)
  {
    UpSep(c, t);
    UpSep(c.up, FrameTree(c, t));
    if c.side != c.up.side {
      LiftParts(c.up, FrameTree(c, t), c.side);
      UpSep(c.up, Straight(c, t));
    }
    LiftParts(c.up.up, FrameTree(c.up, Straight(c, t)), c.up.side);
    var x := Lift(FrameTree(c.up, Straight(c, t)), c.up.side);
    PaintRefs(Child(x, Other(c.up.side)), Red);
  }

  lemma RotateInorder(c: Ctx, t: Tree)
    requires c.Hole? && c.up.Hole? && t.Node?
    ensures Whole(c.up.up, Rotated(c, t)) == Whole(c, t)
  {
    FrameInorder(c, t);
    FrameInorder(c.up, FrameTree(c, t));
    if c.side != c.up.side {
      LiftInorder(FrameTree(c, t), c.side);
    }
    var x := Lift(FrameTree(c.up, Straight(c, t)), c.up.side);
    LiftInorder(FrameTree(c.up, Straight(c, t)), c.up.side);
    PaintInorder(Child(x, Other(c.up.side)), Red);
    assert Inorder(Rotated(c, t)) == Inorder(x);
    assert Inorder(FrameTree(c.up, Straight(c, t))) == Inorder(FrameTree(c.up, FrameTree(c, t)));
  }

  // ---------- deletion ----------

  /** Red-black, except that a red root may have red children. */
  ghost predicate RBRoot(t: Tree) {
    t.Node? ==> RB(t.left) && RB(t.right) && Bh(t.left) == Bh(t.right)
  }

  /** `t` has one black node too few: the focused node carries an extra black. */
  ghost predicate Short(c: Ctx, t: Tree) {
    RBRoot(t) && CtxRB(c, Bh(t) + 1)
  }

  ghost function DeleteMeasure(c: Ctx, t: Tree): nat {
    if IsRed(t) then 0 else if c.Hole? && c.color.Red? then 1 else 2 + Depth(c)
  }

  /** The sibling of a short subtree is a proper node. */
  lemma ShortSibling(c: Ctx, t: Tree)
    requires Short(c, t) && c.Hole?
    ensures c.sib.Node? && RB(c.sib)
    ensures IsRed(c.sib) ==> c.color.Black? && !IsRed(c.sib.left) && !IsRed(c.sib.right)
  {}

  /** Case 1: the sibling turns red and the parent becomes the short subtree. */
  ghost function Demoted(c: Ctx, t: Tree): Tree
    requires c.Hole? && c.sib.Node?
  {
    FrameTree(Across(c, t), Paint(c.sib, Red))
  }

  lemma DemoteStep(c: Ctx, t: Tree)
    requires Short(c, t) && !IsRed(t) && c.Hole? && c.sib.Node? && c.sib.color.Black?
    requires !IsRed(c.sib.left) && !IsRed(c.sib.right)
    ensures Short(c.up, Demoted(c, t)) && Demoted(c, t).Node?
    ensures TotalBh(c.up, Bh(Demoted(c, t)) + 1) == TotalBh(c, Bh(t) + 1)
    ensures DeleteMeasure(c.up, Demoted(c, t)) < DeleteMeasure(c, t)
  {
    assert RB(Paint(c.sib, Red)) && Bh(Paint(c.sib, Red)) == Bh(t);
    assert Bh(Demoted(c, t)) + 1 == UpBh(c, Bh(t) + 1);
  }

  lemma DemoteWhole(c: Ctx, t: Tree)
    requires Sep(c, t) && c.Hole? && c.sib.Node?
    ensures Whole(c.up, Demoted(c, t)) == Whole(c, t)
    ensures AllRefs(c.up, Demoted(c, t)) == AllRefs(c, t)
  {
    FrameInorder(c, t);
    PaintInorder(c.sib, Red);
    PaintRefs(c.sib, Red);
    assert Inorder(Demoted(c, t)) == Inorder(FrameTree(c, t));
  }

  /** Case 2: a red sibling is rotated above the parent, which turns red. */
  ghost function Promoted(c: Ctx, t: Tree): Ctx
    requires c.Hole? && c.sib.Node?
  {
    var w := c.sib;
    Hole(Hole(c.up, c.side, w.ref, Black, w.key, Child(w, Other(c.side))),
         c.side, c.ref, Red, c.key, Child(w, c.side))
  }

  lemma PromoteStep(c: Ctx, t: Tree)
    requires Short(c, t) && !IsRed(t) && c.Hole? && IsRed(c.sib)
    ensures Short(Promoted(c, t), t)
    ensures TotalBh(Promoted(c, t), Bh(t) + 1) == TotalBh(c, Bh(t) + 1)
    ensures DeleteMeasure(Promoted(c, t), t) < DeleteMeasure(c, t)
    ensures Depth(Promoted(c, t)) == Depth(c) + 1 <= 2 * TotalBh(c, Bh(t) + 1)
  {
    DepthBound(c, Bh(t) + 1);
    var h := Bh(t) + 1;
    assert RB(c.sib) && Bh(c.sib) == h && c.color.Black?;
    assert CtxRB(c.up, h + 1);
    assert CtxRB(Promoted(c, t).up, h);
  }

  /** Case 3: the red child is brought to the far side of the sibling. */
  ghost function FarRed(w: Tree, side: Side): Tree
    requires w.Node? && (IsRed(Child(w, Other(side))) || Child(w, side).Node?)
  {
    if IsRed(Child(w, Other(side))) then w else SwapColors(Lift(w, side), Other(side))
  }

  ghost function WithSib(c: Ctx, sib: Tree): Ctx
    requires c.Hole?
  {
    Hole(c.up, c.side, c.ref, c.color, c.key, sib)
  }

  /** Both children black, the root of the given colour. */
  ghost function PaintFamily(t: Tree, color: Color): Tree
    requires t.Node? && t.left.Node? && t.right.Node?
  {
    Node(t.ref, color, t.key, Paint(t.left, Black), Paint(t.right, Black))
  }

  ghost predicate HasRedChild(w: Tree) {
    w.Node? && (IsRed(w.left) || IsRed(w.right))
  }

  /** Cases 3 and 4: the repaired subtree at the place of the parent. */
  ghost function Absorbed(c: Ctx, t: Tree): Tree
    requires c.Hole? && HasRedChild(c.sib)
  {
    PaintFamily(Lift(FrameTree(WithSib(c, FarRed(c.sib, c.side)), t), Other(c.side)), c.color)
  }

  lemma AbsorbStep(c: Ctx, t: Tree)
    requires Short(c, t) && !IsRed(t) && c.Hole? && HasRedChild(c.sib)
    ensures RB(Absorbed(c, t)) && CtxRB(c.up, Bh(Absorbed(c, t)))
    ensures TotalBh(c.up, Bh(Absorbed(c, t))) == TotalBh(c, Bh(t) + 1)
    ensures IsRed(Absorbed(c, t)) ==> RedFits(c.up)
  {
    FarRedStep(c.sib, c.side);
    assert Bh(Absorbed(c, t)) == UpBh(c, Bh(t) + 1);
  }

  lemma FarRedStep(w: Tree, side: Side)
    requires RB(w) && w.Node? && w.color.Black? && HasRedChild(w)
    ensures var w' := FarRed(w, side);
      RB(w') && w'.color.Black? && Bh(w') == Bh(w) && IsRed(Child(w', Other(side)))
  {}

  lemma FarRedRefs(w: Tree, side: Side)
    requires w.Node? && HasRedChild(w)
    ensures Inorder(FarRed(w, side)) == Inorder(w)
    ensures Refs(FarRed(w, side)) == Refs(w)
    ensures Proper(w) ==> Proper(FarRed(w, side))
  {
    if !IsRed(Child(w, Other(side))) {
      LiftInorder(w, side);
      if Proper(w) { LiftParts(Top, w, side); }
      var x := Lift(w, side);
      PaintInorder(Child(x, Other(side)), Red);
      PaintRefs(Child(x, Other(side)), Red);
    }
  }

  lemma AbsorbWhole(c: Ctx, t: Tree)
    requires Sep(c, t) && c.Hole? && HasRedChild(c.sib)
    ensures Whole(c.up, Absorbed(c, t)) == Whole(c, t)
    ensures AllRefs(c.up, Absorbed(c, t)) == AllRefs(c, t)
  {
    var s := FarRed(c.sib, c.side);
    FarRedRefs(c.sib, c.side);
    var f := FrameTree(WithSib(c, s), t);
    UpSep(c, t);
    assert Inorder(f) == Inorder(FrameTree(c, t)) && Refs(f) == Refs(FrameTree(c, t));
    UpSep(WithSib(c, s), t);
    LiftInorder(f, Other(c.side));
    LiftParts(c.up, f, Other(c.side));
    var x := Lift(f, Other(c.side));
    PaintInorder(x.left, Black);
    PaintInorder(x.right, Black);
    PaintRefs(x.left, Black);
    PaintRefs(x.right, Black);
    FrameInorder(c, t);
    assert Inorder(Absorbed(c, t)) == Inorder(x);
  }

  /** The walk from `node` to its successor: one step right, then only left. */
  ghost predicate SuccPath(c: Ctx, node: RbNode) {
    c.Hole? && if c.ref == node then c.side.R? else c.side.L? && SuccPath(c.up, node)
  }

  lemma {:induction false} SuccOnPath(c: Ctx, node: RbNode)
    requires SuccPath(c, node)
    ensures node in CtxRefs(c)
  {
    if c.ref != node { SuccOnPath(c.up, node); }
  }

  /** One more step to the left below the right child of `node`. */
  lemma SuccDown(c: Ctx, t: Tree, node: RbNode)
    requires SuccPath(c, node) && t.Node? && Sep(c, t)
    ensures t.ref != node && SuccPath(Down(c, t, L), node)
    ensures Pre(Down(c, t, L)) == Pre(c)
  {
    SuccOnPath(c, node);
  }

  /** The context after `node->key = k`. */
  ghost function Rekey(c: Ctx, node: RbNode, k: Entry): Ctx {
    if c.Top? then c
    else if c.ref == node then Hole(c.up, c.side, c.ref, c.color, k, c.sib)
    else Hole(Rekey(c.up, node, k), c.side, c.ref, c.color, c.key, c.sib)
  }

  lemma {:induction false} RekeyShape(c: Ctx, node: RbNode, k: Entry, nil: RbNode)
    requires SuccPath(c, node)
    ensures node in CtxRefs(c) && CtxRefs(Rekey(c, node, k)) == CtxRefs(c)
    ensures CtxProper(c) ==> CtxProper(Rekey(c, node, k))
    ensures Depth(Rekey(c, node, k)) == Depth(c) && Spine(Rekey(c, node, k), nil) == Spine(c, nil)
    ensures Post(Rekey(c, node, k)) == Post(c)
    ensures Pre(c) != [] && Pre(Rekey(c, node, k)) == Pre(c)[..|Pre(c)| - 1] + [k]
    ensures Rekey(c, node, k).Hole? && Rekey(c, node, k).color == c.color
  {
    if c.ref != node {
      RekeyShape(c.up, node, k, nil);
    }
  }

  lemma {:induction false} RekeyRB(c: Ctx, node: RbNode, k: Entry, h: nat)
    requires SuccPath(c, node) && CtxRB(c, h)
    ensures CtxRB(Rekey(c, node, k), h) && TotalBh(Rekey(c, node, k), h) == TotalBh(c, h)
    ensures Rekey(c, node, k).Hole? && Rekey(c, node, k).color == c.color
    decreases c
  {
    if c.ref != node {
      RekeyRB(c.up, node, k, UpBh(c, h));
    }
  }

  /** The context above `node`, and the subtree at `node`, for a node on the spine of `c`. */
  ghost function Above(c: Ctx, node: RbNode): Ctx {
    if c.Top? then c else if c.ref == node then c.up else Above(c.up, node)
  }

  ghost function SpineTree(c: Ctx, t: Tree, node: RbNode): Tree {
    if c.Top? then t else if c.ref == node then FrameTree(c, t) else SpineTree(c.up, FrameTree(c, t), node)
  }

  lemma {:induction false} FocusUp(c: Ctx, t: Tree, node: RbNode, root: RbNode, nil: RbNode)
    requires t.Node? && Focus(c, t, root, t.ref, nil) && SuccPath(c, node)
    ensures SpineTree(c, t, node).Node? && Focus(Above(c, node), SpineTree(c, t, node), root, node, nil)
    decreases c
  {
    UpFocus(c, t, root, t.ref, nil);
    if c.ref != node {
      FocusUp(c.up, FrameTree(c, t), node, root, nil);
    }
  }

  lemma {:induction false} FocusDown(c: Ctx, t: Tree, node: RbNode, root: RbNode, nil: RbNode)
    requires t.Node? && SuccPath(c, node)
    requires Focus(Above(c, node), SpineTree(c, t, node), root, node, nil)
    ensures Focus(c, t, root, t.ref, nil)
    decreases c
  {
    if c.ref != node {
      FocusDown(c.up, FrameTree(c, t), node, root, nil);
    }
    DownFocus(c.up, FrameTree(c, t), c.side, root, c.ref, nil);
    RepsNil(t, c.ref.Child(c.side), nil);
  }

  lemma {:induction false} RekeySpine(c: Ctx, t: Tree, node: RbNode, k: Entry)
    requires SuccPath(c, node)
    ensures Above(Rekey(c, node, k), node) == Above(c, node)
    ensures var s, s' := SpineTree(c, t, node), SpineTree(Rekey(c, node, k), t, node);
      s.Node? && s' == Node(s.ref, s.color, k, s.left, s.right)
    ensures SuccPath(Rekey(c, node, k), node)
    decreases c
  {
    if c.ref != node {
      RekeySpine(c.up, FrameTree(c, t), node, k);
    }
  }

  ghost predicate OneChild(t: Tree) {
    t.Node? && (t.left.Nil? || t.right.Nil?)
  }

  ghost function OnlyChild(t: Tree): Tree
    requires t.Node?
  {
    if t.right.Node? then t.right else t.left
  }

  lemma OnlyChildRB(c: Ctx, t: Tree)
    requires OneChild(t) && RB(t) && CtxRB(c, Bh(t)) && (IsRed(t) ==> RedFits(c))
    ensures RB(OnlyChild(t))
    ensures t.color.Black? ==> Short(c, OnlyChild(t)) && TotalBh(c, Bh(OnlyChild(t)) + 1) == TotalBh(c, Bh(t))
    ensures t.color.Red? ==> !IsRed(OnlyChild(t)) && Bh(OnlyChild(t)) == Bh(t)
  {}

  lemma OnlyChildRefs(c: Ctx, t: Tree)
    requires Sep(c, t) && OneChild(t)
    ensures Sep(c, OnlyChild(t)) && Refs(t) == Refs(OnlyChild(t)) + {t.ref} && t.ref !in Refs(OnlyChild(t))
  {}

  lemma OnlyChildInorder(t: Tree)
    requires OneChild(t)
    ensures Inorder(t) == [t.key] + Inorder(OnlyChild(t)) || Inorder(t) == Inorder(OnlyChild(t)) + [t.key]
    ensures t.left.Nil? ==> Inorder(t) == [t.key] + Inorder(OnlyChild(t))
  {}

  /** Unlinking a node with at most one child removes its key. */
  lemma UnlinkWhole(c: Ctx, t: Tree)
    requires Sep(c, t) && OneChild(t)
    ensures RemovesAt(Whole(c, t), Whole(c, OnlyChild(t)), Place(c, t))
  {
    OnlyChildInorder(t);
    if t.left.Nil? { UnlinkFirst(c, t); } else { UnlinkLast(c, t); }
  }

  lemma UnlinkFirst(c: Ctx, t: Tree)
    requires t.Node? && t.left.Nil? && OneChild(t) && Inorder(OnlyChild(t)) == Inorder(t.right)
    ensures RemovesAt(Whole(c, t), Whole(c, OnlyChild(t)), Place(c, t))
  {
    var o := Inorder(t.right);
    assert Inorder(t) == [] + [t.key] + o && [] + o == o;
    DropAt(Pre(c), [], t.key, o, Post(c));
  }

  lemma UnlinkLast(c: Ctx, t: Tree)
    requires t.Node? && t.right.Nil? && OneChild(t) && Inorder(OnlyChild(t)) == Inorder(t.left)
    ensures RemovesAt(Whole(c, t), Whole(c, OnlyChild(t)), Place(c, t))
  {
    var o := Inorder(t.left);
    assert Inorder(t) == o + [t.key] + [] && o + [] == o;
    DropAt(Pre(c), o, t.key, [], Post(c));
  }

  /** Where the key of a node stands in the contents. */
  ghost function Place(c: Ctx, t: Tree): nat
    requires t.Node?
  {
    |Pre(c)| + |Inorder(t.left)|
  }

  lemma PlaceKey(c: Ctx, t: Tree)
    requires t.Node?
    ensures Place(c, t) < |Whole(c, t)| && Whole(c, t)[Place(c, t)] == t.key
  {
    assert Whole(c, t) == (Pre(c) + Inorder(t.left)) + [t.key] + (Inorder(t.right) + Post(c));
  }

  lemma DropAt(p: seq<Entry>, a: seq<Entry>, k: Entry, b: seq<Entry>, q: seq<Entry>)
    ensures RemovesAt(p + (a + [k] + b) + q, p + (a + b) + q, |p| + |a|)
  {
    var s, i := p + (a + [k] + b) + q, |p| + |a|;
    assert s[..i] == p + a && s[i + 1..] == b + q;
    assert p + (a + b) + q == s[..i] + s[i + 1..];
  }

  /** Unlinking the successor, whose key moves to `node`, removes the old key of `node`. */
  lemma SuccessorWhole(c: Ctx, t: Tree, node: RbNode, p: seq<Entry>, k: Entry, nil: RbNode)
    requires Sep(c, t) && OneChild(t) && t.left.Nil?
    requires SuccPath(c, node) && Pre(c) == p + [k]
    ensures RemovesAt(Whole(c, t), Whole(Rekey(c, node, t.key), OnlyChild(t)), |p|)
  {
    OnlyChildInorder(t);
    RekeyShape(c, node, t.key, nil);
    DropOne(p, k, t.key, Inorder(OnlyChild(t)), Post(c));
  }

  lemma SuccessorRemoves(c0: Ctx, t0: Tree, c: Ctx, t: Tree, node: RbNode, nil: RbNode)
    requires t0.Node? && Sep(c, t) && OneChild(t) && t.left.Nil?
    requires SuccPath(c, node) && Pre(c) == Pre(c0) + Inorder(t0.left) + [t0.key]
    ensures RemovesAt(Whole(c, t), Whole(Rekey(c, node, t.key), OnlyChild(t)), Place(c0, t0))
  {
    SuccessorWhole(c, t, node, Pre(c0) + Inorder(t0.left), t0.key, nil);
  }

  lemma DropOne(p: seq<Entry>, k: Entry, k': Entry, o: seq<Entry>, q: seq<Entry>)
    ensures RemovesAt((p + [k]) + ([k'] + o) + q, ((p + [k])[..|p + [k]| - 1] + [k']) + o + q, |p|)
  {
    var s, s' := (p + [k]) + ([k'] + o) + q, ((p + [k])[..|p + [k]| - 1] + [k']) + o + q;
    assert (p + [k])[..|p + [k]| - 1] == p;
    assert s[..|p|] == p && s[|p| + 1..] == [k'] + o + q;
    assert s' == s[..|p|] + s[|p| + 1..];
  }

  // ---------- joining ----------

  /** Every step of the walk went to the side `side`. */
  ghost predicate OnEdge(c: Ctx, side: Side) {
    c.Hole? ==> c.side == side && OnEdge(c.up, side)
  }

  lemma {:induction false} EdgeEmpty(c: Ctx, side: Side)
    requires OnEdge(c, side)
    ensures if side.R? then Post(c) == [] else Pre(c) == []
  {
    if c.Hole? {
      EdgeEmpty(c.up, side);
    }
  }

  /** The counter of the spine walk: one too high on red nodes, and never at its target there. */
  ghost predicate Counts(t: Tree, counter: nat, target: nat) {
    && counter == Bh(t) + (if IsRed(t) then 1 else 0)
    && (if IsRed(t) then counter > target else counter >= target)
  }

  lemma CountsStep(t: Tree, side: Side, counter: nat, target: nat)
    requires RB(t) && t.Node? && Counts(t, counter, target) && counter != target
    ensures Counts(Child(t, side), if IsRed(Child(t, side)) then counter else counter - 1, target)
  {}

  lemma JoinNode(c: Ctx, t: Tree, t2: Tree, side: Side, ref: RbNode, x: Entry)
    requires OnEdge(c, side) && Sep(c, t) && Proper(t2) && Refs(t2) !! AllRefs(c, t)
    requires ref !in AllRefs(c, t) + Refs(t2)
    requires RB(t) && RB(t2) && !IsRed(t) && !IsRed(t2) && Bh(t) == Bh(t2)
    ensures var nt := MkNode(ref, Red, x, Other(side), t, t2);
      && Sep(c, nt) && AllRefs(c, nt) == AllRefs(c, t) + {ref} + Refs(t2)
      && RB(nt) && IsRed(nt) && Bh(nt) == Bh(t)
      && Whole(c, nt) == if side.R? then Whole(c, t) + [x] + Inorder(t2) else Inorder(t2) + [x] + Whole(c, t)
  {
    JoinWhole(c, t, t2, side, ref, x);
  }

  lemma JoinWhole(c: Ctx, t: Tree, t2: Tree, side: Side, ref: RbNode, x: Entry)
    requires OnEdge(c, side)
    ensures var nt := MkNode(ref, Red, x, Other(side), t, t2);
      Whole(c, nt) == if side.R? then Whole(c, t) + [x] + Inorder(t2) else Inorder(t2) + [x] + Whole(c, t)
  {
    EdgeEmpty(c, side);
    if side.R? {
      RegroupR(Pre(c), Inorder(t), x, Inorder(t2));
    } else {
      RegroupL(Inorder(t2), x, Inorder(t), Post(c));
    }
  }

  lemma RegroupR(a: seq<Entry>, b: seq<Entry>, x: Entry, d: seq<Entry>)
    ensures a + (b + [x] + d) + [] == (a + b + []) + [x] + d
  {}

  lemma RegroupL(a: seq<Entry>, x: Entry, b: seq<Entry>, d: seq<Entry>)
    ensures [] + (a + [x] + b) + d == a + [x] + ([] + b + d)
  {}

  /** `rb_join` returns the other tree, without `x`, when one of them is empty. */
  ghost function JoinResult(s1: seq<Entry>, x: Entry, s2: seq<Entry>): seq<Entry> {
    if s1 == [] then s2 else if s2 == [] then s1 else s1 + [x] + s2
  }

  ghost predicate AllGe(s: seq<Entry>, k: int) { forall i :: 0 <= i < |s| ==> k <= s[i].first }

  lemma SortedJoin(s1: seq<Entry>, x: Entry, s2: seq<Entry>)
    requires Sorted(s1) && Sorted(s2) && AllLe(s1, x.first) && AllGe(s2, x.first)
    ensures Sorted(s1 + [x] + s2)
  {
    var s := s1 + [x] + s2;
    forall i, j | 0 <= i < j < |s| ensures s[i].first <= s[j].first {
      if i < |s1| { assert s[i] == s1[i]; } else if i > |s1| { assert s[i] == s2[i - |s1| - 1]; }
      if j < |s1| { assert s[j] == s1[j]; } else if j > |s1| { assert s[j] == s2[j - |s1| - 1]; }
    }
  }

  /** The documented result, both key multisets and `x`, is what one gets exactly for two nonempty trees. */
  lemma JoinDocumented(s1: seq<Entry>, x: Entry, s2: seq<Entry>)
    ensures multiset(JoinResult(s1, x, s2)) == multiset(s1) + multiset{x} + multiset(s2) <==> s1 != [] && s2 != []
  {
    var r := JoinResult(s1, x, s2);
    if s1 == [] || s2 == [] {
      assert multiset(r) == multiset(s1) + multiset(s2);
      assert (multiset(s1) + multiset{x} + multiset(s2))[x] == multiset(r)[x] + 1;
    }
  }

  // ---------- searching ----------

  /** The walk turned left at every spine node greater than `k`, and right at the others. */
  ghost predicate Upper(c: Ctx, k: int) {
    AllLe(Pre(c), k) && AllGt(Post(c), k) && (c.Hole? ==> (c.side.L? <==> k < c.key.first))
  }

  lemma UpperDown(c: Ctx, t: Tree, k: int)
    requires Sorted(Whole(c, t)) && t.Node? && Upper(c, k)
    ensures Upper(Down(c, t, if k < t.key.first then L else R), k)
    ensures AllLt(Pre(c), k) && t.key.first != k ==> AllLt(Pre(Down(c, t, if k < t.key.first then L else R)), k)
  {
    var a, b := Pre(c) + Inorder(t.left), Inorder(t.right) + Post(c);
    assert Whole(c, t) == a + [t.key] + b;
    SortedParts(a, t.key, b);
    if k < t.key.first {
      ConsAbove(t.key, b, k);
      assert Post(Down(c, t, L)) == [t.key] + b;
    } else {
      SnocBelow(a, t.key, k);
      assert Pre(Down(c, t, R)) == a + [t.key];
    }
  }

  lemma ConsAbove(e: Entry, b: seq<Entry>, k: int)
    requires k < e.first && forall i :: 0 <= i < |b| ==> e.first <= b[i].first
    ensures AllGt([e] + b, k)
  {}

  lemma SnocBelow(a: seq<Entry>, e: Entry, k: int)
    requires AllLe(a, e.first) && e.first <= k
    ensures AllLe(a + [e], k)
    ensures e.first < k ==> AllLt(a + [e], k)
  {}

  lemma DownWhole(c: Ctx, t: Tree, side: Side)
    requires t.Node?
    ensures Whole(Down(c, t, side), Child(t, side)) == Whole(c, t)
  {
    FrameInorder(Down(c, t, side), Child(t, side));
  }

  lemma {:induction false} SortedInsertAt(a: seq<Entry>, x: Entry, b: seq<Entry>)
    requires AllLe(a, x.first) && AllGt(b, x.first)
    ensures SortedInsert(a + b, x) == a + [x] + b
  {
    if a == [] {
      assert a + b == b;
    } else {
      assert (a + b)[1..] == a[1..] + b;
      SortedInsertAt(a[1..], x, b);
    }
  }

  /** A single node in the hole where a walk for its key ended. */
  lemma InsertWhole(c: Ctx, t: Tree, contents: seq<Entry>)
    requires t.Node? && t.left == t.right == Nil
    requires contents == Whole(c, Nil) && Sorted(contents)
    requires Upper(c, t.key.first)
    ensures Whole(c, t) == SortedInsert(contents, t.key) && Sorted(Whole(c, t))
    ensures c.Top? ==> Inorder(t) == Whole(c, t)
  {
    var a, b := Pre(c), Post(c);
    assert Inorder(t) == [t.key];
    assert contents == a + b;
    assert Whole(c, t) == a + [t.key] + b;
    SortedInsertAt(a, t.key, b);
    SortedInsertOrder(contents, t.key);
  }

  lemma FoundKey(c: Ctx, t: Tree)
    requires t.Node?
    ensures HasKey(Whole(c, t), t.key.first) && t.key in Whole(c, t)
  {
    var n := |Pre(c)| + |Inorder(t.left)|;
    assert Whole(c, t) == Pre(c) + Inorder(t.left) + [t.key] + Inorder(t.right) + Post(c);
    assert Whole(c, t)[n] == t.key;
  }

  lemma AbsentKey(c: Ctx, k: int)
    requires AllLt(Pre(c), k) && AllGt(Post(c), k)
    ensures !HasKey(Whole(c, Nil), k)
  {
    assert Whole(c, Nil) == Pre(c) + Post(c);
  }

  lemma SortedParts(a: seq<Entry>, e: Entry, b: seq<Entry>)
    requires Sorted(a + [e] + b)
    ensures AllLe(a, e.first) && (forall i :: 0 <= i < |b| ==> e.first <= b[i].first)
    ensures Sorted(a + b)
  {
    var s, r := a + [e] + b, a + b;
    forall i | 0 <= i < |a| ensures a[i].first <= e.first {
      assert s[i] == a[i] && s[|a|] == e;
    }
    forall i | 0 <= i < |b| ensures e.first <= b[i].first {
      assert s[|a| + 1 + i] == b[i] && s[|a|] == e;
    }
    forall i, j | 0 <= i < j < |r| ensures r[i].first <= r[j].first {
      assert r[i] == s[if i < |a| then i else i + 1];
      assert r[j] == s[if j < |a| then j else j + 1];
    }
  }

  lemma SortedCons(e: Entry, s: seq<Entry>)
    requires Sorted(s) && (s == [] || e.first <= s[0].first)
    ensures Sorted([e] + s)
  {
    var r := [e] + s;
    forall i, j | 0 <= i < j < |r| ensures r[i].first <= r[j].first {
      assert r[j] == s[j - 1];
      if i > 0 { assert r[i] == s[i - 1]; }
    }
  }

  lemma {:induction false} SortedInsertOrder(s: seq<Entry>, x: Entry)
    requires Sorted(s)
    ensures Sorted(SortedInsert(s, x))
  {
    if s == [] || x.first < s[0].first {
      SortedCons(x, s);
    } else {
      assert Sorted(s[1..]);
      SortedInsertOrder(s[1..], x);
      SortedCons(s[0], SortedInsert(s[1..], x));
    }
  }

  /** Inserting keeps order and adds exactly one occurrence of `x`. */
  lemma {:induction false} SortedInsertProps(s: seq<Entry>, x: Entry)
    requires Sorted(s)
    ensures Sorted(SortedInsert(s, x))
    ensures multiset(SortedInsert(s, x)) == multiset(s) + multiset{x}
  {
    SortedInsertOrder(s, x);
    SortedInsertAdds(s, x);
  }

  lemma {:induction false} SortedInsertAdds(s: seq<Entry>, x: Entry)
    ensures multiset(SortedInsert(s, x)) == multiset(s) + multiset{x}
  {
    if s != [] && s[0].first <= x.first {
      SortedInsertAdds(s[1..], x);
      assert s == [s[0]] + s[1..];
    }
  }

  /** Deleting keeps order and removes exactly one occurrence of a key equal to `k`. */
  lemma RemovesOneProps(s: seq<Entry>, s': seq<Entry>, k: int)
    requires Sorted(s) && RemovesOne(s, s', k)
    ensures Sorted(s')
    ensures exists e :: e in s && e.first == k && multiset(s) == multiset(s') + multiset{e}
  {
    var i :| 0 <= i < |s| && s[i].first == k && s' == s[..i] + s[i + 1..];
    var a, b := s[..i], s[i + 1..];
    assert s == a + [s[i]] + b;
    SortedParts(a, s[i], b);
    assert multiset(a + [s[i]] + b) == multiset(a + b) + multiset{s[i]};
    assert s[i] in s;
  }

  // ---------- trees used as sets ----------

  ghost function Keys(s: seq<Entry>): set<int> { set e | e in s :: e.first }

  ghost predicate DistinctKeys(s: seq<Entry>) { forall i, j :: 0 <= i < j < |s| ==> s[i].first != s[j].first }

  lemma KeysHave(s: seq<Entry>, k: int)
    ensures k in Keys(s) <==> HasKey(s, k)
  {
    if HasKey(s, k) {
      var i :| 0 <= i < |s| && s[i].first == k;
      assert s[i] in s;
    }
  }

  /** Inserting an absent key adds it to the set of keys. */
  lemma {:induction false} InsertAsSet(s: seq<Entry>, x: Entry)
    requires DistinctKeys(s) && !HasKey(s, x.first)
    ensures DistinctKeys(SortedInsert(s, x)) && Keys(SortedInsert(s, x)) == Keys(s) + {x.first}
  {
    if s == [] || x.first < s[0].first {
      assert forall e :: e in [x] + s <==> e == x || e in s;
      assert x in [x] + s;
    } else {
      var rest := s[1..];
      assert !HasKey(rest, x.first);
      InsertAsSet(rest, x);
      var r := SortedInsert(rest, x);
      assert s == [s[0]] + rest && SortedInsert(s, x) == [s[0]] + r;
      assert !HasKey(rest, s[0].first);
      KeysHave(rest, s[0].first);
      KeysHave(r, s[0].first);
      ConsKeys(s[0], rest);
      ConsKeys(s[0], r);
    }
  }

  lemma ConsKeys(e: Entry, s: seq<Entry>)
    ensures Keys([e] + s) == Keys(s) + {e.first}
    ensures DistinctKeys(s) && !HasKey(s, e.first) ==> DistinctKeys([e] + s)
  {
    assert forall x :: x in [e] + s <==> x == e || x in s;
    assert e in [e] + s;
  }

  /** Deleting removes the key from the set of keys. */
  lemma RemoveAsSet(s: seq<Entry>, s': seq<Entry>, k: int)
    requires DistinctKeys(s) && RemovesOne(s, s', k)
    ensures DistinctKeys(s') && Keys(s') == Keys(s) - {k}
  {
    var i :| 0 <= i < |s| && s[i].first == k && s' == s[..i] + s[i + 1..];
    forall n ensures n in Keys(s') <==> n in Keys(s) && n != k {
      KeysHave(s, n);
      KeysHave(s', n);
      RemovedKey(s, s', i, n);
    }
  }

  lemma RemovedKey(s: seq<Entry>, s': seq<Entry>, i: nat, n: int)
    requires DistinctKeys(s) && i < |s| && s' == s[..i] + s[i + 1..]
    ensures HasKey(s', n) <==> HasKey(s, n) && n != s[i].first
  {
    if HasKey(s', n) {
      var j :| 0 <= j < |s'| && s'[j].first == n;
      assert s'[j] == s[if j < i then j else j + 1];
    }
    if HasKey(s, n) && n != s[i].first {
      var j :| 0 <= j < |s| && s[j].first == n;
      assert s[j] == s'[if j < i then j else j - 1];
    }
  }
}
