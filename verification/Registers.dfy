/**
  Where variables are while code is generated: every variable has a list of locations, and
  every register and stack slot a list of variables. Emptying a register saves the live
  variables that would otherwise be lost.
  */
module Registers {
  import opened Quadr
  import opened Frame

  type Reg = nat

  /** A slot of the frame is known by its offset, which never changes. */
  datatype Loc = InReg(r: Reg) | InSlot(offset: int) | IntConst(n: int) | DoubleConst(x: real)

  // ---------- locations ----------

  function Locs(locs: map<Var, seq<Loc>>, v: Var): seq<Loc> { if v in locs then locs[v] else [] }

  function Without(ls: seq<Loc>, l: Loc): (r: seq<Loc>)
    ensures forall x :: x in r <==> x in ls && x != l
  {
    if ls == [] then [] else (if ls[0] == l then [] else [ls[0]]) + Without(ls[1..], l)
  }

  function AddLoc(locs: map<Var, seq<Loc>>, v: Var, l: Loc): (r: map<Var, seq<Loc>>)
    ensures forall w, x :: x in Locs(r, w) <==> x in Locs(locs, w) || (w == v && x == l)
  {
    locs[v := [l] + Locs(locs, v)]
  }

  function DropLoc(locs: map<Var, seq<Loc>>, v: Var, l: Loc): (r: map<Var, seq<Loc>>)
    ensures forall w, x :: x in Locs(r, w) <==> x in Locs(locs, w) && !(w == v && x == l)
  {
    locs[v := Without(Locs(locs, v), l)]
  }

  /** Slot `i` is at `offset`, and `v` is in its list. */
  ghost predicate SlotHas(slots: seq<Slot>, i: nat, offset: int, v: Var) {
    i + 1 < |slots| && slots[i].offset == offset && v in slots[i].vars
  }

  ghost predicate InSomeSlot(slots: seq<Slot>, offset: int, v: Var) { exists i :: 0 <= i < |slots| && SlotHas(slots, i, offset, v) }

  /** In `slots'` slot `i`, which was free, holds `v`; the end marker may have moved. */
  ghost predicate Fills(slots: seq<Slot>, slots': seq<Slot>, i: nat, v: Var) {
    && |slots| <= |slots'| <= |slots| + 1 && i < |slots| && i + 1 < |slots'|
    && slots[i].vars == [] && slots'[i].vars == [v] && slots'[i].offset == slots[i].offset
    && forall k :: 0 <= k < |slots'| && k != i ==> if k < |slots| then slots'[k] == slots[k] else slots'[k].vars == []
  }

  /** Other variables stay where they were, and not in the slot that was filled. */
  lemma FillKeeps(slots: seq<Slot>, slots': seq<Slot>, size: Var -> nat, i: nat, v: Var, o: int, w: Var)
    requires SlotsOk(slots', size) && Fills(slots, slots', i, v) && InSomeSlot(slots, o, w)
    ensures InSomeSlot(slots', o, w) && o != slots'[i].offset
  {
    var k :| 0 <= k < |slots| && SlotHas(slots, k, o, w);
    assert SlotHas(slots', k, o, w);
    if i < k { SlotsOrdered(slots', size, i, k); } else { SlotsOrdered(slots', size, k, i); }
  }

  /** std_find_best_src_loc: a register, or else a constant, or else any location. */
  function BestSource(ls: seq<Loc>): (l: Loc)
    requires ls != []
    ensures l in ls && (l.InReg? || (forall x :: x in ls ==> !x.InReg?))
    ensures l.InSlot? ==> forall x :: x in ls ==> x.InSlot?
  {
    var reg := FirstLoc(ls, (l: Loc) => l.InReg?);
    var cons := FirstLoc(ls, (l: Loc) => l.IntConst? || l.DoubleConst?);
    if reg.Some? then reg.value else if cons.Some? then cons.value else ls[0]
  }

  function FirstLoc(ls: seq<Loc>, wanted: Loc -> bool): (l: Option<Loc>)
    ensures if l.Some? then l.value in ls && wanted(l.value) else forall x :: x in ls ==> !wanted(x)
  {
    if ls == [] then None else if wanted(ls[0]) then Some(ls[0]) else FirstLoc(ls[1..], wanted)
  }

  // ---------- descriptors ----------

  /** Both directions of the descriptors, what registers and the frame hold, and what the value of each variable should be. */
  datatype Desc = Desc(
    regs: seq<seq<Var>>,
    locs: map<Var, seq<Loc>>,
    slots: seq<Slot>,
    inRegs: seq<Value>,
    memory: map<int, Value>,
    value: map<Var, Value>)

  ghost function Content(d: Desc, l: Loc): Value {
    match l
    case InReg(r) => if r < |d.inRegs| then d.inRegs[r] else IntV(0)
    case InSlot(o) => if o in d.memory then d.memory[o] else IntV(0)
    case IntConst(n) => IntV(n)
    case DoubleConst(x) => RealV(x)
  }

  /** The location is known to its register or slot, and holds the variable's value. */
  ghost predicate Tracked(d: Desc, v: Var, l: Loc) {
    && v in d.value && Content(d, l) == d.value[v]
    && match l
       case InReg(r) => r < |d.regs| && v in d.regs[r]
       case InSlot(o) => InSomeSlot(d.slots, o, v)
       case _ => true
  }

  /** Variable `v` of register `r` is there, unless it has left a register whose list is about to be thrown away. */
  ghost predicate RegKnown(d: Desc, r: Reg, v: Var, open: Reg, gone: set<Var>) {
    (r == open && v in gone) || InReg(r) in Locs(d.locs, v)
  }

  /**
    Both directions of the descriptors agree, except that the variables in `gone` have
    already left register `open`.
    */
  ghost predicate DescOk(d: Desc, open: Reg, gone: set<Var>) {
    && |d.regs| == |d.inRegs|
    && (forall v, l :: l in Locs(d.locs, v) ==> Tracked(d, v, l))
    && (forall r, v :: 0 <= r < |d.regs| && v in d.regs[r] ==> RegKnown(d, r, v, open, gone))
    && (forall i, v :: 0 <= i < |d.slots| && v in d.slots[i].vars ==> InSlot(d.slots[i].offset) in Locs(d.locs, v))
    && (forall v :: v in gone ==> InReg(open) !in Locs(d.locs, v))
  }

  /** A move of a variable into an empty register, from a location it has. */
  ghost function MovedToReg(d: Desc, v: Var, r: Reg): Desc
    requires r < |d.regs| == |d.inRegs| && Locs(d.locs, v) != []
  {
    d.(inRegs := d.inRegs[r := Content(d, BestSource(Locs(d.locs, v)))],
       regs := d.regs[r := [v]],
       locs := AddLoc(d.locs, v, InReg(r)))
  }

  lemma MovedToRegOk(d: Desc, v: Var, r: Reg, open: Reg, gone: set<Var>)
    requires DescOk(d, open, gone) && r < |d.regs| && d.regs[r] == [] && r != open && Locs(d.locs, v) != []
    ensures DescOk(MovedToReg(d, v, r), open, gone)
  {
    var d' := MovedToReg(d, v, r);
    assert Tracked(d, v, BestSource(Locs(d.locs, v)));
    forall w, l | l in Locs(d'.locs, w) ensures Tracked(d', w, l) {
      if w != v || l != InReg(r) { assert l in Locs(d.locs, w) && Tracked(d, w, l); }
    }
    forall q, w | 0 <= q < |d'.regs| && w in d'.regs[q] ensures RegKnown(d', q, w, open, gone) {
      if q != r { assert w in d.regs[q] && RegKnown(d, q, w, open, gone); }
    }
  }

  /** A move into slot `i`, which was free. */
  ghost function MovedToSlot(d: Desc, slots: seq<Slot>, v: Var, i: nat): Desc
    requires i < |slots| && Locs(d.locs, v) != []
  {
    d.(slots := slots,
       memory := d.memory[slots[i].offset := Content(d, BestSource(Locs(d.locs, v)))],
       locs := AddLoc(d.locs, v, InSlot(slots[i].offset)))
  }

  lemma MovedToSlotOk(d: Desc, slots: seq<Slot>, size: Var -> nat, v: Var, i: nat, open: Reg, gone: set<Var>)
    requires DescOk(d, open, gone) && SlotsOk(slots, size) && Fills(d.slots, slots, i, v) && Locs(d.locs, v) != []
    ensures DescOk(MovedToSlot(d, slots, v, i), open, gone)
  {
    var d' := MovedToSlot(d, slots, v, i);
    assert Tracked(d, v, BestSource(Locs(d.locs, v)));
    assert SlotHas(slots, i, slots[i].offset, v);
    forall w, x | x in Locs(d'.locs, w) ensures Tracked(d', w, x) {
      if w != v || x != InSlot(slots[i].offset) {
        assert x in Locs(d.locs, w) && Tracked(d, w, x);
        if x.InSlot? { FillKeeps(d.slots, slots, size, i, v, x.offset, w); }
      }
    }
    forall q, w | 0 <= q < |d'.regs| && w in d'.regs[q] ensures RegKnown(d', q, w, open, gone) {
      assert RegKnown(d, q, w, open, gone);
    }
    forall k, w | 0 <= k < |slots| && w in slots[k].vars ensures InSlot(slots[k].offset) in Locs(d'.locs, w) {
      if k != i { assert w in d.slots[k].vars; }
    }
  }

  lemma DroppedOk(d: Desc, v: Var, r: Reg, done: set<Var>)
    requires DescOk(d, r, done)
    ensures DescOk(d.(locs := DropLoc(d.locs, v, InReg(r))), r, done + {v})
  {
    var d' := d.(locs := DropLoc(d.locs, v, InReg(r)));
    forall w, l | l in Locs(d'.locs, w) ensures Tracked(d', w, l) { assert l in Locs(d.locs, w) && Tracked(d, w, l); }
    forall q, w | 0 <= q < |d'.regs| && w in d'.regs[q] ensures RegKnown(d', q, w, r, done + {v}) {
      assert RegKnown(d, q, w, r, done);
    }
  }

  lemma ThrownAwayOk(d: Desc, r: Reg, done: set<Var>)
    requires DescOk(d, r, done) && r < |d.regs| && forall v :: v in d.regs[r] ==> v in done
    ensures DescOk(d.(regs := d.regs[r := []]), r, {})
  {
    var d' := d.(regs := d.regs[r := []]);
    forall v, l | l in Locs(d'.locs, v) ensures Tracked(d', v, l) {
      assert Tracked(d, v, l);
      assert l.InReg? && l.r == r ==> v in done;
    }
    forall q, w | 0 <= q < |d'.regs| && w in d'.regs[q] ensures RegKnown(d', q, w, r, {}) {
      assert RegKnown(d, q, w, r, done);
    }
  }

  // ---------- parameters ----------

  ghost predicate Unknown(d: Desc, v: Var) {
    && Locs(d.locs, v) == []
    && (forall r :: 0 <= r < |d.regs| ==> v !in d.regs[r]) && (forall i :: 0 <= i < |d.slots| ==> v !in d.slots[i].vars)
  }

  /** An argument `x` has been passed in register `r`. */
  ghost function PassedInReg(d: Desc, v: Var, r: Reg, x: Value): Desc
    requires r < |d.regs| == |d.inRegs|
  {
    d.(inRegs := d.inRegs[r := x], regs := d.regs[r := [v]], locs := AddLoc(d.locs, v, InReg(r)), value := d.value[v := x])
  }

  lemma PassedInRegOk(d: Desc, v: Var, r: Reg, x: Value)
    requires DescOk(d, 0, {}) && Unknown(d, v) && r < |d.regs| && d.regs[r] == []
    ensures DescOk(PassedInReg(d, v, r, x), 0, {})
    ensures forall w :: w != v && Unknown(d, w) ==> Unknown(PassedInReg(d, v, r, x), w)
  {
    var d' := PassedInReg(d, v, r, x);
    forall w, l | l in Locs(d'.locs, w) ensures Tracked(d', w, l) {
      if w != v { assert l in Locs(d.locs, w) && Tracked(d, w, l); }
    }
    forall q, w | 0 <= q < |d'.regs| && w in d'.regs[q] ensures RegKnown(d', q, w, 0, {}) {
      if q != r { assert RegKnown(d, q, w, 0, {}); }
    }
  }

  /** An argument `x` has been passed on the stack. */
  ghost function PassedOnStack(d: Desc, k: nat, v: Var, n: int, off: int, x: Value): Desc
    requires k <= |d.slots|
  {
    d.(slots := Inserted(d.slots, k, Slot([v], n, off)),
       memory := d.memory[off := x], locs := AddLoc(d.locs, v, InSlot(off)), value := d.value[v := x])
  }

  lemma InsertedHas(slots: seq<Slot>, size: Var -> nat, k: nat, s: Slot, o: int, w: Var)
    requires k < |slots| && SlotsOk(Inserted(slots, k, s), size) && InSomeSlot(slots, o, w)
    ensures InSomeSlot(Inserted(slots, k, s), o, w) && o != s.offset
  {
    var i :| 0 <= i < |slots| && SlotHas(slots, i, o, w);
    var slots' := Inserted(slots, k, s);
    var j := if i < k then i else i + 1;
    assert SlotHas(slots', j, o, w);
    if j < k { SlotsOrdered(slots', size, j, k); } else { SlotsOrdered(slots', size, k, j); }
  }

  lemma PassedOnStackOk(d: Desc, size: Var -> nat, k: nat, v: Var, n: int, off: int, x: Value)
    requires DescOk(d, 0, {}) && Unknown(d, v) && k < |d.slots| && SlotsOk(Inserted(d.slots, k, Slot([v], n, off)), size)
    ensures DescOk(PassedOnStack(d, k, v, n, off, x), 0, {})
    ensures forall w :: w != v && Unknown(d, w) ==> Unknown(PassedOnStack(d, k, v, n, off, x), w)
  {
    var d' := PassedOnStack(d, k, v, n, off, x);
    assert SlotHas(d'.slots, k, off, v);
    forall w, l | l in Locs(d'.locs, w) ensures Tracked(d', w, l) {
      if w != v {
        assert l in Locs(d.locs, w) && Tracked(d, w, l);
        if l.InSlot? { InsertedHas(d.slots, size, k, Slot([v], n, off), l.offset, w); }
      }
    }
    forall q, w | 0 <= q < |d'.regs| && w in d'.regs[q] ensures RegKnown(d', q, w, 0, {}) {
      assert RegKnown(d, q, w, 0, {});
    }
    forall i, w | 0 <= i < |d'.slots| && w in d'.slots[i].vars ensures InSlot(d'.slots[i].offset) in Locs(d'.locs, w) {
      if i != k { assert d'.slots[i] == d.slots[if i < k then i else i - 1]; }
    }
  }

  /**
    Parameter `k` is in the register whose number says how many integers come before it, or else in a slot
    that ends where the stack parameters before it begin, the first one four bytes below offset 0.
    */
  ghost predicate IsPlaced(sig: Signature, size: Var -> nat, d: Desc, k: nat)
    requires k < |sig.params|
  {
    var v := sig.params[k];
    if sig.isInt(v) && Integers(sig, k) < sig.inRegs then
      Locs(d.locs, v) == [InReg(Integers(sig, k))]
    else
      var off := -(4 + StackBytes(sig, size, k) + size(v));
      Locs(d.locs, v) == [InSlot(off)] && SlotOf(d.slots, v, size(v), off)
  }

  /** Earlier parameters stay where they are. */
  lemma PlacedOnStack(sig: Signature, size: Var -> nat, d: Desc, k: nat, v: Var, n: int, off: int, x: Value, j: nat)
    requires j < |sig.params| && sig.params[j] != v && IsPlaced(sig, size, d, j) && k < |d.slots|
    ensures IsPlaced(sig, size, PassedOnStack(d, k, v, n, off, x), j)
  {
    var w := sig.params[j];
    if !(sig.isInt(w) && Integers(sig, j) < sig.inRegs) {
      SlotOfInserted(d.slots, k, Slot([v], n, off), w, size(w), -(4 + StackBytes(sig, size, j) + size(w)));
    }
  }

  /** Parameter `k` has the value of its argument. */
  ghost predicate HasArgument(sig: Signature, d: Desc, args: seq<Value>, k: nat)
    requires k < |sig.params| == |args|
  {
    sig.params[k] in d.value && d.value[sig.params[k]] == args[k]
  }

  /** `n` parameters have been passed, `r` of them in registers; registers from `r` on are empty. */
  ghost predicate Passing(sig: Signature, size: Var -> nat, args: seq<Value>, d: Desc, n: nat, r: nat, stackOff: int)
    requires n <= |sig.params| == |args|
  {
    && |d.regs| == |d.inRegs| && (forall q :: r <= q < |d.regs| ==> d.regs[q] == [])
    && r == (if Integers(sig, n) < sig.inRegs then Integers(sig, n) else sig.inRegs)
    && stackOff == 4 + StackBytes(sig, size, n) && d.slots != [] && d.slots[0].offset >= -stackOff
    && (forall k :: 0 <= k < n ==> IsPlaced(sig, size, d, k) && HasArgument(sig, d, args, k))
    && (forall k :: n <= k < |sig.params| ==> Unknown(d, sig.params[k]))
    && forall i, j :: 0 <= i < j < |sig.params| ==> sig.params[i] != sig.params[j]
  }

  lemma PassingInReg(sig: Signature, size: Var -> nat, args: seq<Value>, d: Desc, k: nat, r: nat, stackOff: int)
    requires k < |sig.params| == |args| && DescOk(d, 0, {}) && Passing(sig, size, args, d, k, r, stackOff)
    requires sig.isInt(sig.params[k]) && r < sig.inRegs <= |d.regs|
    ensures Passing(sig, size, args, PassedInReg(d, sig.params[k], r, args[k]), k + 1, r + 1, stackOff)
  {
    var d' := PassedInReg(d, sig.params[k], r, args[k]);
    assert Unknown(d, sig.params[k]);
    PassedInRegOk(d, sig.params[k], r, args[k]);
    forall j | 0 <= j < k + 1 ensures IsPlaced(sig, size, d', j) && HasArgument(sig, d', args, j) {
      if j < k { assert IsPlaced(sig, size, d, j) && HasArgument(sig, d, args, j) && sig.params[j] != sig.params[k]; }
    }
  }

  lemma PassingOnStack(sig: Signature, size: Var -> nat, args: seq<Value>, d: Desc, k: nat, r: nat, stackOff: int, at: nat)
    requires k < |sig.params| == |args| && DescOk(d, 0, {}) && Passing(sig, size, args, d, k, r, stackOff - size(sig.params[k]))
    requires !(sig.isInt(sig.params[k]) && r < sig.inRegs) && at < |d.slots|
    requires SlotsOk(Inserted(d.slots, at, Slot([sig.params[k]], size(sig.params[k]), -stackOff)), size)
    ensures Passing(sig, size, args, PassedOnStack(d, at, sig.params[k], size(sig.params[k]), -stackOff, args[k]), k + 1, r, stackOff)
  {
    var v := sig.params[k];
    var d' := PassedOnStack(d, at, v, size(v), -stackOff, args[k]);
    assert Unknown(d, v);
    PassedOnStackOk(d, size, at, v, size(v), -stackOff, args[k]);
    EarlierStay(sig, size, args, d, k, -stackOff, at);
    assert d'.slots[at] == Slot([v], size(v), -stackOff);
  }

  lemma EarlierStay(sig: Signature, size: Var -> nat, args: seq<Value>, d: Desc, k: nat, off: int, at: nat)
    requires k < |sig.params| == |args| && at < |d.slots|
    requires forall i, j :: 0 <= i < j < |sig.params| ==> sig.params[i] != sig.params[j]
    requires forall j :: 0 <= j < k ==> IsPlaced(sig, size, d, j) && HasArgument(sig, d, args, j)
    ensures var d' := PassedOnStack(d, at, sig.params[k], size(sig.params[k]), off, args[k]);
            forall j :: 0 <= j < k ==> IsPlaced(sig, size, d', j) && HasArgument(sig, d', args, j)
  {
    var v := sig.params[k];
    var d' := PassedOnStack(d, at, v, size(v), off, args[k]);
    forall j | 0 <= j < k ensures IsPlaced(sig, size, d', j) && HasArgument(sig, d', args, j) {
      assert IsPlaced(sig, size, d, j) && HasArgument(sig, d, args, j) && sig.params[j] != v;
      PlacedOnStack(sig, size, d, at, v, size(v), off, args[k], j);
    }
  }

  ghost predicate IsAllowed(denied: seq<bool>, l: Loc) { l.InReg? ==> l.r < |denied| && !denied[l.r] }

  ghost predicate IsSafe(locs: map<Var, seq<Loc>>, denied: seq<bool>, v: Var) { exists l :: l in Locs(locs, v) && IsAllowed(denied, l) }

  ghost predicate HasLeft(before: map<Var, seq<Loc>>, locs: map<Var, seq<Loc>>, denied: seq<bool>, live: set<Var>, v: Var, r: Reg) {
    && InReg(r) !in Locs(locs, v) && (v in live ==> IsSafe(locs, denied, v))
    && forall l :: l in Locs(before, v) && l != InReg(r) ==> l in Locs(locs, v)
  }

  /** From `d` to `d'` the variables in `vars` have left register `r`, and nothing else was lost. */
  ghost predicate Evicted(d: Desc, d': Desc, denied: seq<bool>, live: set<Var>, r: Reg, vars: set<Var>) {
    && d'.value == d.value && r < |d.regs| == |d'.regs| && d'.regs[r] == d.regs[r]
    && (forall v :: v !in vars ==> Locs(d'.locs, v) == Locs(d.locs, v))
    && (forall v :: v in vars ==> HasLeft(d.locs, d'.locs, denied, live, v, r))
    && (forall q :: 0 <= q < |d.regs| && q != r ==> d'.regs[q] == d.regs[q] || d.regs[q] == [])
  }

  /** Nothing changes but the locations of `v`, which get `l`; a register that gets `v` was empty. */
  ghost predicate Adds(d: Desc, d': Desc, v: Var, l: Loc) {
    && d'.value == d.value && |d'.regs| == |d.regs| && (l.InReg? && l.r < |d.regs| ==> d.regs[l.r] == [])
    && (forall w :: w != v ==> Locs(d'.locs, w) == Locs(d.locs, w)) && Locs(d'.locs, v) == [l] + Locs(d.locs, v)
    && (forall r :: 0 <= r < |d.regs| ==> d'.regs[r] == if l == InReg(r) then [v] else d.regs[r])
  }

  /** A variable with a safe location elsewhere leaves a register. */
  lemma DroppedEvicts(d: Desc, d1: Desc, v: Var, safe: Loc, denied: seq<bool>, live: set<Var>, r: Reg)
    requires r < |d.regs| && (d1 == d || exists l :: l != InReg(r) && Adds(d, d1, v, l))
    requires v in live ==> safe in Locs(d1.locs, v) && safe != InReg(r) && IsAllowed(denied, safe)
    ensures Evicted(d, d1.(locs := DropLoc(d1.locs, v, InReg(r))), denied, live, r, {v})
  {
    var d' := d1.(locs := DropLoc(d1.locs, v, InReg(r)));
    if v in live { assert safe in Locs(d'.locs, v); }
  }

  lemma EvictedNone(d: Desc, denied: seq<bool>, live: set<Var>, r: Reg)
    requires r < |d.regs|
    ensures Evicted(d, d, denied, live, r, {})
  {}

  lemma StillSafe(d: Desc, d1: Desc, denied: seq<bool>, live: set<Var>, r: Reg, vars: set<Var>, v: Var)
    requires Evicted(d, d1, denied, live, r, vars)
    ensures v in vars && v in live ==> IsSafe(d1.locs, denied, v)
  {
    if v in vars { assert HasLeft(d.locs, d1.locs, denied, live, v, r); }
  }

  lemma EvictedMore(d: Desc, d1: Desc, d2: Desc, denied: seq<bool>, live: set<Var>, r: Reg, vars: set<Var>, v: Var)
    requires Evicted(d, d1, denied, live, r, vars) && Evicted(d1, d2, denied, live, r, {v})
    ensures Evicted(d, d2, denied, live, r, vars + {v})
  {
    forall w | w in vars + {v} ensures HasLeft(d.locs, d2.locs, denied, live, w, r) {
      if w != v { assert Locs(d2.locs, w) == Locs(d1.locs, w); }
    }
  }

  /** Register `r` is empty in `d'`; its variables have left it, and nothing else was lost. */
  ghost predicate EmptiedReg(d: Desc, d': Desc, denied: seq<bool>, live: set<Var>, r: Reg) {
    && d'.value == d.value && r < |d.regs| == |d'.regs| && d'.regs[r] == []
    && (forall v :: v !in d.regs[r] ==> Locs(d'.locs, v) == Locs(d.locs, v))
    && (forall v :: v in d.regs[r] ==> HasLeft(d.locs, d'.locs, denied, live, v, r))
    && (forall q :: 0 <= q < |d.regs| && q != r ==> d'.regs[q] == d.regs[q] || d.regs[q] == [])
  }

  /** What was safe while the register was denied is safe afterwards. */
  lemma EvictedEmpties(d: Desc, d1: Desc, denied: seq<bool>, live: set<Var>, r: Reg, done: set<Var>)
    requires r < |denied| && Evicted(d, d1, denied[r := true], live, r, done)
    requires r < |d.regs| && forall v :: v in done <==> v in d.regs[r]
    ensures EmptiedReg(d, d1.(regs := d1.regs[r := []]), denied, live, r)
  {
    forall v | v in d.regs[r] ensures HasLeft(d.locs, d1.locs, denied, live, v, r) {
      assert HasLeft(d.locs, d1.locs, denied[r := true], live, v, r);
      if v in live {
        var l :| l in Locs(d1.locs, v) && IsAllowed(denied[r := true], l);
        assert IsAllowed(denied, l);
      }
    }
  }

  lemma NoneGone(d: Desc, open: Reg, open': Reg)
    requires DescOk(d, open, {})
    ensures DescOk(d, open', {})
  {
    forall r, v | 0 <= r < |d.regs| && v in d.regs[r] ensures RegKnown(d, r, v, open', {}) {
      assert RegKnown(d, r, v, open, {});
    }
  }

  lemma EmptyAlready(d: Desc, denied: seq<bool>, live: set<Var>, r: Reg)
    requires r < |d.regs| && d.regs[r] == []
    ensures EmptiedReg(d, d, denied, live, r)
  {}

  lemma RatioNonnegative(a: nat, b: nat)
    requires b > 0
    ensures a as real / b as real >= 0.0
  {}

  function EraseFirst(vs: seq<Var>, v: Var): (r: seq<Var>)
    ensures forall w :: w in r ==> w in vs
  {
    if vs == [] then [] else if vs[0] == v then vs[1..] else [vs[0]] + EraseFirst(vs[1..], v)
  }

  /** One occurrence goes, and the others stay in order. */
  lemma {:induction false} EraseFirstTakes(vs: seq<Var>, v: Var) returns (k: nat)
    requires v in vs
    ensures k < |vs| && vs[k] == v && v !in vs[..k] && EraseFirst(vs, v) == vs[..k] + vs[k + 1..]
  {
    if vs[0] == v {
      k := 0;
    } else {
      k := EraseFirstTakes(vs[1..], v);
      k := k + 1;
    }
  }

  /** Exactly one of the locations is a register. */
  ghost predicate SoleReg(ls: seq<Loc>) { exists i :: 0 <= i < |ls| && OnlyReg(ls, i) }

  ghost predicate OnlyReg(ls: seq<Loc>, i: nat)
    requires i < |ls|
  {
    ls[i].InReg? && forall j :: 0 <= j < |ls| && j != i ==> !ls[j].InReg?
  }

  lemma {:induction false} CountNone(ls: seq<Loc>)
    ensures Tracker.CountRegs(ls) == 0 <==> forall j :: 0 <= j < |ls| ==> !ls[j].InReg?
  {
    if ls != [] { CountNone(ls[1..]); }
  }

  lemma {:induction false} CountOne(ls: seq<Loc>)
    ensures Tracker.CountRegs(ls) == 1 <==> SoleReg(ls)
  {
    if ls != [] {
      CountNone(ls[1..]);
      CountOne(ls[1..]);
      if ls[0].InReg? {
        if Tracker.CountRegs(ls) == 1 { assert OnlyReg(ls, 0); }
        if i: nat :| i < |ls| && OnlyReg(ls, i) { assert i == 0; }
      } else {
        if i: nat :| i < |ls[1..]| && OnlyReg(ls[1..], i) { assert OnlyReg(ls, i + 1); }
        if i: nat :| i < |ls| && OnlyReg(ls, i) { assert OnlyReg(ls[1..], i - 1); }
      }
    }
  }

  /** How many of the variables are in exactly one register. */
  ghost function SoleCount(locs: map<Var, seq<Loc>>, vs: seq<Var>): nat {
    if vs == [] then 0 else SoleCount(locs, vs[..|vs| - 1]) + if SoleReg(Locs(locs, vs[|vs| - 1])) then 1 else 0
  }

  /** How far away the next uses of those variables are, added up. */
  ghost function SoleSum(locs: map<Var, seq<Loc>>, distance: Var -> nat, vs: seq<Var>): nat {
    if vs == [] then 0
    else SoleSum(locs, distance, vs[..|vs| - 1]) + if SoleReg(Locs(locs, vs[|vs| - 1])) then distance(vs[|vs| - 1]) else 0
  }

  ghost function Average(locs: map<Var, seq<Loc>>, distance: Var -> nat, vs: seq<Var>): real {
    if SoleCount(locs, vs) == 0 then 0.0 else SoleSum(locs, distance, vs) as real / SoleCount(locs, vs) as real
  }

  class Tracker {
    const size: Var -> nat

    var regs: seq<seq<Var>>
    var denied: seq<bool>
    var locs: map<Var, seq<Loc>>
    var live: set<Var>

    /** How far away the next use of each variable is. */
    var distance: Var -> nat

    var slots: seq<Slot>
    var firstFree: nat
    var stackSize: int
    var maxStackSize: int

    // what registers and the frame hold, and what the value of each variable should be
    ghost var inRegs: seq<Value>
    ghost var memory: map<int, Value>
    ghost var value: map<Var, Value>

    ghost predicate FrameOk()
      reads this
    {
      && SlotsOk(slots, size) && (forall v: Var :: size(v) > 0)
      && firstFree < |slots| && slots[firstFree].vars == [] && (forall i :: 0 <= i < firstFree ==> slots[i].vars != [])
      && stackSize == End(slots) && ((maxStackSize == -1 && stackSize == 0) || maxStackSize >= stackSize)
    }

    /** The size of the frame in the prologue, which is the largest the frame has ever been. */
    function FrameSize(): int
      reads this
    {
      if maxStackSize == -1 then 0 else maxStackSize
    }

    /** Whatever the frame grows to later, different slots have different bytes, inside the frame or above the return address. */
    lemma SlotAddresses(frameSize: int, i: nat, j: nat)
      requires FrameOk() && FrameSize() <= frameSize && i < |slots| - 1 && j < |slots| - 1
      ensures var a := Address(frameSize, slots[i]);
              if slots[i].offset >= 0 then 0 <= a <= a + slots[i].size <= frameSize else frameSize + 4 <= a
      ensures i != j ==> BytesApart(Address(frameSize, slots[i]), slots[i].size, Address(frameSize, slots[j]), slots[j].size)
    {
      AddressesSound(slots, size, frameSize, i, j);
    }

    ghost predicate Allowed(l: Loc)
      reads this
    {
      IsAllowed(denied, l)
    }

    ghost function Now(): Desc
      reads this
    {
      Desc(regs, locs, slots, inRegs, memory, value)
    }

    ghost predicate Inv(open: Reg, gone: set<Var>)
      reads this
    {
      |denied| == |regs| && FrameOk() && DescOk(Now(), open, gone)
    }

    /** A location of `v` that can be relied on. */
    ghost predicate Safe(v: Var)
      reads this
    {
      IsSafe(locs, denied, v)
    }

    ghost predicate AnyFree()
      reads this
    {
      exists r: Reg :: IsFree(r)
    }

    ghost predicate Valid()
      reads this
    {
      Inv(0, {})
    }

    ghost predicate IsFree(r: Reg)
      reads this
    {
      r < |regs| == |denied| && regs[r] == [] && !denied[r]
    }

    constructor (regNum: nat, size: Var -> nat)
      requires forall v: Var :: size(v) > 0
      ensures Valid() && this.size == size && locs == map[] && live == {} && regs == seq(regNum, i => [])
    {
      this.size, distance := size, _ => 0;
      regs, denied, locs, live := seq(regNum, i => []), seq(regNum, i => false), map[], {};
      slots, firstFree, stackSize, maxStackSize := [Slot([], -1, 0)], 0, 0, -1;
      inRegs, memory, value := seq(regNum, i => IntV(0)), map[], map[];
    }

    // ---------- the frame ----------

    method StackInsertNew(v: Var) returns (i: nat)
      requires FrameOk()
      modifies this`slots, this`firstFree, this`stackSize, this`maxStackSize
      ensures FrameOk() && Fills(old(slots), slots, i, v) && stackSize >= old(stackSize) && maxStackSize >= old(maxStackSize)
      ensures |slots| == |old(slots)| + 1 ==> i == |old(slots)| - 1
      ensures slots[i].size == if |slots| == |old(slots)| then old(slots)[i].size else size(v)
      ensures size(v) <= slots[i].size && forall k :: 0 <= k < i ==> old(slots)[k].vars != [] || old(slots)[k].size < size(v)
      ensures maxStackSize == if stackSize > old(maxStackSize) && |slots| > |old(slots)| then stackSize else old(maxStackSize)
    {
      var vsize := size(v);
      i := firstFree;
      if i + 1 < |slots| { assert SlotAt(slots, size, i); }
      while (slots[i].size < vsize || slots[i].vars != []) && slots[i].size != -1
        invariant firstFree <= i < |slots| && (slots[i].size == -1 ==> i == |slots| - 1)
        invariant forall k :: 0 <= k < i ==> slots[k].vars != [] || slots[k].size < vsize
        decreases |slots| - i
      {
        assert SlotAt(slots, size, i);
        i := i + 1;
        if i + 1 < |slots| { assert SlotAt(slots, size, i); }
      }
      if slots[i].size == -1 {
        Extend(vsize);
      }
      TakeSlot(i, v);
    }

    /** The end marker becomes a slot, with a new marker behind it. */
    method Extend(vsize: nat)
      requires FrameOk() && vsize > 0
      modifies this`slots, this`stackSize, this`maxStackSize
      ensures FrameOk() && |slots| == |old(slots)| + 1 && slots[|slots| - 2] == old(slots)[|slots| - 2].(size := vsize)
      ensures forall k :: 0 <= k < |slots| - 2 ==> slots[k] == old(slots)[k]
      ensures stackSize >= old(stackSize) && maxStackSize == if stackSize > old(maxStackSize) then stackSize else old(maxStackSize)
    {
      var last := |slots| - 1;
      var offset := slots[last].offset;
      ghost var was := slots;
      stackSize := stackSize + vsize;
      if stackSize > maxStackSize { maxStackSize := stackSize; }
      slots := slots[last := slots[last].(size := vsize)] + [Slot([], -1, offset + vsize)];
      forall k | 0 <= k < |slots| - 1 ensures SlotAt(slots, size, k) {
        if k < last { assert SlotAt(was, size, k); }
      }
    }

    method TakeSlot(i: nat, v: Var)
      requires FrameOk() && firstFree <= i < |slots| - 1 && slots[i].vars == [] && size(v) <= slots[i].size
      modifies this`slots, this`firstFree
      ensures FrameOk() && slots == old(slots)[i := old(slots)[i].(vars := [v])]
    {
      ghost var was := slots;
      slots := slots[i := slots[i].(vars := [v])];
      forall k | 0 <= k < |slots| - 1 ensures SlotAt(slots, size, k) { assert SlotAt(was, size, k); }
      if firstFree == i { NextFree(); }
    }

    method NextFree()
      requires SlotsOk(slots, size) && firstFree < |slots| && forall k :: 0 <= k < firstFree ==> slots[k].vars != []
      modifies this`firstFree
      ensures old(firstFree) <= firstFree < |slots| && slots[firstFree].vars == []
      ensures forall k :: 0 <= k < firstFree ==> slots[k].vars != []
    {
      while slots[firstFree].vars != []
        invariant old(firstFree) <= firstFree < |slots| && forall k :: 0 <= k < firstFree ==> slots[k].vars != []
        decreases |slots| - firstFree
      {
        firstFree := firstFree + 1;
      }
    }

    /** stack_insert: one more variable in a slot that holds its value. */
    method StackInsert(i: nat, v: Var) returns (inserted: bool)
      requires FrameOk() && i + 1 < |slots| && slots[i].size == size(v)
      modifies this`slots, this`firstFree
      ensures FrameOk() && inserted == (v !in old(slots)[i].vars)
      ensures slots == if inserted then old(slots)[i := old(slots)[i].(vars := [v] + old(slots)[i].vars)] else old(slots)
    {
      if v in slots[i].vars {
        return false;
      }
      ghost var was := slots;
      slots := slots[i := slots[i].(vars := [v] + slots[i].vars)];
      forall k | 0 <= k < |slots| - 1 ensures SlotAt(slots, size, k) { assert SlotAt(was, size, k); }
      if firstFree == i { NextFree(); }
      return true;
    }

    /** stack_erase: the first free slot is the lowest one. */
    method StackErase(i: nat, v: Var)
      requires FrameOk() && i + 1 < |slots| && v in slots[i].vars
      modifies this`slots, this`firstFree
      ensures FrameOk() && slots == old(slots)[i := old(slots)[i].(vars := EraseFirst(old(slots)[i].vars, v))]
    {
      ghost var was := slots;
      slots := slots[i := slots[i].(vars := EraseFirst(slots[i].vars, v))];
      forall k | 0 <= k < |slots| - 1 ensures SlotAt(slots, size, k) { assert SlotAt(was, size, k); }
      if i < firstFree { SlotsOrdered(slots, size, i, firstFree); }
      if firstFree < i { SlotsOrdered(slots, size, firstFree, i); }
      if slots[i].vars == [] && slots[firstFree].offset > slots[i].offset {
        firstFree := i;
      }
    }

    /** stack_param: a parameter goes to its place in the order of offsets. The first free slot stays the same one. */
    method StackParam(v: Var, off: int) returns (k: nat)
      requires FrameOk() && off + size(v) <= -Gap
      requires forall i :: 0 <= i < |slots| - 1 ==> off + size(v) <= slots[i].offset || SlotEnd(slots[i]) <= off
      modifies this`slots, this`firstFree
      ensures FrameOk() && k < |old(slots)| && slots == Inserted(old(slots), k, Slot([v], size(v), off))
    {
      k := 0;
      if slots[0].offset < off {
        while k + 1 < |slots| && slots[k + 1].offset < off
          invariant k < |slots| && slots[k].offset < off
        {
          k := k + 1;
        }
        k := k + 1;
      }
      PlaceParam(k, Slot([v], size(v), off));
    }

    method PlaceParam(k: nat, s: Slot)
      requires FrameOk() && s.vars != [] && s.size > 0 && SlotEnd(s) <= -Gap && forall v :: v in s.vars ==> size(v) <= s.size
      requires forall i :: 0 <= i < |slots| - 1 ==> SlotEnd(s) <= slots[i].offset || SlotEnd(slots[i]) <= s.offset
      requires k < |slots| && slots[k].offset >= s.offset && (k > 0 ==> slots[k - 1].offset < s.offset)
      modifies this`slots, this`firstFree
      ensures FrameOk() && slots == Inserted(old(slots), k, s)
    {
      if k < |slots| - 1 { assert SlotAt(slots, size, k); }
      if k > 0 { assert SlotAt(slots, size, k - 1); }
      InsertOk(slots, size, k, s);
      slots := Inserted(slots, k, s);
      if k <= firstFree { firstFree := firstFree + 1; }
    }

    // ---------- parameters ----------

    /** The program's own state when code generation for a function starts. */
    ghost predicate Fresh()
      reads this
    {
      Valid() && locs == map[] && slots == [Slot([], -1, 0)] && forall r :: 0 <= r < |regs| ==> regs[r] == []
    }

    method PassInReg(v: Var, r: Reg, ghost x: Value)
      requires Valid() && Unknown(Now(), v) && r < |regs| && regs[r] == []
      modifies this`regs, this`inRegs, this`locs, this`value
      ensures Valid() && Now() == PassedInReg(old(Now()), v, r, x)
    {
      ghost var d := Now();
      PassedInRegOk(d, v, r, x);
      inRegs := inRegs[r := x];
      regs := regs[r := [v]];
      locs := AddLoc(locs, v, InReg(r));
      value := value[v := x];
      assert Now() == PassedInReg(d, v, r, x);
    }

    method PassOnStack(v: Var, off: int, ghost x: Value) returns (ghost k: nat)
      requires Valid() && Unknown(Now(), v) && off + size(v) <= -Gap
      requires forall i :: 0 <= i < |slots| - 1 ==> off + size(v) <= slots[i].offset || SlotEnd(slots[i]) <= off
      modifies this`slots, this`firstFree, this`memory, this`locs, this`value
      ensures Valid() && k < |old(slots)| && Now() == PassedOnStack(old(Now()), k, v, size(v), off, x)
    {
      ghost var d := Now();
      var at := StackParam(v, off);
      k := at;
      PassedOnStackOk(d, size, k, v, size(v), off, x);
      memory := memory[off := x];
      locs := AddLoc(locs, v, InSlot(off));
      value := value[v := x];
      assert Now() == PassedOnStack(d, k, v, size(v), off, x);
    }

    lemma BelowAll(off: int, v: Var)
      requires FrameOk() && slots[0].offset >= off + size(v)
      ensures forall i :: 0 <= i < |slots| - 1 ==> off + size(v) <= slots[i].offset
    {
      forall i | 0 <= i < |slots| - 1 ensures off + size(v) <= slots[i].offset {
        if i > 0 { SlotsOrdered(slots, size, 0, i); }
      }
    }

    /** The address of a parameter on the stack: behind the frame, the return address and the stack parameters before it. */
    lemma ParamAddress(sig: Signature, k: nat, frameSize: int)
      requires k < |sig.params| && IsPlaced(sig, size, Now(), k) && !(sig.isInt(sig.params[k]) && Integers(sig, k) < sig.inRegs)
      ensures exists i :: 0 <= i < |slots| - 1 && slots[i].vars == [sig.params[k]] && slots[i].size == size(sig.params[k])
                          && Address(frameSize, slots[i]) == frameSize + 4 + StackBytes(sig, size, k)
    {
      var v, off := sig.params[k], -(4 + StackBytes(sig, size, k) + size(sig.params[k]));
      var i :| 0 <= i < |slots| - 1 && slots[i] == Slot([v], size(v), off);
    }

    /**
      start_func: the first integers are passed in registers, all other arguments on the stack,
      each one further away from the return address than the one before.
      */
    method StartFunc(sig: Signature, ghost args: seq<Value>) returns (argsSize: int)
      requires Fresh() && sig.inRegs <= |regs| && |args| == |sig.params|
      requires forall i, j :: 0 <= i < j < |sig.params| ==> sig.params[i] != sig.params[j]
      modifies this
      ensures Valid() && forall k :: 0 <= k < |sig.params| ==> IsPlaced(sig, size, Now(), k) && HasArgument(sig, Now(), args, k)
      ensures argsSize == StackBytes(sig, size, |sig.params|)
    {
      var stackOff, r := Gap, 0;
      var k := 0;
      while k < |sig.params|
        invariant 0 <= k <= |sig.params| && sig.inRegs <= |regs| && Valid() && Passing(sig, size, args, Now(), k, r, stackOff)
      {
        if r < sig.inRegs && sig.isInt(sig.params[k]) {
          PassNextInReg(sig, k, r, stackOff, args);
          r := r + 1;
        } else {
          stackOff := stackOff + size(sig.params[k]);
          PassNextOnStack(sig, k, r, stackOff, args);
        }
        k := k + 1;
      }
      argsSize := stackOff - Gap;
    }

    method PassNextInReg(sig: Signature, k: nat, r: nat, ghost stackOff: int, ghost args: seq<Value>)
      requires k < |sig.params| == |args| && Valid() && Passing(sig, size, args, Now(), k, r, stackOff)
      requires sig.isInt(sig.params[k]) && r < sig.inRegs <= |regs|
      modifies this`regs, this`inRegs, this`locs, this`value
      ensures Valid() && Passing(sig, size, args, Now(), k + 1, r + 1, stackOff) && |regs| == |old(regs)|
    {
      ghost var d := Now();
      assert Unknown(d, sig.params[k]);
      PassingInReg(sig, size, args, d, k, r, stackOff);
      PassInReg(sig.params[k], r, args[k]);
    }

    method PassNextOnStack(sig: Signature, k: nat, ghost r: nat, stackOff: int, ghost args: seq<Value>)
      requires k < |sig.params| == |args| && Valid() && Passing(sig, size, args, Now(), k, r, stackOff - size(sig.params[k]))
      requires !(sig.isInt(sig.params[k]) && r < sig.inRegs)
      modifies this`slots, this`firstFree, this`memory, this`locs, this`value
      ensures Valid() && Passing(sig, size, args, Now(), k + 1, r, stackOff)
    {
      ghost var d := Now();
      assert Unknown(d, sig.params[k]);
      BelowAll(-stackOff, sig.params[k]);
      ghost var at := PassOnStack(sig.params[k], -stackOff, args[k]);
      PassingOnStack(sig, size, args, d, k, r, stackOff, at);
    }

    // ---------- choosing a register ----------

    method AvailableRegs() returns (n: nat)
      requires |denied| == |regs|
      ensures n == |FreeBelow(|regs|)| && (n > 0 <==> AnyFree())
    {
      n := 0;
      var i := 0;
      while i < |regs|
        invariant 0 <= i <= |regs| && n == |FreeBelow(i)|
      {
        if regs[i] == [] && !denied[i] {
          assert FreeBelow(i + 1) == FreeBelow(i) + {i};
          n := n + 1;
        } else {
          assert FreeBelow(i + 1) == FreeBelow(i);
        }
        i := i + 1;
      }
      if n > 0 {
        ghost var r :| r in FreeBelow(|regs|);
        assert IsFree(r);
      } else {
        assert forall r: Reg :: IsFree(r) ==> r in FreeBelow(|regs|);
      }
    }

    /** The free registers before register `i`. */
    ghost function FreeBelow(i: nat): set<Reg>
      reads this
    {
      set r: Reg | r < i && IsFree(r)
    }

    method FindFreeReg() returns (found: Option<Reg>)
      requires |denied| == |regs|
      ensures found.Some? ==> IsFree(found.value) && forall r: Reg :: r < found.value ==> !IsFree(r)
      ensures found.None? ==> !AnyFree()
    {
      var i := 0;
      while i < |regs|
        invariant 0 <= i <= |regs|
        invariant forall r: Reg :: r < i ==> !IsFree(r)
      {
        if regs[i] == [] && !denied[i] {
          return Some(i);
        }
        i := i + 1;
      }
      return None;
    }

    /**
      Of the allowed registers, the first one whose variables are all in other registers as well, or else the
      first of those whose variables that are in no other register are used latest on average.
      */
    ghost predicate IsVictim(r: Reg)
      reads this
    {
      && r < |regs| == |denied| && !denied[r]
      && if exists q: Reg :: IsSpare(q) then IsSpare(r) && forall q: Reg :: q < r ==> !IsSpare(q)
         else forall q: Reg :: q < |regs| && !denied[q] ==>
                Average(locs, distance, regs[q]) <= Average(locs, distance, regs[r])
                && (q < r ==> Average(locs, distance, regs[q]) < Average(locs, distance, regs[r]))
    }

    ghost predicate IsSpare(q: Reg)
      reads this
    {
      q < |regs| == |denied| && !denied[q] && SoleCount(locs, regs[q]) == 0
    }

    method PickVictim() returns (best: Reg)
      requires |denied| == |regs| && exists r :: 0 <= r < |denied| && !denied[r]
      ensures IsVictim(best)
    {
      var bestAvg, found: Option<Reg> := -1.0, None;
      var i := 0;
      while i < |regs|
        invariant 0 <= i <= |regs| && forall q: Reg :: q < i ==> !IsSpare(q)
        invariant found.Some? ==> found.value < i && !denied[found.value] && bestAvg == Average(locs, distance, regs[found.value])
        invariant found.Some? ==> forall q: Reg :: q < i && !denied[q] ==>
                    Average(locs, distance, regs[q]) <= bestAvg && (q < found.value ==> Average(locs, distance, regs[q]) < bestAvg)
        invariant found.None? ==> bestAvg == -1.0 && forall r :: 0 <= r < i ==> denied[r]
      {
        if !denied[i] {
          var count, sum := SinglyHeld(i);
          if count == 0 {
            assert IsSpare(i);
            return i;
          }
          var avg := sum as real / count as real;
          RatioNonnegative(sum, count);
          if avg > bestAvg {
            bestAvg, found := avg, Some(i);
          }
        }
        i := i + 1;
      }
      best := found.value;
    }

    /** How many variables of a register are in no other register, and how far their next uses are together. */
    method SinglyHeld(r: Reg) returns (count: nat, sum: nat)
      requires r < |regs|
      ensures count == SoleCount(locs, regs[r]) && sum == SoleSum(locs, distance, regs[r])
    {
      count, sum := 0, 0;
      var vs := regs[r];
      for k := 0 to |vs|
        invariant count == SoleCount(locs, vs[..k]) && sum == SoleSum(locs, distance, vs[..k])
      {
        CountOne(Locs(locs, vs[k]));
        assert vs[..k + 1][..k] == vs[..k];
        if CountRegs(Locs(locs, vs[k])) == 1 {
          count, sum := count + 1, sum + distance(vs[k]);
        }
      }
      assert vs[..|vs|] == vs;
    }

    static function CountRegs(ls: seq<Loc>): nat {
      if ls == [] then 0 else (if ls[0].InReg? then 1 else 0) + CountRegs(ls[1..])
    }

    /** A free register, or the one to be emptied. */
    method ChooseReg() returns (r: Reg)
      requires |denied| == |regs| && exists r :: 0 <= r < |denied| && !denied[r]
      ensures r < |regs| && !denied[r]
      ensures if AnyFree() then regs[r] == [] && forall q: Reg :: q < r ==> !IsFree(q) else IsVictim(r)
    {
      var free := FindFreeReg();
      if free.Some? {
        r := free.value;
      } else {
        r := PickVictim();
      }
    }

    // ---------- saving and evicting ----------

    method ShouldSave(v: Var, loc: Loc) returns (save: bool)
      ensures save <==> v in live && forall l :: l in Locs(locs, v) && l != loc ==> !Allowed(l)
    {
      if v !in live {
        return false;
      }
      var ls := Locs(locs, v);
      for k := 0 to |ls|
        invariant forall j :: 0 <= j < k && ls[j] != loc ==> !Allowed(ls[j])
      {
        if ls[k] != loc && (!ls[k].InReg? || (ls[k].r < |denied| && !denied[ls[k].r])) {
          assert ls[k] in Locs(locs, v) && Allowed(ls[k]);
          return false;
        }
      }
      return true;
    }

    /** Nothing changes but the locations of `v`, which get a new one. */
    twostate predicate OnlyAdds(v: Var, l: Loc)
      reads this
    {
      denied == old(denied) && live == old(live) && distance == old(distance) && Adds(old(Now()), Now(), v, l)
    }

    /** A move into an empty register, from a location the variable has. */
    method SaveToReg(v: Var, r: Reg, ghost open: Reg, ghost gone: set<Var>)
      requires Inv(open, gone) && r < |regs| && regs[r] == [] && r != open && Locs(locs, v) != []
      modifies this`regs, this`locs, this`inRegs
      ensures Inv(open, gone) && OnlyAdds(v, InReg(r))
    {
      PutInReg(v, r, open, gone);
    }

    method PutInReg(v: Var, r: Reg, ghost open: Reg, ghost gone: set<Var>)
      requires Inv(open, gone) && r < |regs| && regs[r] == [] && r != open && Locs(locs, v) != []
      modifies this`regs, this`locs, this`inRegs
      ensures Inv(open, gone) && regs == old(regs)[r := [v]] && locs == AddLoc(old(locs), v, InReg(r))
    {
      ghost var d := Now();
      MovedToRegOk(d, v, r, open, gone);
      inRegs := inRegs[r := Content(Now(), BestSource(Locs(locs, v)))];
      regs := regs[r := [v]];
      locs := AddLoc(locs, v, InReg(r));
      assert Now() == MovedToReg(d, v, r);
    }

    /** A move into a slot, from a location the variable has. */
    method SaveToSlot(v: Var, ghost open: Reg, ghost gone: set<Var>) returns (l: Loc)
      requires Inv(open, gone) && Locs(locs, v) != []
      modifies this
      ensures Inv(open, gone) && l.InSlot? && OnlyAdds(v, l)
    {
      l := PutInSlot(v, open, gone);
    }

    method PutInSlot(v: Var, ghost open: Reg, ghost gone: set<Var>) returns (l: Loc)
      requires Inv(open, gone) && Locs(locs, v) != []
      modifies this`slots, this`firstFree, this`stackSize, this`maxStackSize, this`memory, this`locs
      ensures Inv(open, gone) && l.InSlot? && locs == AddLoc(old(locs), v, l)
    {
      ghost var d := Now();
      var i := StackInsertNew(v);
      MovedToSlotOk(d, slots, size, v, i, open, gone);
      l := RecordSlot(v, i, d, open, gone);
    }

    method RecordSlot(v: Var, i: nat, ghost d: Desc, ghost open: Reg, ghost gone: set<Var>) returns (l: Loc)
      requires |denied| == |regs| && FrameOk() && i < |slots| && Locs(d.locs, v) != [] && Now() == d.(slots := slots)
      requires DescOk(MovedToSlot(d, slots, v, i), open, gone)
      modifies this`memory, this`locs
      ensures Inv(open, gone) && l.InSlot? && locs == AddLoc(old(locs), v, l)
    {
      l := InSlot(slots[i].offset);
      memory := memory[l.offset := Content(d, BestSource(Locs(locs, v)))];
      locs := AddLoc(locs, v, l);
      assert Now() == MovedToSlot(d, slots, v, i);
    }

    method FindSlot(v: Var) returns (found: Option<Loc>)
      ensures if found.Some? then found.value.InSlot? && found.value in Locs(locs, v) else forall x :: x in Locs(locs, v) ==> !x.InSlot?
    {
      var ls := Locs(locs, v);
      for k := 0 to |ls|
        invariant forall j :: 0 <= j < k ==> !ls[j].InSlot?
      {
        if ls[k].InSlot? {
          return Some(ls[k]);
        }
      }
      return None;
    }

    twostate predicate Unchanged()
      reads this
    {
      denied == old(denied) && live == old(live) && distance == old(distance) && Now() == old(Now())
    }

    /** save_var: to a free register if the next use is near enough, or else to the frame. */
    method SaveVar(v: Var, ghost open: Reg, ghost gone: set<Var>) returns (l: Loc)
      requires Inv(open, gone) && Locs(locs, v) != [] && open < |denied| && denied[open]
      modifies this
      ensures Inv(open, gone) && Allowed(l) && l != InReg(open)
      ensures OnlyAdds(v, l) || (l in Locs(locs, v) && Unchanged())
      ensures l.InSlot? && OnlyAdds(v, l) ==> forall x :: x in old(Locs(locs, v)) ==> !x.InSlot?
      ensures var n := old(|FreeBelow(|regs|)|); l.InReg? <==> n > 0 && 4 + n * n / 2 >= old(distance)(v)
      decreases 2, 0
    {
      var n := AvailableRegs();
      if n > 0 && 4 + n * n / 2 >= distance(v) {
        var r := AllocReg(open, gone);
        SaveToReg(v, r, open, gone);
        return InReg(r);
      }
      var found := FindSlot(v);
      if found.Some? {
        return found.value;
      }
      l := SaveToSlot(v, open, gone);
    }

    /** An allowed register, emptied. */
    method AllocReg(ghost open: Reg, ghost gone: set<Var>) returns (r: Reg)
      requires Inv(open, gone) && (exists k :: 0 <= k < |denied| && !denied[k]) && (AnyFree() || gone == {})
      modifies this
      ensures Inv(open, gone) && Emptied(r) && !denied[r]
      ensures if old(AnyFree()) then Unchanged() && regs[r] == [] else old(IsVictim(r))
      decreases if AnyFree() then 1 else 4, 0
    {
      r := ChooseReg();
      FreeReg(r, open, gone);
    }

    /** Register `r` has been emptied, and no live variable in it was lost. */
    twostate predicate Emptied(r: Reg)
      reads this
    {
      denied == old(denied) && live == old(live) && distance == old(distance) && EmptiedReg(old(Now()), Now(), denied, live, r)
    }

    method FreeReg(r: Reg, ghost open: Reg, ghost gone: set<Var>)
      requires Inv(open, gone) && r < |regs| && (regs[r] == [] || gone == {})
      modifies this
      ensures Inv(open, gone) && Emptied(r)
      ensures old(regs)[r] == [] ==> Unchanged()
      decreases if regs[r] == [] then 0 else 3, 1
    {
      ghost var d := Now();
      var vl := regs[r];
      var flag := !denied[r];
      if flag { DenyReg(r, open, gone); }
      if vl != [] {
        NoneGone(Now(), open, r);
        EmptyReg(r, vl, old(denied));
        NoneGone(Now(), r, open);
      } else {
        EmptyAlready(d, old(denied), live, r);
      }
      if flag { AllowReg(r, open, gone); }
      assert denied == old(denied);
    }

    /** The variables of a denied register leave it, and its list is thrown away. */
    method EmptyReg(r: Reg, vl: seq<Var>, ghost denied0: seq<bool>)
      requires r < |regs| && regs[r] == vl && Inv(r, {}) && |denied0| == |regs| && denied == denied0[r := true]
      modifies this
      ensures Inv(r, {}) && denied == old(denied) && live == old(live) && distance == old(distance) && EmptiedReg(old(Now()), Now(), denied0, live, r)
      decreases 3, 0, 1
    {
      ghost var d := Now();
      ghost var done := EvictAll(r, vl);
      EvictedEmpties(d, Now(), denied0, live, r, done);
      ThrowAway(r, done);
    }

    method DenyReg(r: Reg, ghost open: Reg, ghost gone: set<Var>)
      requires Inv(open, gone) && r < |regs|
      modifies this`denied
      ensures Inv(open, gone) && denied == old(denied)[r := true]
    {
      denied := denied[r := true];
    }

    method AllowReg(r: Reg, ghost open: Reg, ghost gone: set<Var>)
      requires Inv(open, gone) && r < |regs|
      modifies this`denied
      ensures Inv(open, gone) && denied == old(denied)[r := false]
    {
      denied := denied[r := false];
    }

    method ThrowAway(r: Reg, ghost done: set<Var>)
      requires r < |regs| && Inv(r, done) && forall v :: v in regs[r] ==> v in done
      modifies this`regs
      ensures Inv(r, {}) && regs == old(regs)[r := []]
    {
      ThrownAwayOk(Now(), r, done);
      regs := regs[r := []];
    }

    /** With the register denied, its variables leave it one by one. */
    method EvictAll(r: Reg, vl: seq<Var>) returns (ghost done: set<Var>)
      requires r < |regs| && regs[r] == vl && Inv(r, {}) && denied[r]
      modifies this
      ensures Inv(r, done) && denied == old(denied) && live == old(live) && distance == old(distance)
      ensures Evicted(old(Now()), Now(), denied, live, r, done) && forall v :: v in done <==> v in vl
      decreases 3, 0, 0
    {
      ghost var d := Now();
      done := {};
      EvictedNone(d, denied, live, r);
      var k := 0;
      while k < |vl|
        invariant 0 <= k <= |vl| && Inv(r, done) && denied == old(denied) && live == old(live) && distance == old(distance)
        invariant Evicted(d, Now(), denied, live, r, done)
        invariant forall v :: v in done ==> v in vl
        invariant forall j :: 0 <= j < k ==> vl[j] in done
      {
        assert regs[r] == vl && vl[k] in vl;
        EvictNext(vl[k], r, d, done);
        done := done + {vl[k]};
        k := k + 1;
      }
    }

    method EvictNext(v: Var, r: Reg, ghost d: Desc, ghost done: set<Var>)
      requires Inv(r, done) && r < |regs| && v in regs[r] && denied[r] && Evicted(d, Now(), denied, live, r, done)
      modifies this
      ensures Inv(r, done + {v}) && denied == old(denied) && live == old(live) && distance == old(distance)
      ensures Evicted(d, Now(), denied, live, r, done + {v})
      decreases 2, 2
    {
      ghost var d1 := Now();
      StillSafe(d, d1, denied, live, r, done, v);
      EvictOne(v, r, done);
      EvictedMore(d, d1, Now(), denied, live, r, done, v);
    }

    method DropFromReg(v: Var, r: Reg, ghost done: set<Var>)
      requires Inv(r, done)
      modifies this`locs
      ensures Inv(r, done + {v}) && locs == DropLoc(old(locs), v, InReg(r))
    {
      DroppedOk(Now(), v, r, done);
      locs := DropLoc(locs, v, InReg(r));
    }

    /** One variable leaves a register whose list is kept until the end. */
    method EvictOne(v: Var, r: Reg, ghost done: set<Var>)
      requires Inv(r, done) && r < |regs| && v in regs[r] && denied[r] && (v in done && v in live ==> Safe(v))
      modifies this
      ensures Inv(r, done + {v}) && denied == old(denied) && live == old(live) && distance == old(distance)
      ensures Evicted(old(Now()), Now(), denied, live, r, {v})
      decreases 2, 1
    {
      ghost var d, safe := Now(), InReg(r);
      var save := ShouldSave(v, InReg(r));
      if save {
        var l := SaveVar(v, r, done);
        safe := l;
      } else if v in live {
        safe :| safe in Locs(locs, v) && safe != InReg(r) && Allowed(safe);
      }
      DroppedEvicts(d, Now(), v, safe, denied, live, r);
      DropFromReg(v, r, done);
    }
  }
}
