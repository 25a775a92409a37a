/**
  The slots of a stack frame: parameters below offset 0, then the local slots one behind the
  other from offset 0 on, and an end marker. Offsets grow downwards in memory.
  */
module Frame {
  import opened Quadr

  /** A part of the frame; the last one, of size -1, only marks the end. */
  datatype Slot = Slot(vars: seq<Var>, size: int, offset: int)

  /** Space between parameters and local slots: the return address. */
  const Gap := 4

  function SlotEnd(s: Slot): int { s.offset + s.size }

  /** Local slots are adjacent; parameters end below the return address. */
  ghost predicate SlotAt(slots: seq<Slot>, size: Var -> nat, i: nat)
    requires i + 1 < |slots|
  {
    var s, next := slots[i], slots[i + 1].offset;
    && s.size > 0 && SlotEnd(s) <= next
    && (if s.offset >= 0 then next == SlotEnd(s) else SlotEnd(s) <= -Gap && (next >= 0 ==> next == 0))
    && forall v :: v in s.vars ==> size(v) <= s.size
  }

  ghost predicate SlotsOk(slots: seq<Slot>, size: Var -> nat) {
    && slots != [] && slots[0].offset <= 0
    && slots[|slots| - 1].size == -1 && slots[|slots| - 1].vars == [] && slots[|slots| - 1].offset >= 0
    && forall i :: 0 <= i < |slots| - 1 ==> SlotAt(slots, size, i)
  }

  function End(slots: seq<Slot>): int
    requires slots != []
  {
    slots[|slots| - 1].offset
  }

  /** Slots are ordered and do not overlap. */
  lemma {:induction false} SlotsOrdered(slots: seq<Slot>, size: Var -> nat, i: nat, j: nat)
    requires SlotsOk(slots, size) && i < j < |slots|
    ensures SlotEnd(slots[i]) <= slots[j].offset && slots[i].size > 0
    decreases j
  {
    assert SlotAt(slots, size, j - 1) && SlotAt(slots, size, i);
    if i + 1 < j { SlotsOrdered(slots, size, i, j - 1); }
  }

  // ---------- inserting a parameter ----------

  function Inserted(slots: seq<Slot>, k: nat, s: Slot): seq<Slot>
    requires k <= |slots|
  {
    slots[..k] + [s] + slots[k..]
  }

  /** The new slot lies between its neighbours. */
  lemma InsertOk(slots: seq<Slot>, size: Var -> nat, k: nat, s: Slot)
    requires SlotsOk(slots, size) && k < |slots| && s.size > 0 && SlotEnd(s) <= -Gap
    requires forall v :: v in s.vars ==> size(v) <= s.size
    requires SlotEnd(s) <= slots[k].offset && (k > 0 ==> SlotEnd(slots[k - 1]) <= s.offset)
    requires slots[k].offset >= 0 ==> slots[k].offset == 0
    ensures SlotsOk(Inserted(slots, k, s), size) && End(Inserted(slots, k, s)) == End(slots)
  {
    var r := Inserted(slots, k, s);
    forall i | 0 <= i < |r| - 1 ensures SlotAt(r, size, i) {
      if i < k {
        assert SlotAt(slots, size, i);
      } else if i > k {
        assert SlotAt(slots, size, i - 1);
      }
    }
  }

  // ---------- where parameters are passed ----------

  /** The parameters of a function, which of them are integers, and how many integers are passed in registers. */
  datatype Signature = Signature(params: seq<Var>, isInt: Var -> bool, inRegs: nat)

  /** How many of the first `n` parameters are integers. */
  function Integers(sig: Signature, n: nat): nat
    requires n <= |sig.params|
  {
    if n == 0 then 0 else Integers(sig, n - 1) + if sig.isInt(sig.params[n - 1]) then 1 else 0
  }

  predicate InRegister(sig: Signature, k: nat)
    requires k < |sig.params|
  {
    sig.isInt(sig.params[k]) && Integers(sig, k) < sig.inRegs
  }

  /** The bytes that those of the first `n` parameters that are not in registers take on the stack. */
  function StackBytes(sig: Signature, size: Var -> nat, n: nat): nat
    requires n <= |sig.params|
  {
    if n == 0 then 0 else StackBytes(sig, size, n - 1) + if InRegister(sig, n - 1) then 0 else size(sig.params[n - 1])
  }

  /** A slot of its own, of its size, holds `v`. */
  ghost predicate SlotOf(slots: seq<Slot>, v: Var, n: int, off: int) {
    exists i :: 0 <= i < |slots| - 1 && slots[i] == Slot([v], n, off)
  }

  lemma SlotOfInserted(slots: seq<Slot>, k: nat, s: Slot, v: Var, n: int, off: int)
    requires k < |slots| && SlotOf(slots, v, n, off)
    ensures SlotOf(Inserted(slots, k, s), v, n, off)
  {
    var i :| 0 <= i < |slots| - 1 && slots[i] == Slot([v], n, off);
    assert Inserted(slots, k, s)[if i < k then i else i + 1] == Slot([v], n, off);
  }

  // ---------- addresses ----------

  /** The operand of a slot, relative to a stack pointer that pushed arguments have moved by `adjust`. */
  function Operand(frameSize: int, adjust: int, s: Slot): int { frameSize - (SlotEnd(s) - adjust) }

  /** The address of a slot, relative to the stack pointer behind the prologue. */
  function Address(frameSize: int, s: Slot): int { frameSize - SlotEnd(s) }

  /** Pushed arguments do not change which memory an operand means. */
  lemma OperandAddress(frameSize: int, adjust: int, s: Slot)
    ensures Operand(frameSize, adjust, s) - adjust == Address(frameSize, s)
  {}

  predicate BytesApart(a: int, n: int, b: int, m: int) { a + n <= b || b + m <= a }

  /**
    Local slots lie within the frame, parameters above the return address, and the bytes of
    different slots are different.
    */
  lemma AddressesSound(slots: seq<Slot>, size: Var -> nat, frameSize: int, i: nat, j: nat)
    requires SlotsOk(slots, size) && End(slots) <= frameSize && i < |slots| - 1 && j < |slots| - 1
    ensures if slots[i].offset >= 0 then 0 <= Address(frameSize, slots[i]) <= Address(frameSize, slots[i]) + slots[i].size <= frameSize
            else frameSize + 4 <= Address(frameSize, slots[i])
    ensures i != j ==> BytesApart(Address(frameSize, slots[i]), slots[i].size, Address(frameSize, slots[j]), slots[j].size)
  {
    SlotsOrdered(slots, size, i, |slots| - 1);
    assert SlotAt(slots, size, i);
    if i < j { SlotsOrdered(slots, size, i, j); }
    if j < i { SlotsOrdered(slots, size, j, i); }
  }
}
