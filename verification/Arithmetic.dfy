/**
  A machine with 32-bit integers, and a compiler that folds constants in the same way: what
  the results about value numbering assume of arithmetic holds there.
  */
module Arithmetic {
  import opened Quadr
  import opened Dag
  import opened DagEmit
  import opened DagLabels
  import opened DagBlock

  /** The value an integer has in 32 bits. */
  function Wrapped(n: int): int { (n + 0x8000_0000) % 0x1_0000_0000 - 0x8000_0000 }

  /** Division rounds towards zero. */
  function Quotient(a: int, b: int): int
    requires b != 0
  {
    var q := (if a < 0 then -a else a) / (if b < 0 then -b else b);
    if (a < 0) == (b < 0) then q else -q
  }

  function IntResult(op: Op, a: int, b: int): int {
    match op
    case Add => Wrapped(a + b)
    case Sub => Wrapped(a - b)
    case Mul => Wrapped(a * b)
    case Div => if b == 0 then 0 else Wrapped(Quotient(a, b))
    case Mod => if b == 0 then 0 else Wrapped(a - b * Quotient(a, b))
    case _ => 0
  }

  function RealResult(op: Op, a: real, b: real): real {
    match op
    case Add => a + b
    case Sub => a - b
    case Mul => a * b
    case Div => if b == 0.0 then 0.0 else a / b
    case _ => 0.0
  }

  function Result32(op: Op, a: Value, b: Value): Value {
    match (a, b)
    case (IntV(m), IntV(n)) => IntV(IntResult(op, m, n))
    case (RealV(x), RealV(y)) => RealV(RealResult(op, x, y))
    case _ => OtherV(0)
  }

  function Folding32(): Folding { Folding(IntResult, RealResult) }

  ghost predicate Is32(m: Machine) { forall op: Op, a, b :: m.alu(op, a, b) == Result32(op, a, b) }

  lemma ProductCommutes(a: int, b: int)
    ensures Wrapped(a * b) == Wrapped(b * a)
  {
    assert a * b == b * a;
  }

  /** Only addition and multiplication have to commute, and only they do. */
  lemma Arithmetic32(m: Machine)
    requires Is32(m)
    ensures FoldCommutes(Folding32()) && Commutes(m) && Agrees(m, Folding32())
    ensures forall op: Op :: IsArith(op) ==> ((forall a, b :: m.alu(op, a, b) == m.alu(op, b, a)) <==> op == Add || op == Mul)
  {
    forall a, b ensures IntResult(Mul, a, b) == IntResult(Mul, b, a) { ProductCommutes(a, b); }
    forall op: Op | IsArith(op) && op != Add && op != Mul ensures exists a, b :: m.alu(op, a, b) != m.alu(op, b, a) {
      assert Quotient(2, 1) == 2 && Quotient(1, 2) == 0;
      assert m.alu(op, IntV(2), IntV(1)) != m.alu(op, IntV(1), IntV(2));
    }
  }

  /** On such a machine, blocks are preserved whatever else it does. */
  lemma Preserved32(m: Machine, addr: Id -> int, order: Graph -> seq<Id>, qs: seq<Quad>, s: State, vars: Var)
    requires Is32(m) && OrderOk(Config(Folding32(), addr, order)) && AllQuadsBelow(qs, vars)
    requires var cfg := Config(Folding32(), addr, order);
             Valid(EmptyGraph) && Room(cfg, EmptyGraph, qs) && SegmentsStand(qs) && NoZeroDivisions(cfg, EmptyGraph, qs)
    ensures var cfg := Config(Folding32(), addr, order);
            Alike(RunBlock(m, qs, s), RunBlock(m, Rewrite(cfg, EmptyGraph, qs, vars).code, s), vars)
  {
    var cfg := Config(Folding32(), addr, order);
    Arithmetic32(m);
    StandingMatches(cfg, qs, vars);
    BlockPreserved(m, cfg, qs, s, vars);
  }
}
