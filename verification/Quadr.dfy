/**
  Quadruples, the intermediate code of the compiler, and what running them does.

  A state maps every variable to a value and records a trace of effects: calls,
  parameters, pointer writes, jumps and returns. Arithmetic, loads and call results
  are arbitrary functions, the same for the code before and after a transformation,
  so a statement about all of them does not depend on any machine.
  */
module Quadr {

  datatype Option<+T> = None | Some(value: T)

  type Var = nat
  type BlockId = nat

  datatype Arg =
    | NoArg
    | VarArg(v: Var)
    | IntArg(n: int)
    | DoubleArg(r: real)
    | LabelArg(block: BlockId)
    | StrArg(s: string)
    | FuncArg(f: nat)

  datatype Op =
    | Add | Sub | Div | Mul | Mod
    | Copy
    | ReadPtr | WritePtr | GetAddr
    | Return | Param | Call
    | IfEq | IfNe | IfLt | IfGt | IfLe | IfGe
    | Goto

  datatype Quad = Quad(op: Op, result: Arg, arg1: Arg, arg2: Arg)

  predicate IsIfOp(op: Op) {
    op.IfEq? || op.IfNe? || op.IfLt? || op.IfGt? || op.IfLe? || op.IfGe?
  }

  predicate Uses(q: Quad, v: Var) {
    q.arg1 == VarArg(v) || q.arg2 == VarArg(v) || (q.op.WritePtr? && q.result == VarArg(v))
  }

  predicate Assigns(q: Quad, v: Var) {
    !q.op.WritePtr? && q.result == VarArg(v)
  }

  /** The part of the documented format of quadruples that the passes rely on. */
  predicate WellFormed(q: Quad) {
    && (q.op.Copy? || q.op.WritePtr? ==> q.result.VarArg?)
    && (q.op.Copy? ==> q.arg2.NoArg?)
    && (q.op.Return? || q.op.Param? ==> q.result.NoArg?)
    && (IsIfOp(q.op) || q.op.Goto? ==> q.result.LabelArg?)
  }

  // ---------- running quadruples ----------

  datatype Value = IntV(n: int) | RealV(r: real) | OtherV(id: int) | ConstV(arg: Arg)

  datatype Event = Event(op: Op, target: Value, a: Value, b: Value)

  ghost predicate Total(env: imap<Var, Value>) { forall v: Var :: v in env }

  predicate IsVar(v: Var) { true }

  ghost function ZeroEnv(): (env: imap<Var, Value>)
    ensures Total(env)
  {
    imap v: Var | IsVar(v) :: IntV(0)
  }

  type Env = env: imap<Var, Value> | Total(env) ghost witness ZeroEnv()

  datatype State = State(env: Env, trace: seq<Event>)

  /** Arithmetic, loads (which depend on the writes so far), call results, and three-way comparison. */
  datatype Machine = Machine(
    alu: (Op, Value, Value) -> Value,
    load: (Value, Value, seq<Event>) -> Value,
    ret: (Value, seq<Event>) -> Value,
    cmp: (Value, Value) -> int)

  /** Whether a conditional jump is taken: values are totally ordered by `cmp`. */
  ghost predicate Taken(m: Machine, op: Op, a: Value, b: Value)
    requires IsIfOp(op)
  {
    match op
    case IfEq => m.cmp(a, b) == 0
    case IfNe => m.cmp(a, b) != 0
    case IfLt => m.cmp(a, b) < 0
    case IfGt => m.cmp(a, b) > 0
    case IfLe => m.cmp(a, b) <= 0
    case IfGe => m.cmp(a, b) >= 0
  }

  ghost function Eval(a: Arg, env: Env): Value {
    match a
    case VarArg(v) => env[v]
    case IntArg(n) => IntV(n)
    case DoubleArg(r) => RealV(r)
    case _ => ConstV(a)
  }

  predicate HasEffect(op: Op) {
    op.WritePtr? || op.Return? || op.Param? || op.Call? || op.Goto? || IsIfOp(op)
  }

  ghost function Trace(q: Quad, s: State): seq<Event> {
    if HasEffect(q.op) then
      var target := if q.op.Call? then ConstV(NoArg) else Eval(q.result, s.env);
      s.trace + [Event(q.op, target, Eval(q.arg1, s.env), Eval(q.arg2, s.env))]
    else s.trace
  }

  ghost function Result(m: Machine, q: Quad, s: State): Value {
    var a, b := Eval(q.arg1, s.env), Eval(q.arg2, s.env);
    match q.op
    case Copy => a
    case ReadPtr => m.load(a, b, s.trace)
    case Call => m.ret(a, Trace(q, s))
    case _ => m.alu(q.op, a, b)
  }

  ghost function Exec(m: Machine, q: Quad, s: State): State {
    var env := if !q.op.WritePtr? && q.result.VarArg? then s.env[q.result.v := Result(m, q, s)] else s.env;
    State(env, Trace(q, s))
  }

  /** A missing entry stands for a quadruple that a pass has removed. */
  ghost function Run(m: Machine, qs: seq<Option<Quad>>, s: State): State {
    if qs == [] then s
    else Run(m, qs[1..], if qs[0].Some? then Exec(m, qs[0].value, s) else s)
  }

  lemma {:induction false} RunAppend(m: Machine, a: seq<Option<Quad>>, b: seq<Option<Quad>>, s: State)
    ensures Run(m, a + b, s) == Run(m, b, Run(m, a, s))
  {
    if a == [] {
      assert a + b == b;
    } else {
      assert (a + b)[1..] == a[1..] + b;
      RunAppend(m, a[1..], b, if a[0].Some? then Exec(m, a[0].value, s) else s);
    }
  }

  /** Running quadruples one after the other. */
  ghost function RunBlock(m: Machine, block: seq<Quad>, s: State): State {
    if block == [] then s else RunBlock(m, block[1..], Exec(m, block[0], s))
  }

  lemma {:induction false} RunBlockAppend(m: Machine, a: seq<Quad>, b: seq<Quad>, s: State)
    ensures RunBlock(m, a + b, s) == RunBlock(m, b, RunBlock(m, a, s))
  {
    if a == [] {
      assert a + b == b;
    } else {
      assert (a + b)[1..] == a[1..] + b;
      RunBlockAppend(m, a[1..], b, Exec(m, a[0], s));
    }
  }
}
