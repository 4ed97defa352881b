/** The three-address intermediate code and its meaning. Control is flat: labels and jumps inside
  * one operation list per function. PARAM operations collect the arguments of the next CALL. */
module Ir {
  import opened Values
  import opened Arith

  datatype Operand =
    | NoOperand
    | Temporary(id: nat, t: ValueType)
    | Variable(name: string, t: ValueType)
    | Immediate(number: nat, t: ValueType)

  datatype Operation =
    | Bin(op: BinaryOp, dst: Operand, a: Operand, b: Operand)
    | Un(uop: UnaryOp, dst: Operand, a: Operand)
    | Assign(dst: Operand, a: Operand)
    | CastTo(dst: Operand, a: Operand)
    | Label(target: nat)
    | JumpIfFalse(target: nat, cond: Operand)
    | Jump(target: nat)
    | Return(a: Operand)
    | Param(a: Operand)
    | Call(dst: Operand, func: string)

  datatype IrParam = IrParam(name: string, t: ValueType)

  datatype IrFunction = IrFunction(
    name: string, params: seq<IrParam>, ret: ValueType, defined: bool, operations: seq<Operation>)

  type IrProgram = seq<IrFunction>

  function LookupIr(p: IrProgram, name: string): Option<IrFunction> {
    if |p| == 0 then None
    else if p[0].name == name && p[0].defined then Some(p[0])
    else LookupIr(p[1..], name)
  }

  // ---------------------------------------------------------------- meaning

  /** What an operand names: a temporary or a variable of the running function. */
  datatype Place = TempPlace(id: nat) | VarPlace(name: string)

  type Store = map<Place, int>

  predicate IsPlace(o: Operand) {
    o.Temporary? || o.Variable?
  }

  function PlaceOf(o: Operand): Place
    requires IsPlace(o)
  {
    if o.Temporary? then TempPlace(o.id) else VarPlace(o.name)
  }

  function Read(o: Operand, st: Store): Option<int> {
    match o
    case NoOperand => Some(0)
    case Immediate(n, t) => Some(Convert(t, n))
    case _ => if PlaceOf(o) in st then Some(st[PlaceOf(o)]) else None
  }

  function Write(o: Operand, v: int, st: Store): Store {
    if IsPlace(o) then st[PlaceOf(o) := v] else st
  }

  function FindLabel(ops: seq<Operation>, l: nat): (r: Option<nat>)
    ensures r.Some? ==> r.value < |ops| && ops[r.value] == Label(l)
    ensures r.None? ==> Label(l) !in ops
  {
    if |ops| == 0 then None
    else if ops[0] == Label(l) then Some(0)
    else match FindLabel(ops[1..], l)
         case Some(i) => Some(i + 1)
         case None => None
  }

  /** A point of a run: about to do operation `pc` with arguments collected, or returned. */
  datatype Config = At(pc: nat, st: Store, args: seq<int>) | Done(v: int, st: Store)

  function BindIr(params: seq<IrParam>, vs: seq<int>): Store
    requires |params| == |vs|
  {
    if |params| == 0 then map[]
    else
      var n := |params| - 1;
      BindIr(params[..n], vs[..n])[VarPlace(params[n].name) := vs[n]]
  }

  /** How far a run may go: calls nested in one another, and operations of each activation. */
  datatype Bounds = Bounds(calls: nat, steps: nat)

  const NO_CALLS := Bounds(0, 0)

  predicate NoMore(a: Bounds, b: Bounds) {
    a.calls <= b.calls && a.steps <= b.steps
  }

  /** What is left to the calls of an activation. */
  function Fewer(b: Bounds): Bounds
    requires b.calls > 0
  {
    b.(calls := b.calls - 1)
  }

  /** One operation; `bounds` is for the calls it may make. No result means the run is stuck: it went
    * past the end, read nothing, divided by zero, or met a bound. */
  function Step(p: IrProgram, ops: seq<Operation>, bounds: Bounds, c: Config): Option<Config>
    requires c.At?
    decreases bounds.calls, 0, 1
  {
    if c.pc >= |ops| then None
    else
      match ops[c.pc]
      case Bin(op, dst, a, b) =>
        var x, y := Read(a, c.st), Read(b, c.st);
        if x.None? || y.None? || IsNone(a) || IsNone(b) then None
        else
          (match Apply(op, a.t, x.value, y.value)
           case Some(v) => Some(At(c.pc + 1, Write(dst, v, c.st), c.args))
           case None => None)
      case Un(op, dst, a) =>
        (match Read(a, c.st)
         case Some(x) =>
           if IsNone(a) then None
           else Some(At(c.pc + 1, Write(dst, ApplyUnary(op, a.t, x), c.st), c.args))
         case None => None)
      case Assign(dst, a) => ConvertStep(c, dst, a)
      case CastTo(dst, a) => ConvertStep(c, dst, a)
      case Label(_) => Some(c.(pc := c.pc + 1))
      case JumpIfFalse(l, cond) =>
        (match Read(cond, c.st)
         case Some(x) => if x == 0 then JumpTo(ops, c, l) else Some(c.(pc := c.pc + 1))
         case None => None)
      case Jump(l) => JumpTo(ops, c, l)
      case Return(a) =>
        (match Read(a, c.st)
         case Some(x) => Some(Done(x, c.st))
         case None => None)
      case Param(a) =>
        (match Read(a, c.st)
         case Some(x) => Some(At(c.pc + 1, c.st, c.args + [x]))
         case None => None)
      case Call(dst, f) =>
        (match RunFunction(p, f, c.args, bounds)
         case Some(v) => Some(At(c.pc + 1, Write(dst, v, c.st), []))
         case None => None)
  }

  predicate IsNone(o: Operand) {
    o.NoOperand?
  }

  function ConvertStep(c: Config, dst: Operand, a: Operand): Option<Config>
    requires c.At?
  {
    match Read(a, c.st)
    case Some(x) =>
      if IsPlace(dst) then Some(At(c.pc + 1, Write(dst, Convert(dst.t, x), c.st), c.args)) else None
    case None => None
  }

  function JumpTo(ops: seq<Operation>, c: Config, l: nat): Option<Config>
    requires c.At?
  {
    match FindLabel(ops, l)
    case Some(i) => Some(c.(pc := i))
    case None => None
  }

  /** Run a function: `bounds.calls` activations at a time, its own included. */
  function RunFunction(p: IrProgram, f: string, vs: seq<int>, bounds: Bounds): Option<int>
    decreases bounds.calls, 0, 0
  {
    match LookupIr(p, f)
    case None => None
    case Some(fn) =>
      if |vs| != |fn.params| || bounds.calls == 0 then None
      else Run(p, fn.operations, Fewer(bounds), At(0, BindIr(fn.params, vs), []), bounds.steps)
  }

  function Run(p: IrProgram, ops: seq<Operation>, bounds: Bounds, c: Config, n: nat): Option<int>
    decreases bounds.calls, 1, n
  {
    match c
    case Done(v, _) => Some(v)
    case At(_, _, _) =>
      if n == 0 then None
      else
        match Step(p, ops, bounds, c)
        case Some(c') => Run(p, ops, bounds, c', n - 1)
        case None => None
  }

  /** Exactly `k` operations. */
  function Steps(p: IrProgram, ops: seq<Operation>, bounds: Bounds, c: Config, k: nat): Option<Config>
    decreases k
  {
    if k == 0 then Some(c)
    else if c.Done? then None
    else
      match Step(p, ops, bounds, c)
      case Some(c') => Steps(p, ops, bounds, c', k - 1)
      case None => None
  }

  // ---------------------------------------------------------------- runs compose and extend

  lemma {:induction false} StepsJoin(
    p: IrProgram, ops: seq<Operation>, bounds: Bounds, c: Config, j: nat, k: nat)
    requires Steps(p, ops, bounds, c, j).Some?
    ensures Steps(p, ops, bounds, c, j + k) == Steps(p, ops, bounds, Steps(p, ops, bounds, c, j).value, k)
    decreases j
  {
    if j > 0 {
      StepsJoin(p, ops, bounds, Step(p, ops, bounds, c).value, j - 1, k);
    }
  }

  lemma {:induction false} StepMore(p: IrProgram, ops: seq<Operation>, bounds: Bounds, more: Bounds, c: Config)
    requires c.At? && NoMore(bounds, more) && Step(p, ops, bounds, c).Some?
    ensures Step(p, ops, more, c) == Step(p, ops, bounds, c)
    decreases bounds.calls, 0, 1
  {
    if ops[c.pc].Call? {
      RunFunctionMore(p, ops[c.pc].func, c.args, bounds, more);
    }
  }

  lemma {:induction false} RunFunctionMore(p: IrProgram, f: string, vs: seq<int>, bounds: Bounds, more: Bounds)
    requires NoMore(bounds, more) && RunFunction(p, f, vs, bounds).Some?
    ensures RunFunction(p, f, vs, more) == RunFunction(p, f, vs, bounds)
    decreases bounds.calls, 0, 0
  {
    var fn := LookupIr(p, f).value;
    RunMore(p, fn.operations, Fewer(bounds), Fewer(more), At(0, BindIr(fn.params, vs), []), bounds.steps, more.steps);
  }

  lemma {:induction false} RunMore(
    p: IrProgram, ops: seq<Operation>, bounds: Bounds, more: Bounds, c: Config, n: nat, m: nat)
    requires NoMore(bounds, more) && n <= m && Run(p, ops, bounds, c, n).Some?
    ensures Run(p, ops, more, c, m) == Run(p, ops, bounds, c, n)
    decreases bounds.calls, 1, n
  {
    if c.At? {
      StepMore(p, ops, bounds, more, c);
      RunMore(p, ops, bounds, more, Step(p, ops, bounds, c).value, n - 1, m - 1);
    }
  }

  lemma {:induction false} StepsMore(
    p: IrProgram, ops: seq<Operation>, bounds: Bounds, more: Bounds, c: Config, k: nat)
    requires NoMore(bounds, more) && Steps(p, ops, bounds, c, k).Some?
    ensures Steps(p, ops, more, c, k) == Steps(p, ops, bounds, c, k)
    decreases k
  {
    if k > 0 {
      StepMore(p, ops, bounds, more, c);
      StepsMore(p, ops, bounds, more, Step(p, ops, bounds, c).value, k - 1);
    }
  }

  /** A run of `k` operations that returns is found by `Run` with any larger bound. */
  lemma {:induction false} StepsRun(
    p: IrProgram, ops: seq<Operation>, bounds: Bounds, c: Config, k: nat, n: nat)
    requires k <= n && Steps(p, ops, bounds, c, k).Some? && Steps(p, ops, bounds, c, k).value.Done?
    ensures Run(p, ops, bounds, c, n) == Some(Steps(p, ops, bounds, c, k).value.v)
    decreases k
  {
    if k > 0 {
      StepsRun(p, ops, bounds, Step(p, ops, bounds, c).value, k - 1, n - 1);
    }
  }
}
