/** The meaning of a checked tree with nested scopes: names alone, without the ids the analyser gave
  * them, in a stack of frames. A declaration makes a new variable that holds nothing, a block opens
  * a frame and closes it again, and a name means its innermost declaration. */
module Nested {
  import opened Values
  import opened Arith
  import C = Checked

  /** The variables of one scope; those that hold nothing yet are there without a value. */
  type Frame = map<string, Option<int>>

  /** The open scopes, the innermost last. */
  type Frames = seq<Frame>

  datatype ExprResult = Value(v: int, fs: Frames) | ExprFault(reason: C.Reason) | ExprTimeout
  datatype ArgsResult = Args(vs: seq<int>, fs: Frames) | ArgsFault(reason: C.Reason) | ArgsTimeout
  datatype StmtResult = Next(fs: Frames) | Returned(v: int) | Fault(reason: C.Reason) | Timeout

  function FrameOf(fs: Frames, name: string): (r: Option<nat>)
    ensures r.Some? ==> r.value < |fs| && name in fs[r.value] && forall i :: r.value < i < |fs| ==> name !in fs[i]
    ensures r.None? ==> forall i :: 0 <= i < |fs| ==> name !in fs[i]
  {
    if |fs| == 0 then None
    else if name in fs[|fs| - 1] then Some(|fs| - 1)
    else FrameOf(fs[..|fs| - 1], name)
  }

  function Read(fs: Frames, name: string): Option<int> {
    match FrameOf(fs, name)
    case Some(i) => fs[i][name]
    case None => None
  }

  function Update(fs: Frames, name: string, v: int): Frames {
    match FrameOf(fs, name)
    case Some(i) => fs[i := fs[i][name := Some(v)]]
    case None => fs
  }

  function Declare(fs: Frames, name: string, cell: Option<int>): Frames {
    if |fs| == 0 then fs else fs[|fs| - 1 := fs[|fs| - 1][name := cell]]
  }

  function Pop(fs: Frames): Frames {
    if |fs| == 0 then [] else fs[..|fs| - 1]
  }

  function Bind(params: seq<C.Param>, vs: seq<int>): Frame
    requires |params| == |vs|
  {
    if |params| == 0 then map[]
    else
      var n := |params| - 1;
      Bind(params[..n], vs[..n])[params[n].name := Some(vs[n])]
  }

  function Eval(p: C.Program, e: C.Expr, fs: Frames, fuel: C.Fuel): ExprResult
    decreases fuel.calls, fuel.loops, e, 1
  {
    match e
    case Literal(t, n) => Value(C.LiteralValue(t, n), fs)
    case Ident(_, name, _) =>
      (match Read(fs, name)
       case Some(v) => Value(v, fs)
       case None => ExprFault(C.UnassignedRead(name)))
    case Binary(_, op, l, r) =>
      (match Eval(p, l, fs, fuel)
       case Value(a, fs1) =>
         (match Eval(p, r, fs1, fuel)
          case Value(b, fs2) =>
            var v := Apply(op, l.t, a, b);
            if v.Some? then Value(v.value, fs2) else ExprFault(C.Arithmetic)
          case other => other)
       case other => other)
    case Unary(_, op, a) =>
      (match Eval(p, a, fs, fuel)
       case Value(v, fs1) => Value(ApplyUnary(op, a.t, v), fs1)
       case other => other)
    case Increment(t, up, postfix, name, _) =>
      (match Read(fs, name)
       case None => ExprFault(C.UnassignedRead(name))
       case Some(v) =>
         var updated := Wrap(t, v + C.Step(up));
         Value(if postfix then v else updated, Update(fs, name, updated)))
    case Cast(t, a) =>
      (match Eval(p, a, fs, fuel)
       case Value(v, fs1) => Value(Convert(t, v), fs1)
       case other => other)
    case Call(t, f, args) =>
      (match EvalArgs(p, args, fs, fuel)
       case Args(vs, fs1) =>
         if fuel.calls == 0 then ExprTimeout
         else
           (match Invoke(p, f, vs, fuel.(calls := fuel.calls - 1))
            case Value(v, _) => Value(v, fs1)
            case other => other)
       case ArgsFault(r) => ExprFault(r)
       case ArgsTimeout => ExprTimeout)
  }

  function EvalArgs(p: C.Program, args: seq<C.Expr>, fs: Frames, fuel: C.Fuel): (r: ArgsResult)
    ensures r.Args? ==> |r.vs| == |args|
    decreases fuel.calls, fuel.loops, args, 0
  {
    if |args| == 0 then Args([], fs)
    else
      match Eval(p, args[0], fs, fuel)
      case Value(v, fs1) =>
        (match EvalArgs(p, args[1..], fs1, fuel)
         case Args(vs, fs2) => Args([v] + vs, fs2)
         case other => other)
      case ExprFault(r) => ArgsFault(r)
      case ExprTimeout => ArgsTimeout
  }

  /** A call opens a frame for the parameters above an empty outermost one. */
  function Invoke(p: C.Program, f: string, vs: seq<int>, fuel: C.Fuel): ExprResult
    decreases fuel.calls, fuel.loops
  {
    match C.Lookup(p, f)
    case None => ExprFault(C.UnknownFunction)
    case Some(fn) =>
      if |vs| != |fn.params| then ExprFault(C.UnknownFunction)
      else
        match Exec(p, fn.body.value, [map[], Bind(fn.params, vs)], fuel)
        case Returned(v) => Value(v, [])
        case Next(_) => if fn.ret.Void? then Value(0, []) else ExprFault(C.MissingReturn)
        case Fault(r) => ExprFault(r)
        case Timeout => ExprTimeout
  }

  function Exec(p: C.Program, s: C.Stmt, fs: Frames, fuel: C.Fuel): StmtResult
    decreases fuel.calls, fuel.loops, s, 1
  {
    match s
    case Decl(t, name, _, init) =>
      (match init
       case None => Next(Declare(fs, name, None))
       case Some(e) =>
         (match Eval(p, e, fs, fuel)
          case Value(v, fs1) => Next(Declare(fs1, name, Some(Convert(t, v))))
          case ExprFault(r) => Fault(r)
          case ExprTimeout => Timeout))
    case Assign(t, name, _, e) =>
      (match Eval(p, e, fs, fuel)
       case Value(v, fs1) => Next(Update(fs1, name, Convert(t, v)))
       case ExprFault(r) => Fault(r)
       case ExprTimeout => Timeout)
    case Block(body) =>
      (match ExecAll(p, body, fs + [map[]], fuel)
       case Next(fs1) => Next(Pop(fs1))
       case other => other)
    case If(c, thn, els) =>
      (match Eval(p, c, fs, fuel)
       case Value(v, fs1) =>
         if v != 0 then Exec(p, thn, fs1, fuel)
         else (match els
               case Some(b) => Exec(p, b, fs1, fuel)
               case None => Next(fs1))
       case ExprFault(r) => Fault(r)
       case ExprTimeout => Timeout)
    case While(c, body) =>
      if fuel.loops == 0 then Timeout
      else
        (match Eval(p, c, fs, fuel)
         case Value(v, fs1) =>
           if v == 0 then Next(fs1)
           else
             (match Exec(p, body, fs1, fuel)
              case Next(fs2) => Exec(p, s, fs2, fuel.(loops := fuel.loops - 1))
              case other => other)
         case ExprFault(r) => Fault(r)
         case ExprTimeout => Timeout)
    case Return(None) => Returned(0)
    case Return(Some(e)) =>
      (match Eval(p, e, fs, fuel)
       case Value(v, _) => Returned(v)
       case ExprFault(r) => Fault(r)
       case ExprTimeout => Timeout)
    case ExprStmt(e) =>
      (match Eval(p, e, fs, fuel)
       case Value(_, fs1) => Next(fs1)
       case ExprFault(r) => Fault(r)
       case ExprTimeout => Timeout)
  }

  function ExecAll(p: C.Program, body: seq<C.Stmt>, fs: Frames, fuel: C.Fuel): StmtResult
    decreases fuel.calls, fuel.loops, body, 0
  {
    if |body| == 0 then Next(fs)
    else
      match Exec(p, body[0], fs, fuel)
      case Next(fs1) => ExecAll(p, body[1..], fs1, fuel)
      case other => other
  }
}
