/** Runs of machine code: jumps inside a function, calls that push a return address and need `rsp`
  * on a 16-byte boundary, returns that pop it. */
module MachineRun {
  import opened Values
  import opened Arith
  import opened Memory
  import opened Machine
  import opened Codegen

  function FindLabelX(code: seq<Instr>, l: nat): Option<nat> {
    if |code| == 0 then None
    else if code[0] == LabelI(l) then Some(0)
    else match FindLabelX(code[1..], l)
         case Some(i) => Some(i + 1)
         case None => None
  }

  function LookupX(p: seq<MachineFunction>, f: string): Option<MachineFunction> {
    if |p| == 0 then None
    else if p[0].name == f then Some(p[0])
    else LookupX(p[1..], f)
  }

  /** About to do instruction `pc` of the function, or returned from it. */
  datatype XConfig = AtX(pc: nat, s: State) | GoneX(s: State)

  /** What a call at `pc` pushes: the place of the next instruction. */
  function ReturnAddress(pc: nat): Word {
    (pc + 1) % Modulus(8)
  }

  function StepX(p: seq<MachineFunction>, code: seq<Instr>, back: Word, calls: nat, c: XConfig): Option<XConfig>
    requires c.AtX?
    decreases calls, 0, 1
  {
    if c.pc >= |code| then None
    else
      match code[c.pc]
      case Jmp(l) => GoX(code, l, c.s)
      case Je(l) =>
        if c.s.flags.NoFlags? then None
        else if c.s.flags.zf then GoX(code, l, c.s)
        else Some(AtX(c.pc + 1, c.s))
      case CallI(f) =>
        if c.s.rsp % 16 != 0 then None
        else
          (match Push(c.s, ReturnAddress(c.pc))
           case None => None
           case Some(s1) =>
             (match RunFunctionX(p, f, ReturnAddress(c.pc), s1, calls)
              case Some(s2) => Some(AtX(c.pc + 1, s2))
              case None => None))
      case Ret =>
        if c.s.rsp + 8 >= Modulus(8) || Load(c.s.mem, c.s.rsp, 8) != back then None
        else Some(GoneX(c.s.(rsp := c.s.rsp + 8)))
      case i =>
        (match Exec(i, c.s)
         case Some(s1) => Some(AtX(c.pc + 1, s1))
         case None => None)
  }

  function GoX(code: seq<Instr>, l: nat, s: State): Option<XConfig> {
    match FindLabelX(code, l)
    case Some(i) => Some(AtX(i, s))
    case None => None
  }

  /** Run a function from its first instruction to its `ret`, which must find `back` on the stack. */
  function RunFunctionX(p: seq<MachineFunction>, f: string, back: Word, s: State, calls: nat): Option<State>
    decreases calls, 0, 0
  {
    match LookupX(p, f)
    case None => None
    case Some(fn) => if calls == 0 then None else RunX(p, fn.code, back, calls - 1, AtX(0, s), calls - 1)
  }

  function RunX(p: seq<MachineFunction>, code: seq<Instr>, back: Word, calls: nat, c: XConfig, n: nat): Option<State>
    decreases calls, 1, n
  {
    match c
    case GoneX(s) => Some(s)
    case AtX(_, _) =>
      if n == 0 then None
      else
        match StepX(p, code, back, calls, c)
        case Some(c1) => RunX(p, code, back, calls, c1, n - 1)
        case None => None
  }

  function StepsX(p: seq<MachineFunction>, code: seq<Instr>, back: Word, calls: nat, c: XConfig,
      k: nat): Option<XConfig>
    decreases k
  {
    if k == 0 then Some(c)
    else if c.GoneX? then None
    else
      match StepX(p, code, back, calls, c)
      case Some(c1) => StepsX(p, code, back, calls, c1, k - 1)
      case None => None
  }

  // ---------------------------------------------------------------- runs compose and extend

  lemma {:induction false} StepsJoinX(
    p: seq<MachineFunction>, code: seq<Instr>, back: Word, calls: nat, c: XConfig, j: nat, k: nat)
    requires StepsX(p, code, back, calls, c, j).Some?
    ensures StepsX(p, code, back, calls, c, j + k) ==
            StepsX(p, code, back, calls, StepsX(p, code, back, calls, c, j).value, k)
    decreases j
  {
    hide StepX;
    if j > 0 {
      StepsJoinX(p, code, back, calls, StepX(p, code, back, calls, c).value, j - 1, k);
    }
  }

  lemma {:induction false} StepMoreX(
    p: seq<MachineFunction>, code: seq<Instr>, back: Word, calls: nat, more: nat, c: XConfig)
    requires c.AtX? && calls <= more && StepX(p, code, back, calls, c).Some?
    ensures StepX(p, code, back, more, c) == StepX(p, code, back, calls, c)
    decreases calls, 0, 1
  {
    hide Exec, GoX;
    if code[c.pc].CallI? {
      RunFunctionMoreX(p, code[c.pc].func, ReturnAddress(c.pc), Push(c.s, ReturnAddress(c.pc)).value, calls, more);
    }
  }

  lemma {:induction false} RunFunctionMoreX(
    p: seq<MachineFunction>, f: string, back: Word, s: State, calls: nat, more: nat)
    requires calls <= more && RunFunctionX(p, f, back, s, calls).Some?
    ensures RunFunctionX(p, f, back, s, more) == RunFunctionX(p, f, back, s, calls)
    decreases calls, 0, 0
  {
    RunMoreX(p, LookupX(p, f).value.code, back, calls - 1, more - 1, AtX(0, s), calls - 1, more - 1);
  }

  lemma {:induction false} RunMoreX(
    p: seq<MachineFunction>, code: seq<Instr>, back: Word, calls: nat, more: nat, c: XConfig, n: nat, m: nat)
    requires calls <= more && n <= m && RunX(p, code, back, calls, c, n).Some?
    ensures RunX(p, code, back, more, c, m) == RunX(p, code, back, calls, c, n)
    decreases calls, 1, n
  {
    hide StepX;
    if c.AtX? {
      StepMoreX(p, code, back, calls, more, c);
      RunMoreX(p, code, back, calls, more, StepX(p, code, back, calls, c).value, n - 1, m - 1);
    }
  }

  lemma {:induction false} StepsMoreX(
    p: seq<MachineFunction>, code: seq<Instr>, back: Word, calls: nat, more: nat, c: XConfig, k: nat)
    requires calls <= more && StepsX(p, code, back, calls, c, k).Some?
    ensures StepsX(p, code, back, more, c, k) == StepsX(p, code, back, calls, c, k)
    decreases k
  {
    hide StepX;
    if k > 0 {
      StepMoreX(p, code, back, calls, more, c);
      StepsMoreX(p, code, back, calls, more, StepX(p, code, back, calls, c).value, k - 1);
    }
  }

  lemma {:induction false} StepsRunX(
    p: seq<MachineFunction>, code: seq<Instr>, back: Word, calls: nat, c: XConfig, k: nat, n: nat)
    requires k <= n && StepsX(p, code, back, calls, c, k).Some? && StepsX(p, code, back, calls, c, k).value.GoneX?
    ensures RunX(p, code, back, calls, c, n) == Some(StepsX(p, code, back, calls, c, k).value.s)
    decreases k
  {
    hide StepX;
    if k > 0 {
      StepsRunX(p, code, back, calls, StepX(p, code, back, calls, c).value, k - 1, n - 1);
    }
  }

  ghost predicate ReachesX(p: seq<MachineFunction>, code: seq<Instr>, back: Word, a: XConfig, b: XConfig) {
    exists calls: nat, k: nat :: StepsX(p, code, back, calls, a, k) == Some(b)
  }

  ghost predicate ReturnsX(p: seq<MachineFunction>, f: string, back: Word, s: State, s': State) {
    exists calls: nat :: RunFunctionX(p, f, back, s, calls) == Some(s')
  }

  lemma ReachesSelfX(p: seq<MachineFunction>, code: seq<Instr>, back: Word, a: XConfig)
    ensures ReachesX(p, code, back, a, a)
  {
    assert StepsX(p, code, back, 0, a, 0) == Some(a);
  }

  lemma ReachesStepX(p: seq<MachineFunction>, code: seq<Instr>, back: Word, calls: nat, a: XConfig, b: XConfig)
    requires a.AtX? && StepX(p, code, back, calls, a) == Some(b)
    ensures ReachesX(p, code, back, a, b)
  {
    hide StepX;
    assert StepsX(p, code, back, calls, b, 0) == Some(b);
    assert StepsX(p, code, back, calls, a, 1) == Some(b);
  }

  lemma ReachesJoinX(p: seq<MachineFunction>, code: seq<Instr>, back: Word, a: XConfig, b: XConfig, c: XConfig)
    requires ReachesX(p, code, back, a, b) && ReachesX(p, code, back, b, c)
    ensures ReachesX(p, code, back, a, c)
  {
    hide StepsX;
    var calls: nat, j: nat :| StepsX(p, code, back, calls, a, j) == Some(b);
    var calls': nat, k: nat :| StepsX(p, code, back, calls', b, k) == Some(c);
    var more := if calls < calls' then calls' else calls;
    StepsMoreX(p, code, back, calls, more, a, j);
    StepsMoreX(p, code, back, calls', more, b, k);
    StepsJoinX(p, code, back, more, a, j, k);
    assert StepsX(p, code, back, more, a, j + k) == Some(c);
  }

  lemma ReachesReturnX(p: seq<MachineFunction>, f: string, back: Word, s: State, s': State)
    requires LookupX(p, f).Some? && ReachesX(p, LookupX(p, f).value.code, back, AtX(0, s), GoneX(s'))
    ensures ReturnsX(p, f, back, s, s')
  {
    hide StepsX, RunX;
    var code := LookupX(p, f).value.code;
    var calls: nat, k: nat :| StepsX(p, code, back, calls, AtX(0, s), k) == Some(GoneX(s'));
    var n := if calls < k then k else calls;
    StepsMoreX(p, code, back, calls, n, AtX(0, s), k);
    StepsRunX(p, code, back, n, AtX(0, s), k, n);
    assert RunFunctionX(p, f, back, s, n + 1) == Some(s');
  }

  // ---------------------------------------------------------------- straight-line blocks

  function ExecBlock(code: seq<Instr>, s: State): Option<State> {
    if |code| == 0 then Some(s)
    else
      match Exec(code[0], s)
      case Some(s1) => ExecBlock(code[1..], s1)
      case None => None
  }

  lemma {:induction false} ExecBlockConcat(a: seq<Instr>, b: seq<Instr>, s: State)
    requires ExecBlock(a, s).Some?
    ensures ExecBlock(a + b, s) == ExecBlock(b, ExecBlock(a, s).value)
    decreases |a|
  {
    hide Exec;
    if |a| == 0 {
      assert a + b == b;
    } else {
      assert (a + b)[1..] == a[1..] + b;
      ExecBlockConcat(a[1..], b, Exec(a[0], s).value);
    }
  }

  ghost predicate CodeAtX(code: seq<Instr>, pc: nat, part: seq<Instr>) {
    pc + |part| <= |code| && forall i :: 0 <= i < |part| ==> code[pc + i] == part[i]
  }

  lemma CodeAtSplitX(code: seq<Instr>, pc: nat, a: seq<Instr>, b: seq<Instr>)
    requires CodeAtX(code, pc, a + b)
    ensures CodeAtX(code, pc, a) && CodeAtX(code, pc + |a|, b)
  {
    forall i | 0 <= i < |a| ensures code[pc + i] == a[i] {
      assert (a + b)[i] == a[i];
    }
    forall i | 0 <= i < |b| ensures code[pc + |a| + i] == b[i] {
      assert (a + b)[|a| + i] == b[i];
      assert code[pc + (|a| + i)] == b[i];
    }
  }

  predicate IsStraight(i: Instr) {
    !i.Jmp? && !i.Je? && !i.CallI? && !i.Ret?
  }

  lemma ExecIsStraight(i: Instr, s: State)
    requires Exec(i, s).Some?
    ensures IsStraight(i)
  {}

  /** A block that executes takes the machine past it. */
  lemma {:induction false} RunBlock(
    p: seq<MachineFunction>, code: seq<Instr>, back: Word, pc: nat, block: seq<Instr>, s: State)
    requires CodeAtX(code, pc, block) && ExecBlock(block, s).Some?
    ensures ReachesX(p, code, back, AtX(pc, s), AtX(pc + |block|, ExecBlock(block, s).value))
    decreases |block|
  {
    hide ReachesX, Exec;
    if |block| == 0 {
      ReachesSelfX(p, code, back, AtX(pc, s));
    } else {
      assert code[pc + 0] == block[0];
      var s1 := Exec(block[0], s).value;
      ExecIsStraight(block[0], s);
      ReachesStepX(p, code, back, 0, AtX(pc, s), AtX(pc + 1, s1));
      forall i | 0 <= i < |block[1..]| ensures code[pc + 1 + i] == block[1..][i] {
        assert code[pc + (i + 1)] == block[i + 1];
      }
      RunBlock(p, code, back, pc + 1, block[1..], s1);
      ReachesJoinX(p, code, back, AtX(pc, s), AtX(pc + 1, s1), AtX(pc + |block|, ExecBlock(block, s).value));
    }
  }
}
