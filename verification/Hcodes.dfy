/** The generated code of a thread: its tree form, what running it does, and the code a
decision tree stands for. */
module Hcodes {
  import opened ThreadGraph
  import opened Unfolding
  import opened PathSearch

  /** The variables the thread refers to. */
  type Store = map<string, int>

  /** What statement `s` of CFG block `c` does, and whether the condition of block `c` holds. */
  datatype Sem = Sem(eff: (nat, nat, Store) -> Store, holds: (nat, Store) -> bool)

  datatype Hcode =
    | Do(block: nat, stmt: nat)
    | WaitCall(arg: Option<int>)        // a wait before it is rewritten
    | SetNextState(state: nat)          // next state = literal
    | NextStateFromResume               // next state = saved resume state
    | SetWaitCounter(n: int)            // next counter = literal
    | DecWaitCounter                    // next counter --
    | SaveResume(state: nat)            // next resume state = literal
    | IfCounterZero(thn: Hcode)         // if (counter == 0)
    | Return
    | Noop
    | CStmt(body: seq<Hcode>)
    | IfStmt(cond: nat, arms: seq<Hcode>)

  /** A register of type int: its 32 bits, read without a sign.  Whether it is 0 and what
      counting down leaves do not depend on the sign. */
  type Bits32 = n: nat | n < 0x1_0000_0000

  function Bits(n: int): Bits32 {
    n % 0x1_0000_0000
  }

  /** The registers of the generated state machine, as they are at the start of a clock. */
  datatype Regs = Regs(state: nat, counter: Bits32, resume: nat)

  /** What the code writes during a clock. */
  datatype Machine = Machine(store: Store, nextState: nat, nextCounter: Bits32, nextResume: nat, returned: bool)

  function Exec(h: Hcode, sem: Sem, regs: Regs, m: Machine): Machine
    decreases h, 0
  {
    if m.returned then m
    else match h
      case Do(block, stmt) => m.(store := sem.eff(block, stmt, m.store))
      case WaitCall(_) => m
      case SetNextState(s) => m.(nextState := s)
      case NextStateFromResume => m.(nextState := regs.resume)
      case SetWaitCounter(n) => m.(nextCounter := Bits(n))
      case DecWaitCounter => m.(nextCounter := Bits(m.nextCounter - 1))
      case SaveResume(s) => m.(nextResume := s)
      case IfCounterZero(thn) => if regs.counter == 0 then Exec(thn, sem, regs, m) else m
      case Return => m.(returned := true)
      case Noop => m
      case CStmt(body) => ExecAll(body, sem, regs, m)
      case IfStmt(cond, arms) =>
        if sem.holds(cond, m.store)
        then if |arms| > 0 then Exec(arms[0], sem, regs, m) else m
        else if |arms| > 1 then Exec(arms[1], sem, regs, m) else m
  }

  function ExecAll(code: seq<Hcode>, sem: Sem, regs: Regs, m: Machine): Machine
    decreases code, 1
  {
    if code == [] then m else ExecAll(code[1..], sem, regs, Exec(code[0], sem, regs, m))
  }

  lemma {:induction false} ExecAppend(a: seq<Hcode>, b: seq<Hcode>, sem: Sem, regs: Regs, m: Machine)
    ensures ExecAll(a + b, sem, regs, m) == ExecAll(b, sem, regs, ExecAll(a, sem, regs, m))
  {
    if a == [] {
      assert a + b == b;
    } else {
      assert (a + b)[1..] == a[1..] + b;
      ExecAppend(a[1..], b, sem, regs, Exec(a[0], sem, regs, m));
    }
  }

  lemma {:induction false} ExecReturned(code: seq<Hcode>, sem: Sem, regs: Regs, m: Machine)
    requires m.returned
    ensures ExecAll(code, sem, regs, m) == m
  {
    if code != [] { ExecReturned(code[1..], sem, regs, m); }
  }

  lemma ExecCons(h: Hcode, code: seq<Hcode>, sem: Sem, regs: Regs, m: Machine)
    ensures ExecAll([h] + code, sem, regs, m) == ExecAll(code, sem, regs, Exec(h, sem, regs, m))
  {
    assert ([h] + code)[1..] == code;
  }

  /** The settings that code generation needs: each wait's next state and the number of states. */
  datatype Plan = Plan(next: map<nat, nat>, numStates: nat)
  {
    function NextState(b: nat): nat {
      if b in next then next[b] else 0
    }
  }

  function EmitWait(arg: Option<int>, next: nat, numStates: nat): seq<Hcode> {
    match arg
    case None => [SetNextState(next), Return]
    case Some(n) => [SetWaitCounter(n), SaveResume(next), SetNextState(numStates), Return]
  }

  /** The case of the counted-wait state. */
  function WaitCase(): seq<Hcode> {
    [DecWaitCounter, IfCounterZero(NextStateFromResume)]
  }

  function EmitElem(e: Elem, cfg: nat, next: nat, numStates: nat): seq<Hcode> {
    match e
    case Stmt(id) => [Do(cfg, id)]
    case Wait(arg) => EmitWait(arg, next, numStates)
  }

  function EmitElems(elems: seq<Elem>, cfg: nat, next: nat, numStates: nat): seq<Hcode> {
    if elems == [] then []
    else EmitElems(elems[..|elems| - 1], cfg, next, numStates) + EmitElem(elems[|elems| - 1], cfg, next, numStates)
  }

  /** The code of a block that is not a fork.  A block with a terminator gives at most its
      condition: its statements are not generated. */
  function EmitBlock(g: Graph, plan: Plan, b: nat): seq<Hcode>
    requires b < |g|
  {
    if g[b].hasWait || g[b].origin.term == NoTerm then EmitElems(g[b].elems, g[b].cfg, plan.NextState(b), plan.numStates)
    else if g[b].origin.term == IfTerm || g[b].origin.term == LoopTerm then [IfStmt(g[b].cfg, [])]
    else []
  }

  function Arms(thn: seq<Hcode>, els: seq<Hcode>): seq<Hcode> {
    if els == [] then if thn == [] then [] else [CStmt(thn)]
    else [if thn == [] then Noop else CStmt(thn), CStmt(els)]
  }

  /** The code of a decision tree: nested if statements. */
  function EmitTree(g: Graph, plan: Plan, t: Tree): seq<Hcode>
    requires TreeInGraph(g, t)
  {
    match t
    case Empty => []
    case Leaf(b) => EmitBlock(g, plan, b)
    case Chain(b, next) => EmitBlock(g, plan, b) + EmitTree(g, plan, next)
    case Fork(b, thn, els) => [IfStmt(g[b].cfg, Arms(EmitArm(g, plan, thn), EmitArm(g, plan, els)))]
  }

  function EmitArm(g: Graph, plan: Plan, arm: Option<Tree>): seq<Hcode>
    requires ArmInGraph(g, arm)
  {
    if arm.Some? then EmitTree(g, plan, arm.value) else []
  }

  /** Some wait of the block has an argument. */
  predicate CountedElems(elems: seq<Elem>) {
    exists i :: 0 <= i < |elems| && elems[i].Wait? && elems[i].arg.Some?
  }

  predicate CountedBlock(b: Block) {
    (b.hasWait || b.origin.term == NoTerm) && CountedElems(b.elems)
  }

  predicate Counted(g: Graph, t: Tree)
    requires TreeInGraph(g, t)
  {
    match t
    case Empty => false
    case Leaf(b) => CountedBlock(g[b])
    case Chain(b, next) => CountedBlock(g[b]) || Counted(g, next)
    case Fork(b, thn, els) => (thn.Some? && Counted(g, thn.value)) || (els.Some? && Counted(g, els.value))
  }

  /** Forks are headers of an if or a loop, and nothing comes from a conditional operator. */
  predicate Generable(g: Graph, t: Tree)
    requires TreeInGraph(g, t)
  {
    match t
    case Empty => true
    case Leaf(b) => g[b].origin.term != TernaryTerm
    case Chain(b, next) => g[b].origin.term != TernaryTerm && Generable(g, next)
    case Fork(b, thn, els) =>
      && !g[b].hasWait && (g[b].origin.term == IfTerm || g[b].origin.term == LoopTerm)
      && (thn.Some? ==> Generable(g, thn.value)) && (els.Some? ==> Generable(g, els.value))
  }

  /** A wait is counted if a block that is generated gives one, wherever in the tree. */
  lemma {:induction false} CountedIff(g: Graph, t: Tree)
    requires TreeInGraph(g, t) && Generable(g, t)
    ensures Counted(g, t) <==> exists b :: b in Preorder(t) && b < |g| && CountedBlock(g[b])
  {
    hide CountedElems;
    match t
    case Empty =>
    case Leaf(b) =>
    case Chain(b, next) => CountedIff(g, next);
    case Fork(b, thn, els) =>
      if thn.Some? { CountedIff(g, thn.value); }
      if els.Some? { CountedIff(g, els.value); }
  }
}
