/** What a thread does on the split graph, from one wait to the next, and that the code
generated for a decision tree does the same. */
module Threads {
  import opened ThreadGraph
  import opened Unfolding
  import opened PathSearch
  import opened Encoding
  import opened Hcodes

  /** The thread is about to run `block`. */
  datatype Config = Config(block: nat, store: Store)

  function RunElems(sem: Sem, cfg: nat, elems: seq<Elem>, store: Store): Store {
    if elems == [] then store
    else
      var before := RunElems(sem, cfg, elems[..|elems| - 1], store);
      var e := elems[|elems| - 1];
      if e.Stmt? then sem.eff(cfg, e.id, before) else before
  }

  /** The statements of a block.  With `drop` those of a block with a terminator are left
      out, which is what the code generator does. */
  function RunBlock(b: Block, sem: Sem, drop: bool, store: Store): Store {
    if drop && b.origin.term != NoTerm then store else RunElems(sem, b.cfg, b.elems, store)
  }

  predicate Halted(g: Graph, c: Config)
    requires c.block < |g|
  {
    g[c.block].hasWait || g[c.block].succs == []
  }

  /** One block of the thread: its statements, then the successor its condition selects. */
  function ThreadStep(g: Graph, sem: Sem, drop: bool, c: Config): (r: Config)
    requires Closed(g) && c.block < |g| && !Halted(g, c)
    ensures r.block < |g|
  {
    var b := g[c.block];
    var store := RunBlock(b, sem, drop, c.store);
    Config(if |b.succs| == 1 || sem.holds(b.cfg, store) then b.succs[0] else b.succs[1], store)
  }

  /** At most `n` blocks, stopping at a wait or at the end. */
  function ThreadSteps(g: Graph, sem: Sem, drop: bool, c: Config, n: nat): (r: Config)
    requires Closed(g) && c.block < |g|
    ensures r.block < |g|
    decreases n
  {
    if n == 0 || Halted(g, c) then c else ThreadSteps(g, sem, drop, ThreadStep(g, sem, drop, c), n - 1)
  }

  /** What a clock in which the thread halts at `c` leaves in the machine. */
  function Finish(g: Graph, plan: Plan, sem: Sem, c: Config, m: Machine): Machine
    requires c.block < |g|
  {
    var b := g[c.block];
    if b.hasWait then
      if |b.elems| > 0 && b.elems[0].Wait? && b.elems[0].arg.Some? then
        m.(store := c.store, nextCounter := Bits(b.elems[0].arg.value), nextResume := plan.NextState(c.block),
           nextState := plan.numStates, returned := true)
      else m.(store := c.store, nextState := plan.NextState(c.block), returned := true)
    else m.(store := RunBlock(b, sem, true, c.store))
  }

  lemma {:induction false} ExecElems(elems: seq<Elem>, cfg: nat, next: nat, numStates: nat, sem: Sem, regs: Regs, m: Machine)
    requires !m.returned && forall e :: e in elems ==> e.Stmt?
    ensures ExecAll(EmitElems(elems, cfg, next, numStates), sem, regs, m) == m.(store := RunElems(sem, cfg, elems, m.store))
  {
    if elems != [] {
      var last := |elems| - 1;
      ExecElems(elems[..last], cfg, next, numStates, sem, regs, m);
      ExecAppend(EmitElems(elems[..last], cfg, next, numStates), EmitElem(elems[last], cfg, next, numStates), sem, regs, m);
    }
  }

  /** The code of a block that is not a wait runs its statements, unless it has a terminator. */
  lemma {:induction false} ExecBlock(g: Graph, plan: Plan, b: nat, sem: Sem, regs: Regs, m: Machine)
    requires b < |g| && BlockShape(g[b]) && !g[b].hasWait && !m.returned
    ensures ExecAll(EmitBlock(g, plan, b), sem, regs, m) == m.(store := RunBlock(g[b], sem, true, m.store))
  {
    if g[b].origin.term == NoTerm {
      ExecElems(g[b].elems, g[b].cfg, plan.NextState(b), plan.numStates, sem, regs, m);
    }
  }

  lemma {:induction false} ExecWait(g: Graph, plan: Plan, b: nat, sem: Sem, regs: Regs, m: Machine)
    requires b < |g| && BlockShape(g[b]) && g[b].hasWait && !m.returned
    ensures ExecAll(EmitBlock(g, plan, b), sem, regs, m) == Finish(g, plan, sem, Config(b, m.store), m)
  {
    var elems := g[b].elems;
    var next := plan.NextState(b);
    assert EmitElems(elems[..0], g[b].cfg, next, plan.numStates) == [];
    assert EmitBlock(g, plan, b) == EmitWait(elems[0].arg, next, plan.numStates);
    ExecWaitCode(elems[0].arg, next, plan.numStates, sem, regs, m);
  }

  lemma {:induction false} ExecWaitCode(arg: Option<int>, next: nat, numStates: nat, sem: Sem, regs: Regs, m: Machine)
    requires !m.returned
    ensures ExecAll(EmitWait(arg, next, numStates), sem, regs, m) ==
            if arg.Some?
            then m.(nextCounter := Bits(arg.value), nextResume := next, nextState := numStates, returned := true)
            else m.(nextState := next, returned := true)
  {
    match arg
    case None =>
      assert EmitWait(arg, next, numStates) == [SetNextState(next)] + ([Return] + []);
      ExecCons(SetNextState(next), [Return] + [], sem, regs, m);
      ExecCons(Return, [], sem, regs, m.(nextState := next));
    case Some(n) =>
      var rest := [SaveResume(next)] + ([SetNextState(numStates)] + ([Return] + []));
      assert EmitWait(arg, next, numStates) == [SetWaitCounter(n)] + rest;
      ExecCons(SetWaitCounter(n), rest, sem, regs, m);
      var m1 := m.(nextCounter := Bits(n));
      ExecCons(SaveResume(next), [SetNextState(numStates)] + ([Return] + []), sem, regs, m1);
      var m2 := m1.(nextResume := next);
      ExecCons(SetNextState(numStates), [Return] + [], sem, regs, m2);
      ExecCons(Return, [], sem, regs, m2.(nextState := numStates));
  }

  /** Running the code of the tree below `b` is running block `b` and then the code of the
      tree below the successor the thread takes. */
  lemma {:induction false} TreeStepRuns(g: Graph, plan: Plan, sem: Sem, regs: Regs, b: nat, q: seq<nat>, visited: set<nat>, m: Machine)
    requires ThreadShape(g) && b < |g| && b in visited && Behind(g, q, b, visited) && !m.returned
    requires !Halted(g, Config(b, m.store))
    ensures var c := ThreadStep(g, sem, true, Config(b, m.store));
            && Behind(g, q + [c.block], c.block, visited + {c.block}) && c.block !in visited
            && TreeInGraph(g, Body(g, b, visited)) && TreeInGraph(g, Body(g, c.block, visited + {c.block}))
            && ExecAll(EmitTree(g, plan, Body(g, b, visited)), sem, regs, m)
               == ExecAll(EmitTree(g, plan, Body(g, c.block, visited + {c.block})), sem, regs, m.(store := c.store))
  {
    var c := ThreadStep(g, sem, true, Config(b, m.store));
    var m1, s := m.(store := c.store), c.block;
    assert BlockShape(g[b]) && BlockShape(g[s]) && (!g[b].Branching() ==> |g[b].succs| <= 1);
    hide CyclesWait, WellBranched, Walk, WaitFree, Behind, EmitBlock, Exec;
    BodyInGraph(g, b, visited);
    BodyInGraph(g, s, visited + {s});
    NotBehind(g, q, b, visited, s);
    if g[b].Branching() {
      ForkRuns(g, plan, sem, regs, b, q, visited, m, s);
      if g[s].succs == [] && !g[s].hasWait {
        ExecBlock(g, plan, s, sem, regs, m1);
      }
    } else {
      ExecBlock(g, plan, b, sem, regs, m);
      ExecAppend(EmitBlock(g, plan, b), EmitTree(g, plan, Body(g, s, visited + {s})), sem, regs, m);
    }
  }

  lemma {:induction false} HaltRuns(g: Graph, plan: Plan, sem: Sem, regs: Regs, b: nat, visited: set<nat>, m: Machine)
    requires Closed(g) && b < |g| && BlockShape(g[b]) && !m.returned && Halted(g, Config(b, m.store))
    ensures TreeInGraph(g, Body(g, b, visited))
    ensures ExecAll(EmitTree(g, plan, Body(g, b, visited)), sem, regs, m)
            == Finish(g, plan, sem, Config(b, m.store), m)
  {
    hide ExecAll, EmitBlock, RunBlock;
    if g[b].hasWait { ExecWait(g, plan, b, sem, regs, m); } else { ExecBlock(g, plan, b, sem, regs, m); }
  }

  /** Running the code of the tree below `b` is running the thread from `b` until it halts. */
  lemma {:induction false} TreeRuns(g: Graph, plan: Plan, sem: Sem, regs: Regs, b: nat, q: seq<nat>, visited: set<nat>, m: Machine)
    returns (n: nat)
    requires ThreadShape(g) && b < |g| && b in visited && Behind(g, q, b, visited) && !m.returned
    ensures TreeInGraph(g, Body(g, b, visited))
    ensures var c := ThreadSteps(g, sem, true, Config(b, m.store), n);
            && Halted(g, c)
            && ExecAll(EmitTree(g, plan, Body(g, b, visited)), sem, regs, m) == Finish(g, plan, sem, c, m)
    decreases AllBlocks(g) - visited
  {
    BodyInGraph(g, b, visited);
    assert BlockShape(g[b]);
    n := 0;
    hide CyclesWait, WellBranched, Behind, EmitTree, ExecAll, BlockShape, Body, ThreadStep, Finish;
    if Halted(g, Config(b, m.store)) {
      HaltRuns(g, plan, sem, regs, b, visited, m);
    } else {
      var c := ThreadStep(g, sem, true, Config(b, m.store));
      TreeStepRuns(g, plan, sem, regs, b, q, visited, m);
      assert c.block in AllBlocks(g) - visited;
      n := TreeRuns(g, plan, sem, regs, c.block, q + [c.block], visited + {c.block}, m.(store := c.store));
      FinishOnce(g, plan, sem, ThreadSteps(g, sem, true, c, n), m, c.store);
      n := n + 1;
    }
  }

  /** The store before the clock ends does not matter to what the clock leaves. */
  lemma FinishOnce(g: Graph, plan: Plan, sem: Sem, c: Config, m: Machine, store: Store)
    requires c.block < |g|
    ensures Finish(g, plan, sem, c, m.(store := store)) == Finish(g, plan, sem, c, m)
  {
  }

  /** Running the if statement of a fork is running the arm the condition selects. */
  lemma {:induction false} ForkRuns(g: Graph, plan: Plan, sem: Sem, regs: Regs, b: nat, q: seq<nat>, visited: set<nat>, m: Machine, s: nat)
    requires ThreadShape(g) && b < |g| && b in visited && Behind(g, q, b, visited) && !m.returned
    requires !g[b].hasWait && g[b].Branching() && s == ThreadStep(g, sem, true, Config(b, m.store)).block
    ensures s !in visited && TreeInGraph(g, Body(g, b, visited)) && TreeInGraph(g, Act(g, s, visited))
    ensures ExecAll(EmitTree(g, plan, Body(g, b, visited)), sem, regs, m)
            == ExecAll(EmitTree(g, plan, Act(g, s, visited)), sem, regs, m)
  {
    hide CyclesWait, WellBranched, Walk, WaitFree, Behind, ExecAll, Arms;
    BodyInGraph(g, b, visited);
    assert BlockShape(g[b]);
    NotBehind(g, q, b, visited, g[b].succs[0]);
    NotBehind(g, q, b, visited, g[b].succs[1]);
    ActInGraph(g, s, visited);
    var thn, els := Act(g, g[b].succs[0], visited), Act(g, g[b].succs[1], visited);
    assert Body(g, b, visited) == Fork(b, Some(thn), Some(els));
    IfRuns(g[b].cfg, EmitTree(g, plan, thn), EmitTree(g, plan, els), sem, regs, m);
  }

  lemma {:induction false} IfRuns(cond: nat, thn: seq<Hcode>, els: seq<Hcode>, sem: Sem, regs: Regs, m: Machine)
    requires !m.returned
    ensures ExecAll([IfStmt(cond, Arms(thn, els))], sem, regs, m)
            == ExecAll(if sem.holds(cond, m.store) then thn else els, sem, regs, m)
  {
    assert [IfStmt(cond, Arms(thn, els))] == [IfStmt(cond, Arms(thn, els))] + [];
    ExecCons(IfStmt(cond, Arms(thn, els)), [], sem, regs, m);
  }

  /** With a wait in every cycle, the thread comes to a wait or to its end. */
  lemma {:induction false} ThreadHalts(g: Graph, sem: Sem, drop: bool, c: Config, q: seq<nat>, visited: set<nat>) returns (n: nat)
    requires ThreadShape(g) && c.block < |g| && c.block in visited && Behind(g, q, c.block, visited)
    ensures Halted(g, ThreadSteps(g, sem, drop, c, n))
    decreases AllBlocks(g) - visited
  {
    n := 0;
    if !Halted(g, c) {
      var c' := ThreadStep(g, sem, drop, c);
      assert BlockShape(g[c.block]);
      NotBehind(g, q, c.block, visited, c'.block);
      assert c'.block in AllBlocks(g) - visited;
      n := ThreadHalts(g, sem, drop, c', q + [c'.block], visited + {c'.block});
      n := n + 1;
    }
  }
}
