/** The clocked state machine generated for a thread, and that it does what the thread does. */
module Fsms {
  import opened ThreadGraph
  import opened States
  import opened Reachability
  import opened Encoding
  import opened Hcodes
  import opened Threads

  /** The case of each state, in the order of the state numbers. */
  datatype Fsm = Fsm(cases: seq<seq<Hcode>>)

  /** What is kept from one clock to the next: the registers, and a shadow of every variable. */
  datatype FsmState = FsmState(regs: Regs, shadow: Store)

  /** The main method: next values default to the current ones, variables are read from their
      shadows, and the case of the current state runs. */
  function MainMethod(fsm: Fsm, sem: Sem, s: FsmState): Machine {
    var m := Machine(s.shadow, s.regs.state, s.regs.counter, s.regs.resume, false);
    if s.regs.state < |fsm.cases| then ExecAll(fsm.cases[s.regs.state], sem, s.regs, m) else m
  }

  function Zeroed(store: Store): (zeros: Store)
    ensures zeros.Keys == store.Keys && forall v :: v in zeros ==> zeros[v] == 0
  {
    map v | v in store :: 0
  }

  /** The update method: registers and shadows take the next values, or 0 on reset. */
  function StateUpdate(reset: bool, s: FsmState, m: Machine): FsmState {
    if reset then FsmState(Regs(0, 0, 0), Zeroed(s.shadow))
    else FsmState(Regs(m.nextState, m.nextCounter, m.nextResume), m.store)
  }

  function Clock(fsm: Fsm, sem: Sem, reset: bool, s: FsmState): FsmState {
    StateUpdate(reset, s, MainMethod(fsm, sem, s))
  }

  /** Whatever the machine held, after a clock with reset every register and every variable is 0. */
  lemma ResetZeroes(fsm: Fsm, sem: Sem, s: FsmState)
    ensures var r := Clock(fsm, sem, true, s);
            && r.regs.state == 0 && r.regs.counter == 0 && r.regs.resume == 0
            && r.shadow.Keys == s.shadow.Keys && forall v :: v in r.shadow ==> r.shadow[v] == 0
  {
  }

  /** Without reset what the main method leaves is taken over, and where it changes nothing the
      registers and variables keep their values. */
  lemma NoResetTakes(fsm: Fsm, sem: Sem, s: FsmState)
    ensures var m, r := MainMethod(fsm, sem, s), Clock(fsm, sem, false, s);
            && r.regs.state == m.nextState && r.regs.counter == m.nextCounter && r.regs.resume == m.nextResume
            && r.shadow == m.store
    ensures s.regs.state < |fsm.cases| && fsm.cases[s.regs.state] == [] ==> Clock(fsm, sem, false, s) == s
    ensures s.regs.state >= |fsm.cases| ==> Clock(fsm, sem, false, s) == s
  {
  }

  /** `n` clocks without a reset. */
  function Clocks(fsm: Fsm, sem: Sem, s: FsmState, n: nat): FsmState
    decreases n
  {
    if n == 0 then s else Clocks(fsm, sem, Clock(fsm, sem, false, s), n - 1)
  }

  lemma {:induction false} ClocksAdd(fsm: Fsm, sem: Sem, s: FsmState, m: nat, n: nat)
    ensures Clocks(fsm, sem, s, m + n) == Clocks(fsm, sem, Clocks(fsm, sem, s, m), n)
    decreases m
  {
    if m > 0 { ClocksAdd(fsm, sem, Clock(fsm, sem, false, s), m - 1, n); }
  }

  function PlanOf(g: Graph, order: seq<nat>): Plan
    requires InRange(g, order)
  {
    Plan(StatesOf(NextOf(g, order)), |order| + 1)
  }

  /** `fsm` was generated from graph `g` with its states numbered by `order`. */
  ghost predicate Compiled(g: Graph, entry: nat, order: seq<nat>, fsm: Fsm) {
    && ThreadShape(g) && entry < |g| && Explores(g, entry, order, |order| + 1)
    && |fsm.cases| >= |order| + 1
    && (forall k :: 0 <= k <= |order| ==> CaseOk(g, entry, order, fsm, k))
  }

  ghost predicate CaseOk(g: Graph, entry: nat, order: seq<nat>, fsm: Fsm, k: nat)
    requires Closed(g) && entry < |g| && InRange(g, order) && k <= |order| < |fsm.cases|
  {
    var t := Explored(g, StartOf(g, entry, order, k));
    && fsm.cases[k] == EmitTree(g, PlanOf(g, order), t)
    && (Counted(g, t) ==> |fsm.cases| == |order| + 2 && fsm.cases[|order| + 1] == WaitCase())
  }

  lemma {:induction false} WaitCaseRuns(sem: Sem, regs: Regs, m: Machine)
    requires !m.returned
    ensures ExecAll(WaitCase(), sem, regs, m) ==
            m.(nextCounter := Bits(m.nextCounter - 1), nextState := if regs.counter == 0 then regs.resume else m.nextState)
  {
    var h := IfCounterZero(NextStateFromResume);
    assert WaitCase() == [DecWaitCounter] + ([h] + []);
    ExecCons(DecWaitCounter, [h] + [], sem, regs, m);
    ExecCons(h, [], sem, regs, m.(nextCounter := Bits(m.nextCounter - 1)));
  }

  /** The wait state: the counter is counted down to 0 in n + 1 clocks, in which the resume
      state and every variable keep their values; then the resume state is entered. */
  lemma {:induction false} CountedWait(fsm: Fsm, sem: Sem, w: nat, n: Bits32, resume: nat, shadow: Store, i: nat)
    requires w < |fsm.cases| && fsm.cases[w] == WaitCase() && i <= n + 1
    ensures Clocks(fsm, sem, FsmState(Regs(w, n, resume), shadow), i) ==
            FsmState(Regs(if i == n + 1 then resume else w, Bits(n - i), resume), shadow)
    decreases i
  {
    if i > 0 {
      CountedWait(fsm, sem, w, n, resume, shadow, i - 1);
      var c := Bits(n - (i - 1));
      var s := FsmState(Regs(w, c, resume), shadow);
      ClocksAdd(fsm, sem, FsmState(Regs(w, n, resume), shadow), i - 1, 1);
      WaitCaseRuns(sem, s.regs, Machine(shadow, w, c, resume, false));
      assert Clocks(fsm, sem, s, 1) == Clocks(fsm, sem, Clock(fsm, sem, false, s), 0);
    }
  }

  /** The clocks in the wait state for an argument that fits its register: n + 1, and for a
      negative one 2^32 more, because the register wraps around before it reaches 0. */
  function WaitClocks(n: int): int {
    if n >= 0 then n + 1 else n + 0x1_0000_0000 + 1
  }

  /** The wait state is left after `WaitClocks` clocks and not before. */
  lemma {:induction false} WaitLasts(fsm: Fsm, sem: Sem, w: nat, n: int, resume: nat, shadow: Store, i: nat)
    requires w < |fsm.cases| && fsm.cases[w] == WaitCase() && -0x8000_0000 <= n < 0x8000_0000 && i <= WaitClocks(n)
    ensures var s := Clocks(fsm, sem, FsmState(Regs(w, Bits(n), resume), shadow), i);
            s.shadow == shadow && s.regs.resume == resume && s.regs.state == if i == WaitClocks(n) then resume else w
  {
    CountedWait(fsm, sem, w, Bits(n), resume, shadow, i);
  }

  /** A reset in the middle of a counted wait: the count, the state to go on with and all
      variables are gone. */
  lemma {:induction false} ResetInWait(fsm: Fsm, sem: Sem, w: nat, n: Bits32, resume: nat, shadow: Store, i: nat)
    requires w < |fsm.cases| && fsm.cases[w] == WaitCase() && i <= n
    ensures var s := Clocks(fsm, sem, FsmState(Regs(w, n, resume), shadow), i);
            var r := Clock(fsm, sem, true, s);
            && s.regs.state == w && s.regs.counter == n - i && s.regs.resume == resume && s.shadow == shadow
            && r.regs.state == 0 && r.regs.counter == 0 && r.regs.resume == 0
            && r.shadow.Keys == shadow.Keys && forall v :: v in r.shadow ==> r.shadow[v] == 0
  {
    CountedWait(fsm, sem, w, n, resume, shadow, i);
    ResetZeroes(fsm, sem, Clocks(fsm, sem, FsmState(Regs(w, n, resume), shadow), i));
    hide Clocks, Clock;
  }

  /** A thread's steps trace out a walk. */
  lemma {:induction false} StepsWalk(g: Graph, sem: Sem, drop: bool, c: Config, n: nat) returns (p: seq<nat>)
    requires ThreadShape(g) && c.block < |g|
    ensures Path(g, p, c.block, ThreadSteps(g, sem, drop, c, n).block)
    decreases n
  {
    if n == 0 || Halted(g, c) {
      p := [c.block];
    } else {
      assert BlockShape(g[c.block]);
      var c' := ThreadStep(g, sem, drop, c);
      p := StepsWalk(g, sem, drop, c', n - 1);
      Step(g, c.block, p, ThreadSteps(g, sem, drop, c, n).block);
      p := [c.block] + p;
    }
  }

  /** The machine at the start of a clock. */
  function Loaded(s: FsmState): Machine {
    Machine(s.shadow, s.regs.state, s.regs.counter, s.regs.resume, false)
  }

  lemma {:induction false} ExploredRuns(g: Graph, plan: Plan, sem: Sem, regs: Regs, b: nat, m: Machine) returns (n: nat)
    requires ThreadShape(g) && b < |g| && !m.returned
    ensures var c := ThreadSteps(g, sem, true, Config(b, m.store), n);
            && Halted(g, c)
            && ExecAll(EmitTree(g, plan, Explored(g, b)), sem, regs, m) == Finish(g, plan, sem, c, m)
  {
    assert {} + {b} == {b};
    assert Behind(g, [b], b, {b});
    n := TreeRuns(g, plan, sem, regs, b, [b], {b}, m);
    if g[b].succs == [] {
      assert BlockShape(g[b]);
      HaltRuns(g, plan, sem, regs, b, {b}, m);
      ExecBlock(g, plan, b, sem, regs, m);
      n := 0;
    }
  }

  /** One clock in state `k`: the thread runs from the block where `k` starts until it halts,
      and the clock leaves just what the thread leaves. */
  lemma {:induction false} ClockRuns(g: Graph, entry: nat, order: seq<nat>, fsm: Fsm, sem: Sem, s: FsmState) returns (n: nat)
    requires Compiled(g, entry, order, fsm) && s.regs.state <= |order|
    ensures var c := ThreadSteps(g, sem, true, Config(StartOf(g, entry, order, s.regs.state), s.shadow), n);
            && Halted(g, c)
            && Clock(fsm, sem, false, s) == StateUpdate(false, s, Finish(g, PlanOf(g, order), sem, c, Loaded(s)))
  {
    assert CaseOk(g, entry, order, fsm, s.regs.state);
    hide Explored, EmitTree, ExecAll, ThreadSteps, ThreadShape, Explores, PlanOf, Finish, StateUpdate;
    n := ExploredRuns(g, PlanOf(g, order), sem, s.regs, StartOf(g, entry, order, s.regs.state), Loaded(s));
  }
}
