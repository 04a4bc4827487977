/** Exactly when a clock does what the thread does: when no block on a state's path holds
statements next to a terminator. */
module Exactness {
  import opened ThreadGraph
  import opened Unfolding
  import opened States
  import opened Reachability
  import opened Encoding
  import opened Hcodes
  import opened Threads
  import opened Fsms
  import opened Refinement

  /** The block's statements are not generated. */
  predicate Dropped(b: Block) {
    !b.hasWait && b.origin.term != NoTerm && b.elems != []
  }

  /** In state `k` the clock leaves what the thread, run from there, leaves when it halts. */
  ghost predicate Faithful(g: Graph, entry: nat, order: seq<nat>, fsm: Fsm, sem: Sem, s: FsmState, n: nat)
    requires Closed(g) && entry < |g| && InRange(g, order) && s.regs.state <= |order|
  {
    var c := ThreadSteps(g, sem, false, Config(StartOf(g, entry, order, s.regs.state), s.shadow), n);
    Halted(g, c) ==> Clock(fsm, sem, false, s) == StateUpdate(false, s, Finish(g, PlanOf(g, order), sem, c, Loaded(s)))
  }

  /** The thread, run from `from`, halts with another store than the clock leaves. */
  ghost predicate StoreDiffers(g: Graph, fsm: Fsm, sem: Sem, s: FsmState, from: Config, n: nat)
    requires Closed(g) && from.block < |g|
  {
    var c := ThreadSteps(g, sem, false, from, n);
    Halted(g, c) && Clock(fsm, sem, false, s).shadow != c.store
  }

  /** Different forks test different conditions. */
  predicate DistinctConds(g: Graph) {
    forall a, b :: 0 <= a < |g| && 0 <= b < |g| && |g[a].succs| == 2 && |g[b].succs| == 2 && g[a].cfg == g[b].cfg
      ==> a == b
  }

  lemma {:induction false} StepsAgreeOn(g: Graph, sem: Sem, c: Config, n: nat)
    requires ThreadShape(g) && c.block < |g|
    requires forall p, b: nat :: Path(g, p, c.block, b) ==> !Dropped(g[b])
    ensures ThreadSteps(g, sem, false, c, n) == ThreadSteps(g, sem, true, c, n)
    decreases n
  {
    if n > 0 && !Halted(g, c) {
      assert BlockShape(g[c.block]);
      assert Path(g, [c.block], c.block, c.block);
      var c' := ThreadStep(g, sem, true, c);
      assert c' == ThreadStep(g, sem, false, c);
      forall p, b: nat | Path(g, p, c'.block, b) ensures !Dropped(g[b]) {
        Step(g, c.block, p, b);
      }
      StepsAgreeOn(g, sem, c', n - 1);
    }
  }

  // ----- A thread that counts the statements it runs, steered along a given walk -----

  function Count(store: Store): int {
    if "x" in store then store["x"] else 0
  }

  function Steered(conds: set<nat>): Sem {
    Sem((c, i, store) => store["x" := Count(store) + 1], (c, store) => c in conds)
  }

  /** The conditions in `conds` are true just where the walk takes the first successor. */
  predicate Steers(g: Graph, q: seq<nat>, conds: set<nat>)
    requires Walk(g, q)
  {
    forall i :: 0 <= i < |q| - 1 && |g[q[i]].succs| == 2 ==> (g[q[i]].cfg in conds <==> q[i + 1] == g[q[i]].succs[0])
  }

  lemma {:induction false} Steering(g: Graph, q: seq<nat>) returns (conds: set<nat>)
    requires Walk(g, q) && NoRepeat(q) && DistinctConds(g)
    ensures Steers(g, q, conds)
  {
    conds := set i | 0 <= i < |q| - 1 && |g[q[i]].succs| == 2 && q[i + 1] == g[q[i]].succs[0] :: g[q[i]].cfg;
  }

  lemma {:induction false} CountElems(conds: set<nat>, cfg: nat, elems: seq<Elem>, store: Store)
    requires forall e :: e in elems ==> e.Stmt?
    ensures Count(RunElems(Steered(conds), cfg, elems, store)) == Count(store) + |elems|
  {
    if elems != [] { CountElems(conds, cfg, elems[..|elems| - 1], store); }
  }

  lemma {:induction false} SteersTail(g: Graph, q: seq<nat>, conds: set<nat>)
    requires Walk(g, q) && Steers(g, q, conds) && |q| > 1
    ensures Walk(g, q[1..]) && Steers(g, q[1..], conds) && (WaitFree(g, q) ==> WaitFree(g, q[1..]) && !g[q[0]].hasWait)
    ensures q[1] in g[q[0]].succs
  {
    var rest := q[1..];
    assert q[0 + 1] in g[q[0]].succs;
    forall i | 0 <= i < |rest| - 1
      ensures rest[i + 1] in g[rest[i]].succs && (WaitFree(g, q) ==> !g[rest[i]].hasWait)
      ensures |g[rest[i]].succs| == 2 ==> (g[rest[i]].cfg in conds <==> rest[i + 1] == g[rest[i]].succs[0])
    {
      assert rest[i] == q[i + 1] && rest[i + 1] == q[i + 1 + 1];
    }
  }

  /** One step of the steered thread along the walk. */
  lemma {:induction false} StepFollows(g: Graph, q: seq<nat>, conds: set<nat>, drop: bool, c: Config)
    requires ThreadShape(g) && Walk(g, q) && Steers(g, q, conds) && |q| > 1 && c.block == q[0] && !g[q[0]].hasWait
    ensures !Halted(g, c) && ThreadStep(g, Steered(conds), drop, c).block == q[1]
  {
    assert q[0 + 1] in g[q[0]].succs && |g[q[0]].succs| <= 2;
  }

  /** The steered thread follows the walk, whether statements are dropped or not. */
  lemma {:induction false} Follows(g: Graph, q: seq<nat>, conds: set<nat>, drop: bool, c: Config)
    requires ThreadShape(g) && Walk(g, q) && WaitFree(g, q) && Steers(g, q, conds) && c.block == q[0]
    ensures ThreadSteps(g, Steered(conds), drop, c, |q| - 1).block == q[|q| - 1]
    decreases |q|
  {
    if |q| > 1 {
      SteersTail(g, q, conds);
      StepFollows(g, q, conds, drop, c);
      Follows(g, q[1..], conds, drop, ThreadStep(g, Steered(conds), drop, c));
    }
  }

  /** The thread that runs all statements never falls behind the one that drops some, and
      gets ahead where statements are dropped. */
  lemma {:induction false} StepAhead(g: Graph, conds: set<nat>, c: Config, d: Config)
    requires ThreadShape(g) && c.block < |g| && c.block == d.block && Count(c.store) >= Count(d.store)
    requires !Halted(g, c)
    ensures var c', d' := ThreadStep(g, Steered(conds), false, c), ThreadStep(g, Steered(conds), true, d);
            && c'.block == d'.block && Count(c'.store) >= Count(d'.store)
            && (Dropped(g[c.block]) ==> Count(c'.store) > Count(d'.store))
            && (Count(c.store) > Count(d.store) ==> Count(c'.store) > Count(d'.store))
  {
    var b := g[c.block];
    assert BlockShape(b);
    CountElems(conds, b.cfg, b.elems, c.store);
    CountElems(conds, b.cfg, b.elems, d.store);
  }

  lemma {:induction false} StepsAhead(g: Graph, conds: set<nat>, c: Config, d: Config, n: nat)
    requires ThreadShape(g) && c.block < |g| && c.block == d.block && Count(c.store) >= Count(d.store)
    ensures var c', d' := ThreadSteps(g, Steered(conds), false, c, n), ThreadSteps(g, Steered(conds), true, d, n);
            && c'.block == d'.block && Count(c'.store) >= Count(d'.store)
            && (Count(c.store) > Count(d.store) ==> Count(c'.store) > Count(d'.store))
    decreases n
  {
    if n > 0 && !Halted(g, c) {
      StepAhead(g, conds, c, d);
      StepsAhead(g, conds, ThreadStep(g, Steered(conds), false, c), ThreadStep(g, Steered(conds), true, d), n - 1);
    }
  }

  lemma {:induction false} StepsAdd(g: Graph, sem: Sem, drop: bool, c: Config, m: nat, n: nat)
    requires Closed(g) && c.block < |g|
    ensures ThreadSteps(g, sem, drop, c, m + n) == ThreadSteps(g, sem, drop, ThreadSteps(g, sem, drop, c, m), n)
    decreases m
  {
    if m > 0 && !Halted(g, c) {
      StepsAdd(g, sem, drop, ThreadStep(g, sem, drop, c), m - 1, n);
    }
  }

  lemma {:induction false} StaysHalted(g: Graph, sem: Sem, drop: bool, c: Config, n: nat, m: nat)
    requires Closed(g) && c.block < |g| && n <= m && Halted(g, ThreadSteps(g, sem, drop, c, n))
    ensures Halted(g, ThreadSteps(g, sem, drop, c, m))
  {
    StepsAdd(g, sem, drop, c, n, m - n);
  }

  lemma {:induction false} PartAt(g: Graph, conds: set<nat>, c: Config, d: Config, n: nat)
    requires ThreadShape(g) && c.block < |g| && c.block == d.block && Count(c.store) >= Count(d.store)
    requires Dropped(g[c.block]) && Halted(g, ThreadSteps(g, Steered(conds), true, d, n))
    ensures var c', d' := ThreadSteps(g, Steered(conds), false, c, n), ThreadSteps(g, Steered(conds), true, d, n);
            c'.block == d'.block && c'.store != d'.store
  {
    assert BlockShape(g[c.block]);
    StepAhead(g, conds, c, d);
    StepsAhead(g, conds, ThreadStep(g, Steered(conds), false, c), ThreadStep(g, Steered(conds), true, d), n - 1);
  }

  /** If a block on the way drops statements, the two threads halt with different stores. */
  lemma {:induction false} RunsPart(g: Graph, q: seq<nat>, conds: set<nat>, from: Config, n: nat)
    requires ThreadShape(g) && Walk(g, q) && WaitFree(g, q) && Steers(g, q, conds) && from.block == q[0]
    requires Dropped(g[q[|q| - 1]]) && Halted(g, ThreadSteps(g, Steered(conds), true, from, n))
    ensures var c', d' := ThreadSteps(g, Steered(conds), false, from, n), ThreadSteps(g, Steered(conds), true, from, n);
            c'.block == d'.block && c'.store != d'.store
  {
    var sem, m := Steered(conds), |q| - 1;
    assert Closed(g) && q[0] < |g| && q[m] < |g| && !Halted(g, Config(q[m], from.store)) by {
      assert BlockShape(g[q[m]]);
    }
    hide ThreadShape, Walk, WaitFree, Steers, Steered, Count, ThreadStep, ThreadSteps, Dropped;
    Follows(g, q, conds, false, from);
    Follows(g, q, conds, true, from);
    if n <= m {
      StaysHalted(g, sem, true, from, n, m);
      assert false;
    }
    PartLater(g, conds, from, m, n - m);
  }

  lemma {:induction false} PartLater(g: Graph, conds: set<nat>, from: Config, m: nat, k: nat)
    requires ThreadShape(g) && from.block < |g|
    requires Dropped(g[ThreadSteps(g, Steered(conds), false, from, m).block])
    requires Halted(g, ThreadSteps(g, Steered(conds), true, from, m + k))
    ensures var c', d' := ThreadSteps(g, Steered(conds), false, from, m + k), ThreadSteps(g, Steered(conds), true, from, m + k);
            c'.block == d'.block && c'.store != d'.store
  {
    assert Closed(g);
    StepsAdd(g, Steered(conds), false, from, m, k);
    StepsAdd(g, Steered(conds), true, from, m, k);
    StepsAhead(g, conds, from, from, m);
    hide *;
    PartAt(g, conds, ThreadSteps(g, Steered(conds), false, from, m), ThreadSteps(g, Steered(conds), true, from, m), k);
  }

  /** A clock in a state does what the thread does, whatever the statements and conditions
      mean, if and only if no block on the state's path holds statements next to a terminator. */
  lemma {:induction false} FaithfulIff(g: Graph, entry: nat, order: seq<nat>, fsm: Fsm, k: nat)
    requires Compiled(g, entry, order, fsm) && DistinctConds(g) && k <= |order|
    ensures (forall b: nat :: b in Preorder(Explored(g, StartOf(g, entry, order, k))) ==> b < |g| && !Dropped(g[b]))
            <==> (forall sem: Sem, s: FsmState, n: nat :: s.regs.state == k ==> Faithful(g, entry, order, fsm, sem, s, n))
  {
    var start := StartOf(g, entry, order, k);
    forall b: nat | b in Preorder(Explored(g, start)) ensures b < |g| {
      var p := ActSound(g, start, {}, b);
    }
    if forall b: nat :: b in Preorder(Explored(g, start)) ==> !Dropped(g[b]) {
      forall sem: Sem, s: FsmState, n: nat | s.regs.state == k ensures Faithful(g, entry, order, fsm, sem, s, n) {
        KeptIsFaithful(g, entry, order, fsm, sem, s, n);
      }
    } else {
      var x: nat :| x in Preorder(Explored(g, start)) && Dropped(g[x]);
      var sem, s, n := DroppedIsUnfaithful(g, entry, order, fsm, k, x);
      assert !Faithful(g, entry, order, fsm, sem, s, n);
    }
  }

  lemma {:induction false} KeptIsFaithful(g: Graph, entry: nat, order: seq<nat>, fsm: Fsm, sem: Sem, s: FsmState, n: nat)
    requires Compiled(g, entry, order, fsm) && s.regs.state <= |order|
    requires forall b: nat :: b in Preorder(Explored(g, StartOf(g, entry, order, s.regs.state))) ==> b < |g| && !Dropped(g[b])
    ensures Faithful(g, entry, order, fsm, sem, s, n)
  {
    var start := StartOf(g, entry, order, s.regs.state);
    var from := Config(start, s.shadow);
    forall p, b: nat | Path(g, p, start, b) ensures !Dropped(g[b]) {
      assert BlockShape(g[b]);
      if g[b].succs != [] { PathIsReachable(g, start, b); }
    }
    StepsAgreeOn(g, sem, from, n);
    if Halted(g, ThreadSteps(g, sem, false, from, n)) {
      var m := ClockRuns(g, entry, order, fsm, sem, s);
      HaltedUnique(g, sem, true, from, m, n);
    }
  }

  lemma {:induction false} DroppedIsUnfaithful(g: Graph, entry: nat, order: seq<nat>, fsm: Fsm, k: nat, x: nat)
    returns (sem: Sem, s: FsmState, n: nat)
    requires Compiled(g, entry, order, fsm) && DistinctConds(g) && k <= |order|
    requires x in Preorder(Explored(g, StartOf(g, entry, order, k))) && x < |g| && Dropped(g[x])
    ensures s.regs.state == k && !Faithful(g, entry, order, fsm, sem, s, n)
  {
    var start := StartOf(g, entry, order, k);
    assert BlockShape(g[x]);
    var p := ActSound(g, start, {}, x);
    var q := Shorten(g, p, start, x);
    var conds := Steering(g, q);
    sem, s := Steered(conds), FsmState(Regs(k, 0, 0), map[]);
    n := Differs(g, entry, order, fsm, conds, s, q);
  }

  /** A clock in a state from which the steered thread goes to a block that drops statements. */
  lemma {:induction false} Differs(g: Graph, entry: nat, order: seq<nat>, fsm: Fsm, conds: set<nat>, r: FsmState, q: seq<nat>)
    returns (n: nat)
    requires Compiled(g, entry, order, fsm) && r.regs.state <= |order|
    requires Walk(g, q) && WaitFree(g, q) && Steers(g, q, conds) && Dropped(g[q[|q| - 1]])
    requires q[0] == StartOf(g, entry, order, r.regs.state)
    ensures !Faithful(g, entry, order, fsm, Steered(conds), r, n)
    ensures StoreDiffers(g, fsm, Steered(conds), r, Config(q[0], r.shadow), n)
  {
    var sem, from := Steered(conds), Config(q[0], r.shadow);
    n := ClockRuns(g, entry, order, fsm, sem, r);
    RunsPart(g, q, conds, from, n);
    var c, d := ThreadSteps(g, sem, false, from, n), ThreadSteps(g, sem, true, from, n);
    assert BlockShape(g[c.block]);
    FinishStore(g, PlanOf(g, order), sem, c, Loaded(r));
    FinishStore(g, PlanOf(g, order), sem, d, Loaded(r));
  }

  lemma FinishStore(g: Graph, plan: Plan, sem: Sem, c: Config, m: Machine)
    requires c.block < |g| && BlockShape(g[c.block]) && Halted(g, c)
    ensures Finish(g, plan, sem, c, m).store == c.store
  {
  }
}
