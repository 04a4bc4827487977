/** Threads that end: exactly when the machine leaves the store of an ended thread alone. */
module Endings {
  import opened ThreadGraph
  import opened States
  import opened Reachability
  import opened Encoding
  import opened Hcodes
  import opened Threads
  import opened Fsms
  import opened Refinement
  import opened Exactness

  /** The block's statements are generated. */
  predicate Generated(b: Block) {
    !b.hasWait && b.origin.term == NoTerm && b.elems != []
  }

  /** A walk from `start` to the end of the thread, without waits. */
  ghost predicate WayOut(g: Graph, start: nat, p: seq<nat>) {
    p != [] && p[|p| - 1] < |g| && Path(g, p, start, p[|p| - 1]) && g[p[|p| - 1]].succs == []
  }

  /** If the thread, run from where state `k` starts, ends, then this clock and all further
      ones leave its store. */
  ghost predicate EndKept(g: Graph, entry: nat, order: seq<nat>, fsm: Fsm, sem: Sem, s: FsmState, n: nat, m: nat)
    requires Closed(g) && entry < |g| && InRange(g, order) && s.regs.state <= |order|
  {
    var c := ThreadSteps(g, sem, true, Config(StartOf(g, entry, order, s.regs.state), s.shadow), n);
    g[c.block].succs == [] ==> Clocks(fsm, sem, s, m + 1) == FsmState(s.regs, c.store)
  }

  /** If no block on a way out is generated, the thread ends with the store it had. */
  lemma {:induction false} NothingRun(g: Graph, sem: Sem, c: Config, n: nat)
    requires ThreadShape(g) && c.block < |g| && g[ThreadSteps(g, sem, true, c, n).block].succs == []
    requires forall p, x: nat :: WayOut(g, c.block, p) && x in p && x < |g| ==> !Generated(g[x])
    ensures ThreadSteps(g, sem, true, c, n).store == c.store
    decreases n
  {
    if n > 0 && !Halted(g, c) {
      var c' := ThreadStep(g, sem, true, c);
      var p := StepsWalk(g, sem, true, c', n - 1);
      assert BlockShape(g[c.block]);
      Step(g, c.block, p, p[|p| - 1]);
      assert WayOut(g, c.block, [c.block] + p) && c.block in [c.block] + p;
      forall q, x: nat | WayOut(g, c'.block, q) && x in q && x < |g| ensures !Generated(g[x]) {
        Step(g, c.block, q, q[|q| - 1]);
        assert WayOut(g, c.block, [c.block] + q) && x in [c.block] + q;
      }
      NothingRun(g, sem, c', n - 1);
    }
  }

  lemma {:induction false} StaysPut(fsm: Fsm, sem: Sem, s: FsmState, m: nat)
    requires Clock(fsm, sem, false, s) == s
    ensures Clocks(fsm, sem, s, m) == s
  {
    if m > 0 { StaysPut(fsm, sem, s, m - 1); }
  }

  lemma {:induction false} SilentEndIsKept(g: Graph, entry: nat, order: seq<nat>, fsm: Fsm, sem: Sem, s: FsmState, n: nat, m: nat)
    requires Compiled(g, entry, order, fsm) && s.regs.state <= |order|
    requires forall p, x: nat :: WayOut(g, StartOf(g, entry, order, s.regs.state), p) && x in p && x < |g| ==> !Generated(g[x])
    ensures EndKept(g, entry, order, fsm, sem, s, n, m)
  {
    var from := Config(StartOf(g, entry, order, s.regs.state), s.shadow);
    var c := ThreadSteps(g, sem, true, from, n);
    if g[c.block].succs == [] {
      assert BlockShape(g[c.block]);
      NothingRun(g, sem, from, n);
      EndedThreadRunsAgain(g, entry, order, fsm, sem, s, n);
      assert Clock(fsm, sem, false, s) == s;
      StaysPut(fsm, sem, s, m + 1);
    }
  }

  /** The thread that counts statements has counted more when it has passed a generated block. */
  lemma {:induction false} CountsUp(g: Graph, q: seq<nat>, conds: set<nat>, c: Config)
    requires ThreadShape(g) && Walk(g, q) && WaitFree(g, q) && Steers(g, q, conds) && c.block == q[0]
    ensures var d := ThreadSteps(g, Steered(conds), true, c, |q| - 1);
            && Count(d.store) >= Count(c.store)
            && (forall i :: 0 <= i < |q| - 1 && Generated(g[q[i]]) ==> Count(d.store) > Count(c.store))
    decreases |q|
  {
    if |q| > 1 {
      SteersTail(g, q, conds);
      StepFollows(g, q, conds, true, c);
      var c', rest := ThreadStep(g, Steered(conds), true, c), q[1..];
      assert BlockShape(g[c.block]);
      CountElems(conds, g[c.block].cfg, g[c.block].elems, c.store);
      assert Count(c'.store) >= Count(c.store) && (Generated(g[c.block]) ==> Count(c'.store) > Count(c.store));
      CountsUp(g, rest, conds, c');
      hide ThreadStep, Steered, Count, RunBlock, Generated, Walk, WaitFree, Steers, ThreadShape;
      var d := ThreadSteps(g, Steered(conds), true, c', |rest| - 1);
      forall i | 0 <= i < |q| - 1 && Generated(g[q[i]]) ensures Count(d.store) > Count(c.store) {
        if i > 0 { assert q[i] == rest[i - 1]; }
      }
    }
  }

  /** A walk without waits comes nowhere twice. */
  lemma {:induction false} WayOutIsSimple(g: Graph, p: seq<nat>)
    requires CyclesWait(g) && Walk(g, p) && WaitFree(g, p)
    ensures NoRepeat(p)
  {
    forall i, j | 0 <= i < j < |p| ensures p[i] != p[j] {
      var r := p[..j + 1];
      forall k | 0 <= k < |r| - 1 ensures r[k + 1] in g[r[k]].succs && !g[r[k]].hasWait {
        assert r[k] == p[k] && r[k + 1] == p[k + 1];
      }
      CycleFrom(g, r, i);
    }
  }

  lemma {:induction false} GeneratedEndIsNotKept(g: Graph, entry: nat, order: seq<nat>, fsm: Fsm, k: nat, p: seq<nat>, x: nat)
    returns (sem: Sem, s: FsmState, n: nat)
    requires Compiled(g, entry, order, fsm) && DistinctConds(g) && k <= |order|
    requires WayOut(g, StartOf(g, entry, order, k), p) && x in p && x < |g| && Generated(g[x])
    ensures s.regs.state == k && !EndKept(g, entry, order, fsm, sem, s, n, 1)
  {
    WayOutIsSimple(g, p);
    var conds := Steering(g, p);
    sem, s, n := Steered(conds), FsmState(Regs(k, 0, 0), map[]), |p| - 1;
    var end := p[|p| - 1];
    assert BlockShape(g[end]) && !g[end].hasWait && !Generated(g[end]);
    var i :| 0 <= i < |p| && p[i] == x;
    var s1 := ClockCounts(g, entry, order, fsm, p, conds, s, i);
    var s2 := ClockCounts(g, entry, order, fsm, p, conds, s1, i);
    hide ThreadSteps, Clock, Count, Steered;
    Follows(g, p, conds, true, Config(p[0], s.shadow));
    assert Clocks(fsm, sem, s, 1 + 1) == Clocks(fsm, sem, s1, 0 + 1) == Clocks(fsm, sem, s2, 0) == s2;
  }

  /** A clock in which the counting thread goes out along `p`. */
  lemma {:induction false} ClockCounts(g: Graph, entry: nat, order: seq<nat>, fsm: Fsm, p: seq<nat>, conds: set<nat>,
                                       s: FsmState, i: nat) returns (s': FsmState)
    requires Compiled(g, entry, order, fsm) && s.regs.state <= |order|
    requires WayOut(g, StartOf(g, entry, order, s.regs.state), p) && Steers(g, p, conds)
    requires i < |p| - 1 && Generated(g[p[i]])
    ensures s' == Clock(fsm, Steered(conds), false, s) && s'.regs == s.regs && Count(s'.shadow) > Count(s.shadow)
    ensures s'.shadow == ThreadSteps(g, Steered(conds), true, Config(p[0], s.shadow), |p| - 1).store
  {
    var from := Config(p[0], s.shadow);
    Follows(g, p, conds, true, from);
    CountsUp(g, p, conds, from);
    assert BlockShape(g[p[|p| - 1]]);
    EndedThreadRunsAgain(g, entry, order, fsm, Steered(conds), s, |p| - 1);
    s' := Clock(fsm, Steered(conds), false, s);
  }

  /** The store of a thread that ends is left alone from then on, whatever the statements and
      conditions mean, if and only if no walk from the state's start to the end of the thread
      passes a block whose statements are generated. */
  lemma {:induction false} EndKeptIff(g: Graph, entry: nat, order: seq<nat>, fsm: Fsm, k: nat)
    requires Compiled(g, entry, order, fsm) && DistinctConds(g) && k <= |order|
    ensures (forall p, x: nat :: WayOut(g, StartOf(g, entry, order, k), p) && x in p && x < |g| ==> !Generated(g[x]))
            <==> (forall sem: Sem, s: FsmState, n: nat, m: nat :: s.regs.state == k ==> EndKept(g, entry, order, fsm, sem, s, n, m))
  {
    var start := StartOf(g, entry, order, k);
    if forall p, x: nat :: WayOut(g, start, p) && x in p && x < |g| ==> !Generated(g[x]) {
      forall sem: Sem, s: FsmState, n: nat, m: nat | s.regs.state == k ensures EndKept(g, entry, order, fsm, sem, s, n, m) {
        SilentEndIsKept(g, entry, order, fsm, sem, s, n, m);
      }
    } else {
      var p, x: nat :| WayOut(g, start, p) && x in p && x < |g| && Generated(g[x]);
      var sem, s, n := GeneratedEndIsNotKept(g, entry, order, fsm, k, p, x);
      assert !EndKept(g, entry, order, fsm, sem, s, n, 1);
    }
  }
}
