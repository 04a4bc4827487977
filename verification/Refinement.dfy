/** The state machine refines the thread over whole runs. */
module Refinement {
  import opened ThreadGraph
  import opened Unfolding
  import opened PathSearch
  import opened States
  import opened Reachability
  import opened Encoding
  import opened Hcodes
  import opened Threads
  import opened Fsms

  /** Started at `from`, the thread comes to the wait `w.block` with store `w.store`. */
  ghost predicate Round(g: Graph, sem: Sem, drop: bool, from: Config, w: Config)
    requires Closed(g)
  {
    && from.block < |g| && w.block < |g| && g[w.block].hasWait
    && exists n: nat :: ThreadSteps(g, sem, drop, from, n) == w
  }

  /** Where and with what the thread goes on after it has come to wait `w`. */
  function Onward(g: Graph, w: Config): Config
    requires w.block < |g|
  {
    Config(Resume(g, w.block), w.store)
  }

  /** `ws` are the first waits the thread comes to, in order, each with the store at that point. */
  ghost predicate ThreadRun(g: Graph, sem: Sem, drop: bool, from: Config, ws: seq<Config>)
    requires Closed(g)
    decreases |ws|
  {
    ws == [] || (Round(g, sem, drop, from, ws[0]) && ThreadRun(g, sem, drop, Onward(g, ws[0]), ws[1..]))
  }

  /** Where the thread is after the waits `ws`. */
  function After(g: Graph, from: Config, ws: seq<Config>): Config
    requires AllInGraph(g, ws)
  {
    if ws == [] then from else Onward(g, ws[|ws| - 1])
  }

  predicate AllInGraph(g: Graph, ws: seq<Config>) {
    forall w :: w in ws ==> w.block < |g|
  }

  function WaitArg(g: Graph, w: nat): Option<int>
    requires w < |g|
  {
    if |g[w].elems| > 0 && g[w].elems[0].Wait? then g[w].elems[0].arg else None
  }

  /** The clocks of a round: one if it ends at wait(), and those of the wait state as well if
      it ends at wait(n). */
  function Duration(arg: Option<int>): nat {
    if arg.Some? then Bits(arg.value) + 2 else 1
  }

  function ClocksOf(g: Graph, w: nat): nat
    requires w < |g|
  {
    Duration(WaitArg(g, w))
  }

  function TotalClocks(g: Graph, ws: seq<Config>): nat
    requires forall w :: w in ws ==> w.block < |g|
  {
    if ws == [] then 0 else ClocksOf(g, ws[0].block) + TotalClocks(g, ws[1..])
  }

  lemma {:induction false} HaltedUnique(g: Graph, sem: Sem, drop: bool, c: Config, m: nat, n: nat)
    requires Closed(g) && c.block < |g|
    requires Halted(g, ThreadSteps(g, sem, drop, c, m)) && Halted(g, ThreadSteps(g, sem, drop, c, n))
    ensures ThreadSteps(g, sem, drop, c, m) == ThreadSteps(g, sem, drop, c, n)
    decreases m
  {
    if !Halted(g, c) {
      assert m > 0 && n > 0;
      HaltedUnique(g, sem, drop, ThreadStep(g, sem, drop, c), m - 1, n - 1);
    }
  }

  lemma {:induction t} CountedHas(g: Graph, t: Tree, w: nat)
    requires TreeInGraph(g, t) && w in Preorder(t) && Full(t) && w < |g| && CountedBlock(g[w])
    requires ForksUncounted(g, t)
    ensures Counted(g, t)
  {
  }

  predicate ForksUncounted(g: Graph, t: Tree)
    requires TreeInGraph(g, t)
  {
    match t
    case Empty => true
    case Leaf(b) => true
    case Chain(b, next) => ForksUncounted(g, next)
    case Fork(b, thn, els) =>
      && !CountedBlock(g[b])
      && (thn.Some? ==> ForksUncounted(g, thn.value)) && (els.Some? ==> ForksUncounted(g, els.value))
  }

  lemma {:induction false} BodyUncounted(g: Graph, b: nat, visited: set<nat>)
    requires Closed(g) && b < |g| && forall x :: 0 <= x < |g| ==> BlockShape(g[x])
    ensures TreeInGraph(g, Body(g, b, visited)) && ForksUncounted(g, Body(g, b, visited))
    decreases AllBlocks(g) - visited
  {
    BodyInGraph(g, b, visited);
    assert BlockShape(g[b]);
    if !g[b].hasWait {
      forall i | 0 <= i < |g[b].succs| && g[b].succs[i] !in visited
        ensures var s := g[b].succs[i];
                && TreeInGraph(g, Act(g, s, visited)) && ForksUncounted(g, Act(g, s, visited))
                && TreeInGraph(g, Body(g, s, visited + {s})) && ForksUncounted(g, Body(g, s, visited + {s}))
      {
        var s := g[b].succs[i];
        assert s in AllBlocks(g) - visited;
        BodyUncounted(g, s, visited + {s});
      }
    }
  }

  /** A wait that a round ends at has a state number, and an argument of it calls for the
      counted-wait state. */
  lemma {:induction false} RoundEnds(g: Graph, entry: nat, order: seq<nat>, sem: Sem, drop: bool, k: nat, store: Store, w: Config)
    requires ThreadShape(g) && entry < |g| && Explores(g, entry, order, |order| + 1) && k <= |order|
    requires Round(g, sem, drop, Config(StartOf(g, entry, order, k), store), w)
    ensures w.block in Preorder(Explored(g, StartOf(g, entry, order, k))) && w.block in order
    ensures WaitArg(g, w.block).Some? ==> Counted(g, Explored(g, StartOf(g, entry, order, k)))
  {
    var s := StartOf(g, entry, order, k);
    var n: nat :| ThreadSteps(g, sem, drop, Config(s, store), n) == w;
    var p := StepsWalk(g, sem, drop, Config(s, store), n);
    assert BlockShape(g[w.block]);
    PathIsReachable(g, s, w.block);
    assert WaitsNumbered(g, Explored(g, s), order);
    if WaitArg(g, w.block).Some? {
      assert {} + {s} == {s};
      assert Behind(g, [s], s, {s});
      BodyUncounted(g, s, {s});
      BodyFull(g, s, [s], {s}, AllBlocks(g));
      assert CountedBlock(g[w.block]);
      CountedHas(g, Explored(g, s), w.block);
    }
  }

  /** The state that wait `w` leads to. */
  function StateAfter(g: Graph, order: seq<nat>, w: nat): nat
    requires InRange(g, order)
  {
    PlanOf(g, order).NextState(w)
  }

  lemma {:induction false} StateAfterAt(g: Graph, entry: nat, order: seq<nat>, w: nat)
    requires InRange(g, order) && NoRepeat(order) && w in order
    ensures w < |g| && 1 <= StateAfter(g, order, w) <= |order|
    ensures StartOf(g, entry, order, StateAfter(g, order, w)) == Resume(g, w)
    ensures order[StateAfter(g, order, w) - 1] == w
  {
    var i: nat :| i < |order| && order[i] == w;
    StateAfterIs(g, order, i);
    hide StateAfter, NoRepeat;
  }

  lemma {:induction false} StateAfterIs(g: Graph, order: seq<nat>, i: nat)
    requires InRange(g, order) && NoRepeat(order) && i < |order|
    ensures StateAfter(g, order, order[i]) == i + 1
  {
    NextOfAt(g, order, i);
    hide NextOf, NoRepeat;
  }

  /** The first clock of a round: the thread's statements up to wait `w`, and then either the
      state after `w` or the counted-wait state. */
  lemma {:induction false} RoundClock(g: Graph, entry: nat, order: seq<nat>, fsm: Fsm, sem: Sem, s: FsmState, w: Config)
    requires Compiled(g, entry, order, fsm) && s.regs.state <= |order|
    requires Round(g, sem, true, Config(StartOf(g, entry, order, s.regs.state), s.shadow), w)
    ensures var next, arg := StateAfter(g, order, w.block), WaitArg(g, w.block);
            Clock(fsm, sem, false, s) ==
            FsmState(if arg.Some? then Regs(|order| + 1, Bits(arg.value), next) else Regs(next, s.regs.counter, s.regs.resume),
                     w.store)
    ensures WaitArg(g, w.block).Some? ==> |order| + 1 < |fsm.cases| && fsm.cases[|order| + 1] == WaitCase()
  {
    var from := Config(StartOf(g, entry, order, s.regs.state), s.shadow);
    var m := ClockRuns(g, entry, order, fsm, sem, s);
    var n: nat :| ThreadSteps(g, sem, true, from, n) == w;
    HaltedUnique(g, sem, true, from, m, n);
    RoundEnds(g, entry, order, sem, true, s.regs.state, s.shadow, w);
    assert CaseOk(g, entry, order, fsm, s.regs.state);
  }

  /** One round takes the clocks of its wait; after them the machine is in the state that
      starts where the thread goes on, with the thread's store. */
  lemma {:induction false} RoundRuns(g: Graph, entry: nat, order: seq<nat>, fsm: Fsm, sem: Sem, s: FsmState, w: Config)
    requires Compiled(g, entry, order, fsm) && s.regs.state <= |order|
    requires Round(g, sem, true, Config(StartOf(g, entry, order, s.regs.state), s.shadow), w)
    ensures var r := Clocks(fsm, sem, s, ClocksOf(g, w.block));
            && r.shadow == w.store
            && r.regs.state == StateAfter(g, order, w.block) <= |order|
            && Config(StartOf(g, entry, order, r.regs.state), r.shadow) == Onward(g, w)
  {
    hide Explored, StartOf, StateAfter, Round, Clock, Clocks, ThreadSteps, CaseOk, ThreadShape, ClocksOf;
    RoundClock(g, entry, order, fsm, sem, s, w);
    RoundEnds(g, entry, order, sem, true, s.regs.state, s.shadow, w);
    StateAfterAt(g, entry, order, w.block);
    RoundTime(g, fsm, sem, s, w, |order| + 1, StateAfter(g, order, w.block));
  }

  lemma {:induction false} RoundTime(g: Graph, fsm: Fsm, sem: Sem, s: FsmState, w: Config, waitState: nat, next: nat)
    requires w.block < |g|
    requires var arg := WaitArg(g, w.block);
             Clock(fsm, sem, false, s) ==
             FsmState(if arg.Some? then Regs(waitState, Bits(arg.value), next) else Regs(next, s.regs.counter, s.regs.resume),
                      w.store)
    requires WaitArg(g, w.block).Some? ==> waitState < |fsm.cases| && fsm.cases[waitState] == WaitCase()
    ensures var r := Clocks(fsm, sem, s, ClocksOf(g, w.block)); r.shadow == w.store && r.regs.state == next
  {
    var arg := WaitArg(g, w.block);
    var s1 := Clock(fsm, sem, false, s);
    hide Clock;
    ClocksAdd(fsm, sem, s, 1, ClocksOf(g, w.block) - 1);
    assert Clocks(fsm, sem, s, 1) == Clocks(fsm, sem, s1, 0);
    if arg.Some? {
      var n: nat := Bits(arg.value);
      CountedWait(fsm, sem, waitState, n, next, w.store, n + 1);
    }
  }

  /** Over any run: after the clocks that its waits take, the machine is in the state of the
      last wait's successor and holds the thread's store. */
  lemma {:induction false} RunRefines(g: Graph, entry: nat, order: seq<nat>, fsm: Fsm, sem: Sem, s: FsmState, ws: seq<Config>)
    requires Compiled(g, entry, order, fsm) && s.regs.state <= |order| && ws != []
    requires ThreadRun(g, sem, true, Config(StartOf(g, entry, order, s.regs.state), s.shadow), ws)
    requires forall w :: w in ws ==> w.block < |g|
    ensures var r, last := Clocks(fsm, sem, s, TotalClocks(g, ws)), ws[|ws| - 1];
            && r.shadow == last.store
            && r.regs.state == StateAfter(g, order, last.block) <= |order|
            && StartOf(g, entry, order, r.regs.state) == Resume(g, last.block)
    decreases |ws|
  {
    hide Compiled, Explored, StateAfter, Round, Clock, Clocks, Explores, ThreadSteps, ClocksOf;
    var w := ws[0];
    RoundRuns(g, entry, order, fsm, sem, s, w);
    var s1 := Clocks(fsm, sem, s, ClocksOf(g, w.block));
    if |ws| > 1 {
      RunRefines(g, entry, order, fsm, sem, s1, ws[1..]);
      ClocksAdd(fsm, sem, s, ClocksOf(g, w.block), TotalClocks(g, ws[1..]));
    } else {
      assert TotalClocks(g, ws[1..]) == 0;
    }
  }

  /** No statement shares a block with a terminator. */
  predicate NothingDropped(g: Graph) {
    forall b :: 0 <= b < |g| && !g[b].hasWait && g[b].origin.term != NoTerm ==> g[b].elems == []
  }

  lemma {:induction false} StepsAgree(g: Graph, sem: Sem, c: Config, n: nat)
    requires Closed(g) && NothingDropped(g) && c.block < |g|
    ensures ThreadSteps(g, sem, false, c, n) == ThreadSteps(g, sem, true, c, n)
    decreases n
  {
    if n > 0 && !Halted(g, c) {
      StepsAgree(g, sem, ThreadStep(g, sem, true, c), n - 1);
    }
  }

  lemma {:induction false} RunsAgree(g: Graph, sem: Sem, from: Config, ws: seq<Config>)
    requires Closed(g) && NothingDropped(g) && ThreadRun(g, sem, false, from, ws)
    ensures ThreadRun(g, sem, true, from, ws)
    decreases |ws|
  {
    if ws != [] {
      var n: nat :| ThreadSteps(g, sem, false, from, n) == ws[0];
      StepsAgree(g, sem, from, n);
      RunsAgree(g, sem, Onward(g, ws[0]), ws[1..]);
    }
  }

  /** If no statement shares a block with a terminator, the machine refines the thread itself,
      from reset on and over any run. */
  lemma {:induction false} FsmRefinesThread(g: Graph, entry: nat, order: seq<nat>, fsm: Fsm, sem: Sem, s: FsmState, ws: seq<Config>)
    requires Compiled(g, entry, order, fsm) && NothingDropped(g) && ws != []
    requires ThreadRun(g, sem, false, Config(entry, Zeroed(s.shadow)), ws)
    requires forall w :: w in ws ==> w.block < |g|
    ensures var s0 := Clock(fsm, sem, true, s);
            var r, last := Clocks(fsm, sem, s0, TotalClocks(g, ws)), ws[|ws| - 1];
            && r.shadow == last.store
            && r.regs.state == StateAfter(g, order, last.block) <= |order|
            && StartOf(g, entry, order, r.regs.state) == Resume(g, last.block)
  {
    var s0 := Clock(fsm, sem, true, s);
    assert s0 == FsmState(Regs(0, 0, 0), Zeroed(s.shadow));
    RunsAgree(g, sem, Config(entry, s0.shadow), ws);
    RunRefines(g, entry, order, fsm, sem, s0, ws);
  }

  /** If the thread runs to its end without a wait, the clock changes no register: the same
      state runs again, although the thread has ended. */
  lemma {:induction false} EndedThreadRunsAgain(g: Graph, entry: nat, order: seq<nat>, fsm: Fsm, sem: Sem, s: FsmState, n: nat)
    requires Compiled(g, entry, order, fsm) && s.regs.state <= |order|
    requires var c := ThreadSteps(g, sem, true, Config(StartOf(g, entry, order, s.regs.state), s.shadow), n);
             Halted(g, c) && !g[c.block].hasWait
    ensures var c := ThreadSteps(g, sem, true, Config(StartOf(g, entry, order, s.regs.state), s.shadow), n);
            Clock(fsm, sem, false, s) == FsmState(s.regs, c.store)
  {
    var from := Config(StartOf(g, entry, order, s.regs.state), s.shadow);
    var m := ClockRuns(g, entry, order, fsm, sem, s);
    HaltedUnique(g, sem, true, from, m, n);
    assert BlockShape(g[ThreadSteps(g, sem, true, from, n).block]);
  }
}
