/** Exactly when the machine does what the thread does over whole runs. */
module RunExactness {
  import opened ThreadGraph
  import opened Unfolding
  import opened States
  import opened Reachability
  import opened Encoding
  import opened Hcodes
  import opened Threads
  import opened Fsms
  import opened Refinement
  import opened Exactness

  /** When the thread has come from reset to the waits `ws`, the machine has its store, is in
      the state that goes on from there, and does in the next clock what the thread does. */
  ghost predicate RunFaithful(g: Graph, entry: nat, order: seq<nat>, fsm: Fsm, sem: Sem, s: FsmState, ws: seq<Config>, n: nat)
    requires Closed(g) && entry < |g| && InRange(g, order)
  {
    var from := Config(entry, Zeroed(s.shadow));
    ThreadRun(g, sem, false, from, ws) && AllInGraph(g, ws) ==>
      var r := Clocks(fsm, sem, Clock(fsm, sem, true, s), TotalClocks(g, ws));
      && r.regs.state <= |order|
      && Config(StartOf(g, entry, order, r.regs.state), r.shadow) == After(g, from, ws)
      && Faithful(g, entry, order, fsm, sem, r, n)
  }

  /** No block that can be reached from `b` drops statements. */
  ghost predicate KeptFrom(g: Graph, b: nat) {
    forall p, x: nat :: Leads(g, p, b, x) && x < |g| ==> !Dropped(g[x])
  }

  lemma {:induction false} KeptOn(g: Graph, a: nat, p: seq<nat>, b: nat, c: nat)
    requires KeptFrom(g, a) && Leads(g, p, a, b) && b < |g| && c in g[b].succs
    ensures KeptFrom(g, c)
  {
    forall q, x: nat | Leads(g, q, c, x) && x < |g| ensures !Dropped(g[x]) {
      Join(g, p, q, a, b, c, x);
      assert Leads(g, p + q, a, x);
    }
  }

  /** Where nothing is dropped, the threads with and without the dropped statements run alike. */
  lemma {:induction false} RunsAgreeFrom(g: Graph, sem: Sem, from: Config, ws: seq<Config>)
    requires ThreadShape(g) && from.block < |g| && AllInGraph(g, ws)
    requires KeptFrom(g, from.block) && ThreadRun(g, sem, false, from, ws)
    ensures ThreadRun(g, sem, true, from, ws) && KeptFrom(g, After(g, from, ws).block)
    decreases |ws|
  {
    if ws != [] {
      var w := ws[0];
      var n: nat :| ThreadSteps(g, sem, false, from, n) == w;
      forall p, b: nat | Path(g, p, from.block, b) ensures !Dropped(g[b]) {
        assert Leads(g, p, from.block, b);
      }
      StepsAgreeOn(g, sem, from, n);
      var p := StepsWalk(g, sem, true, from, n);
      assert BlockShape(g[w.block]);
      var on := Onward(g, w);
      KeptOn(g, from.block, p, w.block, on.block);
      RunsAgreeFrom(g, sem, on, ws[1..]);
      assert |ws| > 1 ==> ws[1..][|ws[1..]| - 1] == ws[|ws| - 1];
    }
  }

  /** `r` is where the machine is from reset when the thread has come to the waits `ws`. */
  lemma {:induction false} FromReset(g: Graph, entry: nat, order: seq<nat>, fsm: Fsm, sem: Sem, s: FsmState, ws: seq<Config>)
    returns (r: FsmState)
    requires Compiled(g, entry, order, fsm) && AllInGraph(g, ws)
    requires ThreadRun(g, sem, true, Config(entry, Zeroed(s.shadow)), ws)
    ensures r == Clocks(fsm, sem, Clock(fsm, sem, true, s), TotalClocks(g, ws)) && r.regs.state <= |order|
    ensures Config(StartOf(g, entry, order, r.regs.state), r.shadow) == After(g, Config(entry, Zeroed(s.shadow)), ws)
  {
    var s0 := Clock(fsm, sem, true, s);
    assert s0 == FsmState(Regs(0, 0, 0), Zeroed(s.shadow));
    r := Clocks(fsm, sem, s0, TotalClocks(g, ws));
    if ws != [] { RunRefines(g, entry, order, fsm, sem, s0, ws); }
  }

  /** A reset while the machine counts down a wait starts the thread again: from its entry, with
      every variable 0, over all the waits it then comes to. */
  lemma {:induction false} ResetRestarts(g: Graph, entry: nat, order: seq<nat>, fsm: Fsm, sem: Sem, n: Bits32, resume: nat,
                                         shadow: Store, i: nat, zeros: Store, ws: seq<Config>)
    requires Compiled(g, entry, order, fsm) && AllInGraph(g, ws)
    requires |order| + 1 < |fsm.cases| && fsm.cases[|order| + 1] == WaitCase() && i <= n
    requires zeros.Keys == shadow.Keys && forall v :: v in zeros ==> zeros[v] == 0
    requires ThreadRun(g, sem, true, Config(entry, zeros), ws)
    ensures var s := Clocks(fsm, sem, FsmState(Regs(|order| + 1, n, resume), shadow), i);
            var r := Clocks(fsm, sem, Clock(fsm, sem, true, s), TotalClocks(g, ws));
            && s.regs.state == |order| + 1 && r.regs.state <= |order|
            && Config(StartOf(g, entry, order, r.regs.state), r.shadow) == After(g, Config(entry, zeros), ws)
  {
    var s := Clocks(fsm, sem, FsmState(Regs(|order| + 1, n, resume), shadow), i);
    ResetInWait(fsm, sem, |order| + 1, n, resume, shadow, i);
    assert Zeroed(s.shadow) == zeros;
    hide Zeroed, Clock, Clocks, Compiled;
    var r := FromReset(g, entry, order, fsm, sem, s, ws);
  }

  lemma {:induction false} KeptIsRunFaithful(g: Graph, entry: nat, order: seq<nat>, fsm: Fsm, sem: Sem, s: FsmState,
                                             ws: seq<Config>, n: nat)
    requires Compiled(g, entry, order, fsm) && KeptFrom(g, entry)
    ensures RunFaithful(g, entry, order, fsm, sem, s, ws, n)
  {
    var from := Config(entry, Zeroed(s.shadow));
    if ThreadRun(g, sem, false, from, ws) && AllInGraph(g, ws) {
      RunsAgreeFrom(g, sem, from, ws);
      var r := FromReset(g, entry, order, fsm, sem, s, ws);
      var start := StartOf(g, entry, order, r.regs.state);
      forall b: nat | b in Preorder(Explored(g, start)) ensures b < |g| && !Dropped(g[b]) {
        var p := ActSound(g, start, {}, b);
        assert Leads(g, p, start, b);
      }
      KeptIsFaithful(g, entry, order, fsm, sem, r, n);
    }
  }

  /** The first wait that a walk passes, at `j` or before. */
  lemma {:induction false} FirstWait(g: Graph, q: seq<nat>, j: nat) returns (i: nat)
    requires Walk(g, q) && j < |q| && g[q[j]].hasWait
    ensures i <= j && g[q[i]].hasWait && forall m :: 0 <= m < i ==> !g[q[m]].hasWait
  {
    if m: nat :| m < j && g[q[m]].hasWait {
      i := FirstWait(g, q, m);
    } else {
      i := j;
    }
  }

  lemma {:induction false} SteersParts(g: Graph, q: seq<nat>, conds: set<nat>, i: nat)
    requires Walk(g, q) && Steers(g, q, conds) && i < |q| - 1 && forall m :: 0 <= m < i ==> !g[q[m]].hasWait
    ensures Walk(g, q[..i + 1]) && WaitFree(g, q[..i + 1]) && Steers(g, q[..i + 1], conds)
    ensures Walk(g, q[i + 1..]) && Steers(g, q[i + 1..], conds) && q[i + 1] in g[q[i]].succs
  {
    var a, b := q[..i + 1], q[i + 1..];
    forall m | 0 <= m < |a| - 1
      ensures a[m + 1] in g[a[m]].succs && !g[a[m]].hasWait
      ensures |g[a[m]].succs| == 2 ==> (g[a[m]].cfg in conds <==> a[m + 1] == g[a[m]].succs[0])
    {
      assert a[m] == q[m] && a[m + 1] == q[m + 1];
    }
    forall m | 0 <= m < |b| - 1
      ensures b[m + 1] in g[b[m]].succs
      ensures |g[b[m]].succs| == 2 ==> (g[b[m]].cfg in conds <==> b[m + 1] == g[b[m]].succs[0])
    {
      assert b[m] == q[i + 1 + m] && b[m + 1] == q[i + 1 + m + 1];
    }
  }

  /** The steered thread follows a walk through its waits: it comes to the waits `ws`, and what
      is left of the walk passes none. */
  lemma {:induction false} AlongWalk(g: Graph, conds: set<nat>, from: Config, q: seq<nat>)
    returns (ws: seq<Config>, rest: seq<nat>)
    requires ThreadShape(g) && Walk(g, q) && Steers(g, q, conds) && from.block == q[0]
    ensures AllInGraph(g, ws) && ThreadRun(g, Steered(conds), false, from, ws)
    ensures Walk(g, rest) && WaitFree(g, rest) && Steers(g, rest, conds) && rest[|rest| - 1] == q[|q| - 1]
    ensures After(g, from, ws).block == rest[0]
    decreases |q|
  {
    if WaitFree(g, q) {
      ws, rest := [], q;
    } else {
      var j: nat :| j < |q| - 1 && g[q[j]].hasWait;
      var i := FirstWait(g, q, j);
      var w, tail := FirstRound(g, conds, from, q, i);
      hide *;
      var ws';
      ws', rest := AlongWalk(g, conds, Onward(g, w), tail);
      ws := [w] + ws';
      RunsOn(g, Steered(conds), from, w, ws');
    }
  }

  lemma {:induction false} FirstRound(g: Graph, conds: set<nat>, from: Config, q: seq<nat>, i: nat)
    returns (w: Config, tail: seq<nat>)
    requires ThreadShape(g) && Walk(g, q) && Steers(g, q, conds) && from.block == q[0]
    requires i < |q| - 1 && g[q[i]].hasWait && forall m :: 0 <= m < i ==> !g[q[m]].hasWait
    ensures Closed(g) && Round(g, Steered(conds), false, from, w) && w.block < |g|
    ensures Walk(g, tail) && Steers(g, tail, conds) && Onward(g, w).block == tail[0]
    ensures |tail| < |q| && tail[|tail| - 1] == q[|q| - 1]
  {
    tail := q[i + 1..];
    SteersParts(g, q, conds, i);
    Follows(g, q[..i + 1], conds, false, from);
    w := ThreadSteps(g, Steered(conds), false, from, i);
    assert w.block == q[i] && BlockShape(g[q[i]]);
  }

  lemma RunsOn(g: Graph, sem: Sem, from: Config, w: Config, ws: seq<Config>)
    requires Closed(g) && w.block < |g| && AllInGraph(g, ws)
    requires Round(g, sem, false, from, w) && ThreadRun(g, sem, false, Onward(g, w), ws)
    ensures AllInGraph(g, [w] + ws) && ThreadRun(g, sem, false, from, [w] + ws)
    ensures After(g, from, [w] + ws) == After(g, Onward(g, w), ws)
  {
    assert ([w] + ws)[1..] == ws;
  }

  lemma {:induction false} DroppedIsRunUnfaithful(g: Graph, entry: nat, order: seq<nat>, fsm: Fsm, p: seq<nat>, x: nat)
    returns (sem: Sem, s: FsmState, ws: seq<Config>, n: nat)
    requires Compiled(g, entry, order, fsm) && DistinctConds(g)
    requires Leads(g, p, entry, x) && x < |g| && Dropped(g[x])
    ensures ThreadRun(g, sem, false, Config(entry, Zeroed(s.shadow)), ws) && AllInGraph(g, ws)
    ensures var r := Clocks(fsm, sem, Clock(fsm, sem, true, s), TotalClocks(g, ws));
            var on := After(g, Config(entry, Zeroed(s.shadow)), ws);
            r.regs.state <= |order| && Config(StartOf(g, entry, order, r.regs.state), r.shadow) == on
            ==> StoreDiffers(g, fsm, sem, r, on, n) && !Faithful(g, entry, order, fsm, sem, r, n)
  {
    var q := Shorten(g, p, entry, x);
    var conds := Steering(g, q);
    sem, s := Steered(conds), FsmState(Regs(0, 0, 0), map[]);
    var from := Config(entry, Zeroed(s.shadow));
    var rest;
    ws, rest := AlongWalk(g, conds, from, q);
    var r := Clocks(fsm, sem, Clock(fsm, sem, true, s), TotalClocks(g, ws));
    var on := After(g, from, ws);
    n := 0;
    if r.regs.state <= |order| && Config(StartOf(g, entry, order, r.regs.state), r.shadow) == on {
      n := Differs(g, entry, order, fsm, conds, r, rest);
    }
  }

  /** Over all runs from reset the machine does what the thread does, whatever the statements
      and conditions mean, if and only if no block the thread can reach holds statements next to
      a terminator. */
  lemma {:induction false} RunFaithfulIff(g: Graph, entry: nat, order: seq<nat>, fsm: Fsm)
    requires Compiled(g, entry, order, fsm) && DistinctConds(g)
    ensures KeptFrom(g, entry)
            <==> (forall sem: Sem, s: FsmState, ws: seq<Config>, n: nat :: RunFaithful(g, entry, order, fsm, sem, s, ws, n))
  {
    if KeptFrom(g, entry) {
      forall sem: Sem, s: FsmState, ws: seq<Config>, n: nat ensures RunFaithful(g, entry, order, fsm, sem, s, ws, n) {
        KeptIsRunFaithful(g, entry, order, fsm, sem, s, ws, n);
      }
    } else {
      var p, x: nat :| Leads(g, p, entry, x) && x < |g| && Dropped(g[x]);
      var sem, s, ws, n := DroppedIsRunUnfaithful(g, entry, order, fsm, p, x);
      assert !RunFaithful(g, entry, order, fsm, sem, s, ws, n);
    }
  }
}
