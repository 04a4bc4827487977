/** Threads that show what the exact conditions say. */
module ExampleThreads {
  import opened ThreadGraph
  import opened States
  import opened Segments
  import opened Splitting
  import opened SplitGraphs
  import opened Reachability
  import opened Hcodes
  import opened Fsms
  import opened ThreadExactness
  import opened Endings
  import opened Unfolding
  import opened PathSearch
  import opened PathIndices

  /** `while (true) { first; if (c) s0; s1; wait(); }`, where `first` shares a block with the if. */
  function SmallThread(first: seq<Elem>): Cfg {
    [CfgBlock(first, IfTerm, [Some(1), Some(2)]), CfgBlock([Stmt(0)], NoTerm, [Some(2)]),
     CfgBlock([Stmt(1), Wait(None)], NoTerm, [Some(0)])]
  }

  lemma NonNullOne(j: nat)
    ensures NonNull([Some(j)]) == [j]
  {
  }

  lemma NonNullTwo(i: nat, j: nat)
    ensures NonNull([Some(i), Some(j)]) == [i, j]
  {
    assert [Some(i), Some(j)][..1] == [Some(i)];
    NonNullOne(i);
  }

  lemma BranchOk(first: seq<Elem>)
    requires NoWait(first)
    ensures var b := SmallThread(first)[0]; CfgBlockShape(b) && NonNull(b.succs) == [1, 2]
  {
    NonNullTwo(1, 2);
    hide NonNull;
  }

  lemma BodyOk(first: seq<Elem>)
    ensures var b := SmallThread(first)[1]; CfgBlockShape(b) && NonNull(b.succs) == [2]
  {
    NonNullOne(2);
    hide NonNull;
  }

  lemma WaitOk(first: seq<Elem>)
    ensures var b := SmallThread(first)[2]; CfgBlockShape(b) && NonNull(b.succs) == [0] && !NoWait(b.elems)
  {
    NonNullOne(0);
    assert [Stmt(1), Wait(None)][1] in [Stmt(1), Wait(None)];
    hide NonNull;
  }

  /** There are threads of the claimed shape, with and without statements beside the if. */
  lemma {:induction false} ShapeExists(first: seq<Elem>)
    requires NoWait(first)
    ensures CfgShape(SmallThread(first))
  {
    var cfg := SmallThread(first);
    BranchOk(first);
    BodyOk(first);
    WaitOk(first);
    assert |cfg| == 3 && CfgBlocksOk(cfg);
    hide SmallThread, NonNull, NoWait, CfgBlockShape, CfgBlocksOk;
    forall p: seq<nat> | CWalk(cfg, p) && |p| >= 2 && p[0] == p[|p| - 1]
      ensures exists i :: 0 <= i < |p| && !NoWait(cfg[p[i]].elems)
    {
      assert p[0 + 1] in NonNull(cfg[p[0]].succs);
      if p[0] != 2 && p[1] != 2 {
        assert p[1 + 1] in NonNull(cfg[p[1]].succs);
      }
      var i := if p[0] == 2 then 0 else if p[1] == 2 then 1 else 2;
      assert p[i] == 2;
    }
  }

  /** `while (true) { if (c) body; last }`: the exit of the loop is pruned, so its header lists a
      second successor that is null. */
  function WhileThread(body: seq<Elem>, last: seq<Elem>): Cfg {
    [CfgBlock([], LoopTerm, [Some(1), None]), CfgBlock([], IfTerm, [Some(2), Some(3)]),
     CfgBlock(body, NoTerm, [Some(3)]), CfgBlock(last, NoTerm, [Some(0)])]
  }

  lemma NonNullFirst(j: nat)
    ensures NonNull([Some(j), None]) == [j]
  {
    assert [Some(j), None][..1] == [Some(j)];
    NonNullOne(j);
  }

  lemma WhileBlocksOk(body: seq<Elem>, last: seq<Elem>)
    ensures var cfg := WhileThread(body, last);
            && CfgBlocksOk(cfg)
            && NonNull(cfg[0].succs) == [1] && NonNull(cfg[1].succs) == [2, 3]
            && NonNull(cfg[2].succs) == [3] && NonNull(cfg[3].succs) == [0]
  {
    NonNullFirst(1);
    NonNullTwo(2, 3);
    NonNullOne(3);
    NonNullOne(0);
    hide NonNull;
  }

  /** An endless loop with its own header block has the shape. */
  lemma {:induction false} WhileShapeExists()
    ensures CfgShape(WhileThread([Stmt(0)], [Wait(None)]))
  {
    var cfg := WhileThread([Stmt(0)], [Wait(None)]);
    WhileBlocksOk([Stmt(0)], [Wait(None)]);
    assert Wait(None) in cfg[3].elems && |cfg| == 4;
    hide WhileThread, NonNull, NoWait, CfgBlockShape, CfgBlocksOk;
    forall p: seq<nat> | CWalk(cfg, p) && |p| >= 2 && p[0] == p[|p| - 1]
      ensures exists i :: 0 <= i < |p| && !NoWait(cfg[p[i]].elems)
    {
      var i := ComesToWait(cfg, p);
      assert !NoWait(cfg[3].elems);
    }
  }

  lemma {:induction false} ComesToWait(cfg: Cfg, p: seq<nat>) returns (i: nat)
    requires |cfg| == 4 && NonNull(cfg[0].succs) == [1] && NonNull(cfg[1].succs) == [2, 3]
    requires NonNull(cfg[2].succs) == [3] && NonNull(cfg[3].succs) == [0]
    requires CWalk(cfg, p) && |p| >= 2 && p[0] == p[|p| - 1]
    ensures i < |p| && p[i] == 3
  {
    hide NonNull;
    i := 0;
    while p[i] != 3
      invariant i < |p| && p[0] <= p[i] && (i > 0 && p[0] != 3 ==> p[0] < p[i])
      decreases |p| - i
    {
      assert i < |p| - 1 && p[i + 1] in NonNull(cfg[p[i]].succs);
      i := i + 1;
    }
  }

  /** Its header has one successor and does not branch: just the if does. */
  lemma {:induction false} WhileGraph(body: seq<Elem>, last: seq<Elem>, g: Graph)
    requires IsSplit(WhileThread(body, last), g)
    requires (NoWait(body) || |body| == 1) && (NoWait(last) || |last| == 1)
    ensures |g| == 4 && g[0].succs == [1] && g[1].succs == [2, 3] && g[2].succs == [3] && g[3].succs == [0]
    ensures (forall b :: 0 <= b < 4 ==> g[b].cfg == b && g[b].origin == WhileThread(body, last)[b])
    ensures !g[0].Branching() && g[1].Branching() && !g[2].Branching() && !g[3].Branching()
    ensures !g[0].hasWait && !g[1].hasWait && g[2].hasWait == !NoWait(body) && g[3].hasWait == !NoWait(last)
  {
    var cfg := WhileThread(body, last);
    WhileBlocksOk(body, last);
    NoneCut(cfg, g);
    assert |cfg| == 4 && forall b :: 0 <= b < 4 ==> Pos(cfg, b, 0) == b;
    forall b | 0 <= b < 4
      ensures g[b].cfg == b && g[b].origin == cfg[b] && g[b].succs == NonNull(cfg[b].succs)
      ensures g[b].hasWait == !NoWait(cfg[b].elems)
    {
      assert g[b] == SegBlock(cfg, b, 0);
      SplitBlock(cfg, g, b, 0);
      SplitOk(cfg[b].elems);
    }
    BranchesIff(cfg, g, 0, 0);
    BranchesIff(cfg, g, 1, 0);
    BranchesIff(cfg, g, 2, 0);
    BranchesIff(cfg, g, 3, 0);
    hide IsSplit, Segs, NonNull, Pos;
  }

  /** `while (true) { if (c) wait(); }` from the back edge, where the thread goes on after the wait:
      the false successor of the if was visited before, and its false index leads back to it. */
  lemma {:induction false} LookBack(g: Graph, prepared: map<nat, PathInfo>)
    requires IsSplit(WhileThread([Wait(None)], []), g) && 1 in prepared
    ensures Closed(g) && |g| == 4 && Resume(g, 2) == 3
    ensures Explored(g, 3) == Chain(3, Chain(0, Fork(1, Some(Leaf(2)), None)))
    ensures Recorded(g, 3, prepared).path == [Entry(3, 0, 0), Entry(0, 1, 0), Entry(1, 2, 0), Entry(2, 3, 0)]
  {
    assert Wait(None) in [Wait(None)];
    WhileGraph([Wait(None)], [], g);
    LookBackTree(g);
    var t := Chain(3, Chain(0, Fork(1, Some(Leaf(2)), None)));
    hide Explored, Recorded, IsSplit;
    RecordedEntries(g, 3, prepared, t, 0);
    RecordedEntries(g, 3, prepared, t.next, 1);
    RecordedEntries(g, 3, prepared, t.next.next, 2);
    RecordedEntries(g, 3, prepared, Leaf(2), 3);
    var p := Recorded(g, 3, prepared).path;
    assert p[0] == Entry(3, 0, 0) && p[1] == Entry(0, 1, 0) && p[3] == Entry(2, 3, 0);
    hide WhileThread, EntryOk;
    LookBackEntry(g, p, prepared.Keys);
  }

  lemma LookBackEntry(g: Graph, p: seq<Entry>, keys: set<nat>)
    requires |g| == 4 && g[0].cfg == 0 && g[1].cfg == 1 && g[2].cfg == 2 && g[3].cfg == 3
    requires g[1].origin.succs == [Some(2), Some(3)] && 1 in keys
    requires |p| == 4 && p[0].block == 3 && p[1].block == 0 && p[3].block == 2 && forall e :: e in p ==> e.block < |g|
    requires EntryOk(g, p, keys, Fork(1, Some(Leaf(2)), None), 2)
    ensures p[2] == Entry(1, 2, 0)
  {
  }

  lemma {:induction false} LookBackTree(g: Graph)
    requires Closed(g) && |g| == 4 && g[0].succs == [1] && g[1].succs == [2, 3] && g[2].succs == [3] && g[3].succs == [0]
    requires !g[0].Branching() && g[1].Branching() && !g[3].Branching()
    requires !g[0].hasWait && !g[1].hasWait && g[2].hasWait && !g[3].hasWait
    ensures Explored(g, 3) == Chain(3, Chain(0, Fork(1, Some(Leaf(2)), None)))
  {
    var v: set<nat> := {} + {3};
    var w := v + {0} + {1};
    assert Act(g, 2, w) == Leaf(2);
    assert Then(g, 1, w) == Some(Leaf(2)) && Else(g, 1, w) == None;
    assert Body(g, 1, w) == Fork(1, Some(Leaf(2)), None);
    assert Body(g, 0, v + {0}) == Chain(0, Fork(1, Some(Leaf(2)), None));
    assert Body(g, 3, v) == Chain(3, Chain(0, Fork(1, Some(Leaf(2)), None)));
  }

  /** With `s9` beside the if the machine differs from the thread. */
  lemma {:induction false} DroppingThreadDiffers(g: Graph, order: seq<nat>, fsm: Fsm)
    returns (sem: Sem, s: FsmState, ws: seq<CfgThreads.Point>, e: CfgThreads.Point)
    requires IsSplit(SmallThread([Stmt(9)]), g) && Compiled(g, 0, order, fsm)
    ensures CfgShape(SmallThread([Stmt(9)]))
    ensures !MachineExact(SmallThread([Stmt(9)]), g, 0, order, fsm, sem, s, ws, e)
  {
    var cfg := SmallThread([Stmt(9)]);
    ShapeExists([Stmt(9)]);
    assert Stmt(9) in cfg[0].elems && !BlockKept(cfg[0]);
    CWalkOne(cfg, 0);
    assert CWalk(cfg, [0]) && [0][|[0]| - 1] == 0;
    sem, s, ws, e := DroppedIsInexact(cfg, g, 0, order, fsm);
  }

  /** `s0; wait(); s1;` */
  function EndingThread(): Cfg {
    [CfgBlock([Stmt(0), Wait(None), Stmt(1)], NoTerm, [Some(1)]), CfgBlock([], NoTerm, [])]
  }

  lemma EndingSegments()
    ensures Segs(EndingThread(), 0) == [Segment([Stmt(0)], false), Segment([Wait(None)], true), Segment([Stmt(1)], false)]
    ensures Segs(EndingThread(), 1) == [Segment([], false)]
  {
    assert EndingThread()[0].elems == [Stmt(0), Wait(None), Stmt(1)];
    ScanThree();
    hide Scan;
  }

  lemma ScanOne()
    ensures Scan([Stmt(0)]) == ([], [Stmt(0)])
  {
    assert [Stmt(0)][..0] == [] && [] + [Stmt(0)] == [Stmt(0)];
  }

  lemma ScanTwo()
    ensures Scan([Stmt(0), Wait(None)]) == ([Segment([Stmt(0)], false), Segment([Wait(None)], true)], [])
  {
    ScanOne();
    assert [Stmt(0), Wait(None)][..1] == [Stmt(0)];
    var s0, w := Segment([Stmt(0)], false), Segment([Wait(None)], true);
    assert Finished([], [Stmt(0)]) == [s0] && [s0] + [w] == [s0, w];
  }

  lemma ScanThree()
    ensures Scan([Stmt(0), Wait(None), Stmt(1)]) == ([Segment([Stmt(0)], false), Segment([Wait(None)], true)], [Stmt(1)])
  {
    ScanTwo();
    assert [Stmt(0), Wait(None), Stmt(1)][..2] == [Stmt(0), Wait(None)] && [] + [Stmt(1)] == [Stmt(1)];
  }

  /** The four blocks of the split thread. */
  lemma EndingBlocks(g: Graph)
    requires IsSplit(EndingThread(), g)
    ensures |g| == 4 && g[0].succs == [2] && !g[0].hasWait
    ensures g[2].succs == [3] && g[2].hasWait
    ensures Generated(g[3]) && WayOut(g, 3, [3, 1])
  {
    var cfg := EndingThread();
    EndingSegments();
    NonNullOne(1);
    assert Base(cfg, 0) == 2 && Base(cfg, 1) == 4 && Base(cfg, 2) == 4;
    assert Pos(cfg, 0, 0) == 0 && Pos(cfg, 0, 1) == 2 && Pos(cfg, 0, 2) == 3 && Pos(cfg, 1, 0) == 1;
    hide Split, Segs, Base, Pos, NonNull;
    assert g[0] == SegBlock(cfg, 0, 0) && g[2] == SegBlock(cfg, 0, 1);
    assert g[3] == SegBlock(cfg, 0, 2) && g[1] == SegBlock(cfg, 1, 0);
    assert Path(g, [3, 1], 3, 1);
  }

  lemma {:induction false} EndingShape()
    ensures CfgShape(EndingThread())
  {
    var cfg := EndingThread();
    NonNullOne(1);
    assert NonNull([]) == [];
    assert CfgBlocksOk(cfg);
    forall p: seq<nat> | CWalk(cfg, p) && |p| >= 2 && p[0] == p[|p| - 1]
      ensures exists i :: 0 <= i < |p| && !NoWait(cfg[p[i]].elems)
    {
      assert p[0 + 1] in NonNull(cfg[p[0]].succs);
      assert p[0] == 0 && cfg[0].elems[1] in cfg[0].elems;
    }
  }

  /** After its end the machine runs `s1` again, and the store goes on changing. */
  lemma {:induction false} EndingThreadRunsOn(g: Graph, order: seq<nat>, fsm: Fsm)
    returns (k: nat, sem: Sem, s: FsmState, n: nat)
    requires IsSplit(EndingThread(), g) && Compiled(g, 0, order, fsm)
    ensures CfgShape(EndingThread()) && k <= |order| && s.regs.state == k
    ensures !EndKept(g, 0, order, fsm, sem, s, n, 1)
  {
    EndingShape();
    SplitShape(EndingThread(), g);
    EndingBlocks(g);
    k := EndingState(g, order, fsm);
    hide IsSplit, Compiled, CfgShape, EndKept, Generated, WayOut, StartOf;
    assert 3 in [3, 1];
    sem, s, n := GeneratedEndIsNotKept(g, 0, order, fsm, k, [3, 1], 3);
  }

  /** The state after the wait starts with `s1`. */
  lemma EndingState(g: Graph, order: seq<nat>, fsm: Fsm) returns (k: nat)
    requires Compiled(g, 0, order, fsm) && |g| == 4 && g[0].succs == [2] && g[2].succs == [3] && g[2].hasWait
    ensures k <= |order| && StartOf(g, 0, order, k) == 3
  {
    hide CaseOk, WaitsNumbered, MetBefore;
    assert Leads(g, [0, 2], 0, 2);
    ReachedWaitIsNumbered(g, 0, order, 0, [0, 2], 2);
    var i: nat :| i < |order| && order[i] == 2;
    k := i + 1;
  }
}
