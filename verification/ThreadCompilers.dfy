/** The whole compiler for one thread: split the graph at its waits, find a path for each
state, generate the code of each path. */
module ThreadCompilers {
  import opened ThreadGraph
  import opened Unfolding
  import opened PathSearch
  import opened States
  import opened Encoding
  import opened Hcodes
  import opened HDLThreads
  import opened Fsms
  import opened Splitting
  import opened SplitGraphs
  import opened SplitCFGs

  lemma {:induction false} BodyGenerable(g: Graph, b: nat, visited: set<nat>)
    requires ThreadShape(g) && b < |g|
    ensures TreeInGraph(g, Body(g, b, visited)) && Generable(g, Body(g, b, visited))
    decreases AllBlocks(g) - visited, 1
  {
    BodyInGraph(g, b, visited);
    assert BlockShape(g[b]);
    forall i | 0 <= i < |g[b].succs| && g[b].succs[i] !in visited && !g[b].hasWait
      ensures TreeInGraph(g, Act(g, g[b].succs[i], visited)) && Generable(g, Act(g, g[b].succs[i], visited))
      ensures var s := g[b].succs[i];
              TreeInGraph(g, Body(g, s, visited + {s})) && Generable(g, Body(g, s, visited + {s}))
    {
      var s := g[b].succs[i];
      assert s in AllBlocks(g) - visited;
      BodyGenerable(g, s, visited + {s});
    }
  }

  lemma {:induction false} ExploredGenerable(g: Graph, s: nat)
    requires ThreadShape(g) && s < |g|
    ensures Generable(g, Explored(g, s))
  {
    BodyGenerable(g, s, {} + {s});
  }

  /** The blocks from which the search recurses keep the place of a CFG block, so they were
      found when the path information was prepared. */
  lemma {:induction false} BranchesPrepared(cfg: Cfg, g: Graph, found: set<nat>)
    requires CfgShape(cfg) && IsSplit(cfg, g) && forall j :: 0 <= j < |cfg| ==> j in found
    ensures Prepared(g, BranchInfo(g, found).Keys)
  {
    forall b | 0 <= b < |g| && g[b].Branching() ensures b in found {
      var j, k := Locate(cfg, b, |cfg|);
      assert g[b] == SegBlock(cfg, j, k);
      SegBlockOk(cfg, j, k);
    }
  }

  /** What was recorded for a state is what the code generator decodes. */
  lemma {:induction false} RecordedHolds(h: HDLThread, k: nat, s: nat, prepared: map<nat, PathInfo>)
    requires ThreadShape(h.g) && s < |h.g| && Prepared(h.g, prepared.Keys)
    requires forall b :: b in prepared ==> prepared[b].falsePath == []
    requires k < |h.paths| == |h.allPathInfo| && Trail(h.paths[k], h.allPathInfo[k]) == Recorded(h.g, s, prepared)
    ensures h.Holds(k, 0, Explored(h.g, s)) && |h.paths[k]| == Size(Explored(h.g, s))
  {
    RecordedIsEncoding(h.g, s, prepared);
    ExploredGenerable(h.g, s);
    assert h.paths[k][0..|h.paths[k]|] == h.paths[k];
  }

  lemma {:induction false} RecordedStart(g: Graph, entry: nat, order: seq<nat>, prepared: map<nat, PathInfo>, trails: seq<Trail>, k: nat)
    requires Closed(g) && entry < |g| && StatesRecorded(g, entry, order, prepared, trails) && k < |trails| == |order| + 1
    ensures InRange(g, order) && StartOf(g, entry, order, k) < |g|
    ensures trails[k] == Recorded(g, StartOf(g, entry, order, k), prepared)
  {
  }

  /** The trees that the states explore. */
  function Trees(g: Graph, entry: nat, order: seq<nat>): (trees: seq<Tree>)
    requires Closed(g) && entry < |g| && InRange(g, order)
    ensures |trees| == |order| + 1
    ensures forall k :: 0 <= k <= |order| ==> trees[k] == Explored(g, StartOf(g, entry, order, k))
  {
    seq<Tree>(|order| + 1, k requires 0 <= k <= |order| => Explored(g, StartOf(g, entry, order, k)))
  }

  lemma {:induction false} TreesHeld(h: HDLThread, entry: nat, order: seq<nat>, prepared: map<nat, PathInfo>, trails: seq<Trail>)
    requires ThreadShape(h.g) && entry < |h.g| && Prepared(h.g, prepared.Keys)
    requires forall b :: b in prepared ==> prepared[b].falsePath == []
    requires StatesRecorded(h.g, entry, order, prepared, trails) && |trails| == |order| + 1
    requires |h.paths| == |h.allPathInfo| == |trails|
    requires forall k :: 0 <= k < |trails| ==> trails[k] == Trail(h.paths[k], h.allPathInfo[k])
    ensures InRange(h.g, order)
    ensures forall k :: 0 <= k <= |order| ==>
              var t := Trees(h.g, entry, order)[k];
              TreeInGraph(h.g, t) && h.Holds(k, 0, t) && |h.paths[k]| == Size(t)
  {
    assert InRange(h.g, order) && Closed(h.g);
    hide ThreadShape, StatesRecorded, Recorded, Prepared, StartOf, Trees;
    forall k | 0 <= k <= |order|
      ensures var t := Trees(h.g, entry, order)[k];
              TreeInGraph(h.g, t) && h.Holds(k, 0, t) && |h.paths[k]| == Size(t)
    {
      RecordedStart(h.g, entry, order, prepared, trails, k);
      RecordedHolds(h, k, StartOf(h.g, entry, order, k), prepared);
    }
  }

  /** Such cases are a compiled machine. */
  lemma {:induction false} IsCompiled(g: Graph, entry: nat, order: seq<nat>, prepared: map<nat, PathInfo>, trails: seq<Trail>,
                                      trees: seq<Tree>, cases: seq<seq<Hcode>>)
    requires ThreadShape(g) && entry < |g| && StatesRecorded(g, entry, order, prepared, trails) && |trails| == |order| + 1
    requires InRange(g, order) && trees == Trees(g, entry, order) && |cases| >= |trees|
    requires forall k :: 0 <= k < |trees| ==>
               TreeInGraph(g, trees[k]) && cases[k] == EmitTree(g, PlanOf(g, order), trees[k])
    requires forall k :: 0 <= k < |trees| && Counted(g, trees[k]) ==>
               |cases| == |trees| + 1 && cases[|trees|] == WaitCase()
    ensures Compiled(g, entry, order, Fsm(cases))
  {
    assert Closed(g) && forall k :: 0 <= k <= |order| ==> StartOf(g, entry, order, k) < |g|;
    hide ThreadShape, Explored, EmitTree, Counted, PlanOf, StartOf;
    forall k | 0 <= k <= |order| ensures CaseOk(g, entry, order, Fsm(cases), k) {
      assert trees[k] == Explored(g, StartOf(g, entry, order, k));
    }
  }

  /** Wait `w` is given a number of clocks. */
  predicate HasCount(g: Graph, w: nat)
    requires w < |g|
  {
    exists e: Elem :: e in g[w].elems && e.Wait? && e.arg.Some?
  }

  /** What state `k` explores holds a wait that is given a count. */
  ghost predicate CountsAt(g: Graph, entry: nat, order: seq<nat>, k: nat)
    requires Closed(g) && entry < |g| && InRange(g, order) && k <= |order|
  {
    Counted(g, Explored(g, StartOf(g, entry, order, k)))
  }

  lemma {:induction false} CountedIsNumbered(g: Graph, entry: nat, order: seq<nat>, k: nat) returns (i: nat)
    requires ThreadShape(g) && entry < |g| && Explores(g, entry, order, |order| + 1) && k <= |order|
    requires CountsAt(g, entry, order, k)
    ensures i < |order| && HasCount(g, order[i])
  {
    var s := StartOf(g, entry, order, k);
    assert s < |g| && WaitsNumbered(g, Explored(g, s), order);
    ExploredGenerable(g, s);
    hide Explored, StartOf, ThreadShape, Explores;
    CountedIff(g, Explored(g, s));
    hide Counted;
    var b :| b in Preorder(Explored(g, s)) && b < |g| && CountedBlock(g[b]);
    CountedHasWait(g, b);
    i :| i < |order| && order[i] == b;
  }

  lemma {:induction false} NumberedIsCounted(g: Graph, entry: nat, order: seq<nat>, i: nat) returns (k: nat)
    requires ThreadShape(g) && entry < |g| && Explores(g, entry, order, |order| + 1) && i < |order|
    requires HasCount(g, order[i])
    ensures k <= |order| && CountsAt(g, entry, order, k)
  {
    assert MetBefore(g, entry, order, |order| + 1, i);
    assert forall k :: 0 <= k <= |order| ==> StartOf(g, entry, order, k) < |g|;
    hide Explored, StartOf, ThreadShape, Explores;
    k :| k < |order| + 1 && order[i] in Preorder(Explored(g, StartOf(g, entry, order, k)));
    ExploredGenerable(g, StartOf(g, entry, order, k));
    CountedIff(g, Explored(g, StartOf(g, entry, order, k)));
    CountedHasWait(g, order[i]);
    hide Counted;
  }

  /** The wait state is needed if and only if a wait that has a state is given a count. */
  lemma {:induction false} CountedWaits(g: Graph, entry: nat, order: seq<nat>)
    requires ThreadShape(g) && entry < |g| && Explores(g, entry, order, |order| + 1)
    ensures (exists k :: 0 <= k <= |order| && CountsAt(g, entry, order, k))
            <==> exists i :: 0 <= i < |order| && HasCount(g, order[i])
  {
    assert Closed(g) && InRange(g, order);
    hide CountsAt, HasCount, ThreadShape, Explores;
    if k: nat :| k <= |order| && CountsAt(g, entry, order, k) {
      var i := CountedIsNumbered(g, entry, order, k);
    }
    if i: nat :| i < |order| && HasCount(g, order[i]) {
      var k := NumberedIsCounted(g, entry, order, i);
    }
  }

  lemma CountedHasWait(g: Graph, b: nat)
    requires ThreadShape(g) && b < |g|
    ensures CountedBlock(g[b]) <==> g[b].hasWait && HasCount(g, b)
    ensures HasCount(g, b) ==> g[b].hasWait
  {
    assert BlockShape(g[b]);
    var elems := g[b].elems;
    if CountedElems(elems) {
      var i :| 0 <= i < |elems| && elems[i].Wait? && elems[i].arg.Some?;
      assert elems[i] in elems;
    }
    if HasCount(g, b) {
      var e: Elem :| e in elems && e.Wait? && e.arg.Some?;
      var i :| 0 <= i < |elems| && elems[i] == e;
    }
  }

  lemma CasesCounted(h: HDLThread, entry: nat, order: seq<nat>, trees: seq<Tree>)
    requires ThreadShape(h.g) && entry < |h.g| && Explores(h.g, entry, order, |order| + 1)
    requires trees == Trees(h.g, entry, order) && |h.paths| == |trees|
    requires forall k :: 0 <= k < |trees| ==> TreeInGraph(h.g, trees[k]) && (Counted(h.g, trees[k]) <==> h.GivesCount(k))
    ensures (exists k :: 0 <= k < |h.paths| && h.GivesCount(k)) <==> exists i :: 0 <= i < |order| && HasCount(h.g, order[i])
  {
    CountedWaits(h.g, entry, order);
    forall k: nat | k <= |order| ensures k < |trees| && (CountsAt(h.g, entry, order, k) <==> h.GivesCount(k)) {
      assert trees[k] == Explored(h.g, StartOf(h.g, entry, order, k));
    }
    hide CountsAt, HasCount, ThreadShape, Explores, HDLThread.GivesCount, Trees, Counted;
    if k: nat :| k < |h.paths| && h.GivesCount(k) {
      assert CountsAt(h.g, entry, order, k);
    }
    if k: nat :| k <= |order| && CountsAt(h.g, entry, order, k) {
      assert h.GivesCount(k);
    }
  }

  method GenerateFsm(scfg: SplitCFG, entry: nat, ghost order: seq<nat>) returns (fsm: Fsm)
    requires ThreadShape(scfg.blocks) && entry < |scfg.blocks| && Prepared(scfg.blocks, scfg.pathInfo.Keys)
    requires forall b :: b in scfg.pathInfo ==> scfg.pathInfo[b].falsePath == []
    requires |scfg.paths| == |scfg.allPathInfo| == |order| + 1
    requires StatesRecorded(scfg.blocks, entry, order, scfg.pathInfo, scfg.Trails())
    requires scfg.nextState == StatesOf(NextOf(scfg.blocks, order))
    ensures Compiled(scfg.blocks, entry, order, fsm)
    ensures |fsm.cases| == |order| + if exists i :: 0 <= i < |order| && HasCount(scfg.blocks, order[i]) then 2 else 1
  {
    ghost var g, trails := scfg.blocks, scfg.Trails();
    var thread := new HDLThread(scfg.blocks, Plan(scfg.nextState, |scfg.paths|), scfg.paths, scfg.allPathInfo);
    assert thread.plan == PlanOf(g, order);
    hide ThreadShape, StatesRecorded, Explored, Recorded, Prepared, PlanOf, NextOf, StatesOf, StartOf, Trees, HDLThread.Holds;
    TreesHeld(thread, entry, order, scfg.pathInfo, trails);
    ghost var trees := Trees(g, entry, order);
    var cases := thread.GenerateCases(trees);
    IsCompiled(g, entry, order, scfg.pathInfo, trails, trees, cases);
    CasesCounted(thread, entry, order, trees);
    fsm := Fsm(cases);
  }

  /** The state machine for a thread.  It is `Compiled`: every state's case is the code of the
      tree that the state explores, and the states are numbered by the waits that lead to them. */
  method CompileThread(cfg: Cfg, entry: nat) returns (g: Graph, fsm: Fsm, ghost order: seq<nat>)
    requires CfgShape(cfg) && entry < |cfg|
    ensures IsSplit(cfg, g) && Compiled(g, entry, order, fsm)
    ensures |fsm.cases| == |order| + if exists i :: 0 <= i < |order| && HasCount(g, order[i]) then 2 else 1
  {
    var builder := new SplitCFGBuilder(cfg);
    builder.ConstructSccfg();
    g := builder.blocks;
    SplitShape(cfg, g);
    forall j | 0 <= j < |cfg| ensures j in builder.sccfg.Values {
      assert builder.sccfg[j] == j;
    }
    BranchesPrepared(cfg, g, builder.sccfg.Values);
    assert entry < |g| && Closed(g) && WellBranched(g);
    hide CfgShape, IsSplit, StatesRecorded, Explores, ThreadShape, Prepared;
    var scfg := new SplitCFG(g, builder.pathInfo);
    order := scfg.GeneratePaths(entry);
    fsm := GenerateFsm(scfg, entry, order);
  }
}
