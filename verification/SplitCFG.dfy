/** The search for the path of each state: nested depth-first searches from each wait to the
next ones, and the loop that explores every state. */
module SplitCFGs {
  import opened ThreadGraph
  import opened Unfolding
  import opened PathSearch
  import opened States
  import opened Sequences

  function Zipped(paths: seq<seq<Entry>>, infos: seq<map<nat, PathInfo>>): seq<Trail>
    requires |paths| == |infos|
  {
    seq(|paths|, k requires 0 <= k < |paths| => Trail(paths[k], infos[k]))
  }

  class SplitCFG {
    const blocks: Graph
    var popping: bool
    var nextStateCount: nat
    var waitNextState: map<nat, (nat, nat)>
    var nextState: map<nat, nat>   // of each wait block
    var pathInfo: map<nat, PathInfo>
    var paths: seq<seq<Entry>>
    var allPathInfo: seq<map<nat, PathInfo>>
    // Locals of the state loop, passed by reference to every activation of the search.
    var currPath: seq<Entry>
    var waitsToVisit: seq<nat>
    var visitedWaits: set<nat>

    constructor (blocks: Graph, pathInfo: map<nat, PathInfo>)
      ensures this.blocks == blocks && this.pathInfo == pathInfo
      ensures nextStateCount == 0 && waitNextState == map[] && nextState == map[] && paths == [] && allPathInfo == []
    {
      this.blocks, this.pathInfo := blocks, pathInfo;
      popping, nextStateCount, waitNextState, nextState := false, 0, map[], map[];
      paths, allPathInfo, currPath, waitsToVisit, visitedWaits := [], [], [], [], {};
    }

    function TrailHere(): Trail
      reads this
    {
      Trail(currPath, pathInfo)
    }

    function WaitsHere(): Waits
      reads this
    {
      Waits(visitedWaits, waitsToVisit, nextStateCount, waitNextState)
    }

    /** Advances `i` past the visited successors of `curr`.  `last` is the last successor it
        looked at (or `bb`), taken as visited from now on; `found` says that it was not
        visited before. */
    method GetUnvisitedSuccessor(curr: nat, i: nat, visited: set<nat>, bb: nat)
      returns (found: bool, i': nat, visited': set<nat>, last: nat)
      requires Closed(blocks) && curr < |blocks| && i <= |blocks[curr].succs|
      ensures i <= i' <= |blocks[curr].succs|
      ensures last == if i' == i then bb else blocks[curr].succs[i' - 1]
      ensures forall j :: i <= j < i' - (if found then 1 else 0) ==> blocks[curr].succs[j] in visited
      ensures visited' == if found then visited + {last} else visited
      ensures found ==> i < i' && last !in visited
      ensures !found ==> i' == |blocks[curr].succs|
    {
      found, i', visited', last := false, i, visited, bb;
      while i' < |blocks[curr].succs|
        invariant i <= i' <= |blocks[curr].succs|
        invariant last == if i' == i then bb else blocks[curr].succs[i' - 1]
        invariant forall j :: i <= j < i' ==> blocks[curr].succs[j] in visited
      {
        last := blocks[curr].succs[i'];
        i' := i' + 1;
        if last !in visited {
          visited' := visited + {last};
          found := true;
          return;
        }
      }
    }

    method SetTruePathInfo(b: nat, newlyVisited: seq<nat>)
      modifies `pathInfo
      ensures pathInfo.Keys == old(pathInfo.Keys)
      ensures pathInfo == if b in old(pathInfo) && old(pathInfo)[b].truePath == []
                          then old(pathInfo)[b := old(pathInfo)[b].(truePath := newlyVisited)]
                          else old(pathInfo)
    {
      if b in pathInfo && |pathInfo[b].truePath| == 0 {
        assert [] + newlyVisited == newlyVisited;
        pathInfo := pathInfo[b := pathInfo[b].(truePath := pathInfo[b].truePath + newlyVisited)];
      }
    }

    method SetFalsePathInfo(b: nat, newlyVisited: seq<nat>)
      modifies `pathInfo
      ensures pathInfo.Keys == old(pathInfo.Keys)
      ensures TrailHere() == CloseFalse(old(TrailHere()), b, newlyVisited)
      ensures pathInfo == if b in old(pathInfo) && old(pathInfo)[b].falsePath == []
                          then old(pathInfo)[b := old(pathInfo)[b].(falsePath := newlyVisited)]
                          else old(pathInfo)
    {
      if b in pathInfo && |pathInfo[b].falsePath| == 0 {
        assert [] + newlyVisited == newlyVisited;
        pathInfo := pathInfo[b := pathInfo[b].(falsePath := pathInfo[b].falsePath + newlyVisited)];
      }
    }

    /** The bookkeeping after the true branch of the block at path index `id`. */
    method CloseTruePath(b: nat, id: nat, subPath: seq<nat>, foundSucc: bool)
      requires b < |blocks| && id < |currPath| && InGraph(blocks, TrailHere()) && b in pathInfo
      modifies `pathInfo, `currPath
      ensures pathInfo.Keys == old(pathInfo.Keys)
      ensures TrailHere() == CloseTrue(blocks, old(TrailHere()), b, id, subPath, foundSucc)
      ensures |currPath| == old(|currPath|)
      ensures FalseStartsAt(blocks, old(currPath), b, foundSucc, currPath[id].falseIdx)
      ensures currPath == old(currPath)[id := old(currPath)[id].(falseIdx := currPath[id].falseIdx)]
      ensures pathInfo[b].falsePath == old(pathInfo)[b].falsePath
      ensures pathInfo[b].truePath == if old(pathInfo)[b].truePath == [] then subPath else old(pathInfo)[b].truePath
    {
      FalseStartIs(blocks, currPath, b, foundSucc);
      SetTruePathInfo(b, subPath);
      ghost var path0 := currPath;
      var falseIdx := |currPath|;
      if !foundSucc {
        var target := blocks[b].origin.LastSucc();
        if target.Some? {
          var n := 0;
          while n < |currPath|
            invariant n <= |currPath| == |path0|
            invariant currPath == path0
            invariant falseIdx == LastFrom(blocks, path0, target.value, n, |path0|)
          {
            if blocks[currPath[n].block].cfg == target.value {
              falseIdx := currPath[n].pathIdx;
            }
            n := n + 1;
          }
        }
      }
      currPath := currPath[id := currPath[id].(falseIdx := falseIdx)];
    }

    /** Between two turns of the search every block below the top of the stack, and the top
        itself on the way back up, has a successor that was followed, and is neither a wait nor
        a block the search recurses from. */
    predicate StackOk(toVisit: seq<(nat, nat)>, goingUp: bool, visited: set<nat>) {
      && (forall j :: 0 <= j < |toVisit| ==>
            toVisit[j].0 < |blocks| && toVisit[j].0 in visited && toVisit[j].1 <= |blocks[toVisit[j].0].succs|)
      && (forall j :: 0 <= j < |toVisit| - (if goingUp then 0 else 1) ==>
            toVisit[j].1 > 0 && !blocks[toVisit[j].0].Branching() && !blocks[toVisit[j].0].hasWait)
    }

    /** Goes down to the successor `bb` or back up. */
    method AddSuccessorToVisitOrPop(parentHasWait: bool, bb: nat, toVisit: seq<(nat, nat)>, found: bool,
                                    ghost visited: set<nat>)
      returns (toVisit': seq<(nat, nat)>)
      requires toVisit != [] && bb < |blocks| && (found ==> bb in visited)
      requires StackOk(toVisit, found && !parentHasWait, visited)
      modifies `popping
      ensures popping == !(found && !parentHasWait)
      ensures |toVisit'| == if popping then |toVisit| - 1 else |toVisit| + 1
      ensures !popping ==> toVisit'[|toVisit|] == (bb, 0)
      ensures StackOk(toVisit', popping, visited)
    {
      if found && !parentHasWait {
        toVisit' := toVisit + [(bb, 0)];
        popping := false;
      } else {
        toVisit' := toVisit[..|toVisit| - 1];
        popping := true;
      }
    }

    ghost predicate InBlocks()
      reads this
    {
      InGraph(blocks, TrailHere()) && InRange(blocks, waitsToVisit)
    }

    /** What every part of the search keeps, on any graph. */
    twostate predicate Progress()
      reads this
    {
      && InBlocks() && |currPath| >= old(|currPath|)
      && pathInfo.Keys == old(pathInfo.Keys)
      && old(visitedWaits) <= visitedWaits <= old(visitedWaits) + AllBlocks(blocks)
      && (visitedWaits == old(visitedWaits) ==> waitsToVisit == old(waitsToVisit))
    }

    /** Queues wait `parent`, to be resumed at `bb`, unless it was seen before. */
    method RecordWait(parent: nat, bb: nat)
      requires parent < |blocks|
      modifies `waitsToVisit, `visitedWaits, `nextStateCount, `waitNextState
      ensures WaitsHere() == SeeWait(old(WaitsHere()), parent, bb)
    {
      if parent !in visitedWaits {
        visitedWaits := visitedWaits + {parent};
        waitsToVisit := [bb] + waitsToVisit;
        nextStateCount := nextStateCount + 1;
        if parent !in waitNextState {
          waitNextState := waitNextState[parent := (bb, nextStateCount)];
        }
      }
    }

    /** One turn of the inner loop: a nested search from the successor `bb0` of `parent`, in a
        copy of the visited blocks, then the next unvisited successor. */
    method VisitArm(parent: nat, id: nat, i0: nat, bb0: nat, saveVisited: set<nat>, visited0: set<nat>)
      returns (foundSucc: bool, i: nat, bb: nat, visited: set<nat>)
      requires Closed(blocks) && parent < |blocks| && id < |currPath|
      requires 0 < i0 <= |blocks[parent].succs| && bb0 == blocks[parent].succs[i0 - 1]
      requires parent in saveVisited && bb0 !in saveVisited
      requires saveVisited <= visited0 <= AllBlocks(blocks)
      requires InBlocks()
      modifies `currPath, `pathInfo, `waitsToVisit, `visitedWaits, `nextStateCount, `waitNextState, `popping
      ensures Progress() && bb < |blocks|
      ensures visited0 <= visited <= AllBlocks(blocks)
      ensures i0 <= i <= |blocks[parent].succs|
      ensures foundSucc ==> i0 < i && bb == blocks[parent].succs[i - 1] && bb !in visited0
                            && visited == visited0 + {bb}
      ensures forall j :: i0 <= j < i - (if foundSucc then 1 else 0) ==> blocks[parent].succs[j] in visited0
      ensures !foundSucc ==> i == |blocks[parent].succs|
      ensures WellBranched(blocks) ==>
        var t := Act(blocks, bb0, saveVisited);
        && TreeInGraph(blocks, t)
        && WaitsHere() == RunWaits(blocks, t, old(WaitsHere()))
        && var tr := RunTrail(blocks, t, old(TrailHere()));
           TrailHere() == if bb0 == blocks[parent].succs[0]
                          then CloseTrue(blocks, tr, parent, id, Spine(t), foundSucc)
                          else CloseFalse(tr, parent, Spine(t))
      decreases AllBlocks(blocks) - saveVisited, 1
    {
      var truePath, falsePath := false, false;
      if parent in pathInfo {
        if blocks[parent].succs[0] == bb0 {
          truePath := true;
        } else {
          falsePath := true;
        }
      }
      var loopVisited := saveVisited + {parent};
      assert loopVisited == saveVisited;
      var subPath;
      subPath, loopVisited := DfsVisitWait(bb0, loopVisited);
      foundSucc, i, visited, bb := GetUnvisitedSuccessor(parent, i0, visited0, bb0);
      if truePath {
        CloseTruePath(parent, id, subPath, foundSucc);
      } else if falsePath {
        SetFalsePathInfo(parent, subPath);
      }
      if !foundSucc {
        visited := visited + loopVisited;
      }
    }

    /** The inner loop: one nested search for each unvisited successor of `parent`, of which
        `bb0` is the first. */
    method VisitArms(parent: nat, id: nat, i0: nat, bb0: nat, saveVisited: set<nat>, visited0: set<nat>)
      returns (i: nat, bb: nat, visited: set<nat>)
      requires Closed(blocks) && parent < |blocks| && id < |currPath|
      requires 0 < i0 <= |blocks[parent].succs| && bb0 == blocks[parent].succs[i0 - 1]
      requires parent in saveVisited && bb0 !in saveVisited
      requires saveVisited <= visited0 <= AllBlocks(blocks) && visited0 == saveVisited + {bb0}
      requires forall j :: 0 <= j < i0 - 1 ==> blocks[parent].succs[j] in saveVisited
      requires InBlocks()
      modifies `currPath, `pathInfo, `waitsToVisit, `visitedWaits, `nextStateCount, `waitNextState, `popping
      ensures visited0 <= visited <= AllBlocks(blocks) && bb < |blocks|
      ensures i == |blocks[parent].succs|
      ensures Progress()
      ensures WellBranched(blocks) ==>
        var thn, els := Then(blocks, parent, saveVisited), Else(blocks, parent, saveVisited);
        && ArmInGraph(blocks, thn) && ArmInGraph(blocks, els)
        && TrailHere() == RunElse(blocks, parent, els, RunThen(blocks, parent, id, thn, els.Some?, old(TrailHere())))
        && WaitsHere() == RunArmWaits(blocks, els, RunArmWaits(blocks, thn, old(WaitsHere())))
      decreases AllBlocks(blocks) - saveVisited, 2
    {
      i, bb, visited := i0, bb0, visited0;
      ghost var succs := blocks[parent].succs;
      ghost var wb := WellBranched(blocks);
      ghost var thn, els := Then(blocks, parent, saveVisited), Else(blocks, parent, saveVisited);
      ArmsInGraph(blocks, parent, saveVisited);
      ghost var tr1 := RunThen(blocks, parent, id, thn, els.Some?, TrailHere());
      ghost var ws1 := RunArmWaits(blocks, thn, WaitsHere());
      var foundSucc := true;
      while foundSucc
        invariant i0 <= i <= |succs| && bb < |blocks|
        invariant visited0 <= visited <= AllBlocks(blocks)
        invariant foundSucc ==> succs[i - 1] == bb && bb !in saveVisited
        invariant Progress() && id < |currPath|
        invariant !foundSucc ==> i == |succs|
        invariant wb && foundSucc ==>
          || (i == i0 && visited == visited0 && TrailHere() == old(TrailHere()) && WaitsHere() == old(WaitsHere()))
          || (i == 2 && bb != succs[0] && els.Some? && TrailHere() == tr1 && WaitsHere() == ws1)
        invariant wb && !foundSucc ==>
          && TrailHere() == RunElse(blocks, parent, els, tr1)
          && WaitsHere() == RunArmWaits(blocks, els, ws1)
        decreases |succs| - i, foundSucc
      {
        foundSucc, i, bb, visited := VisitArm(parent, id, i, bb, saveVisited, visited);
      }
    }

    /** A wait uses up its successor, which is marked as visited, and is queued. */
    method PassWait(parent: nat, i0: nat, visited0: set<nat>, bb0: nat)
      returns (i: nat, visited: set<nat>, bb: nat)
      requires Closed(blocks) && parent < |blocks| && bb0 < |blocks| && i0 <= |blocks[parent].succs|
      requires visited0 <= AllBlocks(blocks) && InRange(blocks, waitsToVisit)
      modifies `waitsToVisit, `visitedWaits, `nextStateCount, `waitNextState
      ensures visited0 <= visited <= AllBlocks(blocks) && bb < |blocks|
      ensures i0 <= i <= |blocks[parent].succs|
      ensures InRange(blocks, waitsToVisit)
      ensures !blocks[parent].hasWait ==>
        i == i0 && visited == visited0 && bb == bb0 && WaitsHere() == old(WaitsHere())
      ensures forall j :: i0 <= j < i ==> blocks[parent].succs[j] in visited
      ensures old(visitedWaits) <= visitedWaits <= old(visitedWaits) + AllBlocks(blocks)
      ensures visitedWaits == old(visitedWaits) ==> waitsToVisit == old(waitsToVisit)
      ensures WellBranched(blocks) && i0 == 0 && bb0 == parent ==>
        && (blocks[parent].hasWait ==> i == |blocks[parent].succs|)
        && WaitsHere() == VisitWait(blocks, parent, old(WaitsHere()))
    {
      i, visited, bb := i0, visited0, bb0;
      if blocks[parent].hasWait {
        var foundAfterWait;
        foundAfterWait, i, visited, bb := GetUnvisitedSuccessor(parent, i, visited, bb);
        RecordWait(parent, bb);
      }
    }

    /** One turn of the outer loop on the top of the stack: block `parent`, whose successors
        from index `i0` on are still to be looked at. */
    method VisitTop(parent: nat, i0: nat, visited0: set<nat>, bb0: nat, localPath0: seq<nat>)
      returns (foundSucc: bool, i: nat, visited: set<nat>, bb: nat, localPath: seq<nat>)
      requires Closed(blocks) && parent < |blocks| && bb0 < |blocks| && i0 <= |blocks[parent].succs|
      requires parent in visited0 && visited0 <= AllBlocks(blocks)
      requires InBlocks()
      requires if popping then i0 > 0 && !blocks[parent].Branching() && !blocks[parent].hasWait else i0 == 0 && bb0 == parent
      modifies `currPath, `pathInfo, `waitsToVisit, `visitedWaits, `nextStateCount, `waitNextState, `popping
      ensures visited0 <= visited <= AllBlocks(blocks) && bb < |blocks|
      ensures i0 <= i <= |blocks[parent].succs|
      ensures Progress()
      ensures foundSucc ==> !blocks[parent].Branching() && bb in visited && bb !in visited0 && i0 < i
      ensures WellBranched(blocks) && old(popping) ==>
        && !foundSucc && i == i0 && localPath == localPath0
        && TrailHere() == old(TrailHere()) && WaitsHere() == old(WaitsHere())
      ensures WellBranched(blocks) && !old(popping) ==>
        var t := Body(blocks, parent, visited0);
        && i == |blocks[parent].succs| && localPath == localPath0 + [parent] && TreeInGraph(blocks, t)
        && if foundSucc && !blocks[parent].hasWait
           then t == Chain(parent, Body(blocks, bb, visited))
                && TrailHere() == Push(old(TrailHere()), parent) && WaitsHere() == old(WaitsHere())
           else Spine(t) == [parent]
                && TrailHere() == RunTrail(blocks, t, old(TrailHere()))
                && WaitsHere() == RunWaits(blocks, t, old(WaitsHere()))
      decreases AllBlocks(blocks) - visited0, 3
    {
      i, visited, bb, localPath := i0, visited0, bb0, localPath0;
      BodyInGraph(blocks, parent, visited0);
      var id := -1;
      if !popping {
        currPath := currPath + [Entry(parent, |currPath|, 0)];
        id := |currPath| - 1;
        localPath := localPath + [parent];
      }
      i, visited, bb := PassWait(parent, i, visited, bb);
      var saveVisited := visited;
      foundSucc, i, visited, bb := GetUnvisitedSuccessor(parent, i, visited, bb);
      if blocks[parent].Branching() && foundSucc {
        i, bb, visited := VisitArms(parent, id, i, bb, saveVisited, visited);
        foundSucc := false;
      }
    }

    /** What is still to be done is tree `rest`. */
    ghost predicate Left(rest: Tree, localPath: seq<nat>, trail: Trail, waits: Waits, spine: seq<nat>)
      reads this
    {
      && TreeInGraph(blocks, rest) && InGraph(blocks, TrailHere())
      && trail == RunTrail(blocks, rest, TrailHere())
      && waits == RunWaits(blocks, rest, WaitsHere())
      && spine == localPath + Spine(rest)
    }

    /** A chain goes on with what follows its first block. */
    lemma ChainParts(g: Graph, t: Tree, tr: Trail, ws: Waits)
      requires TreeInGraph(g, t) && InGraph(g, tr)
      ensures t.Chain? && !g[t.b].hasWait ==>
        && t.b < |g| && TreeInGraph(g, t.next) && InGraph(g, Push(tr, t.b))
        && RunTrail(g, t, tr) == RunTrail(g, t.next, Push(tr, t.b))
        && RunWaits(g, t, ws) == RunWaits(g, t.next, ws)
        && Spine(t) == [t.b] + Spine(t.next)
    {
    }

    lemma SpineParts(path: seq<nat>, b: nat, t: Tree)
      ensures Spine(Empty) == [] && path + [] == path
      ensures t.Chain? ==> path + Spine(t) == path + [t.b] + Spine(t.next)
      ensures path + [b] == path + [b] + Spine(Empty)
    {
      NothingAdded(path);
      NothingAdded(path + [b]);
      if t.Chain? {
        assert Spine(t) == [t.b] + Spine(t.next);
        hide Spine;
        Regroup(path, [t.b], Spine(t.next));
      }
    }

    /** The top of the stack may have moved on to successor `i`. */
    lemma StackStays(toVisit: seq<(nat, nat)>, goingUp: bool, visited0: set<nat>, i: nat, visited: set<nat>, down: bool)
      requires toVisit != [] && StackOk(toVisit, goingUp, visited0) && visited0 <= visited
      requires var (parent, i0) := toVisit[|toVisit| - 1];
               i0 <= i <= |blocks[parent].succs|
               && (down ==> i > 0 && !blocks[parent].Branching() && !blocks[parent].hasWait)
      ensures var top := |toVisit| - 1; StackOk(toVisit[top := (toVisit[top].0, i)], down, visited)
    {
    }

    /** One turn of the outer loop: the top of the stack, then a step down or up. */
    method SearchTurn(toVisit: seq<(nat, nat)>, visited0: set<nat>, bb0: nat, localPath0: seq<nat>,
                      ghost rest: Tree, ghost trail: Trail, ghost waits: Waits, ghost spine: seq<nat>)
      returns (toVisit': seq<(nat, nat)>, visited: set<nat>, bb: nat, localPath: seq<nat>, ghost rest': Tree)
      requires Closed(blocks) && bb0 < |blocks| && visited0 <= AllBlocks(blocks) && InBlocks()
      requires toVisit != [] && StackOk(toVisit, popping, visited0)
      requires !popping ==> toVisit[|toVisit| - 1] == (bb0, 0)
      requires WellBranched(blocks) ==>
        && Left(rest, localPath0, trail, waits, spine)
        && rest == if popping then Empty else Body(blocks, bb0, visited0)
      modifies `currPath, `pathInfo, `waitsToVisit, `visitedWaits, `nextStateCount, `waitNextState, `popping
      ensures visited0 <= visited <= AllBlocks(blocks) && bb < |blocks|
      ensures Progress()
      ensures StackOk(toVisit', popping, visited)
      ensures if popping then |toVisit'| < |toVisit| else visited0 < visited && toVisit' != []
      ensures !popping ==> toVisit'[|toVisit'| - 1] == (bb, 0)
      ensures WellBranched(blocks) ==>
        && Left(rest', localPath, trail, waits, spine)
        && rest' == if popping then Empty else Body(blocks, bb, visited)
      decreases AllBlocks(blocks) - visited0, 4
    {
      var top := |toVisit| - 1;
      var parent, i := toVisit[top].0, toVisit[top].1;
      var hasWait := blocks[parent].hasWait;
      ghost var trail0, waits0, wb := TrailHere(), WaitsHere(), WellBranched(blocks);
      if wb { ChainParts(blocks, rest, trail0, waits0); }
      SpineParts(localPath0, parent, rest);
      hide Body, RunTrail, RunWaits, TreeInGraph, Spine, WellBranched, VisitWait;
      var foundSucc;
      foundSucc, i, visited, bb, localPath := VisitTop(parent, i, visited0, bb0, localPath0);
      StackStays(toVisit, old(popping), visited0, i, visited, foundSucc && !hasWait);
      hide StackOk;
      rest' := if foundSucc && !hasWait && rest.Chain? then rest.next else Empty;
      toVisit' := AddSuccessorToVisitOrPop(hasWait, bb, toVisit[top := (parent, i)], foundSucc, visited);
    }

    method DfsVisitWait(start: nat, visited0: set<nat>) returns (localPath: seq<nat>, visited: set<nat>)
      requires Closed(blocks) && start < |blocks| && start !in visited0 && visited0 <= AllBlocks(blocks)
      requires InBlocks()
      modifies `currPath, `pathInfo, `waitsToVisit, `visitedWaits, `nextStateCount, `waitNextState, `popping
      ensures visited0 <= visited <= AllBlocks(blocks)
      ensures Progress()
      ensures WellBranched(blocks) ==>
        var t := Act(blocks, start, visited0);
        && TreeInGraph(blocks, t)
        && TrailHere() == RunTrail(blocks, t, old(TrailHere()))
        && WaitsHere() == RunWaits(blocks, t, old(WaitsHere()))
        && localPath == Spine(t)
      decreases AllBlocks(blocks) - visited0, 0
    {
      localPath, visited := [], visited0;
      ghost var wb := WellBranched(blocks);
      ghost var tree := Act(blocks, start, visited0);
      ActInGraph(blocks, start, visited0);
      if |blocks[start].succs| == 0 {
        return;
      }
      ghost var trail, waits := RunTrail(blocks, tree, TrailHere()), RunWaits(blocks, tree, WaitsHere());
      var bb: nat := start;
      popping := false;
      visited := visited + {bb};
      var toVisit: seq<(nat, nat)> := [(bb, 0)];
      ghost var rest := tree;
      while toVisit != []
        invariant visited0 + {start} <= visited <= AllBlocks(blocks)
        invariant Progress() && bb < |blocks|
        invariant StackOk(toVisit, popping, visited)
        invariant !popping ==> toVisit != [] && toVisit[|toVisit| - 1] == (bb, 0)
        invariant wb ==> Left(rest, localPath, trail, waits, Spine(tree))
        invariant wb ==> rest == if popping then Empty else Body(blocks, bb, visited)
        decreases AllBlocks(blocks) - visited, |toVisit|
      {
        toVisit, visited, bb, localPath, rest :=
          SearchTurn(toVisit, visited, bb, localPath, rest, trail, waits, Spine(tree));
      }
    }

    /** The path and the path information of every state explored so far. */
    ghost function Trails(): seq<Trail>
      reads `paths, `allPathInfo
      requires |paths| == |allPathInfo|
    {
      Zipped(paths, allPathInfo)
    }

    /** Explores one state from `start` and records it. */
    method ExploreState(start: nat, prepared: map<nat, PathInfo>)
      requires Closed(blocks) && start < |blocks|
      requires InRange(blocks, waitsToVisit) && pathInfo == prepared && |paths| == |allPathInfo|
      modifies this
      ensures InRange(blocks, waitsToVisit) && pathInfo == prepared && |paths| == |allPathInfo|
      ensures nextState == old(nextState)
      ensures old(visitedWaits) <= visitedWaits <= old(visitedWaits) + AllBlocks(blocks)
      ensures visitedWaits == old(visitedWaits) ==> waitsToVisit == old(waitsToVisit)
      ensures WellBranched(blocks) ==>
        && WaitsHere() == RunWaits(blocks, Explored(blocks, start), old(WaitsHere()))
        && Trails() == old(Trails()) + [Recorded(blocks, start, prepared)]
    {
      currPath := [];
      var localPath, visited := DfsVisitWait(start, {});
      paths := paths + [currPath];
      allPathInfo := allPathInfo + [pathInfo];
      pathInfo := prepared;
    }

    lemma Fewer(all: set<nat>, seen: set<nat>, now: set<nat>)
      requires seen <= now <= all && now != seen
      ensures all - now < all - seen
    {
      var w :| w in now && w !in seen;
      assert w in all - seen && w !in all - now;
    }

    lemma InRangeTail(g: Graph, s: seq<nat>)
      requires InRange(g, s) && s != []
      ensures s[|s| - 1] < |g| && InRange(g, s[..|s| - 1])
    {
    }

    /** All states: the search from the entry, then one search for each queued wait. */
    method DfsRework(entry: nat) returns (ghost order: seq<nat>)
      requires Closed(blocks) && entry < |blocks|
      requires nextStateCount == 0 && waitNextState == map[] && paths == [] && allPathInfo == []
      modifies this
      ensures pathInfo == old(pathInfo) && |paths| == |allPathInfo| && nextState == old(nextState)
      ensures WellBranched(blocks) ==>
        && StatesRecorded(blocks, entry, order, pathInfo, Trails())
        && |paths| == |order| + 1
        && waitNextState == NextOf(blocks, order)
    {
      hide StatesRecorded, Explored, States.Recorded, MeetTree, RunWaits, QueueOf, NextOf, ElementsOf;
      waitsToVisit, visitedWaits := [], {};
      var preparedPathInfo := pathInfo;
      ghost var wb := WellBranched(blocks);
      ServeFirst(blocks, entry, pathInfo);
      ExploreState(entry, preparedPathInfo);
      order := MeetTree(blocks, Explored(blocks, entry), []);
      assert wb ==> Trails() == [Recorded(blocks, entry, preparedPathInfo)];
      ghost var unseen := AllBlocks(blocks) - visitedWaits;
      hide AllBlocks, InRange, Serving;
      while waitsToVisit != []
        invariant InRange(blocks, waitsToVisit) && pathInfo == preparedPathInfo && |paths| == |allPathInfo|
        invariant visitedWaits <= AllBlocks(blocks) && unseen == AllBlocks(blocks) - visitedWaits
        invariant nextState == old(nextState)
        invariant wb ==> Serving(blocks, entry, order, preparedPathInfo, Trails(), WaitsHere())
        decreases unseen, |waitsToVisit|
      {
        ghost var seen := visitedWaits;
        order := ServeWait(entry, preparedPathInfo, order);
        if visitedWaits != seen { Fewer(AllBlocks(blocks), seen, visitedWaits); }
        unseen := AllBlocks(blocks) - visitedWaits;
      }
      ServeAll(entry, order, preparedPathInfo);
    }

    lemma ServeAll(entry: nat, order: seq<nat>, prepared: map<nat, PathInfo>)
      requires Closed(blocks) && entry < |blocks| && waitsToVisit == [] && |paths| == |allPathInfo|
      requires WellBranched(blocks) ==> Serving(blocks, entry, order, prepared, Trails(), WaitsHere())
      ensures WellBranched(blocks) ==>
        && StatesRecorded(blocks, entry, order, prepared, Trails())
        && |paths| == |order| + 1 && waitNextState == NextOf(blocks, order)
    {
      hide StatesRecorded, NextOf, WellBranched;
    }

    /** The oldest queued wait is explored. */
    method ServeWait(entry: nat, prepared: map<nat, PathInfo>, ghost order0: seq<nat>) returns (ghost order: seq<nat>)
      requires Closed(blocks) && entry < |blocks|
      requires InRange(blocks, waitsToVisit) && pathInfo == prepared && |paths| == |allPathInfo|
      requires visitedWaits <= AllBlocks(blocks) && waitsToVisit != []
      requires WellBranched(blocks) ==> Serving(blocks, entry, order0, prepared, Trails(), WaitsHere())
      modifies this
      ensures InRange(blocks, waitsToVisit) && pathInfo == prepared && |paths| == |allPathInfo|
      ensures nextState == old(nextState)
      ensures old(visitedWaits) <= visitedWaits <= AllBlocks(blocks)
      ensures visitedWaits == old(visitedWaits) ==> waitsToVisit == old(waitsToVisit[..|waitsToVisit| - 1])
      ensures WellBranched(blocks) ==> Serving(blocks, entry, order, prepared, Trails(), WaitsHere())
    {
      hide Explored, States.Recorded, MeetTree, RunWaits, Serving, WellBranched, AllBlocks, InRange;
      var start := waitsToVisit[|waitsToVisit| - 1];
      InRangeTail(blocks, waitsToVisit);
      if WellBranched(blocks) { ServeNext(blocks, entry, order0, prepared, Trails(), WaitsHere()); }
      order := MeetTree(blocks, Explored(blocks, start), order0);
      waitsToVisit := waitsToVisit[..|waitsToVisit| - 1];
      ExploreState(start, prepared);
    }

    method AddNextStatesToBlocks()
      requires nextState == map[]
      modifies `nextState
      ensures nextState == StatesOf(waitNextState)
    {
      var todo := waitNextState.Keys;
      while todo != {}
        invariant todo <= waitNextState.Keys
        invariant nextState == map w | w in waitNextState && w !in todo :: waitNextState[w].1
      {
        var w :| w in todo;
        nextState := nextState[w := waitNextState[w].1];
        todo := todo - {w};
      }
    }

    method GeneratePaths(entry: nat) returns (ghost order: seq<nat>)
      requires Closed(blocks) && entry < |blocks| && nextState == map[]
      requires nextStateCount == 0 && waitNextState == map[] && paths == [] && allPathInfo == []
      modifies this
      ensures pathInfo == old(pathInfo) && |paths| == |allPathInfo|
      ensures WellBranched(blocks) ==>
        && StatesRecorded(blocks, entry, order, pathInfo, Trails())
        && |paths| == |order| + 1
        && nextState == StatesOf(NextOf(blocks, order))
    {
      order := DfsRework(entry);
      AddNextStatesToBlocks();
    }
  }
}
