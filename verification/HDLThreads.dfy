/** The code generator for one thread: it decodes each state's flat path into nested
if statements and rewrites waits into assignments to the next state and the counter. */
module HDLThreads {
  import opened ThreadGraph
  import opened Unfolding
  import opened PathSearch
  import opened Encoding
  import opened Hcodes
  import opened Sequences

  /** `after` is `before` with the indices from `lo` up to `hi`. */
  ghost predicate Marked(before: set<nat>, after: set<nat>, lo: int, hi: int) {
    forall i :: i in after <==> i in before || lo <= i < hi
  }

  /** No index from `lo` up to `hi` is in `visited`. */
  ghost predicate Unmarked(visited: set<nat>, lo: int, hi: int) {
    forall i :: lo <= i < hi ==> i !in visited
  }

  class HDLThread {
    const g: Graph
    const plan: Plan
    const paths: seq<seq<Entry>>
    const allPathInfo: seq<map<nat, PathInfo>>
    var pathNodeVisited: set<nat>
    var needWaitSwitchCase: bool

    constructor (g: Graph, plan: Plan, paths: seq<seq<Entry>>, allPathInfo: seq<map<nat, PathInfo>>)
      ensures this.g == g && this.plan == plan && this.paths == paths && this.allPathInfo == allPathInfo
      ensures pathNodeVisited == {} && !needWaitSwitchCase
    {
      this.g, this.plan, this.paths, this.allPathInfo := g, plan, paths, allPathInfo;
      pathNodeVisited, needWaitSwitchCase := {}, false;
    }

    /** The path of state `k` holds tree `t` in flat form from index `o` on. */
    predicate Holds(k: nat, o: nat, t: Tree) {
      && Closed(g) && TreeInGraph(g, t) && Full(t) && Generable(g, t)
      && k < |paths| == |allPathInfo|
      && o + Size(t) <= |paths[k]|
      && paths[k][o..o + Size(t)] == Flatten(t, o)
      && FalsePathsOk(t, allPathInfo[k])
    }

    /** The number of blocks recorded for the false branch of the block at index `ix`. */
    method GetFalseLength(k: nat, ix: nat) returns (n: nat)
      requires k < |paths| == |allPathInfo| && ix < |paths[k]|
      ensures n == if paths[k][ix].block in allPathInfo[k] then |allPathInfo[k][paths[k][ix].block].falsePath| else 0
    {
      n := 0;
      if paths[k][ix].block in allPathInfo[k] {
        n := |allPathInfo[k][paths[k][ix].block].falsePath|;
      }
    }

    /** Rewrites the wait at the end of `code`. */
    method ProcessHWait(code: seq<Hcode>, next: nat) returns (code': seq<Hcode>)
      requires code != [] && code[|code| - 1].WaitCall?
      modifies `needWaitSwitchCase
      ensures code' == code[..|code| - 1] + EmitWait(code[|code| - 1].arg, next, plan.numStates)
      ensures code' == code[..|code| - 1] +
        match code[|code| - 1].arg
        case None => [SetNextState(next), Return]
        case Some(n) => [SetWaitCounter(n), SaveResume(next), SetNextState(plan.numStates), Return]
      ensures needWaitSwitchCase == (old(needWaitSwitchCase) || code[|code| - 1].arg.Some?)
    {
      var last := |code| - 1;
      if code[last].arg == None {
        code' := code[last := SetNextState(next)];
      } else {
        needWaitSwitchCase := true;
        code' := code[last := SetWaitCounter(code[last].arg.value)];
        code' := code' + [SaveResume(next)];
        code' := code' + [SetNextState(plan.numStates)];
      }
      code' := code' + [Return];
    }

    method ProcessElement(b: nat, e: Elem) returns (tmp: seq<Hcode>)
      requires b < |g|
      modifies `needWaitSwitchCase
      ensures tmp == EmitElem(e, g[b].cfg, plan.NextState(b), plan.numStates)
      ensures needWaitSwitchCase == (old(needWaitSwitchCase) || (e.Wait? && e.arg.Some?))
    {
      tmp := match e case Stmt(id) => [Do(g[b].cfg, id)] case Wait(arg) => [WaitCall(arg)];
      if tmp[|tmp| - 1].WaitCall? {
        tmp := ProcessHWait(tmp, plan.NextState(b));
      }
    }

    /** The statements of a block, each generated and, if it ends in a wait, rewritten. */
    method ProcessElements(b: nat, switchCase0: seq<Hcode>) returns (switchCase: seq<Hcode>)
      requires b < |g|
      modifies `needWaitSwitchCase
      ensures switchCase == switchCase0 + EmitElems(g[b].elems, g[b].cfg, plan.NextState(b), plan.numStates)
      ensures needWaitSwitchCase == (old(needWaitSwitchCase) || CountedElems(g[b].elems))
    {
      switchCase := switchCase0;
      ghost var elems, cfg, next := g[b].elems, g[b].cfg, plan.NextState(b);
      assert elems[..0] == [] && EmitElems([], cfg, next, plan.numStates) == [] && !CountedElems([]);
      assert switchCase0 + [] == switchCase0 && elems[..|elems|] == elems;
      hide CountedElems, EmitElems, EmitElem, Plan.NextState;
      var i := 0;
      while i < |g[b].elems|
        invariant i <= |elems|
        invariant switchCase == switchCase0 + EmitElems(elems[..i], cfg, next, plan.numStates)
        invariant needWaitSwitchCase == (old(needWaitSwitchCase) || CountedElems(elems[..i]))
      {
        var tmp := ProcessElement(b, g[b].elems[i]);
        Regroup(switchCase0, EmitElems(elems[..i], cfg, next, plan.numStates), tmp);
        EmitSnoc(elems, i, cfg, next, plan.numStates);
        CountedSnoc(elems[..i], elems[i]);
        switchCase := switchCase + tmp;
        i := i + 1;
      }
    }

    lemma EmitSnoc(elems: seq<Elem>, i: nat, cfg: nat, next: nat, numStates: nat)
      requires i < |elems|
      ensures elems[..i + 1] == elems[..i] + [elems[i]]
      ensures EmitElems(elems[..i + 1], cfg, next, numStates)
              == EmitElems(elems[..i], cfg, next, numStates) + EmitElem(elems[i], cfg, next, numStates)
    {
      assert elems[..i + 1][..i] == elems[..i];
    }

    lemma CountedSnoc(elems: seq<Elem>, e: Elem)
      ensures CountedElems(elems + [e]) <==> CountedElems(elems) || (e.Wait? && e.arg.Some?)
    {
      var all := elems + [e];
      if CountedElems(elems) {
        var i :| 0 <= i < |elems| && elems[i].Wait? && elems[i].arg.Some?;
        assert all[i] == elems[i];
      }
      if e.Wait? && e.arg.Some? {
        assert all[|elems|] == e;
      }
      if CountedElems(all) {
        var i :| 0 <= i < |all| && all[i].Wait? && all[i].arg.Some?;
        if i < |elems| { assert elems[i] == all[i]; }
      }
    }

    /** The entry of the root, and where its subtrees lie. */
    lemma {:induction false} HoldsParts(k: nat, o: nat, t: Tree)
      requires Holds(k, o, t) && t != Empty
      ensures TreeInGraph(g, t) && k < |paths| == |allPathInfo| && o < |paths[k]|
      ensures paths[k][o].block == t.b < |g| && Size(t) >= 1
      ensures !t.Fork? ==> paths[k][o].falseIdx == 0 && g[t.b].origin.term != TernaryTerm
      ensures !t.Fork? ==> Holds(k, o + 1, Empty)
      ensures t.Chain? ==> Holds(k, o + 1, t.next) && Size(t) == 1 + Size(t.next)
      ensures t.Fork? ==>
        var f := o + 1 + Size(t.thn.value);
        && paths[k][o].falseIdx == f && Size(t) == 1 + Size(t.thn.value) + Size(t.els.value)
        && Holds(k, o + 1, t.thn.value) && Holds(k, f, t.els.value)
        && t.b in allPathInfo[k] && allPathInfo[k][t.b].falsePath == Spine(t.els.value)
        && !g[t.b].hasWait && (g[t.b].origin.term == IfTerm || g[t.b].origin.term == LoopTerm)
    {
      FlatParts(paths[k], o, t);
      hide Flatten;
    }

    lemma {:induction false} FlatParts(p: seq<Entry>, o: nat, t: Tree)
      requires Full(t) && t != Empty && o + Size(t) <= |p| && p[o..o + Size(t)] == Flatten(t, o)
      ensures Size(t) >= 1 && p[o] == Entry(t.b, o, if t.Fork? then o + 1 + Size(t.thn.value) else 0)
      ensures t.Chain? ==> p[o + 1..o + 1 + Size(t.next)] == Flatten(t.next, o + 1)
      ensures t.Fork? ==>
        var f := o + 1 + Size(t.thn.value);
        p[o + 1..f] == Flatten(t.thn.value, o + 1) && p[f..f + Size(t.els.value)] == Flatten(t.els.value, f)
    {
      match t
      case Leaf(b) =>
      case Chain(b, next) => Slices(p, o, [Entry(b, o, 0)], Flatten(next, o + 1), []);
      case Fork(b, thn, els) =>
        var f := o + 1 + Size(thn.value);
        Slices(p, o, [Entry(b, o, f)], Flatten(thn.value, o + 1), Flatten(els.value, f));
    }

    lemma Slices<T>(p: seq<T>, o: nat, a: seq<T>, b: seq<T>, c: seq<T>)
      requires o + |a| + |b| + |c| <= |p| && p[o..o + |a| + |b| + |c|] == a + b + c
      ensures p[o..o + |a|] == a
      ensures p[o + |a|..o + |a| + |b|] == b
      ensures p[o + |a| + |b|..o + |a| + |b| + |c|] == c
    {
      var q := p[o..o + |a| + |b| + |c|];
      assert q[..|a|] == a && q[|a|..|a| + |b|] == b && q[|a| + |b|..] == c;
      assert forall i :: 0 <= i < |q| ==> q[i] == p[o + i];
    }

    lemma SpineBounds(t: Tree)
      ensures |Spine(t)| <= Size(t) && (t != Empty ==> |Spine(t)| >= 1)
    {
    }

    /** What is left of `t` after its root, if the root is not a fork. */
    function After(t: Tree): Tree {
      if t.Chain? then t.next else Empty
    }

    lemma EmitRoot(t: Tree)
      requires TreeInGraph(g, t) && t != Empty
      ensures TreeInGraph(g, After(t))
      ensures EmitTree(g, plan, t) ==
              (if t.Fork? then EmitTree(g, plan, t) else EmitBlock(g, plan, t.b)) + EmitTree(g, plan, After(t))
      ensures Counted(g, t) == ((if t.Fork? then Counted(g, t) else CountedBlock(g[t.b])) || Counted(g, After(t)))
      ensures Spine(t) == [t.b] + Spine(After(t))
      ensures EmitTree(g, plan, Empty) == [] && !Counted(g, Empty) && Spine(Empty) == []
    {
    }

    /** One unvisited index of a group: the root of what is left of the group's tree. */
    method ProcessUnvisited(k: nat, pvix: nat, switchCase0: seq<Hcode>, ghost rest: Tree)
      returns (switchCase: seq<Hcode>)
      requires Holds(k, pvix, rest) && rest != Empty
      requires Unmarked(pathNodeVisited, pvix, pvix + Size(rest))
      modifies this
      ensures Holds(k, pvix + 1, After(rest)) && (rest.Chain? ==> Size(rest) == 1 + Size(rest.next))
      ensures Marked(old(pathNodeVisited), pathNodeVisited, pvix, if rest.Fork? then pvix + Size(rest) else pvix + 1)
      ensures switchCase + EmitTree(g, plan, After(rest)) == switchCase0 + EmitTree(g, plan, rest)
      ensures (needWaitSwitchCase || Counted(g, After(rest))) == (old(needWaitSwitchCase) || Counted(g, rest))
      ensures Spine(rest) == [rest.b] + Spine(After(rest))
      decreases Size(rest), 3
    {
      HoldsParts(k, pvix, rest);
      EmitRoot(rest);
      hide Holds, Flatten, EmitTree, Counted, EmitBlock, CountedBlock, Spine, TreeInGraph, FalsePathsOk;
      pathNodeVisited := pathNodeVisited + {pvix};
      switchCase := ProcessSplitGraphBlock(k, pvix, switchCase0, rest);
    }

    method ProcessSplitGraphGroup(k: nat, startIx: nat, numEle: int, switchCase0: seq<Hcode>, ghost t: Tree)
      returns (switchCase: seq<Hcode>)
      requires Holds(k, startIx, t)
      requires |Spine(t)| <= numEle <= Size(t) || (t == Empty && numEle <= 0)
      requires Unmarked(pathNodeVisited, startIx, startIx + Size(t))
      modifies this
      ensures Marked(old(pathNodeVisited), pathNodeVisited, startIx, startIx + Size(t))
      ensures switchCase == switchCase0 + EmitTree(g, plan, t)
      ensures needWaitSwitchCase == (old(needWaitSwitchCase) || Counted(g, t))
      decreases Size(t), 4
    {
      hide Holds, Flatten, EmitTree, Counted, EmitBlock, CountedBlock, Spine, Size, TreeInGraph, FalsePathsOk, Full,
           Generable, Marked, Unmarked;
      GroupStarts(k, startIx, t, pathNodeVisited);
      ghost var before := pathNodeVisited;
      switchCase := switchCase0;
      ghost var rest := t;
      var pvix := startIx;
      SpineBounds(rest);
      ghost var done: int := startIx;
      while pvix < startIx + numEle
        invariant startIx <= done && Marked(before, pathNodeVisited, startIx, done)
        invariant rest == Empty ==> done == startIx + Size(t) && startIx <= pvix
        invariant rest != Empty ==> done == pvix && AtSpine(k, pvix, rest, startIx + Size(t), startIx + numEle)
        invariant TreeInGraph(g, rest) && switchCase + EmitTree(g, plan, rest) == switchCase0 + EmitTree(g, plan, t)
        invariant (needWaitSwitchCase || Counted(g, rest)) == (old(needWaitSwitchCase) || Counted(g, t))
      {
        IsMarked(before, pathNodeVisited, startIx, done, startIx + Size(t), pvix);
        if pvix !in pathNodeVisited {
          ghost var mid, at := pathNodeVisited, done;
          RestParts(rest);
          done := if rest.Fork? then pvix + Size(rest) else pvix + 1;
          switchCase := ProcessUnvisited(k, pvix, switchCase, rest);
          MarkedOn(before, mid, pathNodeVisited, startIx, at, done);
          rest := After(rest);
          SpineBounds(rest);
        }
        pvix := pvix + 1;
      }
      NothingAdded(switchCase);
    }

    lemma RestParts(rest: Tree)
      requires TreeInGraph(g, rest) && rest != Empty
      ensures TreeInGraph(g, After(rest)) && Size(rest) >= 1 && Spine(Empty) == []
      ensures !rest.Fork? && After(rest) == Empty ==> Size(rest) == 1
    {
    }

    lemma GroupStarts(k: nat, o: nat, t: Tree, visited: set<nat>)
      requires Holds(k, o, t)
      ensures TreeInGraph(g, t) && Marked(visited, visited, o, o)
      ensures EmitTree(g, plan, Empty) == [] && !Counted(g, Empty) && Size(Empty) == 0
      ensures t != Empty ==> |Spine(t)| >= 1
    {
    }

    /** The path holds `rest` at `pvix`; the tree it is part of ends at `hi`, and its spine before `end`. */
    ghost predicate AtSpine(k: nat, pvix: nat, rest: Tree, hi: int, end: int)
      reads this
    {
      && Holds(k, pvix, rest)
      && pvix + Size(rest) == hi && pvix < pvix + |Spine(rest)| <= end
    }

    lemma MarkedOn(before: set<nat>, mid: set<nat>, after: set<nat>, lo: int, m: int, hi: int)
      requires Marked(before, mid, lo, m) && Marked(mid, after, m, hi) && lo <= m <= hi
      ensures Marked(before, after, lo, hi)
    {
    }

    /** The indices up to `m` are marked and those from there on are not. */
    lemma IsMarked(before: set<nat>, now: set<nat>, lo: int, m: int, hi: int, i: nat)
      requires Unmarked(before, lo, hi) && Marked(before, now, lo, m) && lo <= m <= hi && lo <= i
      ensures Unmarked(now, m, hi) && (i < m ==> i in now) && (m <= i < hi ==> i !in now)
    {
    }

    /** The false branch of the block at `thisIx`, if it has one. */
    method ProcessFalseBranch(k: nat, thisIx: nat, ghost t: Tree) returns (if2: seq<Hcode>)
      requires Holds(k, thisIx, t) && t != Empty
      requires t.Fork? ==> Unmarked(pathNodeVisited, thisIx + 1 + Size(t.thn.value), thisIx + Size(t))
      modifies this
      ensures t.Fork? ==>
        && Marked(old(pathNodeVisited), pathNodeVisited, thisIx + 1 + Size(t.thn.value), thisIx + Size(t))
        && if2 == EmitArm(g, plan, t.els)
        && needWaitSwitchCase == (old(needWaitSwitchCase) || Counted(g, t.els.value))
      ensures !t.Fork? ==>
        if2 == [] && pathNodeVisited == old(pathNodeVisited) && needWaitSwitchCase == old(needWaitSwitchCase)
      decreases Size(t), 0
    {
      HoldsParts(k, thisIx, t);
      hide Holds, Flatten, EmitTree, Counted, FalsePathsOk, Generable, Full;
      if2 := [];
      var falseIx := paths[k][thisIx].falseIdx;
      if falseIx != 0 {
        SpineBounds(t.els.value);
        var n := GetFalseLength(k, thisIx);
        if2 := ProcessSplitGraphGroup(k, falseIx, n, [], t.els.value);
        assert if2 == EmitTree(g, plan, t.els.value);
      }
    }

    /** The arms of the if statement for the block at `thisIx`: its true and its false branch. */
    method ProcessBranches(k: nat, thisIx: nat, ghost t: Tree) returns (arms: seq<Hcode>)
      requires Holds(k, thisIx, t) && t != Empty
      requires Unmarked(pathNodeVisited, thisIx + 1, thisIx + Size(t))
      modifies this
      ensures Marked(old(pathNodeVisited), pathNodeVisited, thisIx + 1, if t.Fork? then thisIx + Size(t) else thisIx + 1)
      ensures arms == if t.Fork? then Arms(EmitArm(g, plan, t.thn), EmitArm(g, plan, t.els)) else []
      ensures t.Fork? ==>
        var thn, els := EmitArm(g, plan, t.thn), EmitArm(g, plan, t.els);
        && (els == [] && thn == [] ==> arms == []) && (els == [] && thn != [] ==> arms == [CStmt(thn)])
        && (els != [] ==> arms == [if thn == [] then Noop else CStmt(thn), CStmt(els)])
      ensures needWaitSwitchCase == (old(needWaitSwitchCase) || (t.Fork? && Counted(g, t)))
      decreases Size(t), 1
    {
      HoldsParts(k, thisIx, t);
      assert !t.Fork? ==> EmitTree(g, plan, Empty) == [] && !Counted(g, Empty);
      assert t.Fork? ==> Counted(g, t) == (Counted(g, t.thn.value) || Counted(g, t.els.value));
      hide Holds, Flatten, EmitTree, Counted, Spine, FalsePathsOk, Generable, Full;
      ghost var thn := if t.Fork? then t.thn.value else Empty;
      SpineBounds(thn);
      var falseIx := paths[k][thisIx].falseIdx;
      var if1 := ProcessSplitGraphGroup(k, thisIx + 1, falseIx - (thisIx + 1), [], thn);
      assert if1 == EmitTree(g, plan, thn);
      arms := if |if1| > 0 then [CStmt(if1)] else [];
      var if2 := ProcessFalseBranch(k, thisIx, t);
      if |if2| > 0 {
        if |if1| == 0 {
          arms := arms + [Noop];
        }
        arms := arms + [CStmt(if2)];
      }
      assert arms == Arms(if1, if2);
    }

    /** The case of the counted-wait state. */
    method GenerateWaitCntUpdate() returns (switchCase: seq<Hcode>)
      ensures switchCase == WaitCase() == [DecWaitCounter, IfCounterZero(NextStateFromResume)]
    {
      switchCase := [DecWaitCounter];
      switchCase := switchCase + [IfCounterZero(NextStateFromResume)];
    }

    /** Some block on the path of state `k` gives a wait with an argument. */
    ghost predicate GivesCount(k: nat)
      requires k < |paths|
    {
      exists i :: 0 <= i < |paths[k]| && paths[k][i].block < |g| && GivesAt(paths[k][i].block)
    }

    lemma {:induction false} FlatBlocks(t: Tree, o: nat)
      requires Full(t)
      ensures |Preorder(t)| == Size(t)
      ensures forall i :: 0 <= i < Size(t) ==> Flatten(t, o)[i].block == Preorder(t)[i]
    {
      match t
      case Empty =>
      case Leaf(b) =>
      case Chain(b, next) => FlatBlocks(next, o + 1);
      case Fork(b, thn, els) =>
        FlatBlocks(thn.value, o + 1);
        FlatBlocks(els.value, o + 1 + Size(thn.value));
        hide Flatten, Preorder;
    }

    lemma {:induction false} CountIsGiven(k: nat, t: Tree)
      requires Holds(k, 0, t) && |paths[k]| == Size(t)
      ensures Counted(g, t) <==> GivesCount(k)
    {
      var p := paths[k];
      assert p == Flatten(t, 0);
      FlatBlocks(t, 0);
      CountedIff(g, t);
      assert forall b :: b in Preorder(t) <==> exists i :: 0 <= i < |p| && p[i].block == b;
      hide Holds, Flatten, Counted, Preorder, Full, Generable, TreeInGraph;
      forall b: nat | b < |g| ensures CountedBlock(g[b]) <==> GivesAt(b) {
        ElemsCounted(g[b].elems);
      }
    }

    ghost predicate GivesAt(b: nat)
      requires b < |g|
    {
      (g[b].hasWait || g[b].origin.term == NoTerm) && exists e: Elem :: e in g[b].elems && e.Wait? && e.arg.Some?
    }

    lemma ElemsCounted(elems: seq<Elem>)
      ensures CountedElems(elems) <==> exists e: Elem :: e in elems && e.Wait? && e.arg.Some?
    {
      if e: Elem :| e in elems && e.Wait? && e.arg.Some? {
        var i :| 0 <= i < |elems| && elems[i] == e;
      }
      if i :| 0 <= i < |elems| && elems[i].Wait? && elems[i].arg.Some? {
        assert elems[i] in elems;
      }
    }

    /** One case for each path, and one for the wait state if some wait has an argument. */
    method GenerateCases(ghost trees: seq<Tree>) returns (cases: seq<seq<Hcode>>)
      requires |trees| == |paths| && !needWaitSwitchCase
      requires forall k :: 0 <= k < |trees| ==>
                 TreeInGraph(g, trees[k]) && Holds(k, 0, trees[k]) && |paths[k]| == Size(trees[k])
      modifies this
      ensures |cases| >= |paths|
      ensures forall k :: 0 <= k < |trees| ==> cases[k] == EmitTree(g, plan, trees[k])
      ensures if exists k :: 0 <= k < |paths| && GivesCount(k)
              then |cases| == |paths| + 1 && cases[|paths|] == [DecWaitCounter, IfCounterZero(NextStateFromResume)]
              else |cases| == |paths|
      ensures forall k :: 0 <= k < |trees| ==> (Counted(g, trees[k]) <==> GivesCount(k))
    {
      hide GivesCount, GivesAt, Holds, Flatten, EmitTree, Counted, Generable, Full, FalsePathsOk, Spine, Size, TreeInGraph;
      forall k | 0 <= k < |trees| ensures Counted(g, trees[k]) <==> GivesCount(k) {
        CountIsGiven(k, trees[k]);
      }
      cases := [];
      var k := 0;
      while k < |paths|
        invariant k <= |paths| && |cases| == k
        invariant forall i :: 0 <= i < k ==> cases[i] == EmitTree(g, plan, trees[i])
        invariant needWaitSwitchCase <==> exists i :: 0 <= i < k && GivesCount(i)
      {
        pathNodeVisited := {};
        SpineBounds(trees[k]);
        var switchCase := ProcessSplitGraphGroup(k, 0, |paths[k]|, [], trees[k]);
        cases := cases + [switchCase];
        k := k + 1;
      }
      if needWaitSwitchCase {
        var switchCase := GenerateWaitCntUpdate();
        cases := cases + [switchCase];
      }
    }

    method ProcessSplitGraphBlock(k: nat, thisIx: nat, switchCase0: seq<Hcode>, ghost t: Tree)
      returns (switchCase: seq<Hcode>)
      requires Holds(k, thisIx, t) && t != Empty
      requires Unmarked(pathNodeVisited, thisIx + 1, thisIx + Size(t))
      modifies this
      ensures Marked(old(pathNodeVisited), pathNodeVisited, thisIx + 1, if t.Fork? then thisIx + Size(t) else thisIx + 1)
      ensures switchCase == switchCase0 + if t.Fork? then EmitTree(g, plan, t) else EmitBlock(g, plan, t.b)
      ensures needWaitSwitchCase ==
        (old(needWaitSwitchCase) || if t.Fork? then Counted(g, t) else CountedBlock(g[t.b]))
      decreases Size(t), 2
    {
      HoldsParts(k, thisIx, t);
      hide Flatten, Arms;
      switchCase := switchCase0;
      var b := paths[k][thisIx].block;
      if g[b].origin.term != NoTerm && !g[b].hasWait {
        if g[b].origin.term == OtherTerm && |g[b].elems| == 0 {
          return;
        }
        var arms := ProcessBranches(k, thisIx, t);
        if g[b].origin.term == IfTerm || g[b].origin.term == LoopTerm {
          switchCase := switchCase + [IfStmt(g[b].cfg, arms)];
        }
        return;
      }
      switchCase := ProcessElements(b, switchCase0);
    }
  }
}
