/** What a search does to the path, to the per-block path information and to the queue of
waits, as functions of the tree it unfolds. */
module PathSearch {
  import opened ThreadGraph
  import opened Unfolding

  /** SupplementaryInfo: a block on the path, its index, and the index at which its false
      branch starts. */
  datatype Entry = Entry(block: nat, pathIdx: nat, falseIdx: nat)

  datatype PathInfo = PathInfo(truePath: seq<nat>, falsePath: seq<nat>)

  datatype Trail = Trail(path: seq<Entry>, info: map<nat, PathInfo>)

  /** `next` maps a wait to the block it resumes at and to its next state. */
  datatype Waits = Waits(seen: set<nat>, queue: seq<nat>, count: nat, next: map<nat, (nat, nat)>)

  function Push(tr: Trail, b: nat): Trail {
    tr.(path := tr.path + [Entry(b, |tr.path|, 0)])
  }

  /** The path index of the last entry among the first `n` that comes from CFG block
      `target`, or `otherwise` if there is none. */
  function LastFrom(g: Graph, path: seq<Entry>, target: nat, n: nat, otherwise: nat): nat
    requires n <= |path| && (forall e :: e in path ==> e.block < |g|)
  {
    if n == 0 then otherwise
    else if g[path[n - 1].block].cfg == target then path[n - 1].pathIdx
    else LastFrom(g, path, target, n - 1, otherwise)
  }

  /** `f` is where the false branch of `b` starts when its true branch ends the path `p`: the end
      of the path if the false successor is entered next; else the index recorded for the last
      entry that comes from the last successor listed for `b`, or the end of the path if there is
      no such entry or successor. */
  ghost predicate FalseStartsAt(g: Graph, p: seq<Entry>, b: nat, elseFollows: bool, f: nat)
    requires b < |g| && (forall e :: e in p ==> e.block < |g|)
  {
    var succs := g[b].origin.succs;
    if elseFollows || succs == [] || succs[|succs| - 1] == None then f == |p|
    else
      var target := succs[|succs| - 1].value;
      || (NoneFrom(g, p, target, 0) && f == |p|)
      || exists n :: IsLastFrom(g, p, target, n) && f == p[n].pathIdx
  }

  ghost predicate NoneFrom(g: Graph, p: seq<Entry>, target: nat, n: nat)
    requires forall e :: e in p ==> e.block < |g|
  {
    forall m :: n <= m < |p| ==> g[p[m].block].cfg != target
  }

  ghost predicate IsLastFrom(g: Graph, p: seq<Entry>, target: nat, n: int)
    requires forall e :: e in p ==> e.block < |g|
  {
    0 <= n < |p| && g[p[n].block].cfg == target && forall m :: n < m < |p| ==> g[p[m].block].cfg != target
  }

  predicate InGraph(g: Graph, tr: Trail) {
    forall e :: e in tr.path ==> e.block < |g|
  }

  /** The index recorded as the start of the false branch when the true branch of `b` is
      done: the end of the path, unless the false successor is not going to be entered and
      already stands on the path. */
  function FalseStart(g: Graph, path: seq<Entry>, b: nat, elseFollows: bool): nat
    requires b < |g| && (forall e :: e in path ==> e.block < |g|)
  {
    var target := g[b].origin.LastSucc();
    if elseFollows || target == None then |path|
    else LastFrom(g, path, target.value, |path|, |path|)
  }

  lemma {:induction false} LastFromIs(g: Graph, p: seq<Entry>, target: nat, n: nat)
    requires n <= |p| && (forall e :: e in p ==> e.block < |g|) && NoneFrom(g, p, target, n)
    ensures var f := LastFrom(g, p, target, n, |p|);
            (NoneFrom(g, p, target, 0) && f == |p|) || exists k :: IsLastFrom(g, p, target, k) && f == p[k].pathIdx
    decreases n
  {
    if n > 0 {
      if g[p[n - 1].block].cfg == target {
        assert IsLastFrom(g, p, target, n - 1);
      } else {
        LastFromIs(g, p, target, n - 1);
        hide NoneFrom, IsLastFrom;
      }
    }
  }

  lemma FalseStartIs(g: Graph, p: seq<Entry>, b: nat, elseFollows: bool)
    requires b < |g| && (forall e :: e in p ==> e.block < |g|)
    ensures FalseStartsAt(g, p, b, elseFollows, FalseStart(g, p, b, elseFollows))
  {
    var target := g[b].origin.LastSucc();
    if target.Some? { LastFromIs(g, p, target.value, |p|); }
    hide IsLastFrom, NoneFrom, LastFrom;
  }

  function CloseTrue(g: Graph, tr: Trail, b: nat, at: nat, spine: seq<nat>, elseFollows: bool): Trail
    requires b < |g| && at < |tr.path| && InGraph(g, tr)
  {
    if b !in tr.info then tr
    else
      var pi := tr.info[b];
      Trail(tr.path[at := tr.path[at].(falseIdx := FalseStart(g, tr.path, b, elseFollows))],
            if pi.truePath == [] then tr.info[b := pi.(truePath := spine)] else tr.info)
  }

  function CloseFalse(tr: Trail, b: nat, spine: seq<nat>): Trail {
    if b !in tr.info || tr.info[b].falsePath != [] then tr
    else tr.(info := tr.info[b := tr.info[b].(falsePath := spine)])
  }

  predicate TreeInGraph(g: Graph, t: Tree) {
    match t
    case Empty => true
    case Leaf(b) => b < |g|
    case Chain(b, next) => b < |g| && TreeInGraph(g, next)
    case Fork(b, thn, els) =>
      && b < |g|
      && (thn.Some? ==> TreeInGraph(g, thn.value))
      && (els.Some? ==> TreeInGraph(g, els.value))
  }

  predicate ArmInGraph(g: Graph, arm: Option<Tree>) {
    arm.Some? ==> TreeInGraph(g, arm.value)
  }

  /** The path and path information after a search that unfolds `t`. */
  function RunTrail(g: Graph, t: Tree, tr: Trail): (r: Trail)
    requires TreeInGraph(g, t) && InGraph(g, tr)
    ensures InGraph(g, r) && |r.path| >= |tr.path|
    decreases t, 1
  {
    match t
    case Empty => tr
    case Leaf(b) => Push(tr, b)
    case Chain(b, next) => RunTrail(g, next, Push(tr, b))
    case Fork(b, thn, els) => RunElse(g, b, els, RunThen(g, b, |tr.path|, thn, els.Some?, Push(tr, b)))
  }

  function RunThen(g: Graph, b: nat, at: nat, thn: Option<Tree>, elseFollows: bool, tr: Trail): (r: Trail)
    requires b < |g| && at < |tr.path| && ArmInGraph(g, thn) && InGraph(g, tr)
    ensures InGraph(g, r) && |r.path| >= |tr.path|
    decreases thn, 0
  {
    if thn == None then tr
    else CloseTrue(g, RunTrail(g, thn.value, tr), b, at, Spine(thn.value), elseFollows)
  }

  function RunElse(g: Graph, b: nat, els: Option<Tree>, tr: Trail): (r: Trail)
    requires b < |g| && ArmInGraph(g, els) && InGraph(g, tr)
    ensures InGraph(g, r) && |r.path| >= |tr.path|
    decreases els, 0
  {
    if els == None then tr
    else CloseFalse(RunTrail(g, els.value, tr), b, Spine(els.value))
  }

  /** A wait is queued, counted and given the new count as its next state when first seen. */
  function SeeWait(ws: Waits, w: nat, resume: nat): Waits {
    if w in ws.seen then ws
    else Waits(ws.seen + {w}, [resume] + ws.queue, ws.count + 1,
               if w in ws.next then ws.next else ws.next[w := (resume, ws.count + 1)])
  }

  function VisitWait(g: Graph, b: nat, ws: Waits): Waits
    requires b < |g|
  {
    if g[b].hasWait then SeeWait(ws, b, Resume(g, b)) else ws
  }

  function RunWaits(g: Graph, t: Tree, ws: Waits): Waits
    requires TreeInGraph(g, t)
  {
    match t
    case Empty => ws
    case Leaf(b) => VisitWait(g, b, ws)
    case Chain(b, next) => RunWaits(g, next, VisitWait(g, b, ws))
    case Fork(b, thn, els) =>
      RunArmWaits(g, els, RunArmWaits(g, thn, VisitWait(g, b, ws)))
  }

  function RunArmWaits(g: Graph, arm: Option<Tree>, ws: Waits): Waits
    requires ArmInGraph(g, arm)
  {
    if arm == None then ws else RunWaits(g, arm.value, ws)
  }

  lemma {:induction false} BodyInGraph(g: Graph, b: nat, visited: set<nat>)
    requires Closed(g) && b < |g|
    ensures TreeInGraph(g, Body(g, b, visited))
    decreases AllBlocks(g) - visited, 1
  {
    var succs := g[b].succs;
    if g[b].hasWait {
    } else if g[b].Branching() {
      ArmsInGraph(g, b, visited);
    } else if |succs| > 0 && succs[0] !in visited {
      assert succs[0] in AllBlocks(g) - visited;
      BodyInGraph(g, succs[0], visited + {succs[0]});
    }
  }

  lemma {:induction false} ArmsInGraph(g: Graph, b: nat, visited: set<nat>)
    requires Closed(g) && b < |g|
    ensures ArmInGraph(g, Then(g, b, visited)) && ArmInGraph(g, Else(g, b, visited))
    decreases AllBlocks(g) - visited, 1, 0
  {
    var succs := g[b].succs;
    if |succs| > 0 && succs[0] !in visited { ActInGraph(g, succs[0], visited); }
    if |succs| > 1 && succs[1] !in visited { ActInGraph(g, succs[1], visited); }
  }

  lemma {:induction false} ActInGraph(g: Graph, s: nat, visited: set<nat>)
    requires Closed(g) && s < |g| && s !in visited
    ensures TreeInGraph(g, Act(g, s, visited))
    decreases AllBlocks(g) - visited, 0
  {
    if g[s].succs != [] {
      assert s in AllBlocks(g) - visited;
      BodyInGraph(g, s, visited + {s});
    }
  }
}
