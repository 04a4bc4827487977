/** The flat form of a decision tree, and when a search records just that form. */
module Encoding {
  import opened ThreadGraph
  import opened Unfolding
  import opened PathSearch
  import opened States

  /** The shape of graph for which the generated code is claimed to be right: every cycle
      passes a wait, a wait stands alone in its block and has one successor, the search
      recurses just from the headers of an if or a loop with two different successors, and
      the exit block is empty. */
  ghost predicate ThreadShape(g: Graph) {
    && Closed(g) && WellBranched(g) && CyclesWait(g)
    && forall b :: 0 <= b < |g| ==> BlockShape(g[b])
  }

  predicate BlockShape(b: Block) {
    if b.hasWait then
      |b.succs| == 1 && |b.elems| == 1 && b.elems[0].Wait? && b.origin.term != TernaryTerm
    else
      && (forall e :: e in b.elems ==> e.Stmt?)
      && b.origin.term != TernaryTerm
      && (b.succs == [] ==> b.elems == [])
      && (b.Branching() ==>
            |b.succs| == 2 && b.succs[0] != b.succs[1] && (b.origin.term == IfTerm || b.origin.term == LoopTerm))
  }

  /** Both arms of every fork were entered. */
  predicate Full(t: Tree) {
    match t
    case Empty => true
    case Leaf(b) => true
    case Chain(b, next) => Full(next)
    case Fork(b, thn, els) => thn.Some? && els.Some? && Full(thn.value) && Full(els.value)
  }

  function Size(t: Tree): nat {
    match t
    case Empty => 0
    case Leaf(b) => 1
    case Chain(b, next) => 1 + Size(next)
    case Fork(b, thn, els) =>
      1 + (if thn.Some? then Size(thn.value) else 0) + (if els.Some? then Size(els.value) else 0)
  }

  /** The entries of `t` when it is put on the path at index `o`: preorder, each fork with the
      index at which its false arm starts. */
  function Flatten(t: Tree, o: nat): (p: seq<Entry>)
    requires Full(t)
    ensures |p| == Size(t)
  {
    match t
    case Empty => []
    case Leaf(b) => [Entry(b, o, 0)]
    case Chain(b, next) => [Entry(b, o, 0)] + Flatten(next, o + 1)
    case Fork(b, thn, els) =>
      var f := o + 1 + Size(thn.value);
      [Entry(b, o, f)] + Flatten(thn.value, o + 1) + Flatten(els.value, f)
  }

  /** The blocks that the activation for the false successor of `b` records itself. */
  function FalseSpine(g: Graph, b: nat): seq<nat>
    requires Closed(g) && b < |g|
  {
    if |g[b].succs| == 2 && g[b].succs[1] != b then Spine(Act(g, g[b].succs[1], {b})) else []
  }

  /** Every fork of `t` is a block with path information, and its false arm records the same
      blocks wherever the fork occurs. */
  predicate ForksOk(g: Graph, t: Tree, keys: set<nat>)
    requires Closed(g)
  {
    match t
    case Empty => true
    case Leaf(b) => true
    case Chain(b, next) => ForksOk(g, next, keys)
    case Fork(b, thn, els) =>
      && b in keys && b < |g|
      && (thn.Some? ==> ForksOk(g, thn.value, keys))
      && (els.Some? ==> ForksOk(g, els.value, keys) && Spine(els.value) == FalseSpine(g, b))
  }

  /** No false path is recorded yet, or it is the right one. */
  predicate InfoOk(g: Graph, info: map<nat, PathInfo>)
    requires Closed(g)
  {
    forall b :: b in info && b < |g| ==> info[b].falsePath == [] || info[b].falsePath == FalseSpine(g, b)
  }

  predicate FalsePathDone(g: Graph, info: map<nat, PathInfo>, b: nat)
    requires Closed(g)
  {
    b in info && b < |g| && info[b].falsePath == FalseSpine(g, b)
  }

  predicate InfoDone(g: Graph, t: Tree, info: map<nat, PathInfo>)
    requires Closed(g)
  {
    match t
    case Empty => true
    case Leaf(b) => true
    case Chain(b, next) => InfoDone(g, next, info)
    case Fork(b, thn, els) =>
      && FalsePathDone(g, info, b)
      && (thn.Some? ==> InfoDone(g, thn.value, info))
      && (els.Some? ==> InfoDone(g, els.value, info))
  }

  /** The path information gives, for every fork, the blocks its false arm records itself. */
  predicate FalsePathsOk(t: Tree, info: map<nat, PathInfo>) {
    match t
    case Empty => true
    case Leaf(b) => true
    case Chain(b, next) => FalsePathsOk(next, info)
    case Fork(b, thn, els) =>
      && (thn.Some? ==> FalsePathsOk(thn.value, info))
      && (els.Some? ==> FalsePathsOk(els.value, info) && b in info && info[b].falsePath == Spine(els.value))
  }

  lemma {:induction t} FalsePathsDone(g: Graph, t: Tree, keys: set<nat>, info: map<nat, PathInfo>)
    requires Closed(g) && ForksOk(g, t, keys) && InfoDone(g, t, info)
    ensures FalsePathsOk(t, info)
  {
  }

  /** What a search that unfolds a full tree appends to the path is the tree's flat form. */
  lemma {:induction false} RunTrailFlat(g: Graph, t: Tree, tr: Trail)
    requires Closed(g) && TreeInGraph(g, t) && InGraph(g, tr) && Full(t) && ForksOk(g, t, tr.info.Keys)
    ensures RunTrail(g, t, tr).path == tr.path + Flatten(t, |tr.path|)
    ensures RunTrail(g, t, tr).info.Keys == tr.info.Keys
    decreases t, 1
  {
    match t
    case Empty =>
    case Leaf(b) =>
    case Chain(b, next) => RunTrailFlat(g, next, Push(tr, b));
    case Fork(_, _, _) => ForkTrailFlat(g, t, tr);
  }

  lemma {:induction false} ForkTrailFlat(g: Graph, t: Tree, tr: Trail)
    requires Closed(g) && TreeInGraph(g, t) && InGraph(g, tr) && Full(t) && ForksOk(g, t, tr.info.Keys) && t.Fork?
    ensures RunTrail(g, t, tr).path == tr.path + Flatten(t, |tr.path|)
    ensures RunTrail(g, t, tr).info.Keys == tr.info.Keys
    decreases t, 0
  {
    hide Flatten, RunThen, CloseTrue, Size, Spine, FalseSpine;
    var Fork(b, thn, els) := t;
    RunTrailFlat(g, thn.value, Push(tr, b));
    ThenFlat(g, b, thn.value, tr);
    RunTrailFlat(g, els.value, RunThen(g, b, |tr.path|, thn, true, Push(tr, b)));
    ForkFlat(tr.path, t);
  }

  lemma {:induction false} ThenFlat(g: Graph, b: nat, t: Tree, tr: Trail)
    requires TreeInGraph(g, t) && InGraph(g, tr) && Full(t) && b < |g| && b in tr.info
    requires var r := RunTrail(g, t, Push(tr, b));
             r.path == tr.path + [Entry(b, |tr.path|, 0)] + Flatten(t, |tr.path| + 1) && r.info.Keys == tr.info.Keys
    ensures var r := RunThen(g, b, |tr.path|, Some(t), true, Push(tr, b));
            && r.path == tr.path + [Entry(b, |tr.path|, |tr.path| + 1 + Size(t))] + Flatten(t, |tr.path| + 1)
            && r.info.Keys == tr.info.Keys
  {
    hide Flatten, RunTrail;
    FalseIndexSet(tr.path, b, t);
  }

  lemma FalseIndexSet(p: seq<Entry>, b: nat, t: Tree)
    requires Full(t)
    ensures var q := p + [Entry(b, |p|, 0)] + Flatten(t, |p| + 1);
            q[|p| := q[|p|].(falseIdx := |q|)] == p + [Entry(b, |p|, |q|)] + Flatten(t, |p| + 1)
  {
  }

  lemma {:induction false} ForkFlat(p: seq<Entry>, t: Tree)
    requires Full(t) && t.Fork?
    ensures var f := |p| + 1 + Size(t.thn.value);
            (p + [Entry(t.b, |p|, f)] + Flatten(t.thn.value, |p| + 1)) + Flatten(t.els.value, f)
            == p + Flatten(t, |p|)
  {
    var f := |p| + 1 + Size(t.thn.value);
    Concat3(p, [Entry(t.b, |p|, f)], Flatten(t.thn.value, |p| + 1), Flatten(t.els.value, f));
  }

  lemma Concat3<T>(p: seq<T>, a: seq<T>, b: seq<T>, c: seq<T>)
    ensures p + (a + b + c) == p + a + b + c
  {
  }

  /** After the search every fork's recorded false path has the right length. */
  lemma {:induction false} RunTrailInfo(g: Graph, t: Tree, tr: Trail)
    requires Closed(g) && TreeInGraph(g, t) && InGraph(g, tr) && Full(t)
    requires ForksOk(g, t, tr.info.Keys) && InfoOk(g, tr.info)
    ensures var info := RunTrail(g, t, tr).info;
            && info.Keys == tr.info.Keys && InfoOk(g, info) && InfoDone(g, t, info)
            && forall b :: FalsePathDone(g, tr.info, b) ==> FalsePathDone(g, info, b)
  {
    match t
    case Empty =>
    case Leaf(b) =>
    case Chain(b, next) => RunTrailInfo(g, next, Push(tr, b));
    case Fork(b, thn, els) =>
      var tr1 := Push(tr, b);
      RunTrailInfo(g, thn.value, tr1);
      var tr2 := RunTrail(g, thn.value, tr1);
      var tr3 := RunThen(g, b, |tr.path|, thn, true, tr1);
      TrueInfoKept(g, tr2, b, |tr.path|, Spine(thn.value));
      RunTrailInfo(g, els.value, tr3);
      var tr4 := RunTrail(g, els.value, tr3);
      FalseInfoSet(g, tr4, b);
      var info := CloseFalse(tr4, b, Spine(els.value)).info;
      InfoDoneKept(g, thn.value, tr2.info, info);
      InfoDoneKept(g, els.value, tr4.info, info);
  }

  lemma TrueInfoKept(g: Graph, tr: Trail, b: nat, at: nat, spine: seq<nat>)
    requires Closed(g) && b < |g| && at < |tr.path| && InGraph(g, tr) && InfoOk(g, tr.info)
    ensures var info := CloseTrue(g, tr, b, at, spine, true).info;
            && info.Keys == tr.info.Keys && InfoOk(g, info)
            && forall c :: FalsePathDone(g, tr.info, c) ==> FalsePathDone(g, info, c)
  {
  }

  lemma FalseInfoSet(g: Graph, tr: Trail, b: nat)
    requires Closed(g) && b < |g| && InfoOk(g, tr.info) && b in tr.info
    ensures var info := CloseFalse(tr, b, FalseSpine(g, b)).info;
            && info.Keys == tr.info.Keys && InfoOk(g, info) && FalsePathDone(g, info, b)
            && forall c :: FalsePathDone(g, tr.info, c) ==> FalsePathDone(g, info, c)
  {
  }

  lemma {:induction t} InfoDoneKept(g: Graph, t: Tree, info: map<nat, PathInfo>, info': map<nat, PathInfo>)
    requires Closed(g) && InfoDone(g, t, info)
    requires forall b :: FalsePathDone(g, info, b) ==> FalsePathDone(g, info', b)
    ensures InfoDone(g, t, info')
  {
  }

  /** The blocks in `visited` all lie on a walk to `b` that has passed no wait. */
  ghost predicate Behind(g: Graph, q: seq<nat>, b: nat, visited: set<nat>) {
    && Walk(g, q) && WaitFree(g, q) && q[|q| - 1] == b
    && forall v :: v in visited ==> v in q
  }

  /** With a wait in every cycle, nothing behind is a successor. */
  lemma {:induction false} NotBehind(g: Graph, q: seq<nat>, b: nat, visited: set<nat>, s: nat)
    requires Closed(g) && CyclesWait(g) && b < |g| && !g[b].hasWait && s in g[b].succs && Behind(g, q, b, visited)
    ensures s !in visited && Behind(g, q + [s], s, visited + {s})
  {
    var r := q + [s];
    forall i | 0 <= i < |r| - 1 ensures r[i + 1] in g[r[i]].succs && !g[r[i]].hasWait {
      if i < |q| - 1 { assert r[i] == q[i] && r[i + 1] == q[i + 1]; }
    }
    assert Walk(g, r) && WaitFree(g, r);
    if s in visited {
      var i :| 0 <= i < |q| && q[i] == s;
      hide CyclesWait, Walk, WaitFree;
      CycleFrom(g, r, i);
    }
  }

  /** A walk without waits does not end where it has been. */
  lemma {:induction false} CycleFrom(g: Graph, r: seq<nat>, i: nat)
    requires CyclesWait(g) && Walk(g, r) && WaitFree(g, r) && i < |r| - 1
    ensures r[i] != r[|r| - 1]
  {
    var cycle := r[i..];
    forall j | 0 <= j < |cycle| - 1 ensures cycle[j + 1] in g[cycle[j]].succs && !g[cycle[j]].hasWait {
      assert cycle[j] == r[i + j] && cycle[j + 1] == r[i + j + 1];
    }
    assert Walk(g, cycle) && WaitFree(g, cycle);
  }

  /** The tree below a block does not depend on how the search came there. */
  lemma {:induction false} BodyAgrees(g: Graph, b: nat, q1: seq<nat>, visited1: set<nat>, q2: seq<nat>, visited2: set<nat>)
    requires ThreadShape(g) && b < |g| && Behind(g, q1, b, visited1) && Behind(g, q2, b, visited2)
    ensures Body(g, b, visited1) == Body(g, b, visited2)
    decreases AllBlocks(g) - visited1, 1
  {
    var succs := g[b].succs;
    if !g[b].hasWait && |succs| > 0 {
      ActAgrees(g, b, 0, q1, visited1, q2, visited2);
      if g[b].Branching() {
        ActAgrees(g, b, 1, q1, visited1, q2, visited2);
      }
    }
  }

  lemma {:induction false} ActAgrees(g: Graph, b: nat, i: nat, q1: seq<nat>, visited1: set<nat>, q2: seq<nat>, visited2: set<nat>)
    requires ThreadShape(g) && b < |g| && !g[b].hasWait && i < |g[b].succs|
    requires Behind(g, q1, b, visited1) && Behind(g, q2, b, visited2)
    ensures var s := g[b].succs[i];
            && s !in visited1 && s !in visited2
            && Act(g, s, visited1) == Act(g, s, visited2)
            && Body(g, s, visited1 + {s}) == Body(g, s, visited2 + {s})
    decreases AllBlocks(g) - visited1, 0
  {
    var s := g[b].succs[i];
    NotBehind(g, q1, b, visited1, s);
    NotBehind(g, q2, b, visited2, s);
    assert s in AllBlocks(g) - visited1;
    BodyAgrees(g, s, q1 + [s], visited1 + {s}, q2 + [s], visited2 + {s});
  }

  /** Blocks the search recurses from have path information. */
  predicate Prepared(g: Graph, keys: set<nat>) {
    forall b :: 0 <= b < |g| && g[b].Branching() ==> b in keys
  }

  lemma {:induction false} BodyFull(g: Graph, b: nat, q: seq<nat>, visited: set<nat>, keys: set<nat>)
    requires ThreadShape(g) && b < |g| && b in visited && Behind(g, q, b, visited) && Prepared(g, keys)
    ensures Full(Body(g, b, visited)) && ForksOk(g, Body(g, b, visited), keys)
    decreases AllBlocks(g) - visited
  {
    if !g[b].hasWait && |g[b].succs| > 0 {
      forall i | 0 <= i < |g[b].succs|
        ensures var s := g[b].succs[i];
                && s !in visited && Full(Act(g, s, visited)) && ForksOk(g, Act(g, s, visited), keys)
                && Full(Body(g, s, visited + {s})) && ForksOk(g, Body(g, s, visited + {s}), keys)
      {
        var s := g[b].succs[i];
        NotBehind(g, q, b, visited, s);
        assert s in AllBlocks(g) - visited;
        BodyFull(g, s, q + [s], visited + {s}, keys);
      }
      if g[b].Branching() {
        assert Behind(g, [b], b, {b});
        ActAgrees(g, b, 1, q, visited, [b], {b});
      }
    }
  }

  /** The path of a state is the flat form of the tree it explores, and the path information
      gives every false arm its length. */
  lemma {:induction false} RecordedIsEncoding(g: Graph, s: nat, prepared: map<nat, PathInfo>)
    requires ThreadShape(g) && s < |g| && Prepared(g, prepared.Keys)
    requires forall b :: b in prepared ==> prepared[b].falsePath == []
    ensures var t, tr := Explored(g, s), Recorded(g, s, prepared);
            Full(t) && tr.path == Flatten(t, 0) && FalsePathsOk(t, tr.info)
  {
    var t := Explored(g, s);
    if g[s].succs != [] {
      assert {} + {s} == {s};
      assert Behind(g, [s], s, {s});
      BodyFull(g, s, [s], {s}, prepared.Keys);
    }
    RunTrailFlat(g, t, Trail([], prepared));
    RunTrailInfo(g, t, Trail([], prepared));
    FalsePathsDone(g, t, prepared.Keys, Recorded(g, s, prepared).info);
  }
}
