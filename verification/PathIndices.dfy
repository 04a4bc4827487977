/** The recorded path entry by entry, on any graph: which block stands at which index, where the
false branch of each fork starts, and what is recorded of its branches. */
module PathIndices {
  import opened ThreadGraph
  import opened Unfolding
  import opened PathSearch
  import opened Encoding
  import opened States

  /** Subtree `u` starts at index `at` when `t` is put on the path at index `o`. */
  predicate Occurs(t: Tree, o: nat, u: Tree, at: nat) {
    || (t == u && o == at)
    || match t
       case Empty => false
       case Leaf(_) => false
       case Chain(_, next) => Occurs(next, o + 1, u, at)
       case Fork(_, thn, els) =>
         || (thn.Some? && Occurs(thn.value, o + 1, u, at))
         || (els.Some? && Occurs(els.value, o + 1 + ArmSize(thn), u, at))
  }

  function ArmSize(arm: Option<Tree>): nat {
    if arm.Some? then Size(arm.value) else 0
  }

  predicate Indexed(p: seq<Entry>) {
    forall i :: 0 <= i < |p| ==> p[i].pathIdx == i
  }

  /** Up to index `n` the two paths have the same blocks. */
  predicate SameBlocks(p: seq<Entry>, p': seq<Entry>, n: nat) {
    n <= |p| && n <= |p'| && forall i :: 0 <= i < n ==> p[i].block == p'[i].block
  }

  /** A search adds as many entries as its tree has blocks, and keeps the path it found. */
  lemma {:induction false} RunTrailGrows(g: Graph, t: Tree, tr: Trail)
    requires TreeInGraph(g, t) && InGraph(g, tr)
    ensures var r := RunTrail(g, t, tr);
            && |r.path| == |tr.path| + Size(t) && tr.path <= r.path
            && (Indexed(tr.path) ==> Indexed(r.path)) && r.info.Keys == tr.info.Keys
    decreases t, 1
  {
    match t
    case Empty =>
    case Leaf(b) =>
    case Chain(b, next) => RunTrailGrows(g, next, Push(tr, b));
    case Fork(b, thn, els) =>
      hide RunThen, RunElse;
      RunThenGrows(g, b, |tr.path|, thn, els.Some?, Push(tr, b), tr.path);
      RunElseGrows(g, b, els, RunThen(g, b, |tr.path|, thn, els.Some?, Push(tr, b)));
  }

  lemma {:induction false} RunThenGrows(g: Graph, b: nat, at: nat, thn: Option<Tree>, elseFollows: bool, tr: Trail, before: seq<Entry>)
    requires b < |g| && at < |tr.path| && ArmInGraph(g, thn) && InGraph(g, tr) && |before| <= at && before <= tr.path
    ensures var r := RunThen(g, b, at, thn, elseFollows, tr);
            && |r.path| == |tr.path| + ArmSize(thn) && before <= r.path
            && (Indexed(tr.path) ==> Indexed(r.path)) && r.info.Keys == tr.info.Keys
    decreases thn, 0
  {
    hide RunTrail, FalseStart;
    if thn.Some? { RunTrailGrows(g, thn.value, tr); }
  }

  lemma {:induction false} RunElseGrows(g: Graph, b: nat, els: Option<Tree>, tr: Trail)
    requires b < |g| && ArmInGraph(g, els) && InGraph(g, tr)
    ensures var r := RunElse(g, b, els, tr);
            && |r.path| == |tr.path| + ArmSize(els) && tr.path <= r.path
            && (Indexed(tr.path) ==> Indexed(r.path)) && r.info.Keys == tr.info.Keys
    decreases els, 0
  {
    hide RunTrail;
    if els.Some? { RunTrailGrows(g, els.value, tr); }
  }

  /** The last of the first `end` blocks that comes from CFG block `target` stands at `n`. */
  predicate LastBefore(g: Graph, p: seq<Entry>, target: nat, end: nat, n: nat)
    requires end <= |p| && (forall e :: e in p ==> e.block < |g|)
  {
    && n < end && g[p[n].block].cfg == target
    && forall m :: n < m < end ==> g[p[m].block].cfg != target
  }

  predicate NoneBefore(g: Graph, p: seq<Entry>, target: nat, end: nat)
    requires end <= |p| && (forall e :: e in p ==> e.block < |g|)
  {
    forall m :: 0 <= m < end ==> g[p[m].block].cfg != target
  }

  /** The false index of the entry at `at`, where `u` starts: 0 but for a fork with path information
      whose true arm was entered.  Then it is the index at which the false arm starts; and if that
      was not entered, because its block was visited before, the index of the last entry up to
      the end of the true arm that comes from the last successor listed for the fork, and the end
      of the true arm if there is none. */
  predicate FalseIdxOk(g: Graph, p: seq<Entry>, keys: set<nat>, u: Tree, at: nat, f: nat)
    requires u != Empty && u.b < |g| && at + Size(u) <= |p| && (forall e :: e in p ==> e.block < |g|)
  {
    var end, succs := at + Size(u), g[u.b].origin.succs;
    if !u.Fork? || u.thn == None || u.b !in keys then f == 0
    else if u.els.Some? then f == at + 1 + Size(u.thn.value)
    else if succs == [] || succs[|succs| - 1] == None then f == end
    else var target := succs[|succs| - 1].value;
         LastBefore(g, p, target, end, f) || (NoneBefore(g, p, target, end) && f == end)
  }

  predicate EntryOk(g: Graph, p: seq<Entry>, keys: set<nat>, u: Tree, at: nat)
    requires u != Empty && u.b < |g| && at + Size(u) <= |p| && (forall e :: e in p ==> e.block < |g|)
  {
    && at < |p| && p[at].block == u.b && p[at].pathIdx == at
    && FalseIdxOk(g, p, keys, u, at, p[at].falseIdx)
  }

  lemma EntryKept(g: Graph, p: seq<Entry>, p': seq<Entry>, keys: set<nat>, u: Tree, at: nat)
    requires u != Empty && u.b < |g| && at + Size(u) <= |p| && SameBlocks(p, p', at + Size(u))
    requires (forall e :: e in p ==> e.block < |g|) && (forall e :: e in p' ==> e.block < |g|)
    requires EntryOk(g, p, keys, u, at) && p'[at] == p[at]
    ensures EntryOk(g, p', keys, u, at)
  {
    FalseIdxKept(g, p, p', keys, u, at, p[at].falseIdx);
    hide FalseIdxOk, SameBlocks;
  }

  lemma FalseIdxKept(g: Graph, p: seq<Entry>, p': seq<Entry>, keys: set<nat>, u: Tree, at: nat, f: nat)
    requires u != Empty && u.b < |g| && at + Size(u) <= |p| && SameBlocks(p, p', at + Size(u))
    requires (forall e :: e in p ==> e.block < |g|) && (forall e :: e in p' ==> e.block < |g|)
    requires FalseIdxOk(g, p, keys, u, at, f)
    ensures FalseIdxOk(g, p', keys, u, at, f)
  {
  }

  lemma {:induction false} OccursWithin(g: Graph, t: Tree, o: nat, u: Tree, at: nat)
    requires TreeInGraph(g, t) && Occurs(t, o, u, at)
    ensures o <= at && at + Size(u) <= o + Size(t) && TreeInGraph(g, u)
  {
    match t
    case Empty =>
    case Leaf(_) =>
    case Chain(_, next) => if !(t == u && o == at) { OccursWithin(g, next, o + 1, u, at); }
    case Fork(_, thn, els) =>
      if t == u && o == at {
      } else if thn.Some? && Occurs(thn.value, o + 1, u, at) {
        OccursWithin(g, thn.value, o + 1, u, at);
      } else {
        OccursWithin(g, els.value, o + 1 + ArmSize(thn), u, at);
      }
  }

  /** At the end of the true branch the recorded index is the right one. */
  lemma FalseStartOk(g: Graph, p: seq<Entry>, keys: set<nat>, u: Tree, at: nat)
    requires u.Fork? && u.thn.Some? && u.b < |g| && u.b in keys && (forall e :: e in p ==> e.block < |g|) && Indexed(p)
    requires |p| == at + 1 + Size(u.thn.value)
    ensures var f := FalseStart(g, p, u.b, u.els.Some?);
            if u.els.Some? then f == at + 1 + Size(u.thn.value) else at + Size(u) == |p| && FalseIdxOk(g, p, keys, u, at, f)
  {
    FalseStartIs(g, p, u.b, u.els.Some?);
    hide FalseStart;
  }

  /** The root of a fork, after its true branch. */
  lemma {:induction false} ThenEntry(g: Graph, t: Tree, tr: Trail)
    requires TreeInGraph(g, t) && InGraph(g, tr) && Indexed(tr.path) && t.Fork?
    ensures var o := |tr.path|;
            var r := RunThen(g, t.b, o, t.thn, t.els.Some?, Push(tr, t.b));
            && |r.path| == o + 1 + ArmSize(t.thn) && Indexed(r.path) && r.path[o].block == t.b
            && if t.els.Some?
               then r.path[o].falseIdx == if t.thn.Some? && t.b in tr.info then |r.path| else 0
               else EntryOk(g, r.path, tr.info.Keys, t, o)
  {
    var o, tr1 := |tr.path|, Push(tr, t.b);
    RunThenGrows(g, t.b, o, t.thn, t.els.Some?, tr1, tr.path);
    if t.thn.Some? {
      RunTrailGrows(g, t.thn.value, tr1);
      var tr2 := RunTrail(g, t.thn.value, tr1);
      var r := RunThen(g, t.b, o, t.thn, t.els.Some?, tr1);
      assert tr2.path[o] == tr1.path[o] == Entry(t.b, o, 0);
      if t.b in tr.info {
        FalseStartOk(g, tr2.path, tr.info.Keys, t, o);
        hide RunTrail, FalseStart, FalseIdxOk;
        assert r.path == tr2.path[o := tr2.path[o].(falseIdx := FalseStart(g, tr2.path, t.b, t.els.Some?))];
        assert SameBlocks(tr2.path, r.path, |r.path|);
        if t.els == None {
          FalseIdxKept(g, tr2.path, r.path, tr.info.Keys, t, o, r.path[o].falseIdx);
        }
      }
    }
  }

  /** Every entry that a search adds. */
  lemma {:induction false} RunTrailEntries(g: Graph, t: Tree, tr: Trail, u: Tree, at: nat)
    requires TreeInGraph(g, t) && InGraph(g, tr) && Indexed(tr.path) && Occurs(t, |tr.path|, u, at) && u != Empty
    ensures var r := RunTrail(g, t, tr);
            && u.b < |g| && at + Size(u) <= |r.path| && EntryOk(g, r.path, tr.info.Keys, u, at)
    decreases t, 2
  {
    RunTrailGrows(g, t, tr);
    OccursWithin(g, t, |tr.path|, u, at);
    match t
    case Empty =>
    case Leaf(b) =>
    case Chain(b, next) =>
      var tr1 := Push(tr, b);
      if t == u && at == |tr.path| {
        RunTrailGrows(g, next, tr1);
        assert RunTrail(g, t, tr).path[at] == tr1.path[at];
      } else {
        RunTrailEntries(g, next, tr1, u, at);
      }
    case Fork(b, thn, els) => ForkEntries(g, t, tr, u, at);
  }

  lemma {:induction false} ForkEntries(g: Graph, t: Tree, tr: Trail, u: Tree, at: nat)
    requires TreeInGraph(g, t) && InGraph(g, tr) && Indexed(tr.path) && Occurs(t, |tr.path|, u, at) && u != Empty && t.Fork?
    ensures var r := RunTrail(g, t, tr);
            && u.b < |g| && at + Size(u) <= |r.path| && EntryOk(g, r.path, tr.info.Keys, u, at)
    decreases t, 1
  {
    hide RunThen, RunElse, EntryOk, FalseIdxOk, Indexed, SameBlocks;
    var o, tr3 := |tr.path|, RunThen(g, t.b, |tr.path|, t.thn, t.els.Some?, Push(tr, t.b));
    var r := RunElse(g, t.b, t.els, tr3);
    assert r == RunTrail(g, t, tr);
    hide RunTrail;
    ThenEntry(g, t, tr);
    RunThenGrows(g, t.b, o, t.thn, t.els.Some?, Push(tr, t.b), tr.path);
    RunElseGrows(g, t.b, t.els, tr3);
    OccursWithin(g, t, o, u, at);
    if t == u && at == o {
      RootEntry(g, t, tr3.path, r.path, tr.info.Keys, o);
    } else if t.thn.Some? && Occurs(t.thn.value, o + 1, u, at) {
      InThen(g, t, tr, u, at);
      OccursWithin(g, t.thn.value, o + 1, u, at);
      PrefixSame(tr3.path, r.path, at + Size(u));
      EntryKept(g, tr3.path, r.path, tr.info.Keys, u, at);
    } else {
      InElse(g, t, tr3, u, at);
    }
  }

  lemma PrefixSame(p: seq<Entry>, p': seq<Entry>, n: nat)
    requires p <= p' && n <= |p|
    ensures SameBlocks(p, p', n) && forall i :: 0 <= i < |p| ==> p'[i] == p[i]
  {
  }

  lemma RootEntry(g: Graph, t: Tree, p: seq<Entry>, r: seq<Entry>, keys: set<nat>, o: nat)
    requires t.Fork? && t.b < |g| && p <= r && |p| == o + 1 + ArmSize(t.thn) && |r| == o + Size(t)
    requires Indexed(p) && p[o].block == t.b && (forall e :: e in p ==> e.block < |g|) && (forall e :: e in r ==> e.block < |g|)
    requires if t.els.Some? then p[o].falseIdx == if t.thn.Some? && t.b in keys then |p| else 0
             else EntryOk(g, p, keys, t, o)
    ensures EntryOk(g, r, keys, t, o)
  {
    if t.els == None { EntryKept(g, p, r, keys, t, o); }
  }

  /** An entry of the true arm, after the true branch. */
  lemma {:induction false} InThen(g: Graph, t: Tree, tr: Trail, u: Tree, at: nat)
    requires TreeInGraph(g, t) && InGraph(g, tr) && Indexed(tr.path) && t.Fork? && t.thn.Some?
    requires Occurs(t.thn.value, |tr.path| + 1, u, at) && u != Empty
    ensures var r := RunThen(g, t.b, |tr.path|, t.thn, t.els.Some?, Push(tr, t.b));
            && u.b < |g| && at + Size(u) <= |r.path| && EntryOk(g, r.path, tr.info.Keys, u, at)
    decreases t, 0
  {
    var tr1 := Push(tr, t.b);
    RunTrailEntries(g, t.thn.value, tr1, u, at);
    RunTrailGrows(g, t.thn.value, tr1);
    OccursWithin(g, t.thn.value, |tr1.path|, u, at);
    var tr2, r := RunTrail(g, t.thn.value, tr1), RunThen(g, t.b, |tr.path|, t.thn, t.els.Some?, tr1);
    hide RunTrail, FalseStart, EntryOk;
    assert SameBlocks(tr2.path, r.path, |tr2.path|) && r.path[at] == tr2.path[at];
    EntryKept(g, tr2.path, r.path, tr.info.Keys, u, at);
  }

  /** An entry of the false arm, after the false branch. */
  lemma {:induction false} InElse(g: Graph, t: Tree, tr: Trail, u: Tree, at: nat)
    requires TreeInGraph(g, t) && InGraph(g, tr) && Indexed(tr.path) && t.Fork? && t.els.Some?
    requires Occurs(t.els.value, |tr.path|, u, at) && u != Empty
    ensures var r := RunElse(g, t.b, t.els, tr);
            && u.b < |g| && at + Size(u) <= |r.path| && EntryOk(g, r.path, tr.info.Keys, u, at)
    decreases t, 0
  {
    RunTrailEntries(g, t.els.value, tr, u, at);
    hide RunTrail, EntryOk;
  }

  /** Every entry of the recorded path of a state, on any graph. */
  lemma {:induction false} RecordedEntries(g: Graph, s: nat, prepared: map<nat, PathInfo>, u: Tree, at: nat)
    requires Closed(g) && s < |g| && Occurs(Explored(g, s), 0, u, at) && u != Empty
    ensures var p := Recorded(g, s, prepared).path;
            && |p| == Size(Explored(g, s)) && Indexed(p) && (forall e :: e in p ==> e.block < |g|)
            && u.b < |g| && at + Size(u) <= |p| && EntryOk(g, p, prepared.Keys, u, at)
  {
    hide Explored;
    RunTrailGrows(g, Explored(g, s), Trail([], prepared));
    RunTrailEntries(g, Explored(g, s), Trail([], prepared), u, at);
  }

  // ----- What is recorded of the branches -----

  function Or(a: seq<nat>, b: seq<nat>): seq<nat> {
    if a != [] then a else b
  }

  /** What the true branch of `b` records itself where it is first entered in `t` and records anything. */
  function FirstTrue(t: Tree, b: nat): seq<nat> {
    match t
    case Empty => []
    case Leaf(_) => []
    case Chain(_, next) => FirstTrue(next, b)
    case Fork(c, thn, els) =>
      Or(if thn.Some? then Or(FirstTrue(thn.value, b), if c == b then Spine(thn.value) else []) else [],
         if els.Some? then FirstTrue(els.value, b) else [])
  }

  function FirstFalse(t: Tree, b: nat): seq<nat> {
    match t
    case Empty => []
    case Leaf(_) => []
    case Chain(_, next) => FirstFalse(next, b)
    case Fork(c, thn, els) =>
      Or(if thn.Some? then FirstFalse(thn.value, b) else [],
         if els.Some? then Or(FirstFalse(els.value, b), if c == b then Spine(els.value) else []) else [])
  }

  /** A block keeps the first branches recorded for it. */
  lemma {:induction false} InfoFirst(g: Graph, t: Tree, tr: Trail, b: nat)
    requires TreeInGraph(g, t) && InGraph(g, tr) && b in tr.info
    ensures var info := RunTrail(g, t, tr).info;
            && b in info
            && info[b].truePath == Or(tr.info[b].truePath, FirstTrue(t, b))
            && info[b].falsePath == Or(tr.info[b].falsePath, FirstFalse(t, b))
    decreases t, 1
  {
    match t
    case Empty =>
    case Leaf(_) =>
    case Chain(c, next) => InfoFirst(g, next, Push(tr, c), b);
    case Fork(c, thn, els) =>
      var tr3 := RunThen(g, c, |tr.path|, thn, els.Some?, Push(tr, c));
      ThenFirst(g, t, tr, b);
      ElseFirst(g, t, tr3, b);
      hide RunThen, RunElse, Spine;
  }

  lemma {:induction false} ThenFirst(g: Graph, t: Tree, tr: Trail, b: nat)
    requires TreeInGraph(g, t) && InGraph(g, tr) && b in tr.info && t.Fork?
    ensures var info := RunThen(g, t.b, |tr.path|, t.thn, t.els.Some?, Push(tr, t.b)).info;
            && b in info
            && info[b].truePath == Or(tr.info[b].truePath,
                 if t.thn.Some? then Or(FirstTrue(t.thn.value, b), if t.b == b then Spine(t.thn.value) else []) else [])
            && info[b].falsePath == Or(tr.info[b].falsePath, if t.thn.Some? then FirstFalse(t.thn.value, b) else [])
    decreases t, 0
  {
    hide RunTrail, FalseStart, Spine, FirstTrue, FirstFalse;
    if t.thn.Some? { InfoFirst(g, t.thn.value, Push(tr, t.b), b); }
  }

  lemma {:induction false} ElseFirst(g: Graph, t: Tree, tr: Trail, b: nat)
    requires TreeInGraph(g, t) && InGraph(g, tr) && b in tr.info && t.Fork?
    ensures var info := RunElse(g, t.b, t.els, tr).info;
            && b in info
            && info[b].truePath == Or(tr.info[b].truePath, if t.els.Some? then FirstTrue(t.els.value, b) else [])
            && info[b].falsePath == Or(tr.info[b].falsePath,
                 if t.els.Some? then Or(FirstFalse(t.els.value, b), if t.b == b then Spine(t.els.value) else []) else [])
    decreases t, 0
  {
    hide RunTrail, Spine, FirstTrue, FirstFalse;
    if t.els.Some? { InfoFirst(g, t.els.value, tr, b); }
  }

  /** What an activation records itself: from its start along the only way on, up to a wait, a
      block that branches, or one that leads nowhere new. */
  lemma {:induction false} SpineIsStraight(g: Graph, b: nat, visited: set<nat>)
    requires Closed(g) && b < |g|
    ensures var p := Spine(Body(g, b, visited));
            && Walk(g, p) && p[0] == b
            && Straight(g, p) && (forall i :: 0 < i < |p| ==> p[i] !in visited)
            && var last := g[p[|p| - 1]];
               last.hasWait || last.Branching() || last.succs == [] || last.succs[0] in visited || last.succs[0] in p
    decreases AllBlocks(g) - visited
  {
    var succs := g[b].succs;
    if !g[b].hasWait && !g[b].Branching() && |succs| > 0 && succs[0] !in visited {
      var s := succs[0];
      assert s in AllBlocks(g) - visited && Spine(Body(g, b, visited)) == [b] + Spine(Body(g, s, visited + {s}));
      hide Body, Spine;
      SpineIsStraight(g, s, visited + {s});
      StraightOn(g, b, Spine(Body(g, s, visited + {s})), visited);
    }
  }

  /** `p` goes on from its first block along the only way. */
  predicate Straight(g: Graph, p: seq<nat>)
    requires Walk(g, p)
  {
    forall i :: 0 <= i < |p| - 1 ==>
      !g[p[i]].hasWait && !g[p[i]].Branching() && g[p[i]].succs != [] && p[i + 1] == g[p[i]].succs[0]
  }

  lemma StraightOn(g: Graph, b: nat, p: seq<nat>, visited: set<nat>)
    requires Walk(g, p) && Straight(g, p) && b < |g|
    requires !g[b].hasWait && !g[b].Branching() && g[b].succs != [] && g[b].succs[0] == p[0] && p[0] !in visited
    requires forall i :: 0 < i < |p| ==> p[i] !in visited + {p[0]}
    ensures var q := [b] + p;
            && Walk(g, q) && Straight(g, q) && q[|q| - 1] == p[|p| - 1]
            && (forall i :: 0 < i < |q| ==> q[i] !in visited)
            && (forall x :: x in p ==> x in q)
  {
    var q := [b] + p;
    assert forall i :: 0 < i < |q| ==> q[i] == p[i - 1];
    forall i | 0 <= i < |q| - 1 ensures q[i + 1] in g[q[i]].succs {
      if i > 0 { assert q[i] == p[i - 1] && q[i + 1] == p[i - 1 + 1]; }
    }
    forall i | 0 <= i < |q| - 1
      ensures !g[q[i]].hasWait && !g[q[i]].Branching() && g[q[i]].succs != [] && q[i + 1] == g[q[i]].succs[0]
    {
      if i > 0 { assert q[i] == p[i - 1] && q[i + 1] == p[i - 1 + 1]; }
    }
  }
}
