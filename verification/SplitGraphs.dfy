/** What splitting keeps: the element sequences of walks, and the shape that code
generation relies on. */
module SplitGraphs {
  import opened ThreadGraph
  import opened Segments
  import opened Splitting
  import opened Encoding
  import opened Exactness
  import opened Sequences

  lemma {:induction false} BaseMonotone(cfg: Cfg, j: nat, j': nat)
    requires j <= j' <= |cfg|
    ensures Base(cfg, j) <= Base(cfg, j')
    decreases j'
  {
    if j < j' {
      SplitOk(cfg[j' - 1].elems);
      BaseMonotone(cfg, j, j' - 1);
    }
  }

  /** Different segments have different positions. */
  lemma {:induction false} PosInjective(cfg: Cfg, j: nat, k: nat, j': nat, k': nat)
    requires j < |cfg| && k < |Segs(cfg, j)| && j' < |cfg| && k' < |Segs(cfg, j')|
    requires Pos(cfg, j, k) == Pos(cfg, j', k')
    ensures j == j' && k == k'
  {
    if j < j' { PosBounds(cfg, j, k, j'); }
    if j' < j { PosBounds(cfg, j', k', j); }
  }

  /** Every block of the split graph is a segment. */
  lemma {:induction false} Locate(cfg: Cfg, p: nat, n: nat) returns (j: nat, k: nat)
    requires n <= |cfg| && p < Base(cfg, n)
    ensures j < |cfg| && k < |Segs(cfg, j)| && Pos(cfg, j, k) == p
    decreases n
  {
    if p < |cfg| {
      j, k := p, 0;
      SplitOk(cfg[p].elems);
    } else if p < Base(cfg, n - 1) {
      j, k := Locate(cfg, p, n - 1);
    } else {
      j, k := n - 1, p - Base(cfg, n - 1) + 1;
    }
  }

  predicate CWalk(cfg: Cfg, p: seq<nat>) {
    && p != []
    && (forall i :: 0 <= i < |p| ==> p[i] < |cfg|)
    && (forall i :: 0 <= i < |p| - 1 ==> p[i + 1] in NonNull(cfg[p[i]].succs))
  }

  /** The positions of the segments of block `j`, from segment `k` on. */
  function SegmentsFrom(cfg: Cfg, j: nat, k: nat): (q: seq<nat>)
    requires j < |cfg| && k <= |Segs(cfg, j)|
    ensures |q| == |Segs(cfg, j)| - k
    ensures forall i :: 0 <= i < |q| ==> q[i] == Pos(cfg, j, k + i)
  {
    seq<nat>(|Segs(cfg, j)| - k, i requires 0 <= i => Pos(cfg, j, k + i))
  }

  /** The walk through the split graph that follows walk `p` of the original. */
  function SplitWalk(cfg: Cfg, p: seq<nat>): seq<nat>
    requires forall i :: 0 <= i < |p| ==> p[i] < |cfg|
  {
    if p == [] then [] else SegmentsFrom(cfg, p[0], 0) + SplitWalk(cfg, p[1..])
  }

  function WalkElems(cfg: Cfg, p: seq<nat>): seq<Elem>
    requires forall i :: 0 <= i < |p| ==> p[i] < |cfg|
  {
    if p == [] then [] else cfg[p[0]].elems + WalkElems(cfg, p[1..])
  }

  function SplitElems(g: Graph, q: seq<nat>): seq<Elem>
    requires forall i :: 0 <= i < |q| ==> q[i] < |g|
  {
    if q == [] then [] else SplitElems(g, q[..|q| - 1]) + g[q[|q| - 1]].elems
  }

  lemma {:induction false} SplitElemsAppend(g: Graph, a: seq<nat>, b: seq<nat>)
    requires forall i :: 0 <= i < |a| ==> a[i] < |g|
    requires forall i :: 0 <= i < |b| ==> b[i] < |g|
    ensures SplitElems(g, a + b) == SplitElems(g, a) + SplitElems(g, b)
    decreases |b|
  {
    if b == [] {
      assert a + b == a;
    } else {
      var init, x := b[..|b| - 1], b[|b| - 1];
      SplitElemsAppend(g, a, init);
      assert b == init + [x];
      SplitElemsSnoc(g, init, x);
      SplitElemsSnoc(g, a + init, x);
      hide SplitElems;
      Regroup(a, init, [x]);
      Regroup(SplitElems(g, a), SplitElems(g, init), g[x].elems);
    }
  }

  lemma SplitElemsSnoc(g: Graph, q: seq<nat>, x: nat)
    requires x < |g| && forall i :: 0 <= i < |q| ==> q[i] < |g|
    ensures SplitElems(g, q + [x]) == SplitElems(g, q) + g[x].elems
  {
    assert (q + [x])[..|q|] == q;
  }

  /** The segments of a block carry its elements. */
  lemma {:induction false} SegmentElems(cfg: Cfg, g: Graph, j: nat, n: nat)
    requires IsSplit(cfg, g) && j < |cfg| && n <= |Segs(cfg, j)|
    ensures var q := SegmentsFrom(cfg, j, 0)[..n];
            && (forall i :: 0 <= i < |q| ==> q[i] < |g|)
            && SplitElems(g, q) == Flat(Segs(cfg, j)[..n])
    decreases n
  {
    if n > 0 {
      SegmentElems(cfg, g, j, n - 1);
      var q := SegmentsFrom(cfg, j, 0)[..n];
      assert q[..n - 1] == SegmentsFrom(cfg, j, 0)[..n - 1];
      assert Segs(cfg, j)[..n][..n - 1] == Segs(cfg, j)[..n - 1];
      assert g[q[n - 1]] == SegBlock(cfg, j, n - 1);
    }
  }

  /** The segments of a block, as a walk. */
  lemma {:induction false} OwnWalk(cfg: Cfg, g: Graph, j: nat)
    requires IsSplit(cfg, g) && j < |cfg|
    ensures var own := SegmentsFrom(cfg, j, 0);
            Walk(g, own) && own[0] == j && g[own[|own| - 1]].succs == NonNull(cfg[j].succs)
  {
    SegsNonempty(cfg, j);
    var own := SegmentsFrom(cfg, j, 0);
    forall i | 0 <= i < |own| ensures own[i] < |g| && g[own[i]] == SegBlock(cfg, j, i) {
      assert own[i] == Pos(cfg, j, i);
    }
    forall i | 0 <= i < |own| - 1 ensures own[i + 1] in g[own[i]].succs {
      assert own[i + 1] == Pos(cfg, j, i + 1);
    }
  }

  lemma {:induction false} OwnElems(cfg: Cfg, g: Graph, j: nat)
    requires IsSplit(cfg, g) && j < |cfg|
    ensures var own := SegmentsFrom(cfg, j, 0);
            (forall i :: 0 <= i < |own| ==> own[i] < |g|) && SplitElems(g, own) == cfg[j].elems
  {
    var own := SegmentsFrom(cfg, j, 0);
    SegmentElems(cfg, g, j, |own|);
    SplitOk(cfg[j].elems);
    hide IsSplit, SplitElems, Flat, Split;
    assert own[..|own|] == own && Segs(cfg, j)[..|own|] == Segs(cfg, j);
  }

  lemma {:induction false} CWalkTail(cfg: Cfg, p: seq<nat>)
    requires CWalk(cfg, p) && |p| > 1
    ensures CWalk(cfg, p[1..]) && p[1] in NonNull(cfg[p[0]].succs)
  {
    assert p[0 + 1] in NonNull(cfg[p[0]].succs);
    forall i | 0 <= i < |p[1..]| - 1 ensures p[1..][i + 1] in NonNull(cfg[p[1..][i]].succs) {
      assert p[1..][i] == p[i + 1] && p[1..][i + 1] == p[i + 1 + 1];
    }
  }

  /** A walk of the original becomes a walk of the split graph with the same elements. */
  lemma {:induction false} SplitKeepsWalks(cfg: Cfg, g: Graph, p: seq<nat>)
    requires CfgInRange(cfg) && IsSplit(cfg, g) && CWalk(cfg, p)
    ensures var q := SplitWalk(cfg, p);
            Walk(g, q) && q[0] == p[0] && SplitElems(g, q) == WalkElems(cfg, p)
    decreases |p|
  {
    hide IsSplit, SegmentsFrom, NonNull, SplitElems;
    var own := SegmentsFrom(cfg, p[0], 0);
    var rest := SplitWalk(cfg, p[1..]);
    OwnWalk(cfg, g, p[0]);
    OwnElems(cfg, g, p[0]);
    if |p| == 1 {
      assert own + rest == own;
      assert cfg[p[0]].elems + WalkElems(cfg, p[1..]) == cfg[p[0]].elems;
    } else {
      CWalkTail(cfg, p);
      SplitKeepsWalks(cfg, g, p[1..]);
      JoinWalks(g, own, rest);
      SplitElemsAppend(g, own, rest);
    }
  }

  lemma {:induction false} JoinWalks(g: Graph, a: seq<nat>, b: seq<nat>)
    requires Walk(g, a) && Walk(g, b) && b[0] in g[a[|a| - 1]].succs
    ensures Walk(g, a + b)
  {
    var c := a + b;
    forall i | 0 <= i < |c| - 1 ensures c[i + 1] in g[c[i]].succs {
      if i < |a| - 1 { assert c[i] == a[i] && c[i + 1] == a[i + 1]; }
      else if i >= |a| { assert c[i] == b[i - |a|] && c[i + 1] == b[i - |a| + 1]; }
    }
  }

  /** A walk that starts at segment `k` of a block goes through the block's segments in order. */
  lemma {:induction false} WalkStays(cfg: Cfg, g: Graph, q: seq<nat>, j: nat, k: nat, i: nat)
    requires IsSplit(cfg, g) && Walk(g, q) && j < |cfg| && k < |Segs(cfg, j)| && q[0] == Pos(cfg, j, k)
    requires i < |q| && k + i < |Segs(cfg, j)|
    ensures q[i] == Pos(cfg, j, k + i)
    decreases i
  {
    if i > 0 {
      WalkStays(cfg, g, q, j, k, i - 1);
      assert q[i - 1 + 1] in g[q[i - 1]].succs;
      assert g[Pos(cfg, j, k + i - 1)] == SegBlock(cfg, j, k + i - 1);
    }
  }

  /** Every walk of the split graph from a block's first segment to some block's last one
      follows a walk of the original. */
  lemma {:induction false} SplitAddsNoWalks(cfg: Cfg, g: Graph, q: seq<nat>, j: nat, last: nat) returns (p: seq<nat>)
    requires CfgInRange(cfg) && IsSplit(cfg, g) && Walk(g, q) && j < |cfg| && q[0] == j
    requires last < |cfg| && Segs(cfg, last) != [] && q[|q| - 1] == Pos(cfg, last, |Segs(cfg, last)| - 1)
    ensures CWalk(cfg, p) && p[0] == j && SplitWalk(cfg, p) == q
    decreases |q|
  {
    var own := SegmentsFrom(cfg, j, 0);
    var n := |own|;
    WalkStarts(cfg, g, q, j, last);
    hide IsSplit, SegmentsFrom, NonNull, Walk, CWalk, SplitWalk;
    if |q| == n {
      assert q == own;
      p := [j];
      CWalkOne(cfg, j);
      SplitWalkCons(cfg, j, []);
    } else {
      var rest := q[n..];
      WalkTail(g, q, n);
      assert rest[0] == q[n] && rest[|rest| - 1] == q[|q| - 1] && q == own + rest;
      var p' := SplitAddsNoWalks(cfg, g, rest, q[n], last);
      p := [j] + p';
      SplitWalkCons(cfg, j, p');
      CWalkCons(cfg, j, p');
    }
  }

  lemma SplitWalkCons(cfg: Cfg, j: nat, p: seq<nat>)
    requires j < |cfg| && forall i :: 0 <= i < |p| ==> p[i] < |cfg|
    ensures SplitWalk(cfg, [j] + p) == SegmentsFrom(cfg, j, 0) + SplitWalk(cfg, p)
    ensures p == [] ==> [j] + p == [j] && SplitWalk(cfg, [j] + p) == SegmentsFrom(cfg, j, 0)
  {
    assert ([j] + p)[1..] == p;
  }

  lemma CWalkOne(cfg: Cfg, j: nat)
    requires j < |cfg|
    ensures CWalk(cfg, [j])
  {
  }

  lemma {:induction false} CWalkCons(cfg: Cfg, j: nat, p: seq<nat>)
    requires j < |cfg| && CWalk(cfg, p) && p[0] in NonNull(cfg[j].succs)
    ensures CWalk(cfg, [j] + p)
    ensures forall i :: 0 <= i < |p| ==> p[i] < |cfg|
  {
    var r := [j] + p;
    forall i | 0 <= i < |r| - 1 ensures r[i + 1] in NonNull(cfg[r[i]].succs) {
      if i > 0 { assert r[i] == p[i - 1] && r[i + 1] == p[i - 1 + 1]; }
    }
  }

  lemma {:induction false} WalkTail(g: Graph, q: seq<nat>, n: nat)
    requires Walk(g, q) && n < |q|
    ensures Walk(g, q[n..])
  {
    var rest := q[n..];
    forall i | 0 <= i < |rest| - 1 ensures rest[i + 1] in g[rest[i]].succs {
      assert rest[i] == q[n + i] && rest[i + 1] == q[n + i + 1];
    }
  }

  lemma {:induction false} WalkLongEnough(cfg: Cfg, g: Graph, q: seq<nat>, j: nat, last: nat)
    requires IsSplit(cfg, g) && Walk(g, q) && j < |cfg| && q[0] == j && last < |cfg|
    requires Segs(cfg, last) != [] && q[|q| - 1] == Pos(cfg, last, |Segs(cfg, last)| - 1)
    ensures |q| >= |Segs(cfg, j)|
  {
    assert q != [] && Pos(cfg, j, 0) == j;
    hide *;
    var end: nat := |q| - 1;
    if |q| < |Segs(cfg, j)| {
      WalkStays(cfg, g, q, j, 0, end);
      LastApart(cfg, j, end, last);
    }
  }

  lemma LastApart(cfg: Cfg, j: nat, k: nat, last: nat)
    requires j < |cfg| && k + 1 < |Segs(cfg, j)| && last < |cfg| && Segs(cfg, last) != []
    ensures Pos(cfg, j, k) != Pos(cfg, last, |Segs(cfg, last)| - 1)
  {
    hide *;
    if Pos(cfg, j, k) == Pos(cfg, last, |Segs(cfg, last)| - 1) {
      PosInjective(cfg, j, k, last, |Segs(cfg, last)| - 1);
    }
  }

  lemma {:induction false} WalkFollows(cfg: Cfg, g: Graph, q: seq<nat>, j: nat)
    requires IsSplit(cfg, g) && Walk(g, q) && j < |cfg| && q[0] == j && |q| >= |Segs(cfg, j)| > 0
    ensures q[..|Segs(cfg, j)|] == SegmentsFrom(cfg, j, 0)
  {
    hide IsSplit, Segs, Walk;
    forall i | 0 <= i < |Segs(cfg, j)| ensures q[i] == SegmentsFrom(cfg, j, 0)[i] {
      WalkStays(cfg, g, q, j, 0, i);
    }
  }

  /** Such a walk starts with all segments of its first block, and then enters another. */
  lemma {:induction false} WalkStarts(cfg: Cfg, g: Graph, q: seq<nat>, j: nat, last: nat)
    requires CfgInRange(cfg) && IsSplit(cfg, g) && Walk(g, q) && j < |cfg| && q[0] == j && last < |cfg|
    requires Segs(cfg, last) != [] && q[|q| - 1] == Pos(cfg, last, |Segs(cfg, last)| - 1)
    ensures var own := SegmentsFrom(cfg, j, 0);
            && 0 < |own| <= |q| && q[..|own|] == own
            && (|own| < |q| ==> q[|own|] < |cfg| && q[|own|] in NonNull(cfg[j].succs))
  {
    var n := |Segs(cfg, j)|;
    SegsNonempty(cfg, j);
    WalkLongEnough(cfg, g, q, j, last);
    WalkFollows(cfg, g, q, j);
    if n < |q| {
      assert q[n - 1] == q[..n][n - 1] == Pos(cfg, j, n - 1);
      WalkLeaves(cfg, g, q, j, n - 1);
    }
  }

  lemma {:induction false} WalkLeaves(cfg: Cfg, g: Graph, q: seq<nat>, j: nat, i: nat)
    requires CfgInRange(cfg) && IsSplit(cfg, g) && Walk(g, q) && j < |cfg| && i + 1 == |Segs(cfg, j)| < |q|
    requires q[i] == Pos(cfg, j, i)
    ensures q[i + 1] < |cfg| && q[i + 1] in NonNull(cfg[j].succs)
  {
    hide Split, Base, Unsplit, NonNull;
    assert g[Pos(cfg, j, i)] == SegBlock(cfg, j, i);
    assert cfg[j].succs[..|cfg[j].succs|] == cfg[j].succs;
    NonNullInRange(cfg, j, |cfg[j].succs|, q[i + 1]);
  }

  lemma {:induction false} NonNullInRange(cfg: Cfg, j: nat, n: nat, s: nat)
    requires CfgInRange(cfg) && j < |cfg| && n <= |cfg[j].succs| && s in NonNull(cfg[j].succs[..n])
    ensures s < |cfg|
    decreases n
  {
    if n > 0 {
      assert cfg[j].succs[..n][..n - 1] == cfg[j].succs[..n - 1];
      if s in NonNull(cfg[j].succs[..n - 1]) { NonNullInRange(cfg, j, n - 1, s); }
    }
  }

  // ----- The shape that code generation relies on -----

  predicate NoWait(elems: seq<Elem>) {
    forall e :: e in elems ==> e.Stmt?
  }

  /** The blocks from which the search recurses: an if, or a loop whose exit is not pruned. */
  predicate Forks(b: CfgBlock) {
    b.term == IfTerm || IsLoopWithTwoSucc(b)
  }

  predicate CfgBlockShape(b: CfgBlock) {
    var succs := NonNull(b.succs);
    && b.term != TernaryTerm
    && (if Forks(b) then |succs| == 2 && succs[0] != succs[1] && NoWait(b.elems) else |succs| <= 1)
    && (succs == [] ==> b.elems == [])
  }

  /** The threads for which the generated code is claimed to be right: a block that branches
      is the header of an if or a loop, with two different successors and no wait; the exit
      block is empty; and every cycle passes a block with a wait. */
  ghost predicate CfgShape(cfg: Cfg) {
    && CfgBlocksOk(cfg)
    && (forall p: seq<nat> :: CWalk(cfg, p) && |p| >= 2 && p[0] == p[|p| - 1] ==>
          exists i :: 0 <= i < |p| && !NoWait(cfg[p[i]].elems))
  }

  predicate CfgBlocksOk(cfg: Cfg) {
    CfgInRange(cfg) && forall j :: 0 <= j < |cfg| ==> CfgBlockShape(cfg[j])
  }

  // ----- What a split block holds, and when it branches -----

  /** Segment `k` of block `j`, field by field. */
  lemma {:induction false} SplitBlock(cfg: Cfg, g: Graph, j: nat, k: nat)
    requires IsSplit(cfg, g) && j < |cfg| && k < |Segs(cfg, j)|
    ensures Pos(cfg, j, k) < |g|
    ensures var b := g[Pos(cfg, j, k)];
            && b.id == (if k == 0 then j else 10 * j + k) && b.cfg == j && b.origin == cfg[j]
            && b.elems == Segs(cfg, j)[k].elems
            && (b.hasWait <==> exists e :: e in b.elems && e.Wait?)
            && (if k + 1 < |Segs(cfg, j)| then b.succs == [Pos(cfg, j, k + 1)]
                else exists at :: Picks(cfg[j].succs, b.succs, at))
  {
    assert g[Pos(cfg, j, k)] == SegBlock(cfg, j, k);
    SplitOk(cfg[j].elems);
    var s := Segs(cfg, j)[k];
    assert SegmentOk(s);
    if s.isWait { assert s.elems[0] in s.elems; }
    var at := NonNullPicks(cfg[j].succs);
  }

  /** From which blocks the search recurses: every segment of an if but a later wait, and the
      first segment of a loop unless its second successor is null. */
  lemma {:induction false} BranchesIff(cfg: Cfg, g: Graph, j: nat, k: nat)
    requires IsSplit(cfg, g) && j < |cfg| && k < |Segs(cfg, j)|
    ensures var b, c := g[Pos(cfg, j, k)], cfg[j];
            && (b.Branching() <==>
                  || (c.term == IfTerm && (k == 0 || !b.hasWait))
                  || (c.term == LoopTerm && k == 0 && !(|c.succs| == 2 && c.succs[1] == None)))
            && (b.isConditional <==> (c.term == IfTerm || c.term == TernaryTerm) && (k == 0 || !b.hasWait))
  {
    assert g[Pos(cfg, j, k)] == SegBlock(cfg, j, k);
  }

  /** The header of a loop with two listed successors: it branches if and only if it has two
      successors in the split graph, except when it is cut although its exit is not pruned. */
  lemma {:induction false} LoopBranchesIff(cfg: Cfg, g: Graph, j: nat)
    requires IsSplit(cfg, g) && j < |cfg| && cfg[j].term == LoopTerm
    requires |cfg[j].succs| == 2 && cfg[j].succs[0].Some?
    ensures NoWait(cfg[j].elems) ==> (g[j].Branching() <==> |g[j].succs| == 2)
    ensures (g[j].Branching() <==> |g[j].succs| == 2)
            <==> (cfg[j].succs[1] == None || NoWait(cfg[j].elems) || |cfg[j].elems| == 1)
  {
    SegsNonempty(cfg, j);
    SegsOne(cfg, j);
    TwoListed(cfg[j].succs);
    BranchesIff(cfg, g, j, 0);
    assert Pos(cfg, j, 0) == j && g[j] == SegBlock(cfg, j, 0);
    hide IsSplit, Segs, NonNull;
  }

  lemma TwoListed(all: seq<Option<nat>>)
    requires |all| == 2 && all[0].Some?
    ensures |NonNull(all)| == 2 <==> all[1].Some?
  {
    var first := all[..1];
    assert first[..0] == [] && first[0] == all[0];
    assert NonNull(first) == [] + [all[0].value];
  }

  /** Just a block without a wait, or that is one, is not cut. */
  lemma {:induction false} SegsOne(cfg: Cfg, j: nat)
    requires j < |cfg|
    ensures |Segs(cfg, j)| == 1 <==> NoWait(cfg[j].elems) || |cfg[j].elems| == 1
  {
    var elems := cfg[j].elems;
    if |Segs(cfg, j)| == 1 { OneSegment(elems); }
    if NoWait(elems) { NotCut(cfg, j); }
    if |elems| == 1 { assert elems[..0] == [] && Scan([]) == ([], []); }
  }

  /** If no block is cut, the split graph has the blocks of the CFG. */
  lemma {:induction false} NoneCut(cfg: Cfg, g: Graph)
    requires IsSplit(cfg, g) && forall j :: 0 <= j < |cfg| ==> NoWait(cfg[j].elems) || |cfg[j].elems| == 1
    ensures |g| == |cfg|
    ensures forall j :: 0 <= j < |g| ==> |Segs(cfg, j)| == 1 && g[j] == SegBlock(cfg, j, 0)
  {
    NoneCutBefore(cfg, |cfg|);
    hide Split, Base, SegBlock;
    forall j | 0 <= j < |g| ensures |Segs(cfg, j)| == 1 && g[j] == SegBlock(cfg, j, 0) {
      SegsOne(cfg, j);
      assert Pos(cfg, j, 0) == j;
    }
  }

  lemma {:induction false} NoneCutBefore(cfg: Cfg, j: nat)
    requires j <= |cfg| && forall i :: 0 <= i < |cfg| ==> NoWait(cfg[i].elems) || |cfg[i].elems| == 1
    ensures Base(cfg, j) == |cfg|
    decreases j
  {
    if j > 0 {
      NoneCutBefore(cfg, j - 1);
      SegsOne(cfg, j - 1);
      hide Split, NoWait, Segs;
    }
  }

  lemma {:induction false} OneSegment(elems: seq<Elem>)
    requires |Split(elems)| == 1
    ensures NoWait(elems) || |elems| == 1
  {
    SplitOk(elems);
    var s := Split(elems)[0];
    assert Split(elems) == [s] && Flat([s]) == Flat([]) + s.elems;
    assert SegmentOk(s) && s.elems == elems;
  }

  /** A block without a wait is not cut. */
  lemma {:induction false} NotCut(cfg: Cfg, j: nat)
    requires j < |cfg| && NoWait(cfg[j].elems)
    ensures Segs(cfg, j) == [Segment(cfg[j].elems, false)]
  {
    ScanNoWait(cfg[j].elems);
  }

  lemma {:induction false} ScanNoWait(elems: seq<Elem>)
    requires NoWait(elems)
    ensures Scan(elems) == ([], elems)
  {
    if elems != [] {
      assert elems == elems[..|elems| - 1] + [elems[|elems| - 1]] && elems[|elems| - 1] in elems;
      ScanNoWait(elems[..|elems| - 1]);
    }
  }

  lemma {:induction false} SegBlockOk(cfg: Cfg, j: nat, k: nat)
    requires CfgBlocksOk(cfg) && j < |cfg| && k < |Segs(cfg, j)|
    ensures var b := SegBlock(cfg, j, k);
            && BlockShape(b) && |b.succs| <= 2
            && (b.hasWait ==> |b.succs| <= 1)
            && (|b.succs| == 2 ==> b.Branching() && Pos(cfg, j, k) == j)
            && (b.Branching() ==> Pos(cfg, j, k) == j)
  {
    SplitOk(cfg[j].elems);
    assert CfgBlockShape(cfg[j]);
    if Forks(cfg[j]) { NotCut(cfg, j); }
    hide Split, Base, NonNull, Flat;
    assert Alternating(Segs(cfg, j)) && SegmentOk(Segs(cfg, j)[k]);
    if cfg[j].elems == [] { NotCut(cfg, j); }
  }

  lemma {:induction false} SegSuccs(cfg: Cfg, j: nat, k: nat, s: nat)
    requires CfgInRange(cfg) && j < |cfg| && k < |Segs(cfg, j)| && s in SegBlock(cfg, j, k).succs
    ensures if k + 1 < |Segs(cfg, j)| then s == Pos(cfg, j, k + 1) else s < |cfg| && s in NonNull(cfg[j].succs)
  {
    if k + 1 >= |Segs(cfg, j)| {
      assert cfg[j].succs[..|cfg[j].succs|] == cfg[j].succs;
      NonNullInRange(cfg, j, |cfg[j].succs|, s);
    }
  }

  lemma {:induction false} AdjacentWait(cfg: Cfg, j: nat, k: nat)
    requires j < |cfg| && k + 1 < |Segs(cfg, j)|
    ensures SegBlock(cfg, j, k).hasWait || SegBlock(cfg, j, k + 1).hasWait
  {
    SplitOk(cfg[j].elems);
  }

  /** In a walk without waits a block's last segment comes before the next block's first. */
  lemma {:induction false} PlainStep(cfg: Cfg, g: Graph, a: nat, b: nat) returns (j: nat)
    requires CfgBlocksOk(cfg) && IsSplit(cfg, g) && a < |g| && b < |g| && b in g[a].succs && !g[a].hasWait && !g[b].hasWait
    ensures j < |cfg| && g[a].cfg == j && b < |cfg| && b in NonNull(cfg[j].succs)
  {
    var k;
    j, k := Locate(cfg, a, |cfg|);
    assert g[a] == SegBlock(cfg, j, k);
    SegSuccs(cfg, j, k, b);
    if k + 1 < |Segs(cfg, j)| {
      AdjacentWait(cfg, j, k);
      assert false;
    }
  }

  /** A block that is entered at its first segment and left from a segment that is not a wait,
      with no wait in between, has no wait at all. */
  lemma {:induction false} PlainBlock(cfg: Cfg, g: Graph, a: nat, b: nat)
    requires CfgBlocksOk(cfg) && IsSplit(cfg, g) && a < |cfg| && b < |g| && b in g[a].succs && !g[a].hasWait && !g[b].hasWait
    ensures NoWait(cfg[a].elems) && b < |cfg| && b in NonNull(cfg[a].succs)
  {
    var j := PlainStep(cfg, g, a, b);
    SegsNonempty(cfg, a);
    assert Pos(cfg, a, 0) == a;
    assert g[a] == SegBlock(cfg, a, 0);
    SegSuccs(cfg, a, 0, b);
    if |Segs(cfg, a)| > 1 {
      assert false;
    }
    SplitOk(cfg[a].elems);
    assert Segs(cfg, a) == [Segs(cfg, a)[0]];
    FlatSnoc([], Segs(cfg, a)[0]);
    assert [] + [Segs(cfg, a)[0]] == Segs(cfg, a);
  }

  lemma {:induction false} SplitCyclesWait(cfg: Cfg, g: Graph)
    requires CfgShape(cfg) && IsSplit(cfg, g)
    ensures CyclesWait(g)
  {
    forall p: seq<nat> | Walk(g, p) && |p| >= 2 && p[0] == p[|p| - 1] ensures !WaitFree(g, p) {
      if WaitFree(g, p) {
        CycleProjects(cfg, g, p);
        assert false;
      }
    }
  }

  /** A cycle of the split graph without a wait is a cycle of the original without one. */
  lemma {:induction false} CycleProjects(cfg: Cfg, g: Graph, p: seq<nat>)
    requires CfgBlocksOk(cfg) && IsSplit(cfg, g)
    requires Walk(g, p) && |p| >= 2 && p[0] == p[|p| - 1] && WaitFree(g, p)
    ensures CWalk(cfg, p) && forall i :: 0 <= i < |p| ==> NoWait(cfg[p[i]].elems)
  {
    forall i | 0 <= i < |p| ensures p[i] < |cfg| && !g[p[i]].hasWait {
      CycleBefore(cfg, g, p, i);
    }
    forall i | 0 <= i < |p| - 1 ensures NoWait(cfg[p[i]].elems) && p[i + 1] in NonNull(cfg[p[i]].succs) {
      PlainBlock(cfg, g, p[i], p[i + 1]);
    }
  }

  lemma {:induction false} CycleBefore(cfg: Cfg, g: Graph, p: seq<nat>, i: nat)
    requires CfgBlocksOk(cfg) && IsSplit(cfg, g)
    requires Walk(g, p) && |p| >= 2 && p[0] == p[|p| - 1] && WaitFree(g, p) && i < |p|
    ensures p[i] < |cfg| && !g[p[i]].hasWait
  {
    var b := if i == 0 then |p| - 1 else i;
    assert p[b] == p[i] && p[b - 1 + 1] in g[p[b - 1]].succs;
    var j := PlainStep(cfg, g, p[b - 1], p[b]);
  }

  /** Splitting a thread of the claimed shape gives a graph of the shape that the code
      generator needs. */
  lemma {:induction false} SplitShape(cfg: Cfg, g: Graph)
    requires CfgShape(cfg) && IsSplit(cfg, g)
    ensures ThreadShape(g) && DistinctConds(g)
  {
    forall p | 0 <= p < |g|
      ensures BlockShape(g[p]) && |g[p].succs| <= 2 && (g[p].hasWait ==> |g[p].succs| <= 1)
      ensures |g[p].succs| == 2 ==> g[p].Branching() && g[p].cfg == p
      ensures forall i :: 0 <= i < |g[p].succs| ==> g[p].succs[i] < |g|
    {
      var j, k := Locate(cfg, p, |cfg|);
      assert g[p] == SegBlock(cfg, j, k);
      SegBlockOk(cfg, j, k);
      forall i | 0 <= i < |g[p].succs| ensures g[p].succs[i] < |g| {
        SegSuccs(cfg, j, k, g[p].succs[i]);
        if k + 1 < |Segs(cfg, j)| { PosBounds(cfg, j, k + 1, |cfg|); }
      }
    }
    SplitCyclesWait(cfg, g);
  }
}
