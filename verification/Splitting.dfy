/** Splitting a whole control-flow graph at its waits. */
module Splitting {
  import opened ThreadGraph
  import opened Segments
  import opened PathSearch

  predicate CfgInRange(cfg: Cfg) {
    forall j, i :: 0 <= j < |cfg| && 0 <= i < |cfg[j].succs| && cfg[j].succs[i].Some? ==> cfg[j].succs[i].value < |cfg|
  }

  function NonNull(succs: seq<Option<nat>>): seq<nat> {
    if succs == [] then []
    else NonNull(succs[..|succs| - 1]) + (match succs[|succs| - 1] case None => [] case Some(s) => [s])
  }

  /** `picked` are the successors in `all` that are not null, in their order: `at` says where
      they stand. */
  ghost predicate Picks(all: seq<Option<nat>>, picked: seq<nat>, at: seq<nat>) {
    && |at| == |picked|
    && (forall k :: 0 <= k < |at| ==> at[k] < |all| && all[at[k]] == Some(picked[k]))
    && (forall k, m :: 0 <= k < m < |at| ==> at[k] < at[m])
    && (forall i :: 0 <= i < |all| && all[i].Some? ==> i in at)
  }

  lemma {:induction false} NonNullPicks(all: seq<Option<nat>>) returns (at: seq<nat>)
    ensures Picks(all, NonNull(all), at)
  {
    at := [];
    if all != [] {
      var init, last := all[..|all| - 1], all[|all| - 1];
      var before := NonNullPicks(init);
      assert init + [last] == all;
      at := if last.Some? then before + [|init|] else before;
      hide Picks;
      PicksOne(init, NonNull(init), before, last);
    }
  }

  lemma PicksOne(all: seq<Option<nat>>, picked: seq<nat>, at: seq<nat>, s: Option<nat>)
    requires Picks(all, picked, at)
    ensures if s.Some? then Picks(all + [s], picked + [s.value], at + [|all|]) else Picks(all + [s], picked + [], at)
  {
    var at' := if s.Some? then at + [|all|] else at;
    forall i | 0 <= i < |all + [s]| && (all + [s])[i].Some? ensures i in at' {
      if i < |all| { assert all[i].Some? && i in at; } else { assert at'[|at|] == |all|; }
    }
    assert picked + [] == picked;
  }

  function Segs(cfg: Cfg, j: nat): seq<Segment>
    requires j < |cfg|
  {
    Split(cfg[j].elems)
  }

  /** How many blocks there are when the CFG blocks before `j` are split. */
  function Base(cfg: Cfg, j: nat): (n: nat)
    requires j <= |cfg|
    ensures n >= |cfg|
  {
    if j == 0 then |cfg|
    else
      SplitOk(cfg[j - 1].elems);
      Base(cfg, j - 1) + |Segs(cfg, j - 1)| - 1
  }

  /** The position of segment `k` of CFG block `j`: the first segment keeps the block's own. */
  function Pos(cfg: Cfg, j: nat, k: nat): nat
    requires j < |cfg|
  {
    if k == 0 then j else Base(cfg, j) + k - 1
  }

  predicate IsIf(b: CfgBlock) {
    b.term == IfTerm || b.term == TernaryTerm
  }

  predicate IsLoopWithTwoSucc(b: CfgBlock) {
    b.term == LoopTerm && !(|b.succs| == 2 && b.succs[1] == None)
  }

  /** Block `j` before it is split. */
  function Unsplit(cfg: Cfg, j: nat): Block
    requires j < |cfg|
  {
    Block(j, j, CfgBlock([], NoTerm, []), [], false, IsIf(cfg[j]), IsLoopWithTwoSucc(cfg[j]), [])
  }

  /** Segment `k` of block `j` as a block of the split graph. */
  function SegBlock(cfg: Cfg, j: nat, k: nat): Block
    requires j < |cfg| && k < |Segs(cfg, j)|
  {
    var s := Segs(cfg, j)[k];
    Block(if k == 0 then j else j * 10 + k, j, cfg[j], s.elems, s.isWait,
          if k == 0 then IsIf(cfg[j]) else !s.isWait && IsIf(cfg[j]),
          k == 0 && IsLoopWithTwoSucc(cfg[j]),
          if k + 1 < |Segs(cfg, j)| then [Pos(cfg, j, k + 1)] else NonNull(cfg[j].succs))
  }

  lemma {:induction false} SegsNonempty(cfg: Cfg, j: nat)
    requires j < |cfg|
    ensures Segs(cfg, j) != []
  {
    SplitOk(cfg[j].elems);
  }

  lemma {:induction false} PosBounds(cfg: Cfg, j: nat, k: nat, j': nat)
    requires j < j' <= |cfg| && k < |Segs(cfg, j)|
    ensures Pos(cfg, j, k) < Base(cfg, j') && (k > 0 ==> Pos(cfg, j, k) >= |cfg|)
    decreases j'
  {
    SegsNonempty(cfg, j' - 1);
    hide Split, Segs;
    if j < j' - 1 { PosBounds(cfg, j, k, j' - 1); }
  }

  /** The CFG blocks before `j` are split, the others are as they were created. */
  predicate SplitBefore(cfg: Cfg, blocks: Graph, j: nat) {
    && j <= |cfg| && |blocks| == Base(cfg, j)
    && (forall i, k :: 0 <= i < j && 0 <= k < |Segs(cfg, i)| ==>
          Pos(cfg, i, k) < |blocks| && blocks[Pos(cfg, i, k)] == SegBlock(cfg, i, k))
    && (forall i :: j <= i < |cfg| ==> blocks[i] == Unsplit(cfg, i))
  }

  predicate IsSplit(cfg: Cfg, blocks: Graph) {
    SplitBefore(cfg, blocks, |cfg|)
  }

  /** The first `n` segments of block `j` are in place; the newest is not linked to its
      successor yet, unless it is the last. */
  predicate SegmentsPlaced(cfg: Cfg, blocks: Graph, j: nat, n: nat) {
    && j < |cfg| && n <= |Segs(cfg, j)| && |blocks| == Base(cfg, j) + (if n == 0 then 0 else n - 1)
    && (forall i, k :: 0 <= i < j && 0 <= k < |Segs(cfg, i)| ==>
          Pos(cfg, i, k) < |blocks| && blocks[Pos(cfg, i, k)] == SegBlock(cfg, i, k))
    && (forall i :: j <= i < |cfg| && (i == j ==> n == 0) ==> blocks[i] == Unsplit(cfg, i))
    && (forall k :: 0 <= k < n ==>
          Pos(cfg, j, k) < |blocks| && blocks[Pos(cfg, j, k)] == Placed(cfg, j, k, n))
  }

  function Placed(cfg: Cfg, j: nat, k: nat, n: nat): Block
    requires j < |cfg| && k < |Segs(cfg, j)|
  {
    if k + 1 == n < |Segs(cfg, j)| then SegBlock(cfg, j, k).(succs := []) else SegBlock(cfg, j, k)
  }

  /** Those of `found` from which the search recurses, with nothing recorded. */
  function BranchInfo(g: Graph, found: set<nat>): map<nat, PathInfo> {
    map p | p in found && p < |g| && g[p].Branching() :: PathInfo([], [])
  }

  /** Segment `k` of block `i` is not its first, and comes before segment `n` of block `j`. */
  predicate Derived(cfg: Cfg, j: nat, n: nat, i: nat, k: nat) {
    i < |cfg| && 0 < k < |Segs(cfg, i)| && (i < j || (i == j && k < n))
  }

  /** Of these segments it is the first, by blocks, whose id is `id`. */
  ghost predicate FirstDerived(cfg: Cfg, j: nat, n: nat, id: nat, i: nat, k: nat) {
    && Derived(cfg, j, n, i, k) && 10 * i + k == id
    && forall i': nat, k': nat :: Derived(cfg, j, n, i', k') && 10 * i' + k' == id ==> i <= i'
  }

  /** What is found under which id when the segments before segment `n` of block `j` have their
      blocks: a CFG block under its own, and a later segment of block i, the k-th, under 10 * i + k,
      unless a CFG block or a segment of an earlier block has that id. */
  ghost predicate FoundUnder(cfg: Cfg, found: map<nat, nat>, j: nat, n: nat) {
    OwnFound(cfg, found) && AllFound(cfg, found, j, n) && FirstFound(cfg, found, j, n)
  }

  predicate OwnFound(cfg: Cfg, found: map<nat, nat>) {
    forall id: nat :: id < |cfg| ==> id in found && found[id] == id
  }

  ghost predicate FirstFound(cfg: Cfg, found: map<nat, nat>, j: nat, n: nat) {
    forall id :: id in found && id >= |cfg| ==> FoundDerived(cfg, found[id], j, n, id)
  }

  ghost predicate AllFound(cfg: Cfg, found: map<nat, nat>, j: nat, n: nat) {
    forall i: nat, k: nat :: Derived(cfg, j, n, i, k) ==> 10 * i + k in found
  }

  ghost predicate FoundDerived(cfg: Cfg, pos: nat, j: nat, n: nat, id: nat) {
    exists i: nat, k: nat :: FirstDerived(cfg, j, n, id, i, k) && pos == Pos(cfg, i, k)
  }

  /** The segments before one place come before another, and those between are of no earlier block. */
  ghost predicate Further(cfg: Cfg, j: nat, n: nat, j': nat, n': nat) {
    && (forall i: nat, k: nat :: Derived(cfg, j, n, i, k) ==> Derived(cfg, j', n', i, k))
    && (forall i: nat, k: nat, i': nat, k': nat ::
          Derived(cfg, j', n', i, k) && !Derived(cfg, j, n, i, k) && Derived(cfg, j, n, i', k') ==> i' <= i)
  }

  /** Where an id is found does not change. */
  lemma StillFirst(cfg: Cfg, pos: nat, j: nat, n: nat, j': nat, n': nat, id: nat)
    requires FoundDerived(cfg, pos, j, n, id) && Further(cfg, j, n, j', n')
    ensures FoundDerived(cfg, pos, j', n', id)
  {
    var i: nat, k: nat :| FirstDerived(cfg, j, n, id, i, k) && pos == Pos(cfg, i, k);
    hide Derived, Pos;
    assert FirstDerived(cfg, j', n', id, i, k);
  }

  lemma NowFirst(cfg: Cfg, found: map<nat, nat>, j: nat, n: nat, n': nat)
    requires j < |cfg| && 0 < n < |Segs(cfg, j)| && n' == n + 1
    requires AllFound(cfg, found, j, n) && 10 * j + n !in found
    ensures FoundDerived(cfg, Pos(cfg, j, n), j, n', 10 * j + n)
  {
    hide Pos, Segs;
    forall i: nat, k: nat | Derived(cfg, j, n', i, k) && 10 * i + k == 10 * j + n ensures j <= i {
      assert !Derived(cfg, j, n, i, k);
    }
    assert FirstDerived(cfg, j, n', 10 * j + n, j, n);
  }

  lemma NextFurther(cfg: Cfg, found: map<nat, nat>, j: nat, n: nat, pos: nat)
    requires j < |cfg| && 0 < n < |Segs(cfg, j)| && AllFound(cfg, found, j, n)
    ensures Further(cfg, j, n, j, n + 1)
    ensures AllFound(cfg, found[10 * j + n := pos], j, n + 1)
    ensures 10 * j + n in found ==> AllFound(cfg, found, j, n + 1)
  {
    hide Segs;
    var n' := n + 1;
    assert forall i: nat, k: nat :: Derived(cfg, j, n', i, k) <==> Derived(cfg, j, n, i, k) || (i == j && k == n);
  }

  lemma SameFurther(cfg: Cfg, found: map<nat, nat>, j: nat, n: nat, j': nat, n': nat)
    requires (j' == j && n == 0 && n' == 1) || (j < |cfg| && j' == j + 1 && n == |Segs(cfg, j)| && n' == 0)
    requires AllFound(cfg, found, j, n)
    ensures Further(cfg, j, n, j', n') && AllFound(cfg, found, j', n')
  {
    hide Segs;
    assert forall i: nat, k: nat :: Derived(cfg, j', n', i, k) <==> Derived(cfg, j, n, i, k);
  }

  lemma {:induction false} StillFound(cfg: Cfg, found: map<nat, nat>, j: nat, n: nat, j': nat, n': nat)
    requires FirstFound(cfg, found, j, n) && Further(cfg, j, n, j', n')
    ensures FirstFound(cfg, found, j', n')
  {
    hide Further, FoundDerived;
    forall id | id in found && id >= |cfg| ensures FoundDerived(cfg, found[id], j', n', id) {
      StillFirst(cfg, found[id], j, n, j', n', id);
    }
  }

  lemma NowFound(cfg: Cfg, found: map<nat, nat>, j: nat, n: nat, pos: nat, id: nat)
    requires FirstFound(cfg, found, j, n) && FoundDerived(cfg, pos, j, n, id)
    ensures FirstFound(cfg, found[id := pos], j, n)
  {
    hide FoundDerived;
  }

  /** As with a map's insert, an id that is taken stays as it is. */
  function Inserted(found: map<nat, nat>, id: nat, pos: nat): map<nat, nat> {
    if id in found then found else found[id := pos]
  }

  lemma StillInRange(found: map<nat, nat>, own: nat, size: nat, id: nat, pos: nat)
    requires forall i :: 0 <= i < own ==> i in found && found[i] == i
    requires (forall i :: i in found ==> found[i] < size) && pos < size
    ensures var found' := Inserted(found, id, pos);
            && found' == (if id in found then found else found[id := pos])
            && (forall i :: 0 <= i < own ==> i in found' && found'[i] == i)
            && (forall i :: i in found' ==> found'[i] < size)
  {
  }

  lemma OwnStill(cfg: Cfg, found: map<nat, nat>, id: nat, pos: nat)
    requires OwnFound(cfg, found)
    ensures OwnFound(cfg, Inserted(found, id, pos))
  {
  }

  lemma {:induction false} FoundNext(cfg: Cfg, found: map<nat, nat>, j: nat, n: nat, pos: nat)
    requires j < |cfg| && 0 < n < |Segs(cfg, j)| && pos == Pos(cfg, j, n) && FoundUnder(cfg, found, j, n)
    ensures FoundUnder(cfg, Inserted(found, 10 * j + n, pos), j, n + 1)
  {
    hide Further, OwnFound, AllFound, FirstFound, Pos, FoundDerived, Segs;
    NextFurther(cfg, found, j, n, pos);
    OwnStill(cfg, found, 10 * j + n, pos);
    StillFound(cfg, found, j, n, j, n + 1);
    if 10 * j + n !in found {
      NowFirst(cfg, found, j, n, n + 1);
      NowFound(cfg, found, j, n + 1, pos, 10 * j + n);
    }
  }

  lemma {:induction false} FoundSame(cfg: Cfg, found: map<nat, nat>, j: nat, n: nat, j': nat, n': nat)
    requires FoundUnder(cfg, found, j, n)
    requires (j' == j && n == 0 && n' == 1) || (j < |cfg| && j' == j + 1 && n == |Segs(cfg, j)| && n' == 0)
    ensures FoundUnder(cfg, found, j', n')
  {
    SameFurther(cfg, found, j, n, j', n');
    hide Further, OwnFound, AllFound, FirstFound, FoundDerived;
    StillFound(cfg, found, j, n, j', n');
  }

  class SplitCFGBuilder {
    const cfg: Cfg
    var blocks: Graph
    var sccfg: map<nat, nat>   // block id to position
    var pathInfo: map<nat, PathInfo>

    constructor (cfg: Cfg)
      ensures this.cfg == cfg && blocks == [] && sccfg == map[] && pathInfo == map[]
    {
      this.cfg := cfg;
      blocks, sccfg, pathInfo := [], map[], map[];
    }

    /** Every CFG block is found under its own id: derived ids never overwrite it. */
    predicate OriginalsFound()
      reads this
    {
      && (forall i :: 0 <= i < |cfg| ==> i in sccfg && sccfg[i] == i)
      && (forall id :: id in sccfg ==> sccfg[id] < |blocks|)
    }

    method CreateUnsplitBlocks()
      requires blocks == [] && sccfg == map[]
      modifies `blocks, `sccfg
      ensures OriginalsFound() && SplitBefore(cfg, blocks, 0) && FoundUnder(cfg, sccfg, 0, 0)
    {
      var i := 0;
      while i < |cfg|
        invariant i <= |cfg| && |blocks| == i
        invariant forall x :: 0 <= x < i ==> blocks[x] == Unsplit(cfg, x) && x in sccfg && sccfg[x] == x
        invariant forall x :: x in sccfg ==> x < i && sccfg[x] < i
      {
        var b := cfg[i];
        var lastSuccIsNull := false;
        if |b.succs| == 2 {
          if b.succs[1] == None {
            lastSuccIsNull := true;
          }
        }
        var isLoop := b.term == LoopTerm;
        blocks := blocks + [Block(i, i, CfgBlock([], NoTerm, []), [], false, b.term == IfTerm || b.term == TernaryTerm,
                                  isLoop && !lastSuccIsNull, [])];
        sccfg := sccfg[i := |blocks| - 1];
        i := i + 1;
      }
    }

    /** The successors of CFG block `j`, without the null ones. */
    method AddSuccessors(j: nat) returns (succs: seq<nat>)
      requires j < |cfg| && CfgInRange(cfg) && OriginalsFound()
      ensures succs == NonNull(cfg[j].succs)
      ensures exists at :: Picks(cfg[j].succs, succs, at)
    {
      ghost var at := NonNullPicks(cfg[j].succs);
      succs := [];
      var i := 0;
      while i < |cfg[j].succs|
        invariant i <= |cfg[j].succs|
        invariant succs == NonNull(cfg[j].succs[..i])
      {
        assert cfg[j].succs[..i + 1][..i] == cfg[j].succs[..i];
        if cfg[j].succs[i].Some? {
          succs := succs + [sccfg[cfg[j].succs[i].value]];
        }
        i := i + 1;
      }
      assert cfg[j].succs[..|cfg[j].succs|] == cfg[j].succs;
    }

    method SplitElements(elems: seq<Elem>) returns (segs: seq<Segment>)
      ensures segs == Split(elems)
    {
      var open: seq<Elem> := [];
      segs := [];
      if |elems| == 0 {
        segs := segs + [Segment(open, false)];
      } else {
        var hasWait := false;
        var i := 0;
        while i < |elems|
          invariant i <= |elems|
          invariant Scan(elems[..i]) == (segs, open)
          invariant open != [] ==> !hasWait
        {
          assert elems[..i + 1][..i] == elems[..i];
          hasWait := false;
          if elems[i].Wait? {
            if |open| != 0 {
              segs := segs + [Segment(open, false)];
              open := [];
            }
            open := open + [elems[i]];
            assert open == [elems[i]];
            segs := segs + [Segment(open, true)];
            open := [];
            hasWait := true;
          } else {
            open := open + [elems[i]];
          }
          i := i + 1;
        }
        assert elems[..|elems|] == elems;
        if |open| != 0 {
          segs := segs + [Segment(open, hasWait)];
        }
      }
    }

    /** The first segment takes over the block that was created for CFG block `j`. */
    method FillFirstSegment(j: nat, segs: seq<Segment>) returns (pos: nat)
      requires j < |cfg| && CfgInRange(cfg) && segs == Segs(cfg, j) != []
      requires OriginalsFound() && SegmentsPlaced(cfg, blocks, j, 0)
      modifies `blocks
      ensures OriginalsFound() && SegmentsPlaced(cfg, blocks, j, 1) && pos == Pos(cfg, j, 0)
    {
      hide Split, Base, NonNull;
      pos := sccfg[j];
      var succs := blocks[pos].succs;
      if |segs| == 1 {
        var all := AddSuccessors(j);
        assert succs + all == all;
        succs := succs + all;
      }
      ghost var before := blocks;
      blocks := blocks[pos := blocks[pos].(origin := cfg[j], hasWait := segs[0].isWait, elems := segs[0].elems,
                                           succs := succs)];
      PlaceFirst(cfg, before, blocks, j);
    }

    /** The block for segment `n`: just the last one gets the successors of the CFG block. */
    method NewSegmentBlock(j: nat, segs: seq<Segment>, n: nat) returns (block: Block)
      requires j < |cfg| && CfgInRange(cfg) && segs == Segs(cfg, j) && 0 < n < |segs|
      requires OriginalsFound()
      ensures block == Placed(cfg, j, n, n + 1)
    {
      hide Split, Base, NonNull, Segs;
      var isIf := cfg[j].term == IfTerm || cfg[j].term == TernaryTerm;
      var succs: seq<nat> := [];
      if n == |segs| - 1 {
        succs := AddSuccessors(j);
      }
      block := Block(j * 10 + n, j, cfg[j], segs[n].elems, segs[n].isWait, !segs[n].isWait && isIf, false, succs);
    }

    method InsertId(j: nat, n: nat, pos: nat)
      requires j < |cfg| && 0 < n < |Segs(cfg, j)| && pos == Pos(cfg, j, n) < |blocks|
      requires OriginalsFound() && FoundUnder(cfg, sccfg, j, n)
      modifies `sccfg
      ensures OriginalsFound() && FoundUnder(cfg, sccfg, j, n + 1)
      ensures sccfg == if 10 * j + n in old(sccfg) then old(sccfg) else old(sccfg)[10 * j + n := pos]
    {
      hide FoundUnder, Segs, Pos, Inserted;
      FoundNext(cfg, sccfg, j, n, pos);
      StillInRange(sccfg, |cfg|, |blocks|, 10 * j + n, pos);
      if 10 * j + n !in sccfg {
        sccfg := sccfg[10 * j + n := pos];
      }
    }

    /** Segment `n` gets a block of its own, which becomes the successor of the one before. */
    method AddSegment(j: nat, segs: seq<Segment>, n: nat, prev: nat) returns (pos: nat)
      requires j < |cfg| && CfgInRange(cfg) && segs == Segs(cfg, j) && 0 < n < |segs|
      requires OriginalsFound() && SegmentsPlaced(cfg, blocks, j, n) && prev == Pos(cfg, j, n - 1)
      requires FoundUnder(cfg, sccfg, j, n)
      modifies `blocks, `sccfg
      ensures OriginalsFound() && SegmentsPlaced(cfg, blocks, j, n + 1) && pos == Pos(cfg, j, n)
      ensures FoundUnder(cfg, sccfg, j, n + 1)
    {
      hide FoundUnder;
      SegmentLinked(cfg, blocks, j, n);
      hide SegmentsPlaced, Split, Base, NonNull, Segs, Placed, Pos;
      var block := NewSegmentBlock(j, segs, n);
      pos := |blocks|;
      blocks := blocks[prev := blocks[prev].(succs := blocks[prev].succs + [pos])];
      blocks := blocks + [block];
      InsertId(j, n, pos);
    }

    method CreateWaitSplitCFGBlocks(j: nat, segs: seq<Segment>)
      requires j < |cfg| && CfgInRange(cfg) && segs == Segs(cfg, j)
      requires OriginalsFound() && SplitBefore(cfg, blocks, j) && FoundUnder(cfg, sccfg, j, 0)
      modifies `blocks, `sccfg
      ensures OriginalsFound() && SplitBefore(cfg, blocks, j + 1) && FoundUnder(cfg, sccfg, j + 1, 0)
    {
      SplitOk(cfg[j].elems);
      NonePlaced(cfg, blocks, j);
      assert segs != [];
      hide SegmentsPlaced, SplitBefore, OriginalsFound, Segs, FoundUnder;
      var id := 0;
      var prev: nat := 0;
      while id < |segs|
        invariant id <= |segs| && OriginalsFound() && SegmentsPlaced(cfg, blocks, j, id)
        invariant id > 0 ==> prev == Pos(cfg, j, id - 1)
        invariant FoundUnder(cfg, sccfg, j, id)
      {
        if id == 0 {
          prev := FillFirstSegment(j, segs);
          FoundSame(cfg, sccfg, j, 0, j, 1);
        } else {
          prev := AddSegment(j, segs, id, prev);
        }
        id := id + 1;
      }
      AllPlaced(cfg, blocks, j);
      FoundSame(cfg, sccfg, j, |segs|, j + 1, 0);
    }

    method ConstructSccfg()
      requires CfgInRange(cfg) && blocks == [] && sccfg == map[] && pathInfo == map[]
      modifies this
      ensures IsSplit(cfg, blocks)
      ensures FoundUnder(cfg, sccfg, |cfg|, 0) && OriginalsFound()
      ensures pathInfo == BranchInfo(blocks, sccfg.Values)
      ensures forall p :: p in pathInfo <==> p in sccfg.Values && p < |blocks| && blocks[p].Branching()
      ensures forall p :: p in pathInfo ==> pathInfo[p].truePath == [] && pathInfo[p].falsePath == []
    {
      CreateUnsplitBlocks();
      hide FoundUnder;
      var j := 0;
      while j < |cfg|
        invariant j <= |cfg| && OriginalsFound() && SplitBefore(cfg, blocks, j) && pathInfo == map[]
        invariant FoundUnder(cfg, sccfg, j, 0)
      {
        var segs := SplitElements(cfg[j].elems);
        CreateWaitSplitCFGBlocks(j, segs);
        j := j + 1;
      }
      PreparePathInfo();
    }

    /** Path information, still empty, for the blocks that the search recurses from. */
    method PreparePathInfo()
      requires OriginalsFound() && pathInfo == map[]
      modifies `pathInfo
      ensures pathInfo == BranchInfo(blocks, sccfg.Values)
    {
      var todo := sccfg.Keys;
      ghost var done: set<nat> := {};
      while todo != {}
        invariant todo <= sccfg.Keys
        invariant done == set id | id in sccfg && id !in todo :: sccfg[id]
        invariant pathInfo == BranchInfo(blocks, done)
      {
        var id :| id in todo;
        var b := blocks[sccfg[id]];
        if b.isLoopWithTwoSucc || (b.isConditional && b.origin.term != TernaryTerm) {
          pathInfo := pathInfo[sccfg[id] := PathInfo([], [])];
        }
        todo := todo - {id};
        done := done + {sccfg[id]};
      }
      assert done == sccfg.Values;
    }
  }

  lemma PlaceFirst(cfg: Cfg, before: Graph, after: Graph, j: nat)
    requires SegmentsPlaced(cfg, before, j, 0) && |Segs(cfg, j)| > 0
    requires after == before[j := Placed(cfg, j, 0, 1)]
    ensures SegmentsPlaced(cfg, after, j, 1)
  {
    hide Split, Base;
    forall i, k | 0 <= i < j && 0 <= k < |Segs(cfg, i)|
      ensures Pos(cfg, i, k) < |after| && after[Pos(cfg, i, k)] == SegBlock(cfg, i, k)
    {
      PosBounds(cfg, i, k, j);
    }
  }

  /** Linking the newest segment to a new block for the next one places that one. */
  lemma SegmentLinked(cfg: Cfg, before: Graph, j: nat, n: nat)
    requires j < |cfg| && 0 < n < |Segs(cfg, j)| && SegmentsPlaced(cfg, before, j, n)
    ensures var prev := Pos(cfg, j, n - 1);
            && prev < |before| == Pos(cfg, j, n)
            && SegmentsPlaced(cfg, before[prev := before[prev].(succs := before[prev].succs + [|before|])] +
                                   [Placed(cfg, j, n, n + 1)], j, n + 1)
  {
    var prev := Pos(cfg, j, n - 1);
    assert prev < |before| == Pos(cfg, j, n) && before[prev] == Placed(cfg, j, n - 1, n);
    hide SegmentsPlaced, Split, Base, NonNull, Segs;
    assert before[prev].succs + [|before|] == [|before|];
    assert before[prev].(succs := before[prev].succs + [|before|]) == SegBlock(cfg, j, n - 1);
    hide SegBlock, Placed, Pos;
    PlaceNext(cfg, before, before[prev := SegBlock(cfg, j, n - 1)] + [Placed(cfg, j, n, n + 1)], j, n);
  }

  lemma {:induction false} PlaceNext(cfg: Cfg, before: Graph, after: Graph, j: nat, n: nat)
    requires j < |cfg| && 0 < n < |Segs(cfg, j)| && SegmentsPlaced(cfg, before, j, n)
    requires var prev := Pos(cfg, j, n - 1);
             after == before[prev := SegBlock(cfg, j, n - 1)] + [Placed(cfg, j, n, n + 1)]
    ensures SegmentsPlaced(cfg, after, j, n + 1)
  {
    hide Split, Base, Segs, SegBlock, Unsplit;
    var prev := Pos(cfg, j, n - 1);
    forall i, k | 0 <= i < j && 0 <= k < |Segs(cfg, i)|
      ensures Pos(cfg, i, k) < |after| && after[Pos(cfg, i, k)] == SegBlock(cfg, i, k)
    {
      PosBounds(cfg, i, k, j);
    }
    forall k | 0 <= k < n + 1
      ensures Pos(cfg, j, k) < |after| && after[Pos(cfg, j, k)] == Placed(cfg, j, k, n + 1)
    {
      if k == n {
        assert Pos(cfg, j, n) == |before|;
      } else {
        assert Pos(cfg, j, k) < |before| && before[Pos(cfg, j, k)] == Placed(cfg, j, k, n);
      }
    }
  }

  lemma NonePlaced(cfg: Cfg, blocks: Graph, j: nat)
    requires j < |cfg| && SplitBefore(cfg, blocks, j)
    ensures SegmentsPlaced(cfg, blocks, j, 0)
  {
    hide Split, Base, Segs, SegBlock, Unsplit;
  }

  lemma {:induction false} AllPlaced(cfg: Cfg, blocks: Graph, j: nat)
    requires j < |cfg| && SegmentsPlaced(cfg, blocks, j, |Segs(cfg, j)|) && Segs(cfg, j) != []
    ensures SplitBefore(cfg, blocks, j + 1)
  {
    assert Base(cfg, j + 1) == Base(cfg, j) + |Segs(cfg, j)| - 1;
    hide Split, Base, Segs, SegBlock, Unsplit;
    forall i, k | 0 <= i < j + 1 && 0 <= k < |Segs(cfg, i)|
      ensures Pos(cfg, i, k) < |blocks| && blocks[Pos(cfg, i, k)] == SegBlock(cfg, i, k)
    {
      if i == j {
        assert blocks[Pos(cfg, j, k)] == Placed(cfg, j, k, |Segs(cfg, j)|);
      }
    }
  }
}
