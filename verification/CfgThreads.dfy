/** The thread as written: what it does on the original control-flow graph, element by
element, and that the state machine does the same over any run. */
module CfgThreads {
  import opened ThreadGraph
  import opened Segments
  import opened Splitting
  import opened SplitGraphs
  import opened Encoding
  import opened Hcodes
  import opened Threads
  import opened Refinement

  /** The thread is about to run element `pos` of `block`, or to leave it. */
  datatype Point = Point(block: nat, pos: nat, store: Store)

  predicate Within(cfg: Cfg, c: Point) {
    c.block < |cfg| && c.pos <= |cfg[c.block].elems|
  }

  predicate AtWait(cfg: Cfg, c: Point)
    requires Within(cfg, c)
  {
    c.pos < |cfg[c.block].elems| && cfg[c.block].elems[c.pos].Wait?
  }

  predicate Ended(cfg: Cfg, c: Point)
    requires Within(cfg, c)
  {
    c.pos == |cfg[c.block].elems| && NonNull(cfg[c.block].succs) == []
  }

  predicate Stopped(cfg: Cfg, c: Point)
    requires Within(cfg, c)
  {
    AtWait(cfg, c) || Ended(cfg, c)
  }

  /** One element, or the move to the successor that the condition selects. */
  function PointStep(cfg: Cfg, sem: Sem, drop: bool, c: Point): (r: Point)
    requires CfgBlocksOk(cfg) && Within(cfg, c) && !Stopped(cfg, c)
    ensures Within(cfg, r)
  {
    var b := cfg[c.block];
    if c.pos < |b.elems| then
      Point(c.block, c.pos + 1,
            if drop && b.term != NoTerm then c.store else sem.eff(c.block, b.elems[c.pos].id, c.store))
    else
      var succs := NonNull(b.succs);
      assert CfgBlockShape(b);
      SuccsInRange(cfg, c.block);
      Point(if |succs| == 1 || sem.holds(c.block, c.store) then succs[0] else succs[1], 0, c.store)
  }

  lemma {:induction false} SuccsInRange(cfg: Cfg, j: nat)
    requires CfgInRange(cfg) && j < |cfg|
    ensures forall i :: 0 <= i < |NonNull(cfg[j].succs)| ==> NonNull(cfg[j].succs)[i] < |cfg|
  {
    var succs := NonNull(cfg[j].succs);
    forall i | 0 <= i < |succs| ensures succs[i] < |cfg| {
      assert cfg[j].succs[..|cfg[j].succs|] == cfg[j].succs && succs[i] in succs;
      NonNullInRange(cfg, j, |cfg[j].succs|, succs[i]);
    }
  }

  function PointSteps(cfg: Cfg, sem: Sem, drop: bool, c: Point, n: nat): (r: Point)
    requires CfgBlocksOk(cfg) && Within(cfg, c)
    ensures Within(cfg, r)
    decreases n
  {
    if n == 0 || Stopped(cfg, c) then c else PointSteps(cfg, sem, drop, PointStep(cfg, sem, drop, c), n - 1)
  }

  lemma {:induction false} PointStepsAdd(cfg: Cfg, sem: Sem, drop: bool, c: Point, m: nat, n: nat)
    requires CfgBlocksOk(cfg) && Within(cfg, c)
    ensures PointSteps(cfg, sem, drop, c, m + n) == PointSteps(cfg, sem, drop, PointSteps(cfg, sem, drop, c, m), n)
    decreases m
  {
    if m > 0 && !Stopped(cfg, c) { PointStepsAdd(cfg, sem, drop, PointStep(cfg, sem, drop, c), m - 1, n); }
  }

  lemma {:induction false} StoppedUnique(cfg: Cfg, sem: Sem, drop: bool, c: Point, m: nat, n: nat)
    requires CfgBlocksOk(cfg) && Within(cfg, c)
    requires Stopped(cfg, PointSteps(cfg, sem, drop, c, m)) && Stopped(cfg, PointSteps(cfg, sem, drop, c, n))
    ensures PointSteps(cfg, sem, drop, c, m) == PointSteps(cfg, sem, drop, c, n)
    decreases m
  {
    if !Stopped(cfg, c) {
      StoppedUnique(cfg, sem, drop, PointStep(cfg, sem, drop, c), m - 1, n - 1);
    }
  }

  /** The index of the first element of segment `k`. */
  function Off(cfg: Cfg, j: nat, k: nat): nat
    requires j < |cfg| && k <= |Segs(cfg, j)|
  {
    |Flat(Segs(cfg, j)[..k])|
  }

  /** Segment `k` holds the elements from its offset on. */
  lemma {:induction false} SegmentAt(cfg: Cfg, j: nat, k: nat)
    requires j < |cfg| && k < |Segs(cfg, j)|
    ensures var o, seg := Off(cfg, j, k), Segs(cfg, j)[k];
            && Off(cfg, j, k + 1) == o + |seg.elems| <= |cfg[j].elems|
            && cfg[j].elems[o..o + |seg.elems|] == seg.elems
            && (k + 1 == |Segs(cfg, j)| ==> o + |seg.elems| == |cfg[j].elems|)
  {
    SplitOk(cfg[j].elems);
    FlatSlice(Segs(cfg, j), k);
    assert Segs(cfg, j)[..|Segs(cfg, j)|] == Segs(cfg, j);
  }

  lemma {:induction false} FlatSlice(segs: seq<Segment>, k: nat)
    requires k < |segs|
    ensures var o, n := |Flat(segs[..k])|, |segs[k].elems|;
            |Flat(segs[..k + 1])| == o + n <= |Flat(segs)| && Flat(segs)[o..o + n] == segs[k].elems
    decreases |segs|
  {
    var last := |segs| - 1;
    assert segs[..last + 1] == segs;
    if k < last {
      FlatSlice(segs[..last], k);
      assert segs[..last][..k] == segs[..k] && segs[..last][..k + 1] == segs[..k + 1];
    } else {
      assert segs[..k + 1][..k] == segs[..k];
    }
  }

  /** The point of the original at which the split thread stands in front of segment `k`. */
  function PointOf(cfg: Cfg, j: nat, k: nat, store: Store): (c: Point)
    requires j < |cfg| && k < |Segs(cfg, j)|
    ensures Within(cfg, c)
  {
    SegmentAt(cfg, j, k);
    Point(j, Off(cfg, j, k), store)
  }

  /** Running `n` statements one by one is running them as one stretch. */
  lemma {:induction false} StatementsRun(cfg: Cfg, sem: Sem, drop: bool, j: nat, a: nat, n: nat, store: Store)
    requires CfgBlocksOk(cfg) && j < |cfg| && a + n <= |cfg[j].elems|
    requires forall e :: e in cfg[j].elems[a..a + n] ==> e.Stmt?
    ensures PointSteps(cfg, sem, drop, Point(j, a, store), n) ==
            Point(j, a + n, if drop && cfg[j].term != NoTerm then store else RunElems(sem, j, cfg[j].elems[a..a + n], store))
    decreases n
  {
    if n > 0 {
      StretchLast(cfg[j].elems, a, n);
      StatementsRun(cfg, sem, drop, j, a, n - 1, store);
      PointStepsAdd(cfg, sem, drop, Point(j, a, store), n - 1, 1);
      var before := PointSteps(cfg, sem, drop, Point(j, a, store), n - 1);
      OneStatement(cfg, sem, drop, before);
      var elems := cfg[j].elems[a..a + n];
      assert RunElems(sem, j, elems, store) == sem.eff(j, elems[n - 1].id, RunElems(sem, j, elems[..n - 1], store));
      hide PointSteps, RunElems, CfgBlocksOk;
    }
  }

  lemma StretchLast(elems: seq<Elem>, a: nat, n: nat)
    requires n > 0 && a + n <= |elems| && forall e :: e in elems[a..a + n] ==> e.Stmt?
    ensures elems[a..a + n][..n - 1] == elems[a..a + (n - 1)]
    ensures elems[a..a + n][n - 1] == elems[a + (n - 1)] && elems[a + (n - 1)].Stmt?
    ensures forall e :: e in elems[a..a + (n - 1)] ==> e.Stmt?
  {
    var s := elems[a..a + n];
    assert s[n - 1] in s && elems[a..a + (n - 1)] == s[..n - 1];
    forall e | e in s[..n - 1] ensures e in s {
    }
  }

  lemma OneStatement(cfg: Cfg, sem: Sem, drop: bool, c: Point)
    requires CfgBlocksOk(cfg) && Within(cfg, c) && c.pos < |cfg[c.block].elems| && cfg[c.block].elems[c.pos].Stmt?
    ensures PointSteps(cfg, sem, drop, c, 1) ==
            Point(c.block, c.pos + 1,
                  if drop && cfg[c.block].term != NoTerm then c.store else sem.eff(c.block, cfg[c.block].elems[c.pos].id, c.store))
  {
    assert PointSteps(cfg, sem, drop, c, 1) == PointSteps(cfg, sem, drop, PointStep(cfg, sem, drop, c), 0);
  }

  /** A segment that is not a wait runs as one stretch, up to the next segment's offset. */
  lemma {:induction false} SegmentRuns(cfg: Cfg, g: Graph, sem: Sem, drop: bool, j: nat, k: nat, store: Store)
    requires CfgBlocksOk(cfg) && IsSplit(cfg, g) && j < |cfg| && k < |Segs(cfg, j)| && Pos(cfg, j, k) < |g|
    requires !g[Pos(cfg, j, k)].hasWait
    ensures var after := Point(j, Off(cfg, j, k + 1), RunBlock(g[Pos(cfg, j, k)], sem, drop, store));
            && Within(cfg, after)
            && PointSteps(cfg, sem, drop, PointOf(cfg, j, k, store), |Segs(cfg, j)[k].elems|) == after
  {
    assert g[Pos(cfg, j, k)] == SegBlock(cfg, j, k);
    SegBlockOk(cfg, j, k);
    SegmentAt(cfg, j, k);
    hide Split, Base, Flat, PointSteps, RunElems, NonNull;
    StatementsRun(cfg, sem, drop, j, Off(cfg, j, k), |Segs(cfg, j)[k].elems|, store);
  }

  lemma {:induction false} ExitRuns(cfg: Cfg, sem: Sem, drop: bool, j: nat, store: Store)
    requires CfgBlocksOk(cfg) && j < |cfg| && NonNull(cfg[j].succs) != []
    ensures var succs := NonNull(cfg[j].succs);
            var p := Point(j, |cfg[j].elems|, store);
            && (|succs| != 1 ==> |succs| == 2)
            && PointSteps(cfg, sem, drop, p, 1) ==
               Point(if |succs| == 1 || sem.holds(j, store) then succs[0] else succs[1], 0, store)
  {
    assert CfgBlockShape(cfg[j]);
    var p := Point(j, |cfg[j].elems|, store);
    assert PointSteps(cfg, sem, drop, p, 1) == PointSteps(cfg, sem, drop, PointStep(cfg, sem, drop, p), 0);
  }

  lemma {:induction false} OffStart(cfg: Cfg, j: nat)
    requires j < |cfg|
    ensures Segs(cfg, j) != [] && Off(cfg, j, 0) == 0
  {
    SegsNonempty(cfg, j);
    assert Segs(cfg, j)[..0] == [];
  }

  /** One step of the split thread is some steps of the thread as written. */
  lemma {:induction false} StepSimulated(cfg: Cfg, g: Graph, sem: Sem, drop: bool, j: nat, k: nat, store: Store)
    returns (n: nat, j': nat, k': nat)
    requires CfgBlocksOk(cfg) && IsSplit(cfg, g) && j < |cfg| && k < |Segs(cfg, j)| && Closed(g)
    requires Pos(cfg, j, k) < |g| && !Halted(g, Config(Pos(cfg, j, k), store))
    ensures j' < |cfg| && k' < |Segs(cfg, j')|
    ensures var c := ThreadStep(g, sem, drop, Config(Pos(cfg, j, k), store));
            && c.block == Pos(cfg, j', k')
            && PointSteps(cfg, sem, drop, PointOf(cfg, j, k, store), n) == PointOf(cfg, j', k', c.store)
  {
    var c := ThreadStep(g, sem, drop, Config(Pos(cfg, j, k), store));
    n := |Segs(cfg, j)[k].elems|;
    if k + 1 < |Segs(cfg, j)| {
      j', k' := j, k + 1;
      StepInside(cfg, g, sem, drop, j, k, store);
    } else {
      j', k' := c.block, 0;
      StepOut(cfg, g, sem, drop, j, k, store);
      n := n + 1;
    }
  }

  lemma {:induction false} StepInside(cfg: Cfg, g: Graph, sem: Sem, drop: bool, j: nat, k: nat, store: Store)
    requires CfgBlocksOk(cfg) && IsSplit(cfg, g) && j < |cfg| && k + 1 < |Segs(cfg, j)| && Closed(g)
    requires Pos(cfg, j, k) < |g| && !Halted(g, Config(Pos(cfg, j, k), store))
    ensures var c := ThreadStep(g, sem, drop, Config(Pos(cfg, j, k), store));
            && c.block == Pos(cfg, j, k + 1)
            && PointSteps(cfg, sem, drop, PointOf(cfg, j, k, store), |Segs(cfg, j)[k].elems|) == PointOf(cfg, j, k + 1, c.store)
  {
    SegmentRuns(cfg, g, sem, drop, j, k, store);
    assert g[Pos(cfg, j, k)] == SegBlock(cfg, j, k);
    hide Split, Base, Flat, PointSteps, RunBlock, NonNull, Off, IsSplit, CfgBlocksOk, Segs, Closed;
  }

  lemma {:induction false} StepOut(cfg: Cfg, g: Graph, sem: Sem, drop: bool, j: nat, k: nat, store: Store)
    requires CfgBlocksOk(cfg) && IsSplit(cfg, g) && j < |cfg| && k + 1 == |Segs(cfg, j)| && Closed(g)
    requires Pos(cfg, j, k) < |g| && !Halted(g, Config(Pos(cfg, j, k), store))
    ensures var c := ThreadStep(g, sem, drop, Config(Pos(cfg, j, k), store));
            && c.block < |cfg| && Segs(cfg, c.block) != []
            && PointSteps(cfg, sem, drop, PointOf(cfg, j, k, store), |Segs(cfg, j)[k].elems| + 1) == PointOf(cfg, c.block, 0, c.store)
  {
    var c := ThreadStep(g, sem, drop, Config(Pos(cfg, j, k), store));
    var n := |Segs(cfg, j)[k].elems|;
    LastBlock(cfg, g, j, k, store);
    SegmentAt(cfg, j, k);
    SuccsInRange(cfg, j);
    hide Split, Base, Flat, PointSteps, RunBlock, NonNull, Off, IsSplit, CfgBlocksOk, Segs, Closed, Pos, SegBlock;
    SegmentRuns(cfg, g, sem, drop, j, k, store);
    ExitRuns(cfg, sem, drop, j, c.store);
    OffStart(cfg, c.block);
    PointStepsAdd(cfg, sem, drop, PointOf(cfg, j, k, store), n, 1);
  }

  /** The last segment of a block leads to the block's successors. */
  lemma LastBlock(cfg: Cfg, g: Graph, j: nat, k: nat, store: Store)
    requires IsSplit(cfg, g) && j < |cfg| && k + 1 == |Segs(cfg, j)| && Pos(cfg, j, k) < |g|
    requires !Halted(g, Config(Pos(cfg, j, k), store))
    ensures var b := g[Pos(cfg, j, k)]; b.succs == NonNull(cfg[j].succs) != [] && b.cfg == j && !b.hasWait
  {
    assert g[Pos(cfg, j, k)] == SegBlock(cfg, j, k);
  }

  lemma {:induction false} StepsSimulated(cfg: Cfg, g: Graph, sem: Sem, drop: bool, j: nat, k: nat, store: Store, n: nat)
    returns (m: nat, j': nat, k': nat)
    requires CfgBlocksOk(cfg) && IsSplit(cfg, g) && j < |cfg| && k < |Segs(cfg, j)| && Closed(g) && Pos(cfg, j, k) < |g|
    ensures j' < |cfg| && k' < |Segs(cfg, j')|
    ensures var c := ThreadSteps(g, sem, drop, Config(Pos(cfg, j, k), store), n);
            && c.block == Pos(cfg, j', k')
            && PointSteps(cfg, sem, drop, PointOf(cfg, j, k, store), m) == PointOf(cfg, j', k', c.store)
    decreases n
  {
    hide IsSplit, Pos, Segs, PointOf, ThreadStep, Halted;
    m, j', k' := 0, j, k;
    var c0 := Config(Pos(cfg, j, k), store);
    if n > 0 && !Halted(g, c0) {
      var m1, j1, k1 := StepSimulated(cfg, g, sem, drop, j, k, store);
      var c1 := ThreadStep(g, sem, drop, c0);
      var m2;
      m2, j', k' := StepsSimulated(cfg, g, sem, drop, j1, k1, c1.store, n - 1);
      PointStepsAdd(cfg, sem, drop, PointOf(cfg, j, k, store), m1, m2);
      m := m1 + m2;
    }
  }

  /** A halted split thread is a stopped thread: at the same wait, or at the end. */
  lemma {:induction false} HaltIsStop(cfg: Cfg, g: Graph, j: nat, k: nat, store: Store)
    requires CfgBlocksOk(cfg) && IsSplit(cfg, g) && j < |cfg| && k < |Segs(cfg, j)| && Pos(cfg, j, k) < |g|
    requires Halted(g, Config(Pos(cfg, j, k), store))
    ensures var c, b := PointOf(cfg, j, k, store), g[Pos(cfg, j, k)];
            && Stopped(cfg, c) && AtWait(cfg, c) == b.hasWait
            && (b.hasWait ==> |b.elems| == 1 && b.elems[0] == cfg[j].elems[c.pos] && Off(cfg, j, k + 1) == c.pos + 1)
  {
    assert g[Pos(cfg, j, k)] == SegBlock(cfg, j, k);
    SegBlockOk(cfg, j, k);
    SegmentAt(cfg, j, k);
    hide Split, Base, Flat;
    var seg, o := Segs(cfg, j)[k], Off(cfg, j, k);
    if seg.isWait {
      assert seg.elems[0] == cfg[j].elems[o..o + 1][0] == cfg[j].elems[o];
    } else {
      assert k + 1 == |Segs(cfg, j)| && seg.elems == [];
    }
  }

  /** Started at `from`, the thread as written comes to `e` before it passes a wait. */
  ghost predicate Reaches(cfg: Cfg, sem: Sem, drop: bool, from: Point, e: Point)
    requires CfgBlocksOk(cfg)
  {
    Within(cfg, from) && exists n: nat :: PointSteps(cfg, sem, drop, from, n) == e
  }

  /** The same, and `w` stands in front of a wait. */
  ghost predicate PointRound(cfg: Cfg, sem: Sem, drop: bool, from: Point, w: Point)
    requires CfgBlocksOk(cfg)
  {
    Within(cfg, w) && AtWait(cfg, w) && Reaches(cfg, sem, drop, from, w)
  }

  /** From `a` and from `b` the thread stops at the same points. */
  ghost predicate SameStops(cfg: Cfg, sem: Sem, drop: bool, a: Point, b: Point)
    requires CfgBlocksOk(cfg)
  {
    forall e :: Within(cfg, e) && Stopped(cfg, e) ==> (Reaches(cfg, sem, drop, a, e) <==> Reaches(cfg, sem, drop, b, e))
  }

  /** Past the wait. */
  function Past(cfg: Cfg, w: Point): Point {
    Point(w.block, w.pos + 1, w.store)
  }

  ghost predicate PointRun(cfg: Cfg, sem: Sem, drop: bool, from: Point, ws: seq<Point>)
    requires CfgBlocksOk(cfg)
    decreases |ws|
  {
    ws == [] || (PointRound(cfg, sem, drop, from, ws[0]) && PointRun(cfg, sem, drop, Past(cfg, ws[0]), ws[1..]))
  }

  /** The split thread comes to the same wait as the thread as written. */
  lemma {:induction false} RoundSplit(cfg: Cfg, g: Graph, sem: Sem, drop: bool, j: nat, k: nat, store: Store, w: Point)
    returns (k': nat)
    requires CfgBlocksOk(cfg) && IsSplit(cfg, g) && ThreadShape(g)
    requires j < |cfg| && k < |Segs(cfg, j)| && Pos(cfg, j, k) < |g|
    requires PointRound(cfg, sem, drop, PointOf(cfg, j, k, store), w)
    ensures k' < |Segs(cfg, w.block)| && w == PointOf(cfg, w.block, k', w.store)
    ensures Round(g, sem, drop, Config(Pos(cfg, j, k), store), Config(Pos(cfg, w.block, k'), w.store))
  {
    var from := Config(Pos(cfg, j, k), store);
    var n := HaltsFrom(g, sem, drop, from);
    var c := ThreadSteps(g, sem, drop, from, n);
    var m, j1, k1 := StepsSimulated(cfg, g, sem, drop, j, k, store, n);
    HaltIsStop(cfg, g, j1, k1, c.store);
    var i: nat :| PointSteps(cfg, sem, drop, PointOf(cfg, j, k, store), i) == w;
    StoppedUnique(cfg, sem, drop, PointOf(cfg, j, k, store), m, i);
    k' := k1;
  }

  lemma {:induction false} HaltsFrom(g: Graph, sem: Sem, drop: bool, c: Config) returns (n: nat)
    requires ThreadShape(g) && c.block < |g|
    ensures Halted(g, ThreadSteps(g, sem, drop, c, n))
  {
    assert Behind(g, [c.block], c.block, {c.block});
    n := ThreadHalts(g, sem, drop, c, [c.block], {c.block});
  }

  function ArgAt(cfg: Cfg, w: Point): Option<int> {
    if Within(cfg, w) && AtWait(cfg, w) then cfg[w.block].elems[w.pos].arg else None
  }

  /** Block `b` of the split graph is the segment that starts with element `pos` of block `j`. */
  ghost predicate IsSegment(cfg: Cfg, b: nat, j: nat, pos: nat) {
    j < |cfg| && exists k: nat :: k < |Segs(cfg, j)| && b == Pos(cfg, j, k) && pos == Off(cfg, j, k)
  }

  /** Split configuration `c` stands at the wait that point `w` stands at. */
  ghost predicate SameWait(cfg: Cfg, g: Graph, c: Config, w: Point) {
    && Within(cfg, w) && AtWait(cfg, w) && c.block < |g|
    && IsSegment(cfg, c.block, w.block, w.pos)
    && c.store == w.store && g[c.block].hasWait && WaitArg(g, c.block) == ArgAt(cfg, w)
  }

  ghost predicate SameWaits(cfg: Cfg, g: Graph, cs: seq<Config>, ws: seq<Point>) {
    |cs| == |ws| && forall i :: 0 <= i < |ws| ==> SameWait(cfg, g, cs[i], ws[i])
  }

  /** Block `b` of the split graph is where the thread goes on past wait `w`: the segment of
      the next element or, if the wait is the last one of its block, the block's successor. */
  ghost predicate ResumesAt(cfg: Cfg, b: nat, w: Point) {
    && Within(cfg, w) && AtWait(cfg, w)
    && if w.pos + 1 < |cfg[w.block].elems| then IsSegment(cfg, b, w.block, w.pos + 1)
    else NonNull(cfg[w.block].succs) == [b]
  }

  lemma {:induction false} WaitResumes(cfg: Cfg, g: Graph, c: Config, w: Point)
    requires CfgBlocksOk(cfg) && IsSplit(cfg, g) && SameWait(cfg, g, c, w)
    ensures ResumesAt(cfg, Resume(g, c.block), w)
  {
    var k: nat :| k < |Segs(cfg, w.block)| && c.block == Pos(cfg, w.block, k) && w.pos == Off(cfg, w.block, k);
    assert g[c.block] == SegBlock(cfg, w.block, k);
    SegBlockOk(cfg, w.block, k);
    SegmentAt(cfg, w.block, k);
    assert BlockShape(g[c.block]) && |Segs(cfg, w.block)[k].elems| == 1;
    hide IsSplit, Split, Base, Flat, Off, NonNull, CfgBlocksOk;
    if k + 1 < |Segs(cfg, w.block)| {
      NextStarts(cfg, w.block, k);
    }
  }

  lemma {:induction false} NextStarts(cfg: Cfg, j: nat, k: nat)
    requires j < |cfg| && k + 1 < |Segs(cfg, j)|
    ensures Segs(cfg, j)[k + 1].elems != [] && Off(cfg, j, k + 1) < |cfg[j].elems|
  {
    SplitOk(cfg[j].elems);
    hide Split, Flat, Off;
    SegmentAt(cfg, j, k + 1);
  }

  /** Going on after a wait: the split thread's next block is where the thread goes on, or
      where it gets to without running anything. */
  lemma {:induction false} GoOn(cfg: Cfg, g: Graph, sem: Sem, drop: bool, j: nat, k: nat, store: Store)
    returns (j': nat, k': nat)
    requires CfgBlocksOk(cfg) && IsSplit(cfg, g) && j < |cfg| && k < |Segs(cfg, j)| && Pos(cfg, j, k) < |g|
    requires g[Pos(cfg, j, k)].hasWait
    ensures j' < |cfg| && k' < |Segs(cfg, j')| && Pos(cfg, j', k') < |g|
    ensures Onward(g, Config(Pos(cfg, j, k), store)) == Config(Pos(cfg, j', k'), store)
    ensures SameStops(cfg, sem, drop, Past(cfg, PointOf(cfg, j, k, store)), PointOf(cfg, j', k', store))
  {
    assert g[Pos(cfg, j, k)] == SegBlock(cfg, j, k);
    SegBlockOk(cfg, j, k);
    HaltIsStop(cfg, g, j, k, store);
    SegmentAt(cfg, j, k);
    var past := Past(cfg, PointOf(cfg, j, k, store));
    hide Split, Base, Flat, Off, PointSteps, NonNull, Reaches;
    if k + 1 < |Segs(cfg, j)| {
      j', k' := j, k + 1;
    } else {
      j' := GoOut(cfg, g, sem, drop, j, k, store);
      k' := 0;
    }
  }

  /** A wait at the end of its block. */
  lemma {:induction false} GoOut(cfg: Cfg, g: Graph, sem: Sem, drop: bool, j: nat, k: nat, store: Store) returns (j': nat)
    requires CfgBlocksOk(cfg) && IsSplit(cfg, g) && j < |cfg| && k + 1 == |Segs(cfg, j)| && Pos(cfg, j, k) < |g|
    requires g[Pos(cfg, j, k)].hasWait
    ensures j' < |cfg| && Segs(cfg, j') != [] && Pos(cfg, j', 0) < |g|
    ensures Onward(g, Config(Pos(cfg, j, k), store)) == Config(Pos(cfg, j', 0), store)
    ensures SameStops(cfg, sem, drop, Past(cfg, PointOf(cfg, j, k, store)), PointOf(cfg, j', 0, store))
  {
    assert g[Pos(cfg, j, k)] == SegBlock(cfg, j, k);
    SegBlockOk(cfg, j, k);
    HaltIsStop(cfg, g, j, k, store);
    SegmentAt(cfg, j, k);
    SuccsInRange(cfg, j);
    hide Split, Base, Flat, Off, PointSteps, NonNull, Reaches, SameStops;
    j' := NonNull(cfg[j].succs)[0];
    OffStart(cfg, j');
    ExitRuns(cfg, sem, drop, j, store);
    SkipOne(cfg, sem, drop, Past(cfg, PointOf(cfg, j, k, store)));
  }

  lemma {:induction false} SkipOne(cfg: Cfg, sem: Sem, drop: bool, from: Point)
    requires CfgBlocksOk(cfg) && Within(cfg, from) && !Stopped(cfg, from)
    ensures SameStops(cfg, sem, drop, from, PointSteps(cfg, sem, drop, from, 1))
  {
    var next := PointSteps(cfg, sem, drop, from, 1);
    forall e | Within(cfg, e) && Stopped(cfg, e)
      ensures Reaches(cfg, sem, drop, from, e) <==> Reaches(cfg, sem, drop, next, e)
    {
      if Reaches(cfg, sem, drop, from, e) {
        var n: nat :| PointSteps(cfg, sem, drop, from, n) == e;
        PointStepsAdd(cfg, sem, drop, from, 1, n - 1);
      }
      if Reaches(cfg, sem, drop, next, e) {
        var n: nat :| PointSteps(cfg, sem, drop, next, n) == e;
        PointStepsAdd(cfg, sem, drop, from, 1, n);
      }
    }
  }

  /** Over any run the split thread comes to the same waits with the same stores. */
  lemma {:induction false} RunSplit(cfg: Cfg, g: Graph, sem: Sem, drop: bool, j: nat, k: nat, store: Store, ws: seq<Point>)
    returns (cs: seq<Config>)
    requires CfgBlocksOk(cfg) && IsSplit(cfg, g) && ThreadShape(g)
    requires j < |cfg| && k < |Segs(cfg, j)| && Pos(cfg, j, k) < |g|
    requires PointRun(cfg, sem, drop, PointOf(cfg, j, k, store), ws)
    ensures ThreadRun(g, sem, drop, Config(Pos(cfg, j, k), store), cs) && SameWaits(cfg, g, cs, ws)
    decreases |ws|
  {
    cs := [];
    if ws != [] {
      var w := ws[0];
      var k1 := RoundSplit(cfg, g, sem, drop, j, k, store, w);
      var c := Config(Pos(cfg, w.block, k1), w.store);
      HaltIsStop(cfg, g, w.block, k1, w.store);
      assert IsSegment(cfg, c.block, w.block, w.pos);
      var j2, k2 := GoOn(cfg, g, sem, drop, w.block, k1, w.store);
      PastRuns(cfg, sem, drop, Past(cfg, w), PointOf(cfg, j2, k2, w.store), ws[1..]);
      hide IsSplit, ThreadShape, PointOf, PointRound, Past, Round, Segs, Pos, SameStops;
      var rest := RunSplit(cfg, g, sem, drop, j2, k2, w.store, ws[1..]);
      cs := [c] + rest;
      ConsRun(cfg, g, sem, drop, Config(Pos(cfg, j, k), store), c, rest, ws);
    }
  }

  lemma PastRuns(cfg: Cfg, sem: Sem, drop: bool, a: Point, b: Point, ws: seq<Point>)
    requires CfgBlocksOk(cfg) && SameStops(cfg, sem, drop, a, b)
    ensures PointRun(cfg, sem, drop, a, ws) <==> PointRun(cfg, sem, drop, b, ws)
  {
    hide Reaches;
  }

  lemma {:induction false} ConsRun(cfg: Cfg, g: Graph, sem: Sem, drop: bool, from: Config, c: Config, rest: seq<Config>, ws: seq<Point>)
    requires Closed(g) && from.block < |g| && c.block < |g| && ws != []
    requires Round(g, sem, drop, from, c) && ThreadRun(g, sem, drop, Onward(g, c), rest)
    requires SameWait(cfg, g, c, ws[0]) && SameWaits(cfg, g, rest, ws[1..])
    ensures ThreadRun(g, sem, drop, from, [c] + rest) && SameWaits(cfg, g, [c] + rest, ws)
  {
    hide Round, SameWait, Closed;
    var cs := [c] + rest;
    assert cs[1..] == rest;
    forall i | 0 <= i < |ws| ensures SameWait(cfg, g, cs[i], ws[i]) {
      if i > 0 { assert ws[i] == ws[1..][i - 1]; }
    }
  }

  /** The clocks that a run to the waits `ws` takes. */
  ghost function RunClocks(cfg: Cfg, ws: seq<Point>): nat {
    if ws == [] then 0 else Duration(ArgAt(cfg, ws[0])) + RunClocks(cfg, ws[1..])
  }

  lemma {:induction false} ClocksSame(cfg: Cfg, g: Graph, cs: seq<Config>, ws: seq<Point>)
    requires SameWaits(cfg, g, cs, ws)
    ensures AllInGraph(g, cs) && TotalClocks(g, cs) == RunClocks(cfg, ws)
    decreases |ws|
  {
    if ws != [] {
      forall i | 0 <= i < |ws[1..]| ensures SameWait(cfg, g, cs[1..][i], ws[1..][i]) {
        assert cs[1..][i] == cs[i + 1] && ws[1..][i] == ws[i + 1];
      }
      assert SameWait(cfg, g, cs[0], ws[0]);
      ClocksSame(cfg, g, cs[1..], ws[1..]);
    }
  }
}
