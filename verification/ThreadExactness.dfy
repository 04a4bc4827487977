/** The thread as it was written and the state machine: that they agree over every run, and
exactly when. */
module ThreadExactness {
  import opened ThreadGraph
  import opened Segments
  import opened Splitting
  import opened SplitGraphs
  import opened States
  import opened Reachability
  import opened Encoding
  import opened Hcodes
  import opened Threads
  import opened Fsms
  import opened Refinement
  import opened Exactness
  import opened RunExactness
  import opened CfgThreads

  // ----- The blocks a thread reaches, before and after splitting -----

  /** The block has no terminator, or no statements. */
  predicate BlockKept(b: CfgBlock) {
    b.term != NoTerm ==> forall e :: e in b.elems ==> e.Wait?
  }

  /** No block that the thread can reach holds statements next to a terminator. */
  ghost predicate ReachableKept(cfg: Cfg, entry: nat) {
    forall p: seq<nat> :: CWalk(cfg, p) && p[0] == entry ==> BlockKept(cfg[p[|p| - 1]])
  }

  /** A walk of the split graph from a first segment leads to a segment of a block to which a
      walk of the original leads. */
  lemma {:induction false} Project(cfg: Cfg, g: Graph, q: seq<nat>) returns (p: seq<nat>, j: nat, k: nat)
    requires CfgInRange(cfg) && IsSplit(cfg, g) && Walk(g, q) && q[0] < |cfg|
    ensures CWalk(cfg, p) && p[0] == q[0] && p[|p| - 1] == j
    ensures j < |cfg| && k < |Segs(cfg, j)| && q[|q| - 1] == Pos(cfg, j, k)
    decreases |q|
  {
    if |q| == 1 {
      SegsNonempty(cfg, q[0]);
      CWalkOne(cfg, q[0]);
      p, j, k := q, q[0], 0;
    } else {
      var last := |q| - 1;
      WalkInit(g, q);
      hide IsSplit, SegBlock, NonNull, Walk, CWalk, Segs, Pos;
      p, j, k := Project(cfg, g, q[..last]);
      p, j, k := ProjectStep(cfg, g, p, j, k, q[last]);
    }
  }

  lemma {:induction false} ProjectStep(cfg: Cfg, g: Graph, p0: seq<nat>, j0: nat, k0: nat, x: nat)
    returns (p: seq<nat>, j: nat, k: nat)
    requires CfgInRange(cfg) && IsSplit(cfg, g) && CWalk(cfg, p0) && p0[|p0| - 1] == j0
    requires j0 < |cfg| && k0 < |Segs(cfg, j0)| && Pos(cfg, j0, k0) < |g| && x in g[Pos(cfg, j0, k0)].succs
    ensures CWalk(cfg, p) && p[0] == p0[0] && p[|p| - 1] == j
    ensures j < |cfg| && k < |Segs(cfg, j)| && x == Pos(cfg, j, k)
  {
    assert g[Pos(cfg, j0, k0)] == SegBlock(cfg, j0, k0);
    hide IsSplit, SegBlock, NonNull, Segs;
    SegSuccs(cfg, j0, k0, x);
    if k0 + 1 < |Segs(cfg, j0)| {
      p, j, k := p0, j0, k0 + 1;
    } else {
      CWalkSnoc(cfg, p0, x);
      SegsNonempty(cfg, x);
      p, j, k := p0 + [x], x, 0;
    }
  }

  lemma {:induction false} WalkInit(g: Graph, q: seq<nat>)
    requires Walk(g, q) && |q| > 1
    ensures Walk(g, q[..|q| - 1]) && q[|q| - 1] in g[q[|q| - 2]].succs && q[|q| - 1] < |g|
  {
    var init := q[..|q| - 1];
    assert q[|q| - 2 + 1] in g[q[|q| - 2]].succs;
    forall i | 0 <= i < |init| - 1 ensures init[i + 1] in g[init[i]].succs {
      assert init[i] == q[i] && init[i + 1] == q[i + 1];
    }
  }

  lemma {:induction false} CWalkSnoc(cfg: Cfg, p: seq<nat>, j: nat)
    requires CWalk(cfg, p) && j < |cfg| && j in NonNull(cfg[p[|p| - 1]].succs)
    ensures CWalk(cfg, p + [j])
  {
    var r := p + [j];
    forall i | 0 <= i < |r| - 1 ensures r[i + 1] in NonNull(cfg[r[i]].succs) {
      if i < |p| - 1 { assert r[i] == p[i] && r[i + 1] == p[i + 1]; }
    }
  }

  /** And the other way round: to every segment of a block that is reached. */
  lemma {:induction false} Lift(cfg: Cfg, g: Graph, p: seq<nat>, k: nat) returns (q: seq<nat>)
    requires CfgInRange(cfg) && IsSplit(cfg, g) && CWalk(cfg, p) && k < |Segs(cfg, p[|p| - 1])|
    ensures Walk(g, q) && q[0] == p[0] && q[|q| - 1] == Pos(cfg, p[|p| - 1], k)
    decreases |p|
  {
    OwnWalk(cfg, g, p[0]);
    var own := SegmentsFrom(cfg, p[0], 0);
    if |p| == 1 {
      assert |own| == |Segs(cfg, p[0])| && own[k] == Pos(cfg, p[0], k);
      hide *;
      q := WalkPrefix(g, own, k);
    } else {
      CWalkTail(cfg, p);
      LastOfTail(p);
      hide *;
      var rest := Lift(cfg, g, p[1..], k);
      q := WalkOn(g, own, rest);
    }
  }

  lemma LastOfTail(p: seq<nat>)
    requires |p| > 1
    ensures p[1..][0] == p[1] && p[1..][|p[1..]| - 1] == p[|p| - 1]
  {
  }

  lemma {:induction false} WalkPrefix(g: Graph, p: seq<nat>, k: nat) returns (q: seq<nat>)
    requires Walk(g, p) && k < |p|
    ensures Walk(g, q) && q[0] == p[0] && q[|q| - 1] == p[k]
  {
    q := p[..k + 1];
    forall i | 0 <= i < |q| - 1 ensures q[i + 1] in g[q[i]].succs {
      assert q[i] == p[i] && q[i + 1] == p[i + 1];
    }
  }

  lemma {:induction false} WalkOn(g: Graph, a: seq<nat>, b: seq<nat>) returns (q: seq<nat>)
    requires Walk(g, a) && Walk(g, b) && b[0] in g[a[|a| - 1]].succs
    ensures Walk(g, q) && q[0] == a[0] && q[|q| - 1] == b[|b| - 1]
  {
    JoinWalks(g, a, b);
    q := a + b;
  }

  lemma {:induction false} FlatMember(segs: seq<Segment>, e: Elem) returns (k: nat)
    requires e in Flat(segs)
    ensures k < |segs| && e in segs[k].elems
  {
    var last := |segs| - 1;
    if e in segs[last].elems {
      k := last;
    } else {
      k := FlatMember(segs[..last], e);
    }
  }

  lemma {:induction false} DroppedSegment(cfg: Cfg, j: nat) returns (k: nat)
    requires j < |cfg| && !BlockKept(cfg[j])
    ensures k < |Segs(cfg, j)| && Dropped(SegBlock(cfg, j, k))
  {
    var e :| e in cfg[j].elems && !e.Wait?;
    SplitOk(cfg[j].elems);
    k := FlatMember(Segs(cfg, j), e);
    assert SegmentOk(Segs(cfg, j)[k]);
  }

  lemma {:induction false} KeptSegment(cfg: Cfg, j: nat, k: nat)
    requires CfgBlocksOk(cfg) && j < |cfg| && k < |Segs(cfg, j)| && BlockKept(cfg[j])
    ensures !Dropped(SegBlock(cfg, j, k))
  {
    if Segs(cfg, j)[k].elems != [] { FirstElem(cfg, j, k); }
  }

  lemma {:induction false} FirstElem(cfg: Cfg, j: nat, k: nat)
    requires CfgBlocksOk(cfg) && j < |cfg| && k < |Segs(cfg, j)| && Segs(cfg, j)[k].elems != []
    ensures Segs(cfg, j)[k].elems[0] in cfg[j].elems
    ensures !Segs(cfg, j)[k].isWait ==> Segs(cfg, j)[k].elems[0].Stmt?
  {
    SegBlockOk(cfg, j, k);
    SegmentAt(cfg, j, k);
    var seg, o := Segs(cfg, j)[k], Off(cfg, j, k);
    var b := SegBlock(cfg, j, k);
    assert b.elems == seg.elems && b.hasWait == seg.isWait && seg.elems[0] in b.elems;
    hide Split, Flat, Base, NonNull, Off, Segs, SegBlock;
    assert seg.elems[0] == cfg[j].elems[o..o + |seg.elems|][0] == cfg[j].elems[o];
  }

  /** Splitting neither makes statements share a block with a terminator nor separates them. */
  lemma {:induction false} KeptIff(cfg: Cfg, g: Graph, entry: nat)
    requires CfgBlocksOk(cfg) && IsSplit(cfg, g) && entry < |cfg|
    ensures ReachableKept(cfg, entry) <==> KeptFrom(g, entry)
  {
    if ReachableKept(cfg, entry) {
      forall q, x: nat | Leads(g, q, entry, x) && x < |g| ensures !Dropped(g[x]) {
        var p, j, k := Project(cfg, g, q);
        assert g[x] == SegBlock(cfg, j, k);
        KeptSegment(cfg, j, k);
      }
    }
    if KeptFrom(g, entry) {
      forall p: seq<nat> | CWalk(cfg, p) && p[0] == entry ensures BlockKept(cfg[p[|p| - 1]]) {
        var j := p[|p| - 1];
        if !BlockKept(cfg[j]) {
          var k := DroppedSegment(cfg, j);
          var q := Lift(cfg, g, p, k);
          assert g[Pos(cfg, j, k)] == SegBlock(cfg, j, k);
          assert Leads(g, q, entry, Pos(cfg, j, k));
        }
      }
    }
  }

  // ----- Runs of the thread as written and of the split thread -----

  /** Where the thread as written is after the waits `ws`. */
  function PointAfter(cfg: Cfg, from: Point, ws: seq<Point>): Point {
    if ws == [] then from else Past(cfg, ws[|ws| - 1])
  }

  /** To the waits that the split thread comes to the thread as written comes too. */
  lemma {:induction false} RunJoined(cfg: Cfg, g: Graph, sem: Sem, drop: bool, j: nat, k: nat, store: Store, cs: seq<Config>)
    returns (ws: seq<Point>)
    requires CfgBlocksOk(cfg) && IsSplit(cfg, g) && Closed(g) && AllInGraph(g, cs)
    requires j < |cfg| && k < |Segs(cfg, j)| && Pos(cfg, j, k) < |g|
    requires ThreadRun(g, sem, drop, Config(Pos(cfg, j, k), store), cs)
    ensures PointRun(cfg, sem, drop, PointOf(cfg, j, k, store), ws) && SameWaits(cfg, g, cs, ws)
    decreases |cs|
  {
    ws := [];
    if cs != [] {
      var j1, k1 := RoundJoined(cfg, g, sem, drop, j, k, store, cs[0]);
      var w := PointOf(cfg, j1, k1, cs[0].store);
      var j2, k2 := GoOn(cfg, g, sem, drop, j1, k1, cs[0].store);
      hide IsSplit, PointOf, PointRound, Past, Round, Segs, Pos, SameStops, SameWait, CfgBlocksOk, Closed;
      var rest := RunJoined(cfg, g, sem, drop, j2, k2, cs[0].store, cs[1..]);
      PastRuns(cfg, sem, drop, Past(cfg, w), PointOf(cfg, j2, k2, cs[0].store), rest);
      ws := [w] + rest;
      ConsJoined(cfg, g, sem, drop, PointOf(cfg, j, k, store), w, rest, cs);
    }
  }

  lemma {:induction false} RoundJoined(cfg: Cfg, g: Graph, sem: Sem, drop: bool, j: nat, k: nat, store: Store, c: Config)
    returns (j1: nat, k1: nat)
    requires CfgBlocksOk(cfg) && IsSplit(cfg, g) && Closed(g)
    requires j < |cfg| && k < |Segs(cfg, j)| && Pos(cfg, j, k) < |g|
    requires Round(g, sem, drop, Config(Pos(cfg, j, k), store), c)
    ensures j1 < |cfg| && k1 < |Segs(cfg, j1)| && c.block == Pos(cfg, j1, k1) < |g| && g[c.block].hasWait
    ensures PointRound(cfg, sem, drop, PointOf(cfg, j, k, store), PointOf(cfg, j1, k1, c.store))
    ensures SameWait(cfg, g, c, PointOf(cfg, j1, k1, c.store))
  {
    var n: nat :| ThreadSteps(g, sem, drop, Config(Pos(cfg, j, k), store), n) == c;
    var m;
    m, j1, k1 := StepsSimulated(cfg, g, sem, drop, j, k, store, n);
    HaltIsStop(cfg, g, j1, k1, c.store);
  }

  lemma {:induction false} ConsJoined(cfg: Cfg, g: Graph, sem: Sem, drop: bool, from: Point, w: Point, rest: seq<Point>, cs: seq<Config>)
    requires CfgBlocksOk(cfg) && |cs| > 0 && PointRound(cfg, sem, drop, from, w) && SameWait(cfg, g, cs[0], w)
    requires PointRun(cfg, sem, drop, Past(cfg, w), rest) && SameWaits(cfg, g, cs[1..], rest)
    ensures PointRun(cfg, sem, drop, from, [w] + rest) && SameWaits(cfg, g, cs, [w] + rest)
  {
    hide PointRound, SameWait, CfgBlocksOk;
    var ws := [w] + rest;
    assert ws[1..] == rest;
    forall i | 0 <= i < |ws| ensures SameWait(cfg, g, cs[i], ws[i]) {
      if i > 0 { assert cs[i] == cs[1..][i - 1] && ws[i] == rest[i - 1]; }
    }
  }

  /** After the same waits the two threads go on alike. */
  lemma {:induction false} GoesOn(cfg: Cfg, g: Graph, sem: Sem, drop: bool, j: nat, k: nat, store: Store,
                                  cs: seq<Config>, ws: seq<Point>) returns (j': nat, k': nat)
    requires CfgBlocksOk(cfg) && IsSplit(cfg, g) && AllInGraph(g, cs) && SameWaits(cfg, g, cs, ws)
    requires j < |cfg| && k < |Segs(cfg, j)| && Pos(cfg, j, k) < |g|
    ensures j' < |cfg| && k' < |Segs(cfg, j')| && Pos(cfg, j', k') < |g|
    ensures var on := After(g, Config(Pos(cfg, j, k), store), cs);
            && on.block == Pos(cfg, j', k') && on.store == PointAfter(cfg, PointOf(cfg, j, k, store), ws).store
            && SameStops(cfg, sem, drop, PointAfter(cfg, PointOf(cfg, j, k, store), ws), PointOf(cfg, j', k', on.store))
  {
    LastSame(cfg, g, cs, ws);
    hide IsSplit, CfgBlocksOk, SameStops, Onward, SameWait, SameWaits, AllInGraph, PointOf, Pos, Segs;
    if ws == [] {
      SameStopsSelf(cfg, sem, drop, j, k, store);
      j', k' := j, k;
    } else {
      j', k' := GoPast(cfg, g, sem, drop, cs[|cs| - 1], ws[|ws| - 1]);
    }
  }

  lemma LastSame(cfg: Cfg, g: Graph, cs: seq<Config>, ws: seq<Point>)
    requires SameWaits(cfg, g, cs, ws)
    ensures |cs| == |ws| && (ws != [] ==> SameWait(cfg, g, cs[|cs| - 1], ws[|ws| - 1]))
  {
  }

  lemma {:induction false} GoPast(cfg: Cfg, g: Graph, sem: Sem, drop: bool, c: Config, w: Point) returns (j': nat, k': nat)
    requires CfgBlocksOk(cfg) && IsSplit(cfg, g) && SameWait(cfg, g, c, w)
    ensures j' < |cfg| && k' < |Segs(cfg, j')| && Pos(cfg, j', k') < |g| && c.block < |g|
    ensures Onward(g, c) == Config(Pos(cfg, j', k'), w.store)
    ensures SameStops(cfg, sem, drop, Past(cfg, w), PointOf(cfg, j', k', w.store))
  {
    var i: nat :| i < |Segs(cfg, w.block)| && c.block == Pos(cfg, w.block, i) && w.pos == Off(cfg, w.block, i);
    assert w == PointOf(cfg, w.block, i, w.store);
    hide IsSplit, CfgBlocksOk, SameStops, Onward, Off, Pos, PointOf;
    j', k' := GoOn(cfg, g, sem, drop, w.block, i, w.store);
  }

  lemma SameStopsSelf(cfg: Cfg, sem: Sem, drop: bool, j: nat, k: nat, store: Store)
    requires CfgBlocksOk(cfg) && j < |cfg| && k < |Segs(cfg, j)|
    ensures var p := PointOf(cfg, j, k, store); p.store == store && SameStops(cfg, sem, drop, p, p)
  {
  }

  /** There is one block at which the split thread can go on after wait `w`. */
  lemma {:induction false} ResumeUnique(cfg: Cfg, b: nat, b': nat, w: Point)
    requires Within(cfg, w) && AtWait(cfg, w) && ResumesAt(cfg, b, w) && ResumesAt(cfg, b', w)
    ensures b == b'
  {
    var j := w.block;
    if w.pos + 1 < |cfg[j].elems| {
      var k: nat :| k < |Segs(cfg, j)| && b == Pos(cfg, j, k) && w.pos + 1 == Off(cfg, j, k);
      var k': nat :| k' < |Segs(cfg, j)| && b' == Pos(cfg, j, k') && w.pos + 1 == Off(cfg, j, k');
      hide Off, Pos;
      if k < k' { OffIncreases(cfg, j, k, k'); }
      if k' < k { OffIncreases(cfg, j, k', k); }
    }
  }

  lemma {:induction false} OffIncreases(cfg: Cfg, j: nat, k: nat, k': nat)
    requires j < |cfg| && cfg[j].elems != [] && k < k' <= |Segs(cfg, j)|
    ensures Off(cfg, j, k) < Off(cfg, j, k')
    decreases k'
  {
    SegmentAt(cfg, j, k' - 1);
    SegmentNonempty(cfg, j, k' - 1);
    hide Off, Segs;
    if k < k' - 1 { OffIncreases(cfg, j, k, k' - 1); }
  }

  lemma SegmentNonempty(cfg: Cfg, j: nat, k: nat)
    requires j < |cfg| && cfg[j].elems != [] && k < |Segs(cfg, j)|
    ensures |Segs(cfg, j)[k].elems| > 0
  {
    SplitOk(cfg[j].elems);
  }

  // ----- The machine and the thread as written -----

  /** The machine holds the store that the thread has after the waits `ws`, and its state is the
      one that starts where the thread goes on. */
  ghost predicate MachineAfter(cfg: Cfg, g: Graph, entry: nat, order: seq<nat>, r: FsmState, store: Store, ws: seq<Point>)
    requires Closed(g) && InRange(g, order)
  {
    && r.shadow == PointAfter(cfg, Point(entry, 0, store), ws).store
    && r.regs.state <= |order|
    && var start := StartOf(g, entry, order, r.regs.state);
       if ws == [] then start == entry else ResumesAt(cfg, start, ws[|ws| - 1])
  }

  lemma {:induction false} AtEntry(cfg: Cfg, g: Graph, entry: nat, store: Store)
    requires IsSplit(cfg, g) && entry < |cfg|
    ensures 0 < |Segs(cfg, entry)| && Pos(cfg, entry, 0) == entry < |g|
    ensures PointOf(cfg, entry, 0, store) == Point(entry, 0, store)
  {
    SegsNonempty(cfg, entry);
    OffStart(cfg, entry);
  }

  lemma {:induction false} AfterWaits(cfg: Cfg, g: Graph, entry: nat, order: seq<nat>, r: FsmState, store: Store,
                                      cs: seq<Config>, ws: seq<Point>)
    requires CfgBlocksOk(cfg) && IsSplit(cfg, g) && Closed(g) && InRange(g, order) && AllInGraph(g, cs) && SameWaits(cfg, g, cs, ws)
    requires r.regs.state <= |order|
    ensures MachineAfter(cfg, g, entry, order, r, store, ws)
            <==> Config(StartOf(g, entry, order, r.regs.state), r.shadow) == After(g, Config(entry, store), cs)
  {
    LastSame(cfg, g, cs, ws);
    hide StartOf, IsSplit, CfgBlocksOk, ResumesAt, SameWait, SameWaits, AllInGraph, InRange, Closed;
    if ws != [] {
      ResumesOnly(cfg, g, StartOf(g, entry, order, r.regs.state), cs[|cs| - 1], ws[|ws| - 1]);
    }
  }

  /** The thread goes on from wait `w` at the block recorded for it and at no other. */
  lemma ResumesOnly(cfg: Cfg, g: Graph, b: nat, c: Config, w: Point)
    requires CfgBlocksOk(cfg) && IsSplit(cfg, g) && SameWait(cfg, g, c, w)
    ensures c.block < |g| && c.store == w.store && (ResumesAt(cfg, b, w) <==> b == Resume(g, c.block))
  {
    WaitResumes(cfg, g, c, w);
    hide IsSplit, CfgBlocksOk, ResumesAt;
    if ResumesAt(cfg, b, w) {
      ResumeUnique(cfg, b, Resume(g, c.block), w);
    }
  }

  /** From reset on, when the thread has come to the waits `ws`, and after just the clocks
      those waits take, the machine's shadows hold the thread's store and its state goes on where
      the thread does.  With `drop` this is said of the thread without the statements that
      share a block with a terminator; if no block it reaches has any, it holds of the thread. */
  lemma {:induction false} ThreadImplemented(cfg: Cfg, g: Graph, entry: nat, order: seq<nat>, fsm: Fsm, sem: Sem, drop: bool,
                                             s: FsmState, ws: seq<Point>)
    requires CfgShape(cfg) && IsSplit(cfg, g) && entry < |cfg| && Compiled(g, entry, order, fsm)
    requires drop || ReachableKept(cfg, entry)
    requires PointRun(cfg, sem, drop, Point(entry, 0, Zeroed(s.shadow)), ws)
    ensures MachineAfter(cfg, g, entry, order, Clocks(fsm, sem, Clock(fsm, sem, true, s), RunClocks(cfg, ws)), Zeroed(s.shadow), ws)
  {
    var store := Zeroed(s.shadow);
    AtEntry(cfg, g, entry, store);
    var cs := RunSplit(cfg, g, sem, drop, entry, 0, store, ws);
    ClocksSame(cfg, g, cs, ws);
    if !drop {
      KeptIff(cfg, g, entry);
      RunsAgreeFrom(g, sem, Config(entry, store), cs);
    }
    var r := FromReset(g, entry, order, fsm, sem, s, cs);
    AfterWaits(cfg, g, entry, order, r, store, cs, ws);
  }

  /** When the thread has come from reset to the waits `ws` and goes on to a wait or its end
      `e`, the machine is after just the clocks of those waits where the thread is, and after
      one more clock holds the store that the thread has at `e`. */
  ghost predicate MachineExact(cfg: Cfg, g: Graph, entry: nat, order: seq<nat>, fsm: Fsm, sem: Sem, s: FsmState,
                               ws: seq<Point>, e: Point)
    requires CfgBlocksOk(cfg) && Closed(g) && InRange(g, order)
  {
    var from := Point(entry, 0, Zeroed(s.shadow));
    && PointRun(cfg, sem, false, from, ws)
    && Within(cfg, e) && Stopped(cfg, e) && Reaches(cfg, sem, false, PointAfter(cfg, from, ws), e)
    ==>
      var r := Clocks(fsm, sem, Clock(fsm, sem, true, s), RunClocks(cfg, ws));
      MachineAfter(cfg, g, entry, order, r, Zeroed(s.shadow), ws) && Clock(fsm, sem, false, r).shadow == e.store
  }

  /** Where the split thread halts the thread as written stops. */
  lemma {:induction false} NextStop(cfg: Cfg, g: Graph, sem: Sem, drop: bool, j: nat, k: nat, store: Store, n: nat)
    returns (e: Point)
    requires CfgBlocksOk(cfg) && IsSplit(cfg, g) && Closed(g)
    requires j < |cfg| && k < |Segs(cfg, j)| && Pos(cfg, j, k) < |g|
    requires Halted(g, ThreadSteps(g, sem, drop, Config(Pos(cfg, j, k), store), n))
    ensures Within(cfg, e) && Stopped(cfg, e) && Reaches(cfg, sem, drop, PointOf(cfg, j, k, store), e)
    ensures e.store == ThreadSteps(g, sem, drop, Config(Pos(cfg, j, k), store), n).store
  {
    var c := ThreadSteps(g, sem, drop, Config(Pos(cfg, j, k), store), n);
    var m, j1, k1 := StepsSimulated(cfg, g, sem, drop, j, k, store, n);
    HaltIsStop(cfg, g, j1, k1, c.store);
    e := PointOf(cfg, j1, k1, c.store);
  }

  lemma {:induction false} StopUnique(cfg: Cfg, sem: Sem, drop: bool, a: Point, e: Point, e': Point)
    requires CfgBlocksOk(cfg) && Within(cfg, e) && Within(cfg, e') && Stopped(cfg, e) && Stopped(cfg, e')
    requires Reaches(cfg, sem, drop, a, e) && Reaches(cfg, sem, drop, a, e')
    ensures e == e'
  {
    var m: nat :| PointSteps(cfg, sem, drop, a, m) == e;
    var n: nat :| PointSteps(cfg, sem, drop, a, n) == e';
    StoppedUnique(cfg, sem, drop, a, m, n);
  }

  lemma {:induction false} FaithfulStore(g: Graph, entry: nat, order: seq<nat>, fsm: Fsm, sem: Sem, r: FsmState, n: nat)
    requires ThreadShape(g) && entry < |g| && InRange(g, order) && r.regs.state <= |order|
    requires Faithful(g, entry, order, fsm, sem, r, n)
    ensures var c := ThreadSteps(g, sem, false, Config(StartOf(g, entry, order, r.regs.state), r.shadow), n);
            Halted(g, c) ==> Clock(fsm, sem, false, r).shadow == c.store
  {
    var c := ThreadSteps(g, sem, false, Config(StartOf(g, entry, order, r.regs.state), r.shadow), n);
    assert BlockShape(g[c.block]);
    if Halted(g, c) { FinishStore(g, PlanOf(g, order), sem, c, Loaded(r)); }
  }

  lemma {:induction false} KeptIsExact(cfg: Cfg, g: Graph, entry: nat, order: seq<nat>, fsm: Fsm, sem: Sem, s: FsmState,
                                       ws: seq<Point>, e: Point)
    requires CfgShape(cfg) && IsSplit(cfg, g) && entry < |cfg| && Compiled(g, entry, order, fsm)
    requires ReachableKept(cfg, entry)
    ensures MachineExact(cfg, g, entry, order, fsm, sem, s, ws, e)
  {
    var store := Zeroed(s.shadow);
    var from := Point(entry, 0, store);
    if && PointRun(cfg, sem, false, from, ws) && Within(cfg, e) && Stopped(cfg, e)
       && Reaches(cfg, sem, false, PointAfter(cfg, from, ws), e)
    {
      AtEntry(cfg, g, entry, store);
      var cs := RunSplit(cfg, g, sem, false, entry, 0, store, ws);
      ClocksSame(cfg, g, cs, ws);
      var j, k := GoesOn(cfg, g, sem, false, entry, 0, store, cs, ws);
      var on := After(g, Config(entry, store), cs);
      var n := HaltsFrom(g, sem, false, on);
      var e' := NextStop(cfg, g, sem, false, j, k, on.store, n);
      StopUnique(cfg, sem, false, PointOf(cfg, j, k, on.store), e, e');
      KeptIff(cfg, g, entry);
      KeptIsRunFaithful(g, entry, order, fsm, sem, s, cs, n);
      var r := Clocks(fsm, sem, Clock(fsm, sem, true, s), RunClocks(cfg, ws));
      FaithfulStore(g, entry, order, fsm, sem, r, n);
      AfterWaits(cfg, g, entry, order, r, store, cs, ws);
    }
  }

  lemma {:induction false} DroppedIsInexact(cfg: Cfg, g: Graph, entry: nat, order: seq<nat>, fsm: Fsm)
    returns (sem: Sem, s: FsmState, ws: seq<Point>, e: Point)
    requires CfgShape(cfg) && IsSplit(cfg, g) && entry < |cfg| && Compiled(g, entry, order, fsm)
    requires !ReachableKept(cfg, entry)
    ensures !MachineExact(cfg, g, entry, order, fsm, sem, s, ws, e)
  {
    SplitShape(cfg, g);
    KeptIff(cfg, g, entry);
    var p, x: nat :| Leads(g, p, entry, x) && x < |g| && Dropped(g[x]);
    var cs, n;
    sem, s, cs, n := DroppedIsRunUnfaithful(g, entry, order, fsm, p, x);
    var store := Zeroed(s.shadow);
    AtEntry(cfg, g, entry, store);
    ws := RunJoined(cfg, g, sem, false, entry, 0, store, cs);
    ClocksSame(cfg, g, cs, ws);
    var j, k := GoesOn(cfg, g, sem, false, entry, 0, store, cs, ws);
    var on := After(g, Config(entry, store), cs);
    var m := HaltsFrom(g, sem, false, on);
    e := NextStop(cfg, g, sem, false, j, k, on.store, m);
    var r := Clocks(fsm, sem, Clock(fsm, sem, true, s), RunClocks(cfg, ws));
    if MachineAfter(cfg, g, entry, order, r, store, ws) {
      AfterWaits(cfg, g, entry, order, r, store, cs, ws);
      HaltedUnique(g, sem, false, on, m, n);
    }
  }

  /** The machine does what the thread as written does, over all runs from reset and whatever
      its statements and conditions mean, if and only if no block that the thread can reach holds
      statements next to a terminator. */
  lemma {:induction false} MachineExactIff(cfg: Cfg, g: Graph, entry: nat, order: seq<nat>, fsm: Fsm)
    requires CfgShape(cfg) && IsSplit(cfg, g) && entry < |cfg| && Compiled(g, entry, order, fsm)
    ensures ReachableKept(cfg, entry)
            <==> (forall sem: Sem, s: FsmState, ws: seq<Point>, e: Point :: MachineExact(cfg, g, entry, order, fsm, sem, s, ws, e))
  {
    if ReachableKept(cfg, entry) {
      forall sem: Sem, s: FsmState, ws: seq<Point>, e: Point ensures MachineExact(cfg, g, entry, order, fsm, sem, s, ws, e) {
        KeptIsExact(cfg, g, entry, order, fsm, sem, s, ws, e);
      }
    } else {
      var sem, s, ws, e := DroppedIsInexact(cfg, g, entry, order, fsm);
      assert !MachineExact(cfg, g, entry, order, fsm, sem, s, ws, e);
    }
  }
}
