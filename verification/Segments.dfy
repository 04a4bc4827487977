/** Cutting the elements of a CFG block at its waits. */
module Segments {
  import opened ThreadGraph

  /** A stretch of elements between waits, or a wait alone. */
  datatype Segment = Segment(elems: seq<Elem>, isWait: bool)

  /** The loop's state after `elems`: the finished segments and the open one. */
  function Scan(elems: seq<Elem>): (seq<Segment>, seq<Elem>) {
    if elems == [] then ([], [])
    else
      var (out, open) := Scan(elems[..|elems| - 1]);
      var e := elems[|elems| - 1];
      if e.Wait? then (Finished(out, open) + [Segment([e], true)], [])
      else (out, open + [e])
  }

  function Finished(out: seq<Segment>, open: seq<Elem>): seq<Segment> {
    if open == [] then out else out + [Segment(open, false)]
  }

  /** The segments of a block; a block without elements has one empty segment. */
  function Split(elems: seq<Elem>): seq<Segment> {
    if elems == [] then [Segment([], false)]
    else
      var (out, open) := Scan(elems);
      Finished(out, open)
  }

  function Flat(segs: seq<Segment>): seq<Elem> {
    if segs == [] then [] else Flat(segs[..|segs| - 1]) + segs[|segs| - 1].elems
  }

  /** A wait is alone in its segment, and no other segment holds one. */
  predicate SegmentOk(s: Segment) {
    if s.isWait then |s.elems| == 1 && s.elems[0].Wait? else forall e :: e in s.elems ==> e.Stmt?
  }

  /** Of two neighbours one is a wait. */
  predicate Alternating(segs: seq<Segment>) {
    && (forall k :: 0 <= k < |segs| ==> SegmentOk(segs[k]))
    && (forall k :: 0 <= k < |segs| - 1 ==> segs[k].isWait || segs[k + 1].isWait)
  }

  lemma {:induction false} FlatSnoc(segs: seq<Segment>, s: Segment)
    ensures Flat(segs + [s]) == Flat(segs) + s.elems
  {
    assert (segs + [s])[..|segs|] == segs;
  }

  predicate Nonempty(segs: seq<Segment>) {
    forall k :: 0 <= k < |segs| ==> segs[k].elems != []
  }

  lemma {:induction false} FinishedOk(out: seq<Segment>, open: seq<Elem>)
    requires Alternating(out) && Nonempty(out) && (out != [] ==> out[|out| - 1].isWait)
    requires forall e :: e in open ==> e.Stmt?
    ensures Flat(Finished(out, open)) == Flat(out) + open && Alternating(Finished(out, open)) && Nonempty(Finished(out, open))
  {
    FlatSnoc(out, Segment(open, false));
    hide Flat;
  }

  lemma {:induction false} WaitAdded(segs: seq<Segment>, e: Elem)
    requires Alternating(segs) && Nonempty(segs) && e.Wait?
    ensures var r := segs + [Segment([e], true)]; Flat(r) == Flat(segs) + [e] && Alternating(r) && Nonempty(r)
  {
    FlatSnoc(segs, Segment([e], true));
    hide Flat;
  }

  lemma {:induction false} ScanOk(elems: seq<Elem>)
    ensures var (out, open) := Scan(elems);
            && Flat(out) + open == elems && Alternating(out) && Nonempty(out)
            && (out != [] ==> out[|out| - 1].isWait)
            && (forall e :: e in open ==> e.Stmt?)
  {
    if elems != [] {
      var before, e := elems[..|elems| - 1], elems[|elems| - 1];
      ScanOk(before);
      var (out, open) := Scan(before);
      hide Flat, Alternating;
      if e.Wait? {
        FinishedOk(out, open);
        WaitAdded(Finished(out, open), e);
      }
    }
  }

  /** Cutting loses and reorders nothing, isolates every wait, and makes no needless cut. */
  lemma {:induction false} SplitOk(elems: seq<Elem>)
    ensures Flat(Split(elems)) == elems && Alternating(Split(elems)) && Split(elems) != []
    ensures elems != [] ==> Nonempty(Split(elems))
  {
    if elems == [] {
      FlatSnoc([], Segment([], false));
    } else {
      ScanOk(elems);
      var (out, open) := Scan(elems);
      FinishedOk(out, open);
    }
  }
}
