/**
 * Segments and the three list queries the content script runs over the
 * active segment list: the segment the playhead is in (`find` with
 * `start <= now < end`), the next segment (`find` with `start > now`) and
 * the previous one (last of `filter` with `start < now`).
 */
module Segments {
  import opened Wrappers
  import opened JsonValue

  /** `{ start, end, category }`; the category is whatever the provider sent, or absent. */
  datatype Segment = Segment(start: real, end: real, category: Option<Json>)

  /** The active list is kept in ascending order of `start`. */
  predicate SortedByStart(segs: seq<Segment>)
  {
    forall i, j :: 0 <= i < j < |segs| ==> segs[i].start <= segs[j].start
  }

  /** `s.start <= now && now < s.end`. */
  predicate Covers(s: Segment, now: real)
  {
    s.start <= now < s.end
  }

  // ---------------------------------------------------------------------
  // The segment at the playhead.

  /** The index `find` stops at: the first covering segment, or `|segs|` when none covers `now`. */
  function CoveringIndex(segs: seq<Segment>, now: real): (i: nat)
    ensures i <= |segs|
    ensures forall j :: 0 <= j < i ==> !Covers(segs[j], now)
    ensures i < |segs| ==> Covers(segs[i], now)
  {
    if |segs| == 0 then 0
    else if Covers(segs[0], now) then 0
    else 1 + CoveringIndex(segs[1..], now)
  }

  /** `segs.find(s => s.start <= now && now < s.end)`. */
  function SegmentAt(segs: seq<Segment>, now: real): (r: Option<Segment>)
    ensures r.Some? ==> r.value in segs && Covers(r.value, now)
    ensures r.None? <==> forall j :: 0 <= j < |segs| ==> !Covers(segs[j], now)
  {
    var i := CoveringIndex(segs, now);
    if i < |segs| then Some(segs[i]) else None
  }

  /** The segment found is the first one in list order that covers `now`. */
  lemma SegmentAtIsFirst(segs: seq<Segment>, now: real, j: nat)
    requires j < |segs| && Covers(segs[j], now)
    ensures SegmentAt(segs, now).Some?
    ensures exists i :: 0 <= i <= j && segs[i] == SegmentAt(segs, now).value &&
                        forall k :: 0 <= k < i ==> !Covers(segs[k], now)
  {
    var i := CoveringIndex(segs, now);
    assert i <= j;
  }

  /** On a sorted list, the segment found has the smallest start among those covering `now`. */
  lemma SegmentAtSmallestStart(segs: seq<Segment>, now: real, j: nat)
    requires SortedByStart(segs)
    requires j < |segs| && Covers(segs[j], now)
    ensures SegmentAt(segs, now).Some? && SegmentAt(segs, now).value.start <= segs[j].start
  {
    var i := CoveringIndex(segs, now);
    assert i <= j;
  }

  // ---------------------------------------------------------------------
  // The next segment.

  /** The index of the first segment starting strictly after `now`, or `|segs|`. */
  function NextIndex(segs: seq<Segment>, now: real): (i: nat)
    ensures i <= |segs|
    ensures forall j :: 0 <= j < i ==> segs[j].start <= now
    ensures i < |segs| ==> segs[i].start > now
  {
    if |segs| == 0 then 0
    else if segs[0].start > now then 0
    else 1 + NextIndex(segs[1..], now)
  }

  /** `segs.find(s => s.start > now)`. */
  function NextSegment(segs: seq<Segment>, now: real): (r: Option<Segment>)
    ensures r.Some? ==> r.value in segs && r.value.start > now
    ensures r.None? <==> forall j :: 0 <= j < |segs| ==> segs[j].start <= now
  {
    var i := NextIndex(segs, now);
    if i < |segs| then Some(segs[i]) else None
  }

  /** On a sorted list the next segment has the smallest start among those after `now`. */
  lemma NextSegmentSmallestStart(segs: seq<Segment>, now: real, j: nat)
    requires SortedByStart(segs)
    requires j < |segs| && segs[j].start > now
    ensures NextSegment(segs, now).Some? && NextSegment(segs, now).value.start <= segs[j].start
  {
    var i := NextIndex(segs, now);
    assert i <= j;
  }

  /** How many segments start strictly after `now`. */
  function CountAfter(segs: seq<Segment>, now: real): (n: nat)
    ensures n <= |segs|
  {
    if |segs| == 0 then 0
    else (if segs[0].start > now then 1 else 0) + CountAfter(segs[1..], now)
  }

  /**
   * Jumping to the start of a segment that lies after `now` strictly lowers
   * the number of segments still ahead: that segment itself drops out, and a
   * segment ahead of the new position was ahead of `now` too.
   */
  lemma {:induction false} CountAfterDrops(segs: seq<Segment>, now: real, s: Segment)
    requires s in segs && s.start > now
    ensures CountAfter(segs, s.start) < CountAfter(segs, now)
  {
    CountAfterMonotone(segs[1..], now, s.start);
    if segs[0] != s {
      CountAfterDrops(segs[1..], now, s);
    }
  }

  lemma {:induction false} CountAfterMonotone(segs: seq<Segment>, a: real, b: real)
    requires a <= b
    ensures CountAfter(segs, b) <= CountAfter(segs, a)
  {
    if |segs| > 0 {
      CountAfterMonotone(segs[1..], a, b);
    }
  }

  /**
   * The positions visited by pressing "next" again and again from `now`, until
   * the script reports that there is no next segment.
   */
  function NextJumps(segs: seq<Segment>, now: real): (visits: seq<real>)
    ensures |visits| <= CountAfter(segs, now)
    ensures |visits| == 0 <==> NextSegment(segs, now).None?
    ensures forall i :: 0 <= i < |visits| ==> visits[i] > now
    ensures forall i, j :: 0 <= i < j < |visits| ==> visits[i] < visits[j]
    ensures |visits| > 0 ==> NextSegment(segs, visits[|visits| - 1]).None?
    decreases CountAfter(segs, now)
  {
    match NextSegment(segs, now)
    case None => []
    case Some(s) =>
      CountAfterDrops(segs, now, s);
      [s.start] + NextJumps(segs, s.start)
  }

  /** Pressing "next" once moves to the first visit; the later visits are the rest of the chain. */
  lemma NextJumpsStep(segs: seq<Segment>, now: real)
    requires NextSegment(segs, now).Some?
    ensures NextJumps(segs, now) ==
      [NextSegment(segs, now).value.start] + NextJumps(segs, NextSegment(segs, now).value.start)
  {
  }

  /** Every visited position is the start of a segment in the list. */
  lemma {:induction false} NextJumpsAreStarts(segs: seq<Segment>, now: real, k: nat)
    requires k < |NextJumps(segs, now)|
    ensures exists s :: s in segs && s.start == NextJumps(segs, now)[k]
    decreases CountAfter(segs, now)
  {
    var s := NextSegment(segs, now).value;
    CountAfterDrops(segs, now, s);
    if k > 0 {
      NextJumpsAreStarts(segs, s.start, k - 1);
    }
  }

  // ---------------------------------------------------------------------
  // The previous segment.

  /** `segs.filter(s => s.start < now)`. */
  function StartingBefore(segs: seq<Segment>, now: real): (r: seq<Segment>)
    ensures |r| <= |segs|
    ensures forall s :: s in r <==> s in segs && s.start < now
  {
    if |segs| == 0 then []
    else if segs[0].start < now then [segs[0]] + StartingBefore(segs[1..], now)
    else StartingBefore(segs[1..], now)
  }

  /** `prevs.length ? prevs[prevs.length - 1] : null` over that filter. */
  function PrevSegment(segs: seq<Segment>, now: real): (r: Option<Segment>)
    ensures r.Some? ==> r.value in segs && r.value.start < now
    ensures r.None? <==> forall j :: 0 <= j < |segs| ==> segs[j].start >= now
  {
    var prevs := StartingBefore(segs, now);
    if |prevs| > 0 then
      assert prevs[|prevs| - 1] in prevs;
      Some(prevs[|prevs| - 1])
    else
      assert forall j :: 0 <= j < |segs| ==> segs[j] in segs;
      None
  }

  /** The index of the last segment in list order starting strictly before `now`, or -1. */
  function LastIndexBefore(segs: seq<Segment>, now: real): (i: int)
    ensures -1 <= i < |segs|
    ensures i >= 0 ==> segs[i].start < now
    ensures forall j :: i < j < |segs| ==> segs[j].start >= now
  {
    if |segs| == 0 then -1
    else if segs[|segs| - 1].start < now then |segs| - 1
    else LastIndexBefore(segs[..|segs| - 1], now)
  }

  /**
   * The filter-then-last of the script picks the same segment as scanning from
   * the back: the last segment in list order that starts before `now`.
   */
  lemma {:induction false} PrevSegmentIsLastBefore(segs: seq<Segment>, now: real)
    ensures PrevSegment(segs, now) ==
      (var i := LastIndexBefore(segs, now); if i >= 0 then Some(segs[i]) else None)
  {
    if |segs| > 0 {
      var init := segs[..|segs| - 1];
      var last := segs[|segs| - 1];
      assert segs == init + [last];
      StartingBeforeSnoc(init, last, now);
      PrevSegmentIsLastBefore(init, now);
    }
  }

  lemma {:induction false} StartingBeforeSnoc(init: seq<Segment>, last: Segment, now: real)
    ensures StartingBefore(init + [last], now) ==
      StartingBefore(init, now) + (if last.start < now then [last] else [])
  {
    if |init| > 0 {
      assert (init + [last])[1..] == init[1..] + [last];
      StartingBeforeSnoc(init[1..], last, now);
    } else {
      assert init + [last] == [last];
    }
  }

  /** On a sorted list the previous segment has the greatest start among those before `now`. */
  lemma PrevSegmentGreatestStart(segs: seq<Segment>, now: real, j: nat)
    requires SortedByStart(segs)
    requires j < |segs| && segs[j].start < now
    ensures PrevSegment(segs, now).Some? && PrevSegment(segs, now).value.start >= segs[j].start
  {
    PrevSegmentIsLastBefore(segs, now);
    var i := LastIndexBefore(segs, now);
    assert i >= j;
  }

  /** On a sorted list the next segment starts no later than any segment starting after `now`. */
  lemma NextSegmentIsLeast(segs: seq<Segment>, now: real)
    requires SortedByStart(segs) && NextSegment(segs, now).Some?
    ensures forall j :: 0 <= j < |segs| && segs[j].start > now ==> NextSegment(segs, now).value.start <= segs[j].start
  {
    forall j | 0 <= j < |segs| && segs[j].start > now
      ensures NextSegment(segs, now).value.start <= segs[j].start
    {
      NextSegmentSmallestStart(segs, now, j);
    }
  }

  /** On a sorted list the previous segment starts no earlier than any segment starting before `now`. */
  lemma PrevSegmentIsGreatest(segs: seq<Segment>, now: real)
    requires SortedByStart(segs) && PrevSegment(segs, now).Some?
    ensures forall j :: 0 <= j < |segs| && segs[j].start < now ==> PrevSegment(segs, now).value.start >= segs[j].start
  {
    forall j | 0 <= j < |segs| && segs[j].start < now
      ensures PrevSegment(segs, now).value.start >= segs[j].start
    {
      PrevSegmentGreatestStart(segs, now, j);
    }
  }
}
