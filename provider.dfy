/**
 * The segment provider's response turned into the script's segment list:
 * a non-array body gives nothing; each record becomes a segment when it
 * carries a `segment` array or numeric `start` and `end`; the survivors are
 * sorted by `start` with a stable sort (`Array.prototype.sort` with the
 * comparator `a.start - b.start`).
 */
module Provider {
  import opened Wrappers
  import opened JsonValue
  import opened Segments

  /** `x?.field`: the field of an object, `undefined` for everything else. */
  function Field(x: Json, name: string): Option<Json>
  {
    if x.JObj? && name in x.fields then Some(x.fields[name]) else None
  }

  /** `xs[i]`, `undefined` past the end. */
  function Element(xs: seq<Json>, i: nat): Option<Json>
  {
    if i < |xs| then Some(xs[i]) else None
  }

  /** The `map` step: one provider record as a segment, or `null` when its shape is neither known one. */
  function FromRecord(x: Json): Option<Segment>
  {
    var seg := Field(x, "segment");
    var start := Field(x, "start");
    var end := Field(x, "end");
    if seg.Some? && seg.value.JArr? then
      Some(Segment(NumberOrZero(Element(seg.value.elems, 0)), NumberOrZero(Element(seg.value.elems, 1)),
                   Field(x, "category")))
    else if start.Some? && start.value.JNum? && end.Some? && end.value.JNum? then
      Some(Segment(start.value.n, end.value.n, Field(x, "category")))
    else None
  }

  /**
   * The `map` step throws on this record: it has a `segment` array and
   * `Number(x.segment[0])` or `Number(x.segment[1])` throws.
   */
  predicate RecordThrows(x: Json)
  {
    var seg := Field(x, "segment");
    seg.Some? && seg.value.JArr? &&
    (NumberOrZeroThrows(Element(seg.value.elems, 0)) || NumberOrZeroThrows(Element(seg.value.elems, 1)))
  }

  /** The pipeline throws on the body: it is an array and the `map` step throws on one of its records. */
  predicate NormalizeThrows(body: Json)
  {
    body.JArr? && exists i :: 0 <= i < |body.elems| && RecordThrows(body.elems[i])
  }

  /** The `map` and `filter(Boolean)` steps: the records that convert, in provider order. */
  function Kept(xs: seq<Json>): (r: seq<Segment>)
    ensures |r| <= |xs|
  {
    if |xs| == 0 then []
    else
      var rest := Kept(xs[1..]);
      match FromRecord(xs[0])
      case None => rest
      case Some(s) => [s] + rest
  }

  /** The segments kept are exactly those some record converts to. */
  lemma {:induction false} KeptMembers(xs: seq<Json>)
    ensures forall s :: s in Kept(xs) <==> exists x :: x in xs && FromRecord(x) == Some(s)
  {
    if |xs| > 0 {
      KeptMembers(xs[1..]);
      assert forall x :: x in xs <==> x == xs[0] || x in xs[1..];
    }
  }

  /** One record in front contributes its conversion, or nothing, ahead of the rest. */
  lemma KeptCons(x: Json, rest: seq<Json>)
    ensures Kept([x] + rest) == (if FromRecord(x).Some? then [FromRecord(x).value] else []) + Kept(rest)
  {
    assert ([x] + rest)[1..] == rest;
  }

  /** The pipeline works record by record: the records of a concatenation convert in order. */
  lemma {:induction false} KeptAppend(a: seq<Json>, b: seq<Json>)
    ensures Kept(a + b) == Kept(a) + Kept(b)
  {
    if |a| > 0 {
      KeptAppend(a[1..], b);
      assert a == [a[0]] + a[1..];
      assert a + b == [a[0]] + (a[1..] + b);
      KeptCons(a[0], a[1..] + b);
      KeptCons(a[0], a[1..]);
    } else {
      assert a + b == b;
    }
  }

  /** A single record contributes its conversion, or nothing when it converts to `null`. */
  lemma KeptSingle(x: Json)
    ensures Kept([x]) == if FromRecord(x).Some? then [FromRecord(x).value] else []
  {
  }

  // ---------------------------------------------------------------------
  // The stable sort by start.

  /** The segments with start `k`, in their order: what a stable sort must not reorder. */
  function WithStart(segs: seq<Segment>, k: real): seq<Segment>
  {
    if |segs| == 0 then []
    else (if segs[0].start == k then [segs[0]] else []) + WithStart(segs[1..], k)
  }

  /** Puts `s` in front of the first element that does not start earlier. */
  function InsertByStart(s: Segment, sorted: seq<Segment>): (r: seq<Segment>)
    requires SortedByStart(sorted)
    ensures |r| == |sorted| + 1
    ensures r[0] == s || (|sorted| > 0 && r[0] == sorted[0])
    ensures SortedByStart(r)
    ensures multiset(r) == multiset(sorted) + multiset{s}
  {
    if |sorted| == 0 || s.start <= sorted[0].start then
      [s] + sorted
    else
      var x := sorted[0];
      var r := InsertByStart(s, sorted[1..]);
      assert x.start <= r[0].start;
      assert forall j :: 0 <= j < |r| ==> x.start <= r[j].start;
      assert sorted == [x] + sorted[1..];
      [x] + r
  }

  lemma WithStartCons(x: Segment, r: seq<Segment>, k: real)
    ensures WithStart([x] + r, k) == (if x.start == k then [x] else []) + WithStart(r, k)
  {
    assert ([x] + r)[0] == x && ([x] + r)[1..] == r;
  }

  /** Insertion passes only over elements that start earlier, so it never reorders a group of equal starts. */
  lemma {:induction false} InsertKeepsGroups(s: Segment, sorted: seq<Segment>, k: real)
    requires SortedByStart(sorted)
    ensures WithStart(InsertByStart(s, sorted), k) == (if s.start == k then [s] else []) + WithStart(sorted, k)
  {
    if |sorted| == 0 || s.start <= sorted[0].start {
      WithStartCons(s, sorted, k);
    } else {
      var x, t := sorted[0], sorted[1..];
      assert sorted == [x] + t;
      var r := InsertByStart(s, t);
      InsertKeepsGroups(s, t, k);
      assert InsertByStart(s, sorted) == [x] + r;
      WithStartCons(x, r, k);
      WithStartCons(x, t, k);
      if s.start == k {
        assert x.start != k;
        assert WithStart([x] + r, k) == WithStart(r, k);
      } else {
        assert WithStart(r, k) == WithStart(t, k);
      }
    }
  }

  /**
   * Sorted by start; a permutation of the input; and every group of equal
   * starts keeps its input order.
   */
  function SortByStart(segs: seq<Segment>): (r: seq<Segment>)
    ensures SortedByStart(r)
    ensures multiset(r) == multiset(segs)
    ensures forall k :: WithStart(r, k) == WithStart(segs, k)
  {
    if |segs| == 0 then []
    else
      assert segs == [segs[0]] + segs[1..];
      var tail := SortByStart(segs[1..]);
      forall k ensures WithStart(InsertByStart(segs[0], tail), k) == WithStart(segs, k) {
        InsertKeepsGroups(segs[0], tail, k);
      }
      InsertByStart(segs[0], tail)
  }

  /** The first element of a sorted list starts no later than anything else in it. */
  lemma HeadIsLeast(a: seq<Segment>, x: Segment)
    requires SortedByStart(a) && x in a
    ensures a[0].start <= x.start
  {
    var i :| 0 <= i < |a| && a[i] == x;
    if i > 0 { assert a[0].start <= a[i].start; }
  }

  lemma {:induction false} WithStartHead(a: seq<Segment>)
    requires |a| > 0
    ensures WithStart(a, a[0].start) == [a[0]] + WithStart(a[1..], a[0].start)
    ensures forall k :: k != a[0].start ==> WithStart(a, k) == WithStart(a[1..], k)
  {
  }

  lemma {:induction false} WithStartMembers(a: seq<Segment>, k: real)
    ensures forall s :: s in WithStart(a, k) <==> s in a && s.start == k
  {
    if |a| > 0 {
      WithStartMembers(a[1..], k);
      assert forall s :: s in a <==> s == a[0] || s in a[1..];
    }
  }

  /** Two sorted lists that agree on every group of equal starts begin with the same element. */
  lemma SameHead(a: seq<Segment>, b: seq<Segment>)
    requires SortedByStart(a) && SortedByStart(b) && |a| > 0 && |b| > 0
    requires forall k :: WithStart(a, k) == WithStart(b, k)
    ensures a[0] == b[0]
  {
    WithStartHead(a);
    WithStartHead(b);
    WithStartMembers(a, b[0].start);
    WithStartMembers(b, a[0].start);
    assert a[0] in WithStart(b, a[0].start);
    HeadIsLeast(b, a[0]);
    assert b[0] in WithStart(a, b[0].start);
    HeadIsLeast(a, b[0]);
    var k0 := a[0].start;
    assert WithStart(a, k0) == WithStart(b, k0);
    assert WithStart(a, k0)[0] == a[0] && WithStart(b, k0)[0] == b[0];
  }

  /** Dropping an equal head from both lists keeps them agreeing on every group. */
  lemma TailsAgree(a: seq<Segment>, b: seq<Segment>, k: real)
    requires |a| > 0 && |b| > 0 && a[0] == b[0]
    requires WithStart(a, k) == WithStart(b, k)
    ensures WithStart(a[1..], k) == WithStart(b[1..], k)
  {
    WithStartHead(a);
    WithStartHead(b);
    if k == a[0].start {
      assert ([a[0]] + WithStart(a[1..], k))[1..] == WithStart(a[1..], k);
      assert ([b[0]] + WithStart(b[1..], k))[1..] == WithStart(b[1..], k);
    }
  }

  lemma SortedTail(a: seq<Segment>)
    requires SortedByStart(a) && |a| > 0
    ensures SortedByStart(a[1..])
  {
    forall i, j | 0 <= i < j < |a| - 1 ensures a[1..][i].start <= a[1..][j].start {
      assert a[1..][i] == a[i + 1] && a[1..][j] == a[j + 1];
    }
  }

  /**
   * Sortedness and the order of equal starts determine the result: any two
   * sorted lists that keep every group of equal starts as another list does
   * are the same list. So `SortByStart` is the stable sort.
   */
  lemma {:induction false} StableSortUnique(a: seq<Segment>, b: seq<Segment>)
    requires SortedByStart(a) && SortedByStart(b)
    requires forall k :: WithStart(a, k) == WithStart(b, k)
    ensures a == b
  {
    if |a| == 0 || |b| == 0 {
      var c := if |a| == 0 then b else a;
      if |c| > 0 {
        WithStartHead(c);
        assert false;
      }
    } else {
      SameHead(a, b);
      forall k ensures WithStart(a[1..], k) == WithStart(b[1..], k) {
        TailsAgree(a, b, k);
      }
      SortedTail(a);
      SortedTail(b);
      StableSortUnique(a[1..], b[1..]);
      assert a == [a[0]] + a[1..] && b == [b[0]] + b[1..];
    }
  }

  /** The whole pipeline on a decoded response body; the list when `NormalizeThrows(body)` is false. */
  function Normalize(body: Json): (r: seq<Segment>)
    ensures !body.JArr? ==> r == []
    ensures SortedByStart(r)
    ensures body.JArr? ==> multiset(r) == multiset(Kept(body.elems))
    ensures body.JArr? ==> forall k :: WithStart(r, k) == WithStart(Kept(body.elems), k)
    ensures forall s :: s in r <==> body.JArr? && exists x :: x in body.elems && FromRecord(x) == Some(s)
  {
    if body.JArr? then
      KeptMembers(body.elems);
      var r := SortByStart(Kept(body.elems));
      assert forall s :: s in r <==> s in multiset(r);
      assert forall s :: s in Kept(body.elems) <==> s in multiset(Kept(body.elems));
      r
    else []
  }

  /** A record with a `segment` array reads its bounds from the first two elements, `Number(e) || 0`. */
  lemma SegmentPairRecord(fields: map<string, Json>, elems: seq<Json>)
    requires "segment" in fields && fields["segment"] == JArr(elems)
    ensures FromRecord(JObj(fields)) == Some(Segment(
      NumberOrZero(Element(elems, 0)), NumberOrZero(Element(elems, 1)),
      if "category" in fields then Some(fields["category"]) else None))
    ensures RecordThrows(JObj(fields)) <==>
      NumberOrZeroThrows(Element(elems, 0)) || NumberOrZeroThrows(Element(elems, 1))
  {
  }

  /** A record with numeric `start` and `end` and no `segment` array keeps them and its category, and cannot throw. */
  lemma StartEndRecord(fields: map<string, Json>, start: real, end: real)
    requires "segment" !in fields || !fields["segment"].JArr?
    requires "start" in fields && fields["start"] == JNum(start)
    requires "end" in fields && fields["end"] == JNum(end)
    ensures FromRecord(JObj(fields)) ==
      Some(Segment(start, end, if "category" in fields then Some(fields["category"]) else None))
    ensures !RecordThrows(JObj(fields))
  {
  }

  /** Anything that is not an object, and an object of neither shape, is dropped without throwing. */
  lemma OtherRecordsDropped(x: Json)
    requires !x.JObj? ||
             ((Field(x, "segment").None? || !Field(x, "segment").value.JArr?) &&
              (Field(x, "start").None? || !Field(x, "start").value.JNum? ||
               Field(x, "end").None? || !Field(x, "end").value.JNum?))
    ensures FromRecord(x).None?
    ensures !RecordThrows(x)
  {
  }

  /**
   * A `segment` array whose first or second element is an object with its
   * own `toString` key makes the record throw, and with it every body that
   * holds the record.
   */
  lemma {:induction false} ToStringKeyThrows(fields: map<string, Json>, elems: seq<Json>, i: nat,
                                              before: seq<Json>, after: seq<Json>)
    requires "segment" in fields && fields["segment"] == JArr(elems)
    requires i < 2 && i < |elems| && elems[i].JObj? && "toString" in elems[i].fields
    ensures RecordThrows(JObj(fields))
    ensures NormalizeThrows(JArr(before + [JObj(fields)] + after))
  {
    OwnToStringThrows(elems[i].fields, [], []);
    assert Element(elems, i) == Some(elems[i]);
    var body := before + [JObj(fields)] + after;
    assert body[|before|] == JObj(fields);
  }

  /** `[{foo: 1}, {start: 5, end: 8, category: "intro"}]` gives the one valid segment. */
  lemma MalformedRecordDropped()
    ensures Normalize(JArr([JObj(map["foo" := JNum(1.0)]),
                            JObj(map["start" := JNum(5.0), "end" := JNum(8.0), "category" := JStr("intro")])]))
         == [Segment(5.0, 8.0, Some(JStr("intro")))]
  {
    var bad := JObj(map["foo" := JNum(1.0)]);
    var good := JObj(map["start" := JNum(5.0), "end" := JNum(8.0), "category" := JStr("intro")]);
    assert FromRecord(bad) == None;
    assert FromRecord(good) == Some(Segment(5.0, 8.0, Some(JStr("intro"))));
    assert [bad, good][1..] == [good];
    assert Kept([bad, good]) == [Segment(5.0, 8.0, Some(JStr("intro")))];
  }
}
