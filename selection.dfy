/** The selection as the editing calls see it: the selected records, their spans
    and relations, the stable ascending sort by selection time, and the choice of
    the two most recently selected spans as relation endpoints. */
module Selection {
  import opened AnnotationModel

  /** The container's selection, in container order. */
  function SelectedAnnotations(annos: seq<Annotation>): (r: seq<Annotation>)
    ensures forall a :: a in r <==> a in annos && a.selected
  {
    if annos == [] then []
    else (if annos[0].selected then [annos[0]] else []) + SelectedAnnotations(annos[1..])
  }

  /** The selected span records, in container order. */
  function SelectedSpans(annos: seq<Annotation>): (r: seq<Annotation>)
    ensures forall a :: a in r <==> a in annos && a.selected && a.Span?
  {
    if annos == [] then []
    else (if annos[0].selected && annos[0].Span? then [annos[0]] else []) + SelectedSpans(annos[1..])
  }

  /** The selected relation records, in container order. */
  function SelectedRelations(annos: seq<Annotation>): (r: seq<Annotation>)
    ensures forall a :: a in r <==> a in annos && a.selected && a.Relation?
  {
    if annos == [] then []
    else (if annos[0].selected && annos[0].Relation? then [annos[0]] else []) + SelectedRelations(annos[1..])
  }

  /** Filtering keeps every selected record once, so unique ids stay unique. */
  lemma {:induction false} SelectedSpansUniqueIds(annos: seq<Annotation>)
    requires UniqueIds(annos)
    ensures UniqueIds(SelectedSpans(annos))
  {
    if annos != [] {
      var rest := SelectedSpans(annos[1..]);
      assert UniqueIds(annos[1..]) by {
        assert forall i :: 0 <= i < |annos[1..]| ==> annos[1..][i] == annos[i + 1];
      }
      SelectedSpansUniqueIds(annos[1..]);
      forall b | b in rest ensures b.uuid != annos[0].uuid {
        var i :| 1 <= i < |annos| && annos[i] == b;
      }
      HeadUniqueIds(if annos[0].selected && annos[0].Span? then [annos[0]] else [], rest);
    }
  }

  /** A sequence with at most one leading record has unique ids when the rest
      does and the leading id does not occur in it. */
  lemma HeadUniqueIds(h: seq<Annotation>, t: seq<Annotation>)
    requires |h| <= 1 && UniqueIds(t)
    requires forall a, b :: a in h && b in t ==> a.uuid != b.uuid
    ensures UniqueIds(h + t)
  {
    var s := h + t;
    forall i, j | 0 <= i < j < |s| ensures s[i].uuid != s[j].uuid {
      if i < |h| {
        assert s[i] in h && s[j] == t[j - |h|];
      } else {
        assert s[i] == t[i - |h|] && s[j] == t[j - |h|];
      }
    }
  }

  /** Ascending by selection time. */
  predicate Sorted(s: seq<Annotation>)
  {
    forall i, j :: 0 <= i < j < |s| ==> s[i].selectedTime <= s[j].selectedTime
  }

  /** Inserts `x` in front of the first record that was selected no earlier. */
  function Insert(x: Annotation, s: seq<Annotation>): (r: seq<Annotation>)
    ensures multiset(r) == multiset(s) + multiset{x}
  {
    if s == [] then [x]
    else if x.selectedTime <= s[0].selectedTime then [x] + s
    else
      assert s == [s[0]] + s[1..];
      [s[0]] + Insert(x, s[1..])
  }

  lemma {:induction false} InsertSorted(x: Annotation, s: seq<Annotation>)
    requires Sorted(s)
    ensures Sorted(Insert(x, s))
  {
    if s != [] && x.selectedTime > s[0].selectedTime {
      var t := Insert(x, s[1..]);
      assert Insert(x, s) == [s[0]] + t;
      TailKeepsOrder(s);
      InsertSorted(x, s[1..]);
      InsertAbove(x, s[1..], s[0].selectedTime);
      ConsSorted(s[0], t);
    }
  }

  /** Inserting keeps every entry at or after time `lo` when all already are. */
  lemma {:induction false} InsertAbove(x: Annotation, s: seq<Annotation>, lo: int)
    requires lo <= x.selectedTime
    requires forall k :: 0 <= k < |s| ==> lo <= s[k].selectedTime
    ensures forall k :: 0 <= k < |Insert(x, s)| ==> lo <= Insert(x, s)[k].selectedTime
  {
    if s != [] && x.selectedTime > s[0].selectedTime {
      assert forall k :: 0 <= k < |s[1..]| ==> s[1..][k] == s[k + 1];
      InsertAbove(x, s[1..], lo);
      ConsAbove(s[0], Insert(x, s[1..]), lo);
    }
  }

  lemma ConsAbove(h: Annotation, t: seq<Annotation>, lo: int)
    requires lo <= h.selectedTime
    requires forall k :: 0 <= k < |t| ==> lo <= t[k].selectedTime
    ensures forall k :: 0 <= k < |[h] + t| ==> lo <= ([h] + t)[k].selectedTime
  {
  }

  lemma ConsSorted(h: Annotation, t: seq<Annotation>)
    requires Sorted(t)
    requires forall k :: 0 <= k < |t| ==> h.selectedTime <= t[k].selectedTime
    ensures Sorted([h] + t)
  {
    var r := [h] + t;
    forall i, j | 0 <= i < j < |r| ensures r[i].selectedTime <= r[j].selectedTime {
      assert r[j] == t[j - 1];
      if i > 0 {
        assert r[i] == t[i - 1];
      }
    }
  }

  /** The stable ascending sort of the selection by `selectedTime` (the
      comparator `a1.selectedTime - a2.selectedTime` of a stable array sort). */
  function SortByTime(s: seq<Annotation>): (r: seq<Annotation>)
    ensures Sorted(r)
    ensures multiset(r) == multiset(s)
    ensures |r| == |s|
  {
    if s == [] then []
    else
      assert s == [s[0]] + s[1..];
      InsertSorted(s[0], SortByTime(s[1..]));
      Insert(s[0], SortByTime(s[1..]))
  }

  /** The records of `s` selected at time `t`, in their order in `s`. */
  function SelectedAt(s: seq<Annotation>, t: int): seq<Annotation>
  {
    if s == [] then []
    else (if s[0].selectedTime == t then [s[0]] else []) + SelectedAt(s[1..], t)
  }

  lemma {:induction false} InsertSelectedAt(x: Annotation, s: seq<Annotation>, u: int)
    ensures SelectedAt(Insert(x, s), u) ==
            (if x.selectedTime == u then [x] else []) + SelectedAt(s, u)
  {
    if s == [] {
      SelectedAtCons(x, [], u);
    } else if x.selectedTime <= s[0].selectedTime {
      SelectedAtCons(x, s, u);
    } else {
      var rest := Insert(x, s[1..]);
      assert Insert(x, s) == [s[0]] + rest;
      InsertSelectedAt(x, s[1..], u);
      SelectedAtCons(s[0], rest, u);
      SelectedAtCons(s[0], s[1..], u);
      assert s == [s[0]] + s[1..];
      if x.selectedTime == u {
        assert SelectedAt(Insert(x, s), u) == SelectedAt(rest, u) == [x] + SelectedAt(s[1..], u);
        assert SelectedAt(s, u) == SelectedAt(s[1..], u);
      } else if s[0].selectedTime == u {
        assert SelectedAt(Insert(x, s), u) == [s[0]] + SelectedAt(rest, u);
        assert SelectedAt(rest, u) == SelectedAt(s[1..], u);
      } else {
        assert SelectedAt(Insert(x, s), u) == SelectedAt(rest, u) == SelectedAt(s[1..], u);
      }
    }
  }

  lemma SelectedAtCons(h: Annotation, t: seq<Annotation>, u: int)
    ensures SelectedAt([h] + t, u) == (if h.selectedTime == u then [h] else []) + SelectedAt(t, u)
  {
    assert ([h] + t)[1..] == t;
  }

  /** The sort is stable: records selected at the same time keep their order. */
  lemma {:induction false} SortIsStable(s: seq<Annotation>, t: int)
    ensures SelectedAt(SortByTime(s), t) == SelectedAt(s, t)
  {
    if s != [] {
      SortIsStable(s[1..], t);
      InsertSelectedAt(s[0], SortByTime(s[1..]), t);
    }
  }

  /** `first` and `second` are two entries of the selection, `first` selected no
      later than `second`, and every other entry selected no later than `first`. */
  ghost predicate LatestTwo(spans: seq<Annotation>, first: Annotation, second: Annotation)
  {
    && multiset{first, second} <= multiset(spans)
    && first.selectedTime <= second.selectedTime
    && forall x :: x in multiset(spans) - multiset{first, second} ==>
         x.selectedTime <= first.selectedTime
  }

  /** The relation endpoints: the last two entries of the sorted selection. */
  function Endpoints(spans: seq<Annotation>): (pair: (Annotation, Annotation))
    requires |spans| >= 2
    ensures LatestTwo(spans, pair.0, pair.1)
  {
    var sorted := SortByTime(spans);
    LastTwoOfSorted(sorted);
    (sorted[|sorted| - 2], sorted[|sorted| - 1])
  }

  lemma LastTwoOfSorted(sorted: seq<Annotation>)
    requires Sorted(sorted) && |sorted| >= 2
    ensures LatestTwo(sorted, sorted[|sorted| - 2], sorted[|sorted| - 1])
  {
    var n := |sorted|;
    var first, second := sorted[n - 2], sorted[n - 1];
    var front := sorted[..n - 2];
    MultisetOfLastTwo(sorted);
    assert multiset{first, second} <= multiset(sorted);
    assert multiset(sorted) - multiset{first, second} == multiset(front);
    FrontBefore(sorted);
  }

  lemma MultisetOfLastTwo(s: seq<Annotation>)
    requires |s| >= 2
    ensures multiset(s) == multiset(s[..|s| - 2]) + multiset{s[|s| - 2], s[|s| - 1]}
  {
    assert s == s[..|s| - 2] + [s[|s| - 2], s[|s| - 1]];
  }

  lemma FrontBefore(sorted: seq<Annotation>)
    requires Sorted(sorted) && |sorted| >= 2
    ensures forall x :: x in multiset(sorted[..|sorted| - 2]) ==>
              x.selectedTime <= sorted[|sorted| - 2].selectedTime
  {
    var n := |sorted|;
    forall x: Annotation | x in multiset(sorted[..n - 2])
      ensures x.selectedTime <= sorted[n - 2].selectedTime
    {
      var i :| 0 <= i < n - 2 && sorted[..n - 2][i] == x;
      assert sorted[i] == x;
    }
  }

  /** No two entries of the selection were selected at the same time. */
  predicate DistinctTimes(s: seq<Annotation>)
  {
    forall i, j :: 0 <= i < |s| && 0 <= j < |s| && i != j ==> s[i].selectedTime != s[j].selectedTime
  }

  lemma {:induction false} DistinctTimesOnce(s: seq<Annotation>, x: Annotation)
    requires DistinctTimes(s)
    ensures multiset(s)[x] <= 1
  {
    if s != [] {
      assert s == [s[0]] + s[1..];
      assert DistinctTimes(s[1..]) by {
        forall i, j | 0 <= i < |s[1..]| && 0 <= j < |s[1..]| && i != j
          ensures s[1..][i].selectedTime != s[1..][j].selectedTime
        {
          assert s[1..][i] == s[i + 1] && s[1..][j] == s[j + 1];
        }
      }
      DistinctTimesOnce(s[1..], x);
      if x in s[1..] {
        var j :| 0 <= j < |s[1..]| && s[1..][j] == x;
        assert s[j + 1] == x && s[0].selectedTime != s[j + 1].selectedTime;
      }
    }
  }

  /** With distinct selection times, the endpoints are exactly the two spans
      selected last: every other selected span was selected strictly earlier. */
  lemma EndpointsAreLatest(spans: seq<Annotation>)
    requires |spans| >= 2 && DistinctTimes(spans)
    ensures var (first, second) := Endpoints(spans);
      && first in spans && second in spans
      && first.selectedTime < second.selectedTime
      && forall x :: x in spans && x != first && x != second ==>
           x.selectedTime < first.selectedTime
  {
    var (first, second) := Endpoints(spans);
    assert first in multiset(spans) && second in multiset(spans);
    DistinctTimesOnce(spans, first);
    assert first != second;
    var i :| 0 <= i < |spans| && spans[i] == first;
    var j :| 0 <= j < |spans| && spans[j] == second;
    assert i != j;
    forall x | x in spans && x != first && x != second
      ensures x.selectedTime < first.selectedTime
    {
      assert x in multiset(spans) - multiset{first, second};
      var k :| 0 <= k < |spans| && spans[k] == x;
      assert k != i;
    }
  }

  /** Equal selection times mean equal records. */
  predicate TimeDeterminesRecord(s: seq<Annotation>)
  {
    forall i, j :: 0 <= i < |s| && 0 <= j < |s| && s[i].selectedTime == s[j].selectedTime ==> s[i] == s[j]
  }

  /** Two sorted orderings of the same entries are equal when equal selection
      times mean equal records. */
  lemma {:induction false} SortedUnique(a: seq<Annotation>, b: seq<Annotation>)
    requires Sorted(a) && Sorted(b) && multiset(a) == multiset(b)
    requires TimeDeterminesRecord(a)
    ensures a == b
  {
    if a != [] {
      assert |b| == |a| by {
        assert |a| == |multiset(a)| == |multiset(b)| == |b|;
      }
      SameHead(a, b);
      SameTail(a, b);
      TailKeepsOrder(a);
      TailKeepsOrder(b);
      SortedUnique(a[1..], b[1..]);
      assert a == [a[0]] + a[1..] && b == [b[0]] + b[1..];
    }
  }

  lemma SameTail(a: seq<Annotation>, b: seq<Annotation>)
    requires a != [] && b != [] && a[0] == b[0] && multiset(a) == multiset(b)
    ensures multiset(a[1..]) == multiset(b[1..])
  {
    MultisetOfHead(a);
    MultisetOfHead(b);
    assert multiset(a[1..]) == multiset(a) - multiset{a[0]};
    assert multiset(b[1..]) == multiset(b) - multiset{b[0]};
  }

  lemma TailKeepsOrder(a: seq<Annotation>)
    requires a != [] && Sorted(a)
    ensures Sorted(a[1..])
    ensures TimeDeterminesRecord(a) ==> TimeDeterminesRecord(a[1..])
  {
    assert forall i :: 0 <= i < |a[1..]| ==> a[1..][i] == a[i + 1];
  }

  lemma MultisetOfHead(s: seq<Annotation>)
    requires s != []
    ensures multiset(s) == multiset{s[0]} + multiset(s[1..])
  {
    assert s == [s[0]] + s[1..];
  }

  lemma SameHead(a: seq<Annotation>, b: seq<Annotation>)
    requires Sorted(a) && Sorted(b) && multiset(a) == multiset(b) && a != [] && b != []
    requires TimeDeterminesRecord(a)
    ensures a[0] == b[0]
  {
    assert b[0] in multiset(a) && a[0] in multiset(b);
    var i :| 0 <= i < |a| && a[i] == b[0];
    var j :| 0 <= j < |b| && b[j] == a[0];
    assert a[0].selectedTime <= a[i].selectedTime;
    assert b[0].selectedTime <= b[j].selectedTime;
  }

  /** With distinct selection times the endpoints do not depend on the order in
      which the selection lists the spans. */
  lemma EndpointsIgnoreOrder(s1: seq<Annotation>, s2: seq<Annotation>)
    requires |s1| >= 2 && DistinctTimes(s1) && multiset(s1) == multiset(s2)
    ensures |s2| >= 2 && Endpoints(s1) == Endpoints(s2)
  {
    assert |s2| == |multiset(s2)| == |multiset(s1)| == |s1|;
    var a, b := SortByTime(s1), SortByTime(s2);
    forall i, j | 0 <= i < |a| && 0 <= j < |a| && a[i].selectedTime == a[j].selectedTime
      ensures a[i] == a[j]
    {
      assert a[i] in multiset(s1) && a[j] in multiset(s1);
      var i' :| 0 <= i' < |s1| && s1[i'] == a[i];
      var j' :| 0 <= j' < |s1| && s1[j'] == a[j];
    }
    SortedUnique(a, b);
  }

  lemma {:induction false} InsertKeepsUniqueIds(x: Annotation, s: seq<Annotation>)
    requires UniqueIds(s) && forall y :: y in s ==> y.uuid != x.uuid
    ensures UniqueIds(Insert(x, s))
  {
    if s == [] {
    } else if x.selectedTime <= s[0].selectedTime {
      HeadUniqueIds([x], s);
    } else {
      var rest := Insert(x, s[1..]);
      assert Insert(x, s) == [s[0]] + rest;
      assert UniqueIds(s[1..]) by {
        assert forall i :: 0 <= i < |s[1..]| ==> s[1..][i] == s[i + 1];
      }
      InsertKeepsUniqueIds(x, s[1..]);
      forall y | y in rest ensures s[0].uuid != y.uuid {
        assert y in multiset(rest);
        if y != x {
          assert y in s[1..];
          var m :| 0 <= m < |s[1..]| && s[1..][m] == y;
          assert s[m + 1] == y;
        }
      }
      HeadUniqueIds([s[0]], rest);
    }
  }

  /** Sorting reorders the selection without duplicating an id. */
  lemma {:induction false} SortKeepsUniqueIds(s: seq<Annotation>)
    requires UniqueIds(s)
    ensures UniqueIds(SortByTime(s))
  {
    if s != [] {
      assert UniqueIds(s[1..]) by {
        assert forall i :: 0 <= i < |s[1..]| ==> s[1..][i] == s[i + 1];
      }
      SortKeepsUniqueIds(s[1..]);
      var sorted := SortByTime(s[1..]);
      forall y | y in sorted ensures y.uuid != s[0].uuid {
        assert y in multiset(s[1..]);
        var m :| 0 <= m < |s[1..]| && s[1..][m] == y;
        assert s[m + 1] == y;
      }
      InsertKeepsUniqueIds(s[0], sorted);
    }
  }

  /** With unique ids the two endpoints are two different spans. */
  lemma EndpointsDistinct(annos: seq<Annotation>)
    requires UniqueIds(annos) && |SelectedSpans(annos)| >= 2
    ensures Endpoints(SelectedSpans(annos)).0.uuid != Endpoints(SelectedSpans(annos)).1.uuid
  {
    SelectedSpansUniqueIds(annos);
    SortKeepsUniqueIds(SelectedSpans(annos));
  }

  /** The endpoints are selected spans of the container. */
  lemma EndpointsAreSelectedSpans(annos: seq<Annotation>)
    requires |SelectedSpans(annos)| >= 2
    ensures var (first, second) := Endpoints(SelectedSpans(annos));
      && first in annos && first.Span? && first.selected
      && second in annos && second.Span? && second.selected
  {
    var (first, second) := Endpoints(SelectedSpans(annos));
    assert first in multiset(SelectedSpans(annos));
    assert second in multiset(SelectedSpans(annos));
  }

  /** Records that are not selected spans do not affect the selected spans. */
  lemma {:induction false} SelectedSpansAgree(s: seq<Annotation>, t: seq<Annotation>)
    requires |s| == |t|
    requires forall k :: 0 <= k < |s| && ((s[k].selected && s[k].Span?) || (t[k].selected && t[k].Span?)) ==> s[k] == t[k]
    ensures SelectedSpans(s) == SelectedSpans(t)
  {
    if s != [] {
      assert forall k :: 0 <= k < |s[1..]| ==> s[1..][k] == s[k + 1] && t[1..][k] == t[k + 1];
      SelectedSpansAgree(s[1..], t[1..]);
    }
  }

  lemma {:induction false} SelectedSpansAppend(s: seq<Annotation>, a: Annotation)
    ensures SelectedSpans(s + [a]) == SelectedSpans(s) + (if a.selected && a.Span? then [a] else [])
  {
    if s == [] {
      assert SelectedSpans([a]) == (if a.selected && a.Span? then [a] else []) + SelectedSpans([]);
    } else {
      assert (s + [a])[1..] == s[1..] + [a];
      SelectedSpansAppend(s[1..], a);
    }
  }

  lemma {:induction false} SelectedRelationsAppend(s: seq<Annotation>, a: Annotation)
    ensures SelectedRelations(s + [a]) == SelectedRelations(s) + (if a.selected && a.Relation? then [a] else [])
  {
    if s == [] {
      assert SelectedRelations([a]) == (if a.selected && a.Relation? then [a] else []) + SelectedRelations([]);
    } else {
      assert (s + [a])[1..] == s[1..] + [a];
      SelectedRelationsAppend(s[1..], a);
    }
  }
}
