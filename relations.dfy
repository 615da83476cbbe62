/** What `createRelation` decides: edit the selected relations, reject, update
    the relation that already joins the two chosen spans, or create a new one. */
module RelationResolver {
  import opened AnnotationModel
  import opened Selection

  const TwoSpansMessage: string :=
    "Two annotated text spans are not selected.\nTo select multiple annotated spans, click the first annotated span, then Ctrl+Click (Windows) or Cmd+Click (OSX) the second span."

  /** The duplicate test: both endpoints of `r` lie in {a, b}. */
  predicate Connects(r: Annotation, a: Uuid, b: Uuid)
  {
    r.Relation? && (r.rel1 == a || r.rel1 == b) && (r.rel2 == a || r.rel2 == b)
  }

  /** The position of the first relation that joins `a` and `b`, if any. */
  function FirstMatch(annos: seq<Annotation>, a: Uuid, b: Uuid): (r: Option<nat>)
    ensures r.Some? ==> r.value < |annos| && Connects(annos[r.value], a, b)
    ensures r.Some? ==> forall k :: 0 <= k < r.value ==> !Connects(annos[k], a, b)
    ensures r.None? ==> forall k :: 0 <= k < |annos| ==> !Connects(annos[k], a, b)
  {
    if annos == [] then None
    else if Connects(annos[0], a, b) then Some(0)
    else match FirstMatch(annos[1..], a, b)
      case None => None
      case Some(k) => Some(k + 1)
  }

  /** `color || previous`: a missing or empty colour keeps the previous one. */
  function MergeColor(color: Option<string>, previous: Option<string>): Option<string>
  {
    if color.Some? && color.value != "" then color else previous
  }

  /** The edit applied to a directly selected relation of the requested type. */
  function EditRelation(a: Annotation, direction: string, text: Option<string>, color: Option<string>): Annotation
  {
    if a.Relation? && a.selected && a.direction == direction then a.(text := text, color := color) else a
  }

  function EditSelectedRelations(annos: seq<Annotation>, direction: string,
                                 text: Option<string>, color: Option<string>): seq<Annotation>
  {
    seq(|annos|, k requires 0 <= k < |annos| => EditRelation(annos[k], direction, text, color))
  }

  /** The update of the duplicate relation found for the endpoints `first`, `second`. */
  function Rewire(r: Annotation, direction: string, first: Uuid, second: Uuid,
                  text: Option<string>, color: Option<string>): Annotation
    requires r.Relation?
  {
    r.(direction := direction, rel1 := first, rel2 := second, text := text,
       color := MergeColor(color, r.color))
  }

  /** The relation the viewer creates for the endpoints; it starts unselected. */
  function NewRelation(uuid: Uuid, direction: string, first: Uuid, second: Uuid,
                       text: Option<string>, color: Option<string>): Annotation
  {
    Relation(uuid, false, 0, direction, first, second, text, color)
  }

  /** `createRelation({type: direction, text, color})`; `newUuid` is the id the
      viewer gives a relation it creates. */
  function ResolveRelation(annos: seq<Annotation>, direction: string, text: Option<string>,
                           color: Option<string>, newUuid: Uuid): Step
  {
    if |SelectedRelations(annos)| > 0 then
      Step(Updated, EditSelectedRelations(annos, direction, text, color))
    else if |SelectedSpans(annos)| < 2 then
      Step(Rejected(TwoSpansMessage), annos)
    else
      var (first, second) := Endpoints(SelectedSpans(annos));
      ResolvePair(annos, first.uuid, second.uuid, direction, text, color, newUuid)
  }

  /** The duplicate check and its two outcomes, once the endpoints are chosen. */
  function ResolvePair(annos: seq<Annotation>, first: Uuid, second: Uuid, direction: string,
                       text: Option<string>, color: Option<string>, newUuid: Uuid): Step
  {
    match FirstMatch(annos, first, second)
    case Some(k) => Step(Updated, annos[k := Rewire(annos[k], direction, first, second, text, color)])
    case None => Step(Created, annos + [NewRelation(newUuid, direction, first, second, text, color)])
  }

  /** Resolution goes on to the endpoints only when no relation is selected and
      at least two spans are. */
  predicate ResolvesEndpoints(annos: seq<Annotation>)
  {
    |SelectedRelations(annos)| == 0 && |SelectedSpans(annos)| >= 2
  }

  // ---------------------------------------------------------------------------
  // The editing of directly selected relations

  /** With a relation selected, only selected relations of the requested type get
      the new text and colour; nothing is created and no span changes, even when
      no selected relation has that type. */
  lemma ResolveEditsSelectedRelations(annos: seq<Annotation>, direction: string, text: Option<string>,
                                      color: Option<string>, newUuid: Uuid)
    requires |SelectedRelations(annos)| > 0
    ensures var r := ResolveRelation(annos, direction, text, color, newUuid);
      && r.outcome == Updated
      && |r.annotations| == |annos|
      && forall k :: 0 <= k < |annos| ==>
           if annos[k].Relation? && annos[k].selected && annos[k].direction == direction
           then r.annotations[k] == annos[k].(text := text, color := color)
           else r.annotations[k] == annos[k]
  {
  }

  // ---------------------------------------------------------------------------
  // Rejection

  /** The call is rejected exactly when no relation and fewer than two spans are
      selected, and a rejected call leaves every record as it was. */
  lemma ResolveRejects(annos: seq<Annotation>, direction: string, text: Option<string>,
                       color: Option<string>, newUuid: Uuid)
    ensures var r := ResolveRelation(annos, direction, text, color, newUuid);
      && (r.outcome.Rejected? <==> |SelectedRelations(annos)| == 0 && |SelectedSpans(annos)| < 2)
      && (r.outcome.Rejected? ==> r.annotations == annos && r.outcome.message == TwoSpansMessage)
  {
    var r := ResolveRelation(annos, direction, text, color, newUuid);
    if ResolvesEndpoints(annos) {
      var (first, second) := Endpoints(SelectedSpans(annos));
      match FirstMatch(annos, first.uuid, second.uuid)
      case Some(k) =>
      case None =>
    }
  }

  // ---------------------------------------------------------------------------
  // The endpoints, duplicate detection, update and creation

  /** Duplicate detection does not care which of the two spans came first. */
  lemma ConnectsSymmetric(annos: seq<Annotation>, a: Uuid, b: Uuid)
    ensures FirstMatch(annos, a, b) == FirstMatch(annos, b, a)
  {
    var m, n := FirstMatch(annos, a, b), FirstMatch(annos, b, a);
    assert forall k :: 0 <= k < |annos| ==> (Connects(annos[k], a, b) <==> Connects(annos[k], b, a));
    if m.Some? && n.Some? {
      assert !(m.value < n.value) && !(n.value < m.value);
    }
  }

  /** For a relation between two different spans the duplicate test is the
      same as asking that its endpoints be exactly the pair {a, b}. */
  lemma ConnectsIsPair(r: Annotation, a: Uuid, b: Uuid)
    requires r.Relation? && r.rel1 != r.rel2
    ensures Connects(r, a, b) <==> {r.rel1, r.rel2} == {a, b}
  {
    if {r.rel1, r.rel2} == {a, b} {
      assert r.rel1 in {a, b} && r.rel2 in {a, b};
    }
    if Connects(r, a, b) {
      assert a in {r.rel1, r.rel2} && b in {r.rel1, r.rel2};
    }
  }

  lemma ResolveIsPair(annos: seq<Annotation>, direction: string, text: Option<string>,
                      color: Option<string>, newUuid: Uuid)
    requires ResolvesEndpoints(annos)
    ensures var (first, second) := Endpoints(SelectedSpans(annos));
      ResolveRelation(annos, direction, text, color, newUuid) ==
      ResolvePair(annos, first.uuid, second.uuid, direction, text, color, newUuid)
  {
  }

  /** A relation joining the two endpoints, in either order, is updated in place. */
  lemma PairUpdates(annos: seq<Annotation>, first: Uuid, second: Uuid, direction: string,
                    text: Option<string>, color: Option<string>, newUuid: Uuid)
    requires FirstMatch(annos, first, second).Some?
    ensures var k := FirstMatch(annos, first, second).value;
      var r := ResolvePair(annos, first, second, direction, text, color, newUuid);
      && r.outcome == Updated
      && |r.annotations| == |annos|
      && annos[k].Relation? && r.annotations[k].Relation?
      && {annos[k].rel1, annos[k].rel2} <= {first, second}
      && r.annotations[k].uuid == annos[k].uuid
      && r.annotations[k].selected == annos[k].selected
      && r.annotations[k].direction == direction
      && r.annotations[k].rel1 == first && r.annotations[k].rel2 == second
      && r.annotations[k].text == text
      && r.annotations[k].color == (if color.Some? && color.value != "" then color else annos[k].color)
      && (forall j :: 0 <= j < |annos| && j != k ==> r.annotations[j] == annos[j])
  {
  }

  /** Without such a relation, exactly one new relation is appended. */
  lemma PairCreates(annos: seq<Annotation>, first: Uuid, second: Uuid, direction: string,
                    text: Option<string>, color: Option<string>, newUuid: Uuid)
    requires FirstMatch(annos, first, second).None?
    ensures var r := ResolvePair(annos, first, second, direction, text, color, newUuid);
      && r.outcome == Created
      && |r.annotations| == |annos| + 1
      && r.annotations[..|annos|] == annos
      && r.annotations[|annos|] == Relation(newUuid, false, 0, direction, first, second, text, color)
      && (forall k :: 0 <= k < |annos| ==>
            !(annos[k].Relation? && {annos[k].rel1, annos[k].rel2} <= {first, second}))
  {
    var r := ResolvePair(annos, first, second, direction, text, color, newUuid);
    assert r.annotations[..|annos|] == annos;
    forall k | 0 <= k < |annos| ensures !(annos[k].Relation? && {annos[k].rel1, annos[k].rel2} <= {first, second}) {
      assert !Connects(annos[k], first, second);
    }
  }

  /** Either way the resulting relation points from `first` to `second` and has
      the requested type and text. */
  lemma PairJoins(annos: seq<Annotation>, first: Uuid, second: Uuid, direction: string,
                  text: Option<string>, color: Option<string>, newUuid: Uuid)
    ensures var r := ResolvePair(annos, first, second, direction, text, color, newUuid);
      exists k :: 0 <= k < |r.annotations| && r.annotations[k].Relation?
        && r.annotations[k].rel1 == first && r.annotations[k].rel2 == second
        && r.annotations[k].direction == direction && r.annotations[k].text == text
  {
    var r := ResolvePair(annos, first, second, direction, text, color, newUuid);
    match FirstMatch(annos, first, second)
    case Some(k) =>
      PairUpdates(annos, first, second, direction, text, color, newUuid);
    case None =>
      PairCreates(annos, first, second, direction, text, color, newUuid);
      assert r.annotations[|annos|].rel1 == first;
  }

  /** When a relation already joins the two chosen spans, in either order, the
      first such relation is updated in place: it keeps its uuid and position,
      takes the new type and text, points from `first` to `second`, and keeps
      its colour unless a non-empty one is given. No other record changes and
      nothing is created. */
  lemma ResolveUpdatesDuplicate(annos: seq<Annotation>, direction: string, text: Option<string>,
                                color: Option<string>, newUuid: Uuid)
    requires ResolvesEndpoints(annos)
    requires var (first, second) := Endpoints(SelectedSpans(annos));
      FirstMatch(annos, first.uuid, second.uuid).Some?
    ensures var (first, second) := Endpoints(SelectedSpans(annos));
      var k := FirstMatch(annos, first.uuid, second.uuid).value;
      var r := ResolveRelation(annos, direction, text, color, newUuid);
      && r.outcome == Updated
      && |r.annotations| == |annos|
      && annos[k].Relation? && r.annotations[k].Relation?
      && {annos[k].rel1, annos[k].rel2} <= {first.uuid, second.uuid}
      && r.annotations[k].uuid == annos[k].uuid
      && r.annotations[k].selected == annos[k].selected
      && r.annotations[k].direction == direction
      && r.annotations[k].rel1 == first.uuid && r.annotations[k].rel2 == second.uuid
      && r.annotations[k].text == text
      && r.annotations[k].color == (if color.Some? && color.value != "" then color else annos[k].color)
      && (forall j :: 0 <= j < |annos| && j != k ==> r.annotations[j] == annos[j])
  {
    var (first, second) := Endpoints(SelectedSpans(annos));
    ResolveIsPair(annos, direction, text, color, newUuid);
    PairUpdates(annos, first.uuid, second.uuid, direction, text, color, newUuid);
  }

  /** When no relation joins the two chosen spans, exactly one relation is added,
      from `first` to `second`, with the given type, text and colour. */
  lemma ResolveCreatesRelation(annos: seq<Annotation>, direction: string, text: Option<string>,
                               color: Option<string>, newUuid: Uuid)
    requires ResolvesEndpoints(annos)
    requires var (first, second) := Endpoints(SelectedSpans(annos));
      FirstMatch(annos, first.uuid, second.uuid).None?
    ensures var (first, second) := Endpoints(SelectedSpans(annos));
      var r := ResolveRelation(annos, direction, text, color, newUuid);
      && r.outcome == Created
      && |r.annotations| == |annos| + 1
      && r.annotations[..|annos|] == annos
      && r.annotations[|annos|] == Relation(newUuid, false, 0, direction, first.uuid, second.uuid, text, color)
      && (forall k :: 0 <= k < |annos| ==>
            !(annos[k].Relation? && {annos[k].rel1, annos[k].rel2} <= {first.uuid, second.uuid}))
  {
    var (first, second) := Endpoints(SelectedSpans(annos));
    ResolveIsPair(annos, direction, text, color, newUuid);
    PairCreates(annos, first.uuid, second.uuid, direction, text, color, newUuid);
  }

  /** The relation that results joins the two most recently selected spans: the
      older one is its source, the newer one its target, and every other
      selected span was selected no later than the source. */
  lemma ResolveJoinsLatestTwo(annos: seq<Annotation>, direction: string, text: Option<string>,
                              color: Option<string>, newUuid: Uuid)
    requires ResolvesEndpoints(annos)
    ensures var r := ResolveRelation(annos, direction, text, color, newUuid);
      exists first, second, k ::
        && LatestTwo(SelectedSpans(annos), first, second)
        && 0 <= k < |r.annotations| && r.annotations[k].Relation?
        && r.annotations[k].rel1 == first.uuid && r.annotations[k].rel2 == second.uuid
        && r.annotations[k].direction == direction && r.annotations[k].text == text
  {
    var (first, second) := Endpoints(SelectedSpans(annos));
    ResolveIsPair(annos, direction, text, color, newUuid);
    PairJoins(annos, first.uuid, second.uuid, direction, text, color, newUuid);
  }

  /** With distinct selection times the relation joins exactly the two spans
      selected last, whatever order the selection lists them in. */
  lemma ResolveWithDistinctTimes(annos: seq<Annotation>, direction: string, text: Option<string>,
                                 color: Option<string>, newUuid: Uuid)
    requires ResolvesEndpoints(annos) && DistinctTimes(SelectedSpans(annos))
    ensures var r := ResolveRelation(annos, direction, text, color, newUuid);
      exists first, second, k ::
        && first in annos && first.Span? && first.selected
        && second in annos && second.Span? && second.selected
        && first.selectedTime < second.selectedTime
        && (forall x :: x in SelectedSpans(annos) && x != first && x != second ==>
              x.selectedTime < first.selectedTime)
        && 0 <= k < |r.annotations| && r.annotations[k].Relation?
        && r.annotations[k].rel1 == first.uuid && r.annotations[k].rel2 == second.uuid
  {
    var (first, second) := Endpoints(SelectedSpans(annos));
    EndpointsAreLatest(SelectedSpans(annos));
    EndpointsAreSelectedSpans(annos);
    ResolveIsPair(annos, direction, text, color, newUuid);
    PairJoins(annos, first.uuid, second.uuid, direction, text, color, newUuid);
  }

  /** Selecting the two spans of an existing relation in the opposite order
      updates that relation in place, under the same uuid, rather than adding a
      second one (given unique ids and at most one relation per span pair). */
  lemma ReversedSelectionUpdatesSameRelation(annos: seq<Annotation>, k: nat, direction: string,
                                             text: Option<string>, color: Option<string>, newUuid: Uuid)
    requires WellFormed(annos) && OnePerPair(annos) && ResolvesEndpoints(annos)
    requires var (first, second) := Endpoints(SelectedSpans(annos));
      k < |annos| && annos[k].Relation? && annos[k].rel1 == second.uuid && annos[k].rel2 == first.uuid
    ensures var (first, second) := Endpoints(SelectedSpans(annos));
      var r := ResolveRelation(annos, direction, text, color, newUuid);
      && r.outcome == Updated
      && |r.annotations| == |annos|
      && r.annotations[k].uuid == annos[k].uuid
      && r.annotations[k].Relation?
      && r.annotations[k].rel1 == first.uuid && r.annotations[k].rel2 == second.uuid
      && r.annotations[k].direction == direction
  {
    var (first, second) := Endpoints(SelectedSpans(annos));
    EndpointsDistinct(annos);
    ResolveIsPair(annos, direction, text, color, newUuid);
    PairReversedUpdates(annos, k, first.uuid, second.uuid, direction, text, color, newUuid);
  }

  lemma PairReversedUpdates(annos: seq<Annotation>, k: nat, first: Uuid, second: Uuid, direction: string,
                            text: Option<string>, color: Option<string>, newUuid: Uuid)
    requires EndpointsValid(annos) && OnePerPair(annos) && first != second
    requires k < |annos| && annos[k].Relation? && annos[k].rel1 == second && annos[k].rel2 == first
    ensures var r := ResolvePair(annos, first, second, direction, text, color, newUuid);
      && r.outcome == Updated
      && |r.annotations| == |annos|
      && r.annotations[k].uuid == annos[k].uuid
      && r.annotations[k].Relation?
      && r.annotations[k].rel1 == first && r.annotations[k].rel2 == second
      && r.annotations[k].direction == direction
  {
    OnlyMatch(annos, k, first, second);
  }

  /** With unique pairs, a relation joining two distinct spans is the first match. */
  lemma OnlyMatch(annos: seq<Annotation>, k: nat, a: Uuid, b: Uuid)
    requires EndpointsValid(annos) && OnePerPair(annos) && a != b
    requires k < |annos| && annos[k].Relation? && {annos[k].rel1, annos[k].rel2} == {a, b}
    ensures FirstMatch(annos, a, b) == Some(k)
  {
    assert Connects(annos[k], a, b) by {
      assert annos[k].rel1 in {a, b} && annos[k].rel2 in {a, b};
    }
    forall j | 0 <= j < k ensures !Connects(annos[j], a, b) {
      if annos[j].Relation? {
        assert {annos[j].rel1, annos[j].rel2} != {annos[k].rel1, annos[k].rel2};
      }
    }
    FirstMatchIs(annos, a, b, k);
  }

  // ---------------------------------------------------------------------------
  // Invariants

  lemma EditKeepsShape(annos: seq<Annotation>, direction: string, text: Option<string>, color: Option<string>)
    ensures var e := EditSelectedRelations(annos, direction, text, color);
      |e| == |annos| && forall k :: 0 <= k < |annos| ==> SameShape(annos[k], e[k])
  {
  }

  /** Resolution keeps the ids unique and every relation joining two distinct
      spans of the container, if the id given to a new relation is unused. */
  lemma ResolveKeepsWellFormed(annos: seq<Annotation>, direction: string, text: Option<string>,
                               color: Option<string>, newUuid: Uuid)
    requires WellFormed(annos) && newUuid !in Uuids(annos)
    ensures WellFormed(ResolveRelation(annos, direction, text, color, newUuid).annotations)
  {
    var r := ResolveRelation(annos, direction, text, color, newUuid);
    if |SelectedRelations(annos)| > 0 {
      EditKeepsShape(annos, direction, text, color);
      SameShapeKeepsInvariants(annos, r.annotations);
    } else if |SelectedSpans(annos)| >= 2 {
      var (first, second) := Endpoints(SelectedSpans(annos));
      EndpointsDistinct(annos);
      EndpointsAreSelectedSpans(annos);
      assert first.uuid in SpanIds(annos) && second.uuid in SpanIds(annos);
      match FirstMatch(annos, first.uuid, second.uuid)
      case Some(k) =>
        RewireKeepsWellFormed(annos, k, Rewire(annos[k], direction, first.uuid, second.uuid, text, color));
      case None =>
        var n := NewRelation(newUuid, direction, first.uuid, second.uuid, text, color);
        AddKeepsUniqueIds(annos, n);
        AppendRelationKeepsEndpoints(annos, n);
    }
  }

  lemma RewireKeepsWellFormed(annos: seq<Annotation>, k: nat, b: Annotation)
    requires WellFormed(annos) && k < |annos| && annos[k].Relation?
    requires b.Relation? && b.uuid == annos[k].uuid
    requires b.rel1 != b.rel2 && b.rel1 in SpanIds(annos) && b.rel2 in SpanIds(annos)
    ensures WellFormed(annos[k := b])
  {
    var t := annos[k := b];
    assert SpanIds(t) == SpanIds(annos) && Uuids(t) == Uuids(annos) by {
      forall id | id in SpanIds(t) ensures id in SpanIds(annos) {
        var a :| a in t && a.Span? && a.uuid == id;
        var j :| 0 <= j < |t| && t[j] == a;
        assert j != k && annos[j] in annos;
      }
      forall id | id in SpanIds(annos) ensures id in SpanIds(t) {
        var a :| a in annos && a.Span? && a.uuid == id;
        var j :| 0 <= j < |annos| && annos[j] == a;
        assert j != k && t[j] in t;
      }
      forall id | id in Uuids(t) ensures id in Uuids(annos) {
        var a :| a in t && a.uuid == id;
        var j :| 0 <= j < |t| && t[j] == a;
        assert annos[j] in annos;
      }
      forall id | id in Uuids(annos) ensures id in Uuids(t) {
        var a :| a in annos && a.uuid == id;
        var j :| 0 <= j < |annos| && annos[j] == a;
        assert t[j] in t;
      }
    }
    forall a | a in t && a.Relation?
      ensures a.rel1 != a.rel2 && a.rel1 in SpanIds(t) && a.rel2 in SpanIds(t)
    {
      var j :| 0 <= j < |t| && t[j] == a;
      if j != k {
        assert annos[j] in annos;
      }
    }
  }

  lemma AppendRelationKeepsEndpoints(annos: seq<Annotation>, n: Annotation)
    requires EndpointsValid(annos)
    requires n.Relation? && n.rel1 != n.rel2 && n.rel1 in SpanIds(annos) && n.rel2 in SpanIds(annos)
    ensures EndpointsValid(annos + [n])
  {
    var t := annos + [n];
    assert SpanIds(t) == SpanIds(annos) by {
      assert forall a :: a in t <==> a in annos || a == n;
    }
    forall a | a in t && a.Relation?
      ensures a.rel1 != a.rel2 && a.rel1 in SpanIds(t) && a.rel2 in SpanIds(t)
    {
      assert a in annos || a == n;
    }
  }

  /** Re-pointing a relation at the same unordered pair keeps pairs unique. */
  lemma UpdateKeepsOnePerPair(annos: seq<Annotation>, k: nat, b: Annotation)
    requires OnePerPair(annos) && k < |annos| && annos[k].Relation?
    requires b.Relation? && {b.rel1, b.rel2} == {annos[k].rel1, annos[k].rel2}
    ensures OnePerPair(annos[k := b])
  {
    var t := annos[k := b];
    forall i, j | 0 <= i < j < |t| && t[i].Relation? && t[j].Relation?
      ensures {t[i].rel1, t[i].rel2} != {t[j].rel1, t[j].rel2}
    {
      assert annos[i].Relation? && annos[j].Relation?;
    }
  }

  /** Appending a relation over a pair no relation joins yet keeps pairs unique. */
  lemma AppendKeepsOnePerPair(annos: seq<Annotation>, n: Annotation)
    requires OnePerPair(annos) && n.Relation?
    requires forall k :: 0 <= k < |annos| && annos[k].Relation? ==>
      {annos[k].rel1, annos[k].rel2} != {n.rel1, n.rel2}
    ensures OnePerPair(annos + [n])
  {
    var t := annos + [n];
    forall i, j | 0 <= i < j < |t| && t[i].Relation? && t[j].Relation?
      ensures {t[i].rel1, t[i].rel2} != {t[j].rel1, t[j].rel2}
    {
      assert t[i] == annos[i];
      if j < |annos| {
        assert t[j] == annos[j];
      }
    }
  }

  lemma PairKeepsOnePerPair(annos: seq<Annotation>, first: Uuid, second: Uuid, direction: string,
                            text: Option<string>, color: Option<string>, newUuid: Uuid)
    requires EndpointsValid(annos) && OnePerPair(annos) && first != second
    ensures OnePerPair(ResolvePair(annos, first, second, direction, text, color, newUuid).annotations)
  {
    match FirstMatch(annos, first, second)
    case Some(k) =>
      assert annos[k] in annos;
      assert annos[k].rel1 in {first, second} && annos[k].rel2 in {first, second};
      UpdateKeepsOnePerPair(annos, k, Rewire(annos[k], direction, first, second, text, color));
    case None =>
      var n := NewRelation(newUuid, direction, first, second, text, color);
      forall k | 0 <= k < |annos| && annos[k].Relation?
        ensures {annos[k].rel1, annos[k].rel2} != {n.rel1, n.rel2}
      {
        assert !Connects(annos[k], first, second);
        assert annos[k].rel1 in {annos[k].rel1, annos[k].rel2};
        assert annos[k].rel2 in {annos[k].rel1, annos[k].rel2};
      }
      AppendKeepsOnePerPair(annos, n);
  }

  /** From a well-formed container with at most one relation per pair, resolution
      keeps at most one relation per pair. */
  lemma ResolveKeepsOnePerPair(annos: seq<Annotation>, direction: string, text: Option<string>,
                               color: Option<string>, newUuid: Uuid)
    requires WellFormed(annos) && OnePerPair(annos)
    ensures OnePerPair(ResolveRelation(annos, direction, text, color, newUuid).annotations)
  {
    var r := ResolveRelation(annos, direction, text, color, newUuid);
    if |SelectedRelations(annos)| > 0 {
      EditKeepsShape(annos, direction, text, color);
      SameShapeKeepsInvariants(annos, r.annotations);
    } else if |SelectedSpans(annos)| >= 2 {
      var (first, second) := Endpoints(SelectedSpans(annos));
      EndpointsDistinct(annos);
      ResolveIsPair(annos, direction, text, color, newUuid);
      PairKeepsOnePerPair(annos, first.uuid, second.uuid, direction, text, color, newUuid);
    }
  }

  /** Both container invariants at once, as implications. */
  lemma ResolveKeepsInvariants(annos: seq<Annotation>, direction: string, text: Option<string>,
                               color: Option<string>, newUuid: Uuid)
    ensures var r := ResolveRelation(annos, direction, text, color, newUuid).annotations;
      && (WellFormed(annos) && newUuid !in Uuids(annos) ==> WellFormed(r))
      && (WellFormed(annos) && OnePerPair(annos) ==> OnePerPair(r))
  {
    if WellFormed(annos) && newUuid !in Uuids(annos) {
      ResolveKeepsWellFormed(annos, direction, text, color, newUuid);
    }
    if WellFormed(annos) && OnePerPair(annos) {
      ResolveKeepsOnePerPair(annos, direction, text, color, newUuid);
    }
  }

  // ---------------------------------------------------------------------------
  // Repeating the call

  /** The first match is pinned down by its defining property. */
  lemma FirstMatchIs(annos: seq<Annotation>, a: Uuid, b: Uuid, k: nat)
    requires k < |annos| && Connects(annos[k], a, b)
    requires forall j :: 0 <= j < k ==> !Connects(annos[j], a, b)
    ensures FirstMatch(annos, a, b) == Some(k)
  {
  }

  lemma PairIdempotent(annos: seq<Annotation>, first: Uuid, second: Uuid, direction: string,
                       text: Option<string>, color: Option<string>, newUuid: Uuid, otherUuid: Uuid)
    ensures var once := ResolvePair(annos, first, second, direction, text, color, newUuid).annotations;
      ResolvePair(once, first, second, direction, text, color, otherUuid).annotations == once
  {
    var once := ResolvePair(annos, first, second, direction, text, color, newUuid).annotations;
    match FirstMatch(annos, first, second)
    case Some(k) =>
      FirstMatchIs(once, first, second, k);
      assert once[k := Rewire(once[k], direction, first, second, text, color)] == once;
    case None =>
      FirstMatchIs(once, first, second, |annos|);
      assert once[|annos| := Rewire(once[|annos|], direction, first, second, text, color)] == once;
  }

  /** Updating or appending an unselected relation leaves the selection as it was. */
  lemma PairKeepsSelection(annos: seq<Annotation>, first: Uuid, second: Uuid, direction: string,
                           text: Option<string>, color: Option<string>, newUuid: Uuid)
    requires |SelectedRelations(annos)| == 0
    ensures var once := ResolvePair(annos, first, second, direction, text, color, newUuid).annotations;
      SelectedRelations(once) == [] && SelectedSpans(once) == SelectedSpans(annos)
  {
    var once := ResolvePair(annos, first, second, direction, text, color, newUuid).annotations;
    SelectedRelationsEmpty(annos);
    match FirstMatch(annos, first, second)
    case Some(k) =>
      assert annos[k] in annos;
      UnselectedUpdateKeepsSelection(annos, k, Rewire(annos[k], direction, first, second, text, color));
    case None =>
      var n := NewRelation(newUuid, direction, first, second, text, color);
      SelectedSpansAppend(annos, n);
      SelectedRelationsAppend(annos, n);
  }

  lemma UnselectedUpdateKeepsSelection(annos: seq<Annotation>, k: nat, b: Annotation)
    requires forall a :: a in annos ==> !(a.selected && a.Relation?)
    requires k < |annos| && annos[k].Relation? && b.Relation? && !b.selected
    ensures SelectedRelations(annos[k := b]) == []
    ensures SelectedSpans(annos[k := b]) == SelectedSpans(annos)
  {
    var once := annos[k := b];
    SelectedSpansAgree(annos, once);
    forall a | a in once ensures !(a.selected && a.Relation?) {
      var j :| 0 <= j < |once| && once[j] == a;
      if j != k {
        assert annos[j] in annos;
      }
    }
    if SelectedRelations(once) != [] {
      assert SelectedRelations(once)[0] in SelectedRelations(once);
    }
  }

  lemma EditIdempotent(annos: seq<Annotation>, direction: string, text: Option<string>,
                       color: Option<string>, newUuid: Uuid, otherUuid: Uuid)
    requires |SelectedRelations(annos)| > 0
    ensures var once := ResolveRelation(annos, direction, text, color, newUuid).annotations;
      ResolveRelation(once, direction, text, color, otherUuid).annotations == once
  {
    var once := EditSelectedRelations(annos, direction, text, color);
    assert ResolveRelation(annos, direction, text, color, newUuid).annotations == once;
    EditKeepsSelectedRelation(annos, direction, text, color);
    EditTwice(annos, direction, text, color);
  }

  /** The edit keeps every selected relation selected. */
  lemma EditKeepsSelectedRelation(annos: seq<Annotation>, direction: string, text: Option<string>,
                                  color: Option<string>)
    requires |SelectedRelations(annos)| > 0
    ensures |SelectedRelations(EditSelectedRelations(annos, direction, text, color))| > 0
  {
    var once := EditSelectedRelations(annos, direction, text, color);
    var a := SelectedRelations(annos)[0];
    assert a in annos;
    var i :| 0 <= i < |annos| && annos[i] == a;
    assert once[i] in SelectedRelations(once);
  }

  lemma EditTwice(annos: seq<Annotation>, direction: string, text: Option<string>, color: Option<string>)
    ensures var once := EditSelectedRelations(annos, direction, text, color);
      EditSelectedRelations(once, direction, text, color) == once
  {
  }

  /** Repeating the call with the same arguments changes nothing more: the
      second call edits the same relations the same way, or updates the relation
      the first one created or updated into the record it already is. */
  lemma ResolveIdempotent(annos: seq<Annotation>, direction: string, text: Option<string>,
                          color: Option<string>, newUuid: Uuid, otherUuid: Uuid)
    ensures var once := ResolveRelation(annos, direction, text, color, newUuid).annotations;
      ResolveRelation(once, direction, text, color, otherUuid).annotations == once
  {
    if |SelectedRelations(annos)| > 0 {
      EditIdempotent(annos, direction, text, color, newUuid, otherUuid);
    } else if |SelectedSpans(annos)| >= 2 {
      var (first, second) := Endpoints(SelectedSpans(annos));
      var once := ResolveRelation(annos, direction, text, color, newUuid).annotations;
      ResolveIsPair(annos, direction, text, color, newUuid);
      PairKeepsSelection(annos, first.uuid, second.uuid, direction, text, color, newUuid);
      ResolveIsPair(once, direction, text, color, otherUuid);
      PairIdempotent(annos, first.uuid, second.uuid, direction, text, color, newUuid, otherUuid);
    }
  }

  lemma {:induction false} AllSelectedSpans(s: seq<Annotation>)
    requires forall k :: 0 <= k < |s| ==> s[k].selected && s[k].Span?
    ensures SelectedSpans(s) == s
  {
    if s != [] {
      AllSelectedSpans(s[1..]);
    }
  }

  lemma NoSelectedRelations(s: seq<Annotation>)
    requires forall k :: 0 <= k < |s| ==> s[k].Span?
    ensures SelectedRelations(s) == []
  {
  }

  /** Three spans with distinct ids, selected one after the other. */
  predicate SelectedInOrder(s1: Annotation, s2: Annotation, s3: Annotation)
  {
    && s1.Span? && s2.Span? && s3.Span? && s1.selected && s2.selected && s3.selected
    && s1.selectedTime < s2.selectedTime < s3.selectedTime
    && s1.uuid != s2.uuid && s1.uuid != s3.uuid && s2.uuid != s3.uuid
  }

  lemma ThreeSpansSelection(s1: Annotation, s2: Annotation, s3: Annotation)
    requires SelectedInOrder(s1, s2, s3)
    ensures SelectedRelations([s1, s2, s3]) == [] && SelectedSpans([s1, s2, s3]) == [s1, s2, s3]
  {
    AllSelectedSpans([s1, s2, s3]);
    NoSelectedRelations([s1, s2, s3]);
  }

  lemma ThreeSpansAndRelationSelection(s1: Annotation, s2: Annotation, s3: Annotation, rel: Annotation)
    requires SelectedInOrder(s1, s2, s3) && !rel.selected
    ensures SelectedRelations([s1, s2, s3] + [rel]) == []
    ensures SelectedSpans([s1, s2, s3] + [rel]) == [s1, s2, s3]
  {
    ThreeSpansSelection(s1, s2, s3);
    SelectedSpansAppend([s1, s2, s3], rel);
    SelectedRelationsAppend([s1, s2, s3], rel);
  }

  lemma ThreeSpansEndpoints(s1: Annotation, s2: Annotation, s3: Annotation)
    requires SelectedInOrder(s1, s2, s3)
    ensures Endpoints([s1, s2, s3]) == (s2, s3)
  {
    var s := [s1, s2, s3];
    assert Sorted(s);
    assert TimeDeterminesRecord(s);
    SortedUnique(s, SortByTime(s));
  }

  lemma ThreeSpansCreate(s1: Annotation, s2: Annotation, s3: Annotation, direction: string,
                         text: Option<string>, color: Option<string>, newUuid: Uuid)
    requires SelectedInOrder(s1, s2, s3)
    ensures ResolvePair([s1, s2, s3], s2.uuid, s3.uuid, direction, text, color, newUuid) ==
            Step(Created, [s1, s2, s3] + [NewRelation(newUuid, direction, s2.uuid, s3.uuid, text, color)])
  {
    var s := [s1, s2, s3];
    assert FirstMatch(s, s2.uuid, s3.uuid) == None by {
      assert forall k :: 0 <= k < 3 ==> !Connects(s[k], s2.uuid, s3.uuid);
    }
  }

  lemma ThreeSpansUpdate(s1: Annotation, s2: Annotation, s3: Annotation, direction: string,
                         text: Option<string>, color: Option<string>, newUuid: Uuid, otherUuid: Uuid)
    requires SelectedInOrder(s1, s2, s3)
    ensures var after := [s1, s2, s3] + [NewRelation(newUuid, direction, s2.uuid, s3.uuid, text, color)];
      ResolvePair(after, s2.uuid, s3.uuid, direction, text, color, otherUuid) == Step(Updated, after)
  {
    var after := [s1, s2, s3] + [NewRelation(newUuid, direction, s2.uuid, s3.uuid, text, color)];
    assert forall k :: 0 <= k < 3 ==> !Connects(after[k], s2.uuid, s3.uuid);
    FirstMatchIs(after, s2.uuid, s3.uuid, 3);
    assert after[3 := Rewire(after[3], direction, s2.uuid, s3.uuid, text, color)] == after;
  }

  /** Three spans selected one after the other: the call joins the second and
      third with a new relation, the first being discarded, and repeating the
      call updates that relation instead of adding another. */
  lemma ThreeSpansExample(s1: Annotation, s2: Annotation, s3: Annotation, direction: string,
                          text: Option<string>, color: Option<string>, newUuid: Uuid, otherUuid: Uuid)
    requires SelectedInOrder(s1, s2, s3)
    ensures var rel := NewRelation(newUuid, direction, s2.uuid, s3.uuid, text, color);
      var once := ResolveRelation([s1, s2, s3], direction, text, color, newUuid);
      && once == Step(Created, [s1, s2, s3] + [rel])
      && ResolveRelation(once.annotations, direction, text, color, otherUuid) == Step(Updated, once.annotations)
  {
    var rel := NewRelation(newUuid, direction, s2.uuid, s3.uuid, text, color);
    ThreeSpansSelection(s1, s2, s3);
    ThreeSpansAndRelationSelection(s1, s2, s3, rel);
    ThreeSpansEndpoints(s1, s2, s3);
    ResolveIsPair([s1, s2, s3], direction, text, color, newUuid);
    ThreeSpansCreate(s1, s2, s3, direction, text, color, newUuid);
    ResolveIsPair([s1, s2, s3] + [rel], direction, text, color, otherUuid);
    ThreeSpansUpdate(s1, s2, s3, direction, text, color, newUuid, otherUuid);
  }

  lemma SelectedRelationsEmpty(annos: seq<Annotation>)
    requires |SelectedRelations(annos)| == 0
    ensures forall a :: a in annos ==> !(a.selected && a.Relation?)
  {
    assert SelectedRelations(annos) == [];
  }
}
