/** What `createSpan` decides: reject, recolour and relabel the selected spans,
    or create a span over the pending text selection. */
module SpanEditor {
  import opened AnnotationModel
  import opened Selection

  const SelectMessage: string := "Select text span or an annotation."

  /** The rectangles the viewer reports for the current text selection, on the
      page they lie on. */
  datatype Pending = Pending(page: int, rectangles: seq<Rect>)

  /** The edit applied to a selected span: colour and text are both replaced,
      by `None` too. */
  function RecolorSpan(a: Annotation, text: Option<string>, color: Option<string>): Annotation
  {
    if a.Span? && a.selected
    then Span(a.uuid, a.selected, a.selectedTime, color, text, a.page, a.rectangles)
    else a
  }

  function RecolorSelectedSpans(annos: seq<Annotation>, text: Option<string>,
                                color: Option<string>): seq<Annotation>
  {
    seq(|annos|, k requires 0 <= k < |annos| => RecolorSpan(annos[k], text, color))
  }

  /** The span the viewer creates over the pending selection; it starts unselected. */
  function NewSpan(uuid: Uuid, pending: Pending, text: Option<string>, color: Option<string>): Annotation
  {
    Span(uuid, false, 0, color, text, pending.page, pending.rectangles)
  }

  /** `createSpan({text, color})`: `pending` is the viewer's text selection
      (`None` when it reports none) and `newUuid` the id it gives a span it creates. */
  function EditOrCreateSpan(annos: seq<Annotation>, pending: Option<Pending>, text: Option<string>,
                            color: Option<string>, newUuid: Uuid): Step
  {
    if pending.None? && |SelectedAnnotations(annos)| == 0 then
      Step(Rejected(SelectMessage), annos)
    else if |SelectedAnnotations(annos)| > 0 then
      Step(Updated, RecolorSelectedSpans(annos, text, color))
    else
      Step(Created, annos + [NewSpan(newUuid, pending.value, text, color)])
  }

  /** The call is rejected exactly when there is neither a text selection nor a
      selected annotation, and then nothing changes. */
  lemma SpanRejects(annos: seq<Annotation>, pending: Option<Pending>, text: Option<string>,
                    color: Option<string>, newUuid: Uuid)
    ensures var r := EditOrCreateSpan(annos, pending, text, color, newUuid);
      && (r.outcome.Rejected? <==> pending.None? && forall a :: a in annos ==> !a.selected)
      && (r.outcome.Rejected? ==> r.annotations == annos && r.outcome.message == SelectMessage)
  {
    if |SelectedAnnotations(annos)| > 0 {
      assert SelectedAnnotations(annos)[0] in SelectedAnnotations(annos);
    } else {
      assert SelectedAnnotations(annos) == [];
    }
  }

  /** With any annotation selected the selected spans take the new colour and
      text, every other record stays as it was, and nothing is created, even
      when there is a text selection as well. */
  lemma SpanEditsSelected(annos: seq<Annotation>, pending: Option<Pending>, text: Option<string>,
                          color: Option<string>, newUuid: Uuid)
    requires exists a :: a in annos && a.selected
    ensures var r := EditOrCreateSpan(annos, pending, text, color, newUuid);
      && r.outcome == Updated
      && |r.annotations| == |annos|
      && forall k :: 0 <= k < |annos| ==>
           if annos[k].Span? && annos[k].selected
           then r.annotations[k] == Span(annos[k].uuid, true, annos[k].selectedTime, color, text,
                                         annos[k].page, annos[k].rectangles)
           else r.annotations[k] == annos[k]
  {
    var a :| a in annos && a.selected;
    assert a in SelectedAnnotations(annos);
  }

  /** With nothing selected and a text selection pending, exactly one new span
      is appended, over the pending rectangles, with the given text and colour. */
  lemma SpanCreates(annos: seq<Annotation>, pending: Option<Pending>, text: Option<string>,
                    color: Option<string>, newUuid: Uuid)
    requires pending.Some? && forall a :: a in annos ==> !a.selected
    ensures var r := EditOrCreateSpan(annos, pending, text, color, newUuid);
      && r.outcome == Created
      && |r.annotations| == |annos| + 1
      && r.annotations[..|annos|] == annos
      && var s := r.annotations[|annos|];
         s.Span? && s.uuid == newUuid && s.page == pending.value.page
         && s.rectangles == pending.value.rectangles && s.text == text && s.color == color
  {
    if |SelectedAnnotations(annos)| > 0 {
      assert SelectedAnnotations(annos)[0] in SelectedAnnotations(annos);
    }
    var r := EditOrCreateSpan(annos, pending, text, color, newUuid);
    assert r.annotations[..|annos|] == annos;
  }

  lemma RecolorKeepsShape(annos: seq<Annotation>, text: Option<string>, color: Option<string>)
    ensures var e := RecolorSelectedSpans(annos, text, color);
      |e| == |annos| && forall k :: 0 <= k < |annos| ==> SameShape(annos[k], e[k])
  {
  }

  /** A new span with an unused id keeps the container invariants. */
  lemma AppendSpanKeepsInvariants(annos: seq<Annotation>, s: Annotation)
    requires s.Span?
    ensures WellFormed(annos) && s.uuid !in Uuids(annos) ==> WellFormed(annos + [s])
    ensures OnePerPair(annos) ==> OnePerPair(annos + [s])
  {
    var t := annos + [s];
    AddKeepsUniqueIds(annos, s);
    assert forall a :: a in t <==> a in annos || a == s;
    assert SpanIds(t) == SpanIds(annos) + {s.uuid};
    if OnePerPair(annos) {
      forall i, j | 0 <= i < j < |t| && t[i].Relation? && t[j].Relation?
        ensures {t[i].rel1, t[i].rel2} != {t[j].rel1, t[j].rel2}
      {
        assert t[i] == annos[i] && t[j] == annos[j];
      }
    }
  }

  /** The call keeps ids unique, relations on existing distinct spans and at
      most one relation per span pair, if the id given to a new span is unused. */
  lemma SpanKeepsInvariants(annos: seq<Annotation>, pending: Option<Pending>, text: Option<string>,
                            color: Option<string>, newUuid: Uuid)
    ensures var r := EditOrCreateSpan(annos, pending, text, color, newUuid).annotations;
      && (WellFormed(annos) && newUuid !in Uuids(annos) ==> WellFormed(r))
      && (OnePerPair(annos) ==> OnePerPair(r))
  {
    var r := EditOrCreateSpan(annos, pending, text, color, newUuid).annotations;
    if |SelectedAnnotations(annos)| > 0 {
      RecolorKeepsShape(annos, text, color);
      SameShapeKeepsInvariants(annos, r);
    } else if pending.Some? {
      AppendSpanKeepsInvariants(annos, NewSpan(newUuid, pending.value, text, color));
    }
  }

  /** Recolouring keeps every selected record selected. */
  lemma RecolorKeepsSelected(annos: seq<Annotation>, text: Option<string>, color: Option<string>)
    requires |SelectedAnnotations(annos)| > 0
    ensures |SelectedAnnotations(RecolorSelectedSpans(annos, text, color))| > 0
  {
    var once := RecolorSelectedSpans(annos, text, color);
    var a := SelectedAnnotations(annos)[0];
    assert a in annos;
    var i :| 0 <= i < |annos| && annos[i] == a;
    assert once[i] in SelectedAnnotations(once);
  }

  /** Repeating an edit of the selection changes nothing more. */
  lemma SpanEditIdempotent(annos: seq<Annotation>, pending: Option<Pending>, text: Option<string>,
                           color: Option<string>, newUuid: Uuid, otherUuid: Uuid)
    requires exists a :: a in annos && a.selected
    ensures var once := EditOrCreateSpan(annos, pending, text, color, newUuid).annotations;
      EditOrCreateSpan(once, pending, text, color, otherUuid).annotations == once
  {
    var a :| a in annos && a.selected;
    assert a in SelectedAnnotations(annos);
    RecolorKeepsSelected(annos, text, color);
  }

  /** A created span starts unselected, so repeating a creating call creates a
      second span rather than editing the first. */
  lemma SpanCreateRepeats(annos: seq<Annotation>, pending: Option<Pending>, text: Option<string>,
                          color: Option<string>, newUuid: Uuid, otherUuid: Uuid)
    requires pending.Some? && forall a :: a in annos ==> !a.selected
    ensures var once := EditOrCreateSpan(annos, pending, text, color, newUuid).annotations;
      var twice := EditOrCreateSpan(once, pending, text, color, otherUuid);
      && twice.outcome == Created
      && twice.annotations == annos + [NewSpan(newUuid, pending.value, text, color),
                                       NewSpan(otherUuid, pending.value, text, color)]
  {
    SpanCreates(annos, pending, text, color, newUuid);
    var once := EditOrCreateSpan(annos, pending, text, color, newUuid).annotations;
    assert forall a :: a in once ==> !a.selected by {
      assert forall a :: a in once ==> a in annos || a == once[|annos|];
    }
    SpanCreates(once, pending, text, color, otherUuid);
  }
}
