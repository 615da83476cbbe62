/** The page object: its annotation container and the operations that read and
    change the container in place. */
module Page {
  import opened AnnotationModel
  import opened Selection
  import opened RelationResolver
  import opened SpanEditor
  import opened ScrollMapper
  import opened SchemaErrors

  /** The store of annotation records, in insertion order. */
  class AnnotationContainer {
    var annotations: seq<Annotation>

    constructor()
      ensures annotations == []
    {
      annotations := [];
    }

    /** `add(annotation)`: the record goes to the end. */
    method Add(a: Annotation)
      modifies this
      ensures annotations == old(annotations) + [a]
    {
      annotations := annotations + [a];
    }
  }

  class PDFAnnoPage {
    const annotationContainer: AnnotationContainer

    constructor(annotationContainer: AnnotationContainer)
      ensures this.annotationContainer == annotationContainer
    {
      this.annotationContainer := annotationContainer;
    }

    /** `createSpan`: recolours and relabels the selected spans in place, or has
        the viewer create a span over the pending text selection. */
    method CreateSpan(pending: Option<Pending>, text: Option<string>, color: Option<string>, newUuid: Uuid)
      returns (outcome: Outcome)
      modifies annotationContainer
      ensures Step(outcome, annotationContainer.annotations) ==
              EditOrCreateSpan(old(annotationContainer.annotations), pending, text, color, newUuid)
      ensures WellFormed(old(annotationContainer.annotations)) &&
              newUuid !in Uuids(old(annotationContainer.annotations)) ==>
              WellFormed(annotationContainer.annotations)
      ensures OnePerPair(old(annotationContainer.annotations)) ==> OnePerPair(annotationContainer.annotations)
    {
      SpanKeepsInvariants(annotationContainer.annotations, pending, text, color, newUuid);
      var selectedAnnotations := SelectedAnnotations(annotationContainer.annotations);
      if pending.None? && |selectedAnnotations| == 0 {
        return Rejected(SelectMessage);
      }
      if |selectedAnnotations| > 0 {
        RecolorSelectedInPlace(text, color);
        return Updated;
      }
      annotationContainer.Add(NewSpan(newUuid, pending.value, text, color));
      return Created;
    }

    /** `createRelation`: edits the selected relations in place, or joins the
        two most recently selected spans, updating the relation that already
        joins them or having the viewer create one. */
    method CreateRelation(direction: string, text: Option<string>, color: Option<string>, newUuid: Uuid)
      returns (outcome: Outcome)
      modifies annotationContainer
      ensures Step(outcome, annotationContainer.annotations) ==
              ResolveRelation(old(annotationContainer.annotations), direction, text, color, newUuid)
      ensures WellFormed(old(annotationContainer.annotations)) &&
              newUuid !in Uuids(old(annotationContainer.annotations)) ==>
              WellFormed(annotationContainer.annotations)
      ensures WellFormed(old(annotationContainer.annotations)) && OnePerPair(old(annotationContainer.annotations)) ==>
              OnePerPair(annotationContainer.annotations)
    {
      var annos := annotationContainer.annotations;
      ResolveKeepsInvariants(annos, direction, text, color, newUuid);
      var relAnnos := SelectedRelations(annos);
      if |relAnnos| > 0 {
        EditSelectedRelationsInPlace(direction, text, color);
        return Updated;
      }
      var selectedAnnotations := SortByTime(SelectedSpans(annos));
      if |selectedAnnotations| < 2 {
        return Rejected(TwoSpansMessage);
      }
      var first := selectedAnnotations[|selectedAnnotations| - 2];
      var second := selectedAnnotations[|selectedAnnotations| - 1];
      ResolveIsPair(annos, direction, text, color, newUuid);
      outcome := JoinSpans(first.uuid, second.uuid, direction, text, color, newUuid);
    }

    /** The duplicate check: the first relation joining the two spans, in either
        order, is re-pointed from `first` to `second` in place; without one the
        viewer creates a relation. */
    method JoinSpans(first: Uuid, second: Uuid, direction: string, text: Option<string>,
                     color: Option<string>, newUuid: Uuid)
      returns (outcome: Outcome)
      modifies annotationContainer
      ensures Step(outcome, annotationContainer.annotations) ==
              ResolvePair(old(annotationContainer.annotations), first, second, direction, text, color, newUuid)
    {
      var arrows := FirstMatch(annotationContainer.annotations, first, second);
      if arrows.Some? {
        var k := arrows.value;
        var arrow := annotationContainer.annotations[k];
        annotationContainer.annotations := annotationContainer.annotations[k := Relation(arrow.uuid,
          arrow.selected, arrow.selectedTime, direction, first, second, text, MergeColor(color, arrow.color))];
        return Updated;
      }
      annotationContainer.Add(NewRelation(newUuid, direction, first, second, text, color));
      return Created;
    }

    /** The `forEach` over the selected spans: each takes the new colour and text. */
    method RecolorSelectedInPlace(text: Option<string>, color: Option<string>)
      modifies annotationContainer
      ensures annotationContainer.annotations ==
              RecolorSelectedSpans(old(annotationContainer.annotations), text, color)
    {
      var i := 0;
      while i < |annotationContainer.annotations|
        invariant |annotationContainer.annotations| == |old(annotationContainer.annotations)|
        invariant 0 <= i <= |annotationContainer.annotations|
        invariant forall k :: 0 <= k < i ==>
          annotationContainer.annotations[k] == RecolorSpan(old(annotationContainer.annotations)[k], text, color)
        invariant forall k :: i <= k < |annotationContainer.annotations| ==>
          annotationContainer.annotations[k] == old(annotationContainer.annotations)[k]
      {
        var anno := annotationContainer.annotations[i];
        if anno.Span? && anno.selected {
          annotationContainer.annotations := annotationContainer.annotations[i :=
            Span(anno.uuid, anno.selected, anno.selectedTime, color, text, anno.page, anno.rectangles)];
        }
        i := i + 1;
      }
    }

    /** The `forEach` over the selected relations of type `direction`: each
        takes the new text and colour. */
    method EditSelectedRelationsInPlace(direction: string, text: Option<string>, color: Option<string>)
      modifies annotationContainer
      ensures annotationContainer.annotations ==
              EditSelectedRelations(old(annotationContainer.annotations), direction, text, color)
    {
      var i := 0;
      while i < |annotationContainer.annotations|
        invariant |annotationContainer.annotations| == |old(annotationContainer.annotations)|
        invariant 0 <= i <= |annotationContainer.annotations|
        invariant forall k :: 0 <= k < i ==>
          annotationContainer.annotations[k] ==
          EditRelation(old(annotationContainer.annotations)[k], direction, text, color)
        invariant forall k :: i <= k < |annotationContainer.annotations| ==>
          annotationContainer.annotations[k] == old(annotationContainer.annotations)[k]
      {
        var anno := annotationContainer.annotations[i];
        if anno.Relation? && anno.selected && anno.direction == direction {
          annotationContainer.annotations := annotationContainer.annotations[i :=
            Relation(anno.uuid, anno.selected, anno.selectedTime, anno.direction, anno.rel1, anno.rel2, text, color)];
        }
        i := i + 1;
      }
    }

    /** `findAnnotationById`: the first record carrying `id`, if any. */
    method FindAnnotationById(id: Uuid) returns (r: Option<Annotation>)
      ensures r == FindById(annotationContainer.annotations, id)
      ensures r.None? <==> id !in Uuids(annotationContainer.annotations)
      ensures r.Some? ==> r.value in annotationContainer.annotations && r.value.uuid == id
      ensures UniqueIds(annotationContainer.annotations) ==>
        forall k :: 0 <= k < |annotationContainer.annotations| && annotationContainer.annotations[k].uuid == id ==>
          r == Some(annotationContainer.annotations[k])
    {
      r := FindById(annotationContainer.annotations, id);
      if UniqueIds(annotationContainer.annotations) {
        forall k | 0 <= k < |annotationContainer.annotations| && annotationContainer.annotations[k].uuid == id
          ensures r == Some(annotationContainer.annotations[k])
        {
          FindByIdUnique(annotationContainer.annotations, id, k);
        }
      }
    }

    /** `addAnnotation`: the record goes to the end of the container; the ids
        stay unique exactly when its id is new. */
    method AddAnnotation(annotation: Annotation)
      modifies annotationContainer
      ensures annotationContainer.annotations == old(annotationContainer.annotations) + [annotation]
      ensures UniqueIds(annotationContainer.annotations) <==>
              UniqueIds(old(annotationContainer.annotations)) &&
              annotation.uuid !in Uuids(old(annotationContainer.annotations))
    {
      AddKeepsUniqueIds(annotationContainer.annotations, annotation);
      annotationContainer.Add(annotation);
    }

    /** `validateSchemaErrors`: the lines of every error, joined with line breaks. */
    method ValidateSchemaErrors(errors: seq<SchemaError>, stringify: Value -> string) returns (message: string)
      ensures message == SchemaErrorText(errors, stringify)
    {
      var messages: seq<string> := [];
      var i := 0;
      while i < |errors|
        invariant 0 <= i <= |errors|
        invariant messages == Entries(errors[..i], stringify)
      {
        var error := errors[i];
        var j := 0;
        while j < |error|
          invariant 0 <= j <= |error|
          invariant messages == Entries(errors[..i], stringify) + FieldEntries(error[..j], stringify)
        {
          var value := error[j].value;
          var shown := if value.Primitive? then value.shown else stringify(value);
          assert FieldEntries(error[..j + 1], stringify) == FieldEntries(error[..j], stringify) + [Entry(error[j], stringify)];
          messages := messages + [error[j].key + ": " + shown];
          j := j + 1;
        }
        assert error[..j] == error;
        assert errors[..i + 1][..i] == errors[..i];
        messages := messages + [""];
        i := i + 1;
      }
      assert errors[..i] == errors;
      message := Join(messages, LineBreak);
    }

    /** `scrollToAnnotation`: the scroll position for the annotation `id`. */
    method ScrollToAnnotation(id: Uuid, viewport: Viewport, padding: real,
                              anchorOf: Annotation -> Anchor, toExport: real -> ExportPosition)
      returns (outcome: ScrollOutcome)
      ensures outcome == ScrollTarget(annotationContainer.annotations, id, viewport, padding, anchorOf, toExport)
    {
      var annotation := FindAnnotationById(id);
      if annotation.None? {
        return NotFound;
      }
      var target := Target(annotation.value, anchorOf, toExport);
      if target.None? {
        return NoGeometry;
      }
      var pageNumber, y := target.value.pageNumber, target.value.y;
      // The two steps of the position computation, as the source writes them.
      var offset := (viewport.height + padding) * ((pageNumber - 1) as real) + y * viewport.scale;
      offset := offset - ScrollMargin;
      return ScrollTo(offset);
    }
  }
}
