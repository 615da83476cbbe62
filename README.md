# PDFAnno page annotation logic in Dafny

This project models the annotation-editing core of the PDF editor's page object, `PDFAnnoPage` in
`inception/inception-pdf-editor/src/main/ts/src/pdfanno/page/pdf/PDFAnnoPage.ts`. The page keeps an
annotation container of span and relation records and has these operations:

- `createSpan` recolours and relabels the selected spans, or creates a span over the pending text
  selection, or rejects the call.
- `createRelation` edits the selected relations, or joins the two spans selected last. If a
  relation already joins that pair, in either order, it is re-pointed instead of a second one being
  added. Otherwise the call creates a new relation, or rejects it.
- `findAnnotationById` and `addAnnotation` look up and insert records in the container.
- `validateSchemaErrors` formats schema errors as HTML text.
- `scrollToAnnotation` computes the scroll position of an annotation.

## How the model is built

- `model.dfy` (`AnnotationModel`) holds the records as datatype values. A relation names its
  endpoints by uuid, and a JavaScript `null` text or colour is `None`. The file also defines the
  container invariants:
  - `UniqueIds`: no two records share a uuid.
  - `EndpointsValid`: every relation joins two distinct spans of the container.
  - `OnePerPair`: at most one relation per unordered span pair.
- `selection.dfy` (`Selection`) covers the selection filters and the sort:
  - The filters keep the selected records in container order.
  - The sort by `selectedTime` is an insertion sort. It is proved sorted, a permutation, and stable, as the array sort of the source is.
  - The choice of endpoints is proved to be the latest two.
- `relations.dfy` (`RelationResolver`) models the decision of `createRelation` as a function from
  the container contents to a `Step`, which is an outcome plus the new contents.
- `spans.dfy` (`SpanEditor`) does the same for `createSpan`.
- `scroll.dfy` (`ScrollMapper`) covers the scroll formula and the target lookup.
- `schema_errors.dfy` (`SchemaErrors`) covers the error text.
- `page.dfy` (`Page`) holds the classes:
  - `AnnotationContainer` holds the records in a `seq` field that its methods reassign.
  - `PDFAnnoPage` holds the container. Each of its methods runs the source's loops and in-place
    updates, and is proved equal to the specification function above.

Modelling decisions where the source leaves things open:

- The code of the annotation container is not part of this model. The page uses its `add`,
  `findById`, `getSelectedAnnotations`, `getAllAnnotations` and `importAnnotations`. The model keeps
  the records in a sequence (the `seq` field of `Page.AnnotationContainer`):
  - `add` appends a record;
  - `findById` is the first record with the id;
  - `getSelectedAnnotations` is the selected records, in container order;
  - `getAllAnnotations` is all records, in container order;
  - `importAnnotations` is left out with `importAnnotation`.
- The records created by the viewer's `UI.createSpan` and `UI.createRelation` are not part of this
  model either. The model appends a record that carries a uuid given as a parameter, starts
  unselected, and has selection time 0. A new span takes its page and rectangles from the pending
  selection.
- Lines 129 and 143 read `this..annotationContainer`, which is a syntax error. The model reads the
  container, which is evidently what was intended.
- Line 178 dispatches `event`. No local variable has that name, so in a browser it is the
  deprecated global `window.event`. Outside an event handler that is `undefined`, and
  `dispatchEvent` throws a TypeError. Inside a running handler it is the event being dispatched, and
  `dispatchEvent` throws an InvalidStateError. Either way the call throws after lines 170-175
  have already changed and saved the record. The model keeps that change and reports `Updated`;
  the throw is not modelled.
- Behaviours of the code a reader may not expect; the model follows the code:
  - `createRelation` takes the edit-only path as soon as any relation is selected, even when none
    has the requested type. In that case nothing changes and nothing is created
    (`ResolveEditsSelectedRelations`).
  - `createSpan` takes the edit path as soon as any annotation is selected, even if it is only a
    relation. A pending text selection is then ignored (`SpanEditsSelected`).
  - The duplicate test asks only that both endpoints lie in the chosen pair. It does not ask that
    the endpoints equal the pair as a set, so a relation from a span to itself would match too.
    For a relation whose two endpoints differ, as `EndpointsValid` demands, the two readings agree
    (`ConnectsIsPair`). With one relation per pair as well, the relation over the pair is the one
    the search finds (`OnlyMatch`).
  - The duplicate search ignores the relation type. The invariant the code keeps is therefore
    `OnePerPair`, one relation per unordered pair of any type (`ResolveKeepsOnePerPair`).
  - For `validateSchemaErrors`, an error list holding one error without properties yields the
    empty text, not a text ending in a line break (`EndsWithBreakIff`, `EmptyTextIff`).

## Model

| member | source | states |
|---|---|---|
| AnnotationModel.FindById | inception/inception-pdf-editor/src/main/ts/src/pdfanno/page/pdf/PDFAnnoPage.ts:197-199 | the lookup is absent exactly when no record carries the id; otherwise it is a record of the container with that id, and no earlier record has the id |
| AnnotationModel.FindByIdUnique | inception/inception-pdf-editor/src/main/ts/src/pdfanno/page/pdf/PDFAnnoPage.ts:197-199 | with unique ids the lookup returns the one record carrying the id |
| AnnotationModel.AddKeepsUniqueIds | inception/inception-pdf-editor/src/main/ts/src/pdfanno/page/pdf/PDFAnnoPage.ts:213-215 | after an append the ids are unique exactly when they were before and the new id is unused |
| AnnotationModel.SameShapeKeepsInvariants | inception/inception-pdf-editor/src/main/ts/src/pdfanno/page/pdf/PDFAnnoPage.ts:132-139 | edits that keep every record's uuid, variant and endpoints (as the text and colour edits do) keep both container invariants |
| Selection.SelectedAnnotations | inception/inception-pdf-editor/src/main/ts/src/pdfanno/page/pdf/PDFAnnoPage.ts:90 | a record is in the selection exactly when it is in the container and selected |
| Selection.SelectedSpans | inception/inception-pdf-editor/src/main/ts/src/pdfanno/page/pdf/PDFAnnoPage.ts:143-145 | the filtered selection holds exactly the selected spans of the container |
| Selection.SelectedRelations | inception/inception-pdf-editor/src/main/ts/src/pdfanno/page/pdf/PDFAnnoPage.ts:129-130 | the filtered selection holds exactly the selected relations of the container |
| Selection.Insert | inception/inception-pdf-editor/src/main/ts/src/pdfanno/page/pdf/PDFAnnoPage.ts:146-148 | inserting adds exactly the one record to the multiset of entries |
| Selection.InsertSorted | inception/inception-pdf-editor/src/main/ts/src/pdfanno/page/pdf/PDFAnnoPage.ts:146-148 | inserting into an ascending sequence keeps it ascending by selection time |
| Selection.SortByTime | inception/inception-pdf-editor/src/main/ts/src/pdfanno/page/pdf/PDFAnnoPage.ts:146-148 | the sorted selection is ascending by `selectedTime` and is a permutation of the selection |
| Selection.SortIsStable | inception/inception-pdf-editor/src/main/ts/src/pdfanno/page/pdf/PDFAnnoPage.ts:146-148 | records with equal selection time keep their relative order through the sort |
| Selection.Endpoints | inception/inception-pdf-editor/src/main/ts/src/pdfanno/page/pdf/PDFAnnoPage.ts:154-155 | `first` and `second` are entries of the selection, `first` no later than `second`, and every other entry no later than `first` |
| Selection.EndpointsAreLatest | inception/inception-pdf-editor/src/main/ts/src/pdfanno/page/pdf/PDFAnnoPage.ts:146-155 | with distinct times the endpoints are the two spans selected last, the older as `first`, all others strictly earlier |
| Selection.EndpointsIgnoreOrder | inception/inception-pdf-editor/src/main/ts/src/pdfanno/page/pdf/PDFAnnoPage.ts:143-155 | with distinct times the endpoints do not depend on the order the selection lists the spans in |
| Selection.SortedUnique | inception/inception-pdf-editor/src/main/ts/src/pdfanno/page/pdf/PDFAnnoPage.ts:146-148 | two ascending orderings of the same entries are equal when the time determines the record |
| Selection.EndpointsDistinct | inception/inception-pdf-editor/src/main/ts/src/pdfanno/page/pdf/PDFAnnoPage.ts:154-155 | with unique ids the two endpoints are different spans |
| Selection.EndpointsAreSelectedSpans | inception/inception-pdf-editor/src/main/ts/src/pdfanno/page/pdf/PDFAnnoPage.ts:143-155 | both endpoints are selected spans of the container |
| RelationResolver.ResolveRelation | inception/inception-pdf-editor/src/main/ts/src/pdfanno/page/pdf/PDFAnnoPage.ts:121-192 | no contract of its own: the whole of `createRelation` as a function to an outcome and new contents; specified by `ResolveEditsSelectedRelations`, `ResolveRejects`, `ResolveUpdatesDuplicate`, `ResolveCreatesRelation`, `ResolveKeepsWellFormed`, `ResolveKeepsOnePerPair` and `ResolveIdempotent` |
| RelationResolver.ResolvePair | inception/inception-pdf-editor/src/main/ts/src/pdfanno/page/pdf/PDFAnnoPage.ts:159-188 | no contract of its own: the duplicate search and its update or creation once the endpoints are chosen; specified by `PairUpdates`, `PairCreates` and `PairReversedUpdates` |
| RelationResolver.MergeColor | inception/inception-pdf-editor/src/main/ts/src/pdfanno/page/pdf/PDFAnnoPage.ts:174 | no contract of its own: `color || previous`; its effect is stated by `PairUpdates` |
| RelationResolver.Rewire | inception/inception-pdf-editor/src/main/ts/src/pdfanno/page/pdf/PDFAnnoPage.ts:170-174 | no contract of its own: the update of the duplicate; stated field by field by `PairUpdates` |
| RelationResolver.EditRelation | inception/inception-pdf-editor/src/main/ts/src/pdfanno/page/pdf/PDFAnnoPage.ts:132-139 | no contract of its own: the edit of one selected relation of the type; stated by `ResolveEditsSelectedRelations` |
| RelationResolver.EditSelectedRelations | inception/inception-pdf-editor/src/main/ts/src/pdfanno/page/pdf/PDFAnnoPage.ts:132-139 | no contract of its own: the edit applied across the container; stated by `ResolveEditsSelectedRelations`, `EditKeepsShape` and `EditTwice` |
| RelationResolver.NewRelation | inception/inception-pdf-editor/src/main/ts/src/pdfanno/page/pdf/PDFAnnoPage.ts:182-188 | no contract of its own: the unselected relation the viewer creates; stated by `PairCreates` |
| RelationResolver.Connects | inception/inception-pdf-editor/src/main/ts/src/pdfanno/page/pdf/PDFAnnoPage.ts:162-165 | no contract of its own: the two `anyOf` tests of the duplicate search; its meaning is stated by `ConnectsIsPair`, `ConnectsSymmetric` and the contract of `FirstMatch` |
| RelationResolver.FirstMatch | inception/inception-pdf-editor/src/main/ts/src/pdfanno/page/pdf/PDFAnnoPage.ts:159-167 | the index found joins the two spans and no earlier relation does; absent exactly when no relation joins them |
| RelationResolver.ConnectsSymmetric | inception/inception-pdf-editor/src/main/ts/src/pdfanno/page/pdf/PDFAnnoPage.ts:162-165 | the duplicate search finds the same relation whichever of the two spans is named first |
| RelationResolver.ConnectsIsPair | inception/inception-pdf-editor/src/main/ts/src/pdfanno/page/pdf/PDFAnnoPage.ts:162-165 | for a relation between two different spans, the `anyOf` test of both endpoints holds exactly when its endpoints are the pair itself |
| RelationResolver.ResolveEditsSelectedRelations | inception/inception-pdf-editor/src/main/ts/src/pdfanno/page/pdf/PDFAnnoPage.ts:128-141 | with a relation selected only selected relations of the requested type get the new text and colour, everything else is unchanged and nothing is created |
| RelationResolver.ResolveRejects | inception/inception-pdf-editor/src/main/ts/src/pdfanno/page/pdf/PDFAnnoPage.ts:150-152 | the call is rejected with the two-spans message exactly when no relation and fewer than two spans are selected, and then nothing changes |
| RelationResolver.PairUpdates | inception/inception-pdf-editor/src/main/ts/src/pdfanno/page/pdf/PDFAnnoPage.ts:167-179 | the first relation joining the pair keeps its uuid, position and selection, takes the type and text, points from `first` to `second`, keeps its colour unless a non-empty one is given; no other record changes |
| RelationResolver.PairCreates | inception/inception-pdf-editor/src/main/ts/src/pdfanno/page/pdf/PDFAnnoPage.ts:182-188 | without a relation joining the pair exactly one relation from `first` to `second` is appended and every earlier record is unchanged |
| RelationResolver.ResolveUpdatesDuplicate | inception/inception-pdf-editor/src/main/ts/src/pdfanno/page/pdf/PDFAnnoPage.ts:154-179 | the update of the duplicate relation, for the endpoints chosen from the selection |
| RelationResolver.ResolveCreatesRelation | inception/inception-pdf-editor/src/main/ts/src/pdfanno/page/pdf/PDFAnnoPage.ts:154-188 | the creation of a new relation over the endpoints chosen from the selection when none joins them |
| RelationResolver.ResolveJoinsLatestTwo | inception/inception-pdf-editor/src/main/ts/src/pdfanno/page/pdf/PDFAnnoPage.ts:143-188 | after resolution some relation of the requested type and text runs from the older to the newer of the two spans selected last |
| RelationResolver.ResolveWithDistinctTimes | inception/inception-pdf-editor/src/main/ts/src/pdfanno/page/pdf/PDFAnnoPage.ts:143-188 | with distinct selection times the resulting relation joins exactly the two selected spans every other one was selected before |
| RelationResolver.ReversedSelectionUpdatesSameRelation | inception/inception-pdf-editor/src/main/ts/src/pdfanno/page/pdf/PDFAnnoPage.ts:159-179 | selecting the spans of an existing relation in the opposite order updates that relation under its uuid and reverses it, instead of adding a second one |
| RelationResolver.OnlyMatch | inception/inception-pdf-editor/src/main/ts/src/pdfanno/page/pdf/PDFAnnoPage.ts:159-165 | with valid endpoints and one relation per pair, the relation over the pair is the one the search finds |
| RelationResolver.ResolveKeepsWellFormed | inception/inception-pdf-editor/src/main/ts/src/pdfanno/page/pdf/PDFAnnoPage.ts:121-192 | resolution keeps uuids unique and every relation on two distinct spans of the container, if a new relation's uuid is unused |
| RelationResolver.ResolveKeepsOnePerPair | inception/inception-pdf-editor/src/main/ts/src/pdfanno/page/pdf/PDFAnnoPage.ts:158-188 | from a well-formed container with at most one relation per unordered span pair, resolution keeps at most one relation per pair |
| RelationResolver.ResolveIdempotent | inception/inception-pdf-editor/src/main/ts/src/pdfanno/page/pdf/PDFAnnoPage.ts:121-192 | repeating the call with the same arguments leaves the container as the first call left it |
| RelationResolver.ThreeSpansExample | inception/inception-pdf-editor/src/main/ts/src/pdfanno/page/pdf/PDFAnnoPage.ts:143-188 | with three spans selected one after the other a relation from the second to the third is created, and a repeated call updates it rather than adding another |
| SpanEditor.EditOrCreateSpan | inception/inception-pdf-editor/src/main/ts/src/pdfanno/page/pdf/PDFAnnoPage.ts:84-116 | no contract of its own: the whole of `createSpan` as a function to an outcome and new contents; specified by `SpanRejects`, `SpanEditsSelected`, `SpanCreates`, `SpanKeepsInvariants` and `SpanEditIdempotent` |
| SpanEditor.RecolorSpan | inception/inception-pdf-editor/src/main/ts/src/pdfanno/page/pdf/PDFAnnoPage.ts:100-107 | no contract of its own: the edit of one selected span; stated by `SpanEditsSelected` |
| SpanEditor.RecolorSelectedSpans | inception/inception-pdf-editor/src/main/ts/src/pdfanno/page/pdf/PDFAnnoPage.ts:100-107 | no contract of its own: the edit applied across the container; stated by `SpanEditsSelected` and `RecolorKeepsShape` |
| SpanEditor.NewSpan | inception/inception-pdf-editor/src/main/ts/src/pdfanno/page/pdf/PDFAnnoPage.ts:111 | no contract of its own: the unselected span the viewer creates; stated by `SpanCreates` |
| SpanEditor.SpanRejects | inception/inception-pdf-editor/src/main/ts/src/pdfanno/page/pdf/PDFAnnoPage.ts:93-96 | the call is rejected with the select message exactly when there is no text selection and nothing is selected, and then nothing changes |
| SpanEditor.SpanEditsSelected | inception/inception-pdf-editor/src/main/ts/src/pdfanno/page/pdf/PDFAnnoPage.ts:99-107 | with anything selected the selected spans take the new colour and text (a `null` one too), all other records are unchanged, and nothing is created |
| SpanEditor.SpanCreates | inception/inception-pdf-editor/src/main/ts/src/pdfanno/page/pdf/PDFAnnoPage.ts:110-112 | with nothing selected and a text selection pending exactly one span over the pending page and rectangles is appended |
| SpanEditor.SpanKeepsInvariants | inception/inception-pdf-editor/src/main/ts/src/pdfanno/page/pdf/PDFAnnoPage.ts:84-116 | the call keeps both container invariants, if a new span's uuid is unused |
| SpanEditor.SpanEditIdempotent | inception/inception-pdf-editor/src/main/ts/src/pdfanno/page/pdf/PDFAnnoPage.ts:99-107 | repeating an edit of the selection changes nothing more |
| SpanEditor.SpanCreateRepeats | inception/inception-pdf-editor/src/main/ts/src/pdfanno/page/pdf/PDFAnnoPage.ts:110-112 | a created span starts unselected, so a repeated call creates a second span |
| ScrollMapper.ScrollOffset | inception/inception-pdf-editor/src/main/ts/src/pdfanno/page/pdf/PDFAnnoPage.ts:268-269 | no contract of its own: the scroll formula; specified by `ScrollOffsetInverse`, `ScrollMonotoneOnPage`, `ScrollMonotoneAcrossPages` and `PageTwoExample` |
| ScrollMapper.AnchorY | inception/inception-pdf-editor/src/main/ts/src/pdfanno/page/pdf/PDFAnnoPage.ts:261 | no contract of its own: `y || y1`; stated by `ScrollToRelation` |
| ScrollMapper.Target | inception/inception-pdf-editor/src/main/ts/src/pdfanno/page/pdf/PDFAnnoPage.ts:256-265 | no contract of its own: the page and y of a span or relation; stated by `ScrollToSpan` and `ScrollToRelation` |
| ScrollMapper.ScrollTarget | inception/inception-pdf-editor/src/main/ts/src/pdfanno/page/pdf/PDFAnnoPage.ts:249-270 | no contract of its own: the whole of `scrollToAnnotation`; specified by `ScrollNotFound`, `ScrollToSpan` and `ScrollToRelation` |
| ScrollMapper.ScrollOffsetInverse | inception/inception-pdf-editor/src/main/ts/src/pdfanno/page/pdf/PDFAnnoPage.ts:266-269 | in exact arithmetic, with a non-zero scale the scroll position and page determine the in-page y again |
| ScrollMapper.ScrollMonotoneOnPage | inception/inception-pdf-editor/src/main/ts/src/pdfanno/page/pdf/PDFAnnoPage.ts:268-269 | in exact arithmetic, on one page with a positive scale a lower point scrolls further |
| ScrollMapper.ScrollMonotoneAcrossPages | inception/inception-pdf-editor/src/main/ts/src/pdfanno/page/pdf/PDFAnnoPage.ts:268-269 | in exact arithmetic, a point on a later page scrolls further than any point within an earlier page |
| ScrollMapper.PageTwoExample | inception/inception-pdf-editor/src/main/ts/src/pdfanno/page/pdf/PDFAnnoPage.ts:268-269 | page 2, y 50, page height 800, scale 1 and padding 10 give the position 760 |
| ScrollMapper.ScrollNotFound | inception/inception-pdf-editor/src/main/ts/src/pdfanno/page/pdf/PDFAnnoPage.ts:251-253 | the call does nothing exactly when no record carries the id |
| ScrollMapper.ScrollToSpan | inception/inception-pdf-editor/src/main/ts/src/pdfanno/page/pdf/PDFAnnoPage.ts:257-269 | a span scrolls to its page and the top of its first rectangle; a span without rectangles fails |
| ScrollMapper.ScrollToRelation | inception/inception-pdf-editor/src/main/ts/src/pdfanno/page/pdf/PDFAnnoPage.ts:260-269 | a relation scrolls to the export position of its `y`, or of `y1` when `y` is undefined or zero |
| SchemaErrors.ShowValue | inception/inception-pdf-editor/src/main/ts/src/pdfanno/page/pdf/PDFAnnoPage.ts:222 | no contract of its own: objects through the serializer, primitives as they are; used by `Entry`, whose lines `FieldEntriesNotBlank` states are never blank |
| SchemaErrors.Entry | inception/inception-pdf-editor/src/main/ts/src/pdfanno/page/pdf/PDFAnnoPage.ts:223 | no contract of its own: the `key: value` line of one property; `FieldEntriesNotBlank` states it is never blank |
| SchemaErrors.FieldEntries | inception/inception-pdf-editor/src/main/ts/src/pdfanno/page/pdf/PDFAnnoPage.ts:220-224 | no contract of its own: the lines of one error's properties in key order; stated by `FieldEntriesNotBlank` and `EntriesShape` |
| SchemaErrors.ErrorEntries | inception/inception-pdf-editor/src/main/ts/src/pdfanno/page/pdf/PDFAnnoPage.ts:220-225 | no contract of its own: one error's property lines followed by the blank line; stated by `EntriesShape` and `LastEntryBlank` |
| SchemaErrors.Entries | inception/inception-pdf-editor/src/main/ts/src/pdfanno/page/pdf/PDFAnnoPage.ts:219-226 | no contract of its own: the lines pushed for all errors; specified by `EntriesShape` and `LastEntryBlank` |
| SchemaErrors.Join | inception/inception-pdf-editor/src/main/ts/src/pdfanno/page/pdf/PDFAnnoPage.ts:227 | no contract of its own: `Array.prototype.join`; specified by `JoinEnds` |
| SchemaErrors.SchemaErrorText | inception/inception-pdf-editor/src/main/ts/src/pdfanno/page/pdf/PDFAnnoPage.ts:217-228 | no contract of its own: the whole of `validateSchemaErrors`; specified by `EndsWithBreakIff` and `EmptyTextIff` |
| SchemaErrors.FieldEntriesNotBlank | inception/inception-pdf-editor/src/main/ts/src/pdfanno/page/pdf/PDFAnnoPage.ts:223 | no property line is blank |
| SchemaErrors.EntriesShape | inception/inception-pdf-editor/src/main/ts/src/pdfanno/page/pdf/PDFAnnoPage.ts:219-226 | there is one line per property plus one per error, and the blank lines are exactly one per error |
| SchemaErrors.LastEntryBlank | inception/inception-pdf-editor/src/main/ts/src/pdfanno/page/pdf/PDFAnnoPage.ts:225 | with any error the last line is blank |
| SchemaErrors.JoinEnds | inception/inception-pdf-editor/src/main/ts/src/pdfanno/page/pdf/PDFAnnoPage.ts:227 | a join of two or more lines ends with the separator followed by the last line |
| SchemaErrors.EndsWithBreakIff | inception/inception-pdf-editor/src/main/ts/src/pdfanno/page/pdf/PDFAnnoPage.ts:217-228 | the text ends in `<br />` exactly when there are two or more errors or one error with a property |
| SchemaErrors.EmptyTextIff | inception/inception-pdf-editor/src/main/ts/src/pdfanno/page/pdf/PDFAnnoPage.ts:217-228 | the text is empty exactly when there is no error or a single error without properties |
| Page.AnnotationContainer.Add | inception/inception-pdf-editor/src/main/ts/src/pdfanno/page/pdf/PDFAnnoPage.ts:214 | the record goes to the end of the container |
| Page.PDFAnnoPage.constructor | inception/inception-pdf-editor/src/main/ts/src/pdfanno/page/pdf/PDFAnnoPage.ts:14-17 | the page keeps the container it is given |
| Page.PDFAnnoPage.CreateSpan | inception/inception-pdf-editor/src/main/ts/src/pdfanno/page/pdf/PDFAnnoPage.ts:84-116 | the outcome and new container contents are those of `EditOrCreateSpan` on the old contents; both container invariants are kept |
| Page.PDFAnnoPage.RecolorSelectedInPlace | inception/inception-pdf-editor/src/main/ts/src/pdfanno/page/pdf/PDFAnnoPage.ts:100-107 | the loop leaves every selected span recoloured and relabelled and every other record untouched |
| Page.PDFAnnoPage.CreateRelation | inception/inception-pdf-editor/src/main/ts/src/pdfanno/page/pdf/PDFAnnoPage.ts:121-192 | the outcome and new container contents are those of `ResolveRelation` on the old contents; both container invariants are kept |
| Page.PDFAnnoPage.EditSelectedRelationsInPlace | inception/inception-pdf-editor/src/main/ts/src/pdfanno/page/pdf/PDFAnnoPage.ts:132-139 | the loop leaves every selected relation of the type with the new text and colour and every other record untouched |
| Page.PDFAnnoPage.JoinSpans | inception/inception-pdf-editor/src/main/ts/src/pdfanno/page/pdf/PDFAnnoPage.ts:159-188 | the in-place update of the duplicate or the creation of the relation, as `ResolvePair` states |
| Page.PDFAnnoPage.FindAnnotationById | inception/inception-pdf-editor/src/main/ts/src/pdfanno/page/pdf/PDFAnnoPage.ts:197-199 | absent exactly when no record has the id; otherwise a record with that id, the only one when ids are unique |
| Page.PDFAnnoPage.AddAnnotation | inception/inception-pdf-editor/src/main/ts/src/pdfanno/page/pdf/PDFAnnoPage.ts:213-215 | the record is appended; ids stay unique exactly when its id is new |
| Page.PDFAnnoPage.ValidateSchemaErrors | inception/inception-pdf-editor/src/main/ts/src/pdfanno/page/pdf/PDFAnnoPage.ts:217-228 | the nested loops build exactly the lines of `Entries` and join them with `<br />` |
| Page.PDFAnnoPage.ScrollToAnnotation | inception/inception-pdf-editor/src/main/ts/src/pdfanno/page/pdf/PDFAnnoPage.ts:249-270 | the position set is the one `ScrollTarget` gives for the id |

## Left out

- `loadPdf`, `loadPdftxt` and `loadPDFFromServer`: network input and promises.
- The viewer functions `startViewerApplication`, `displayViewer`, `initializeViewer`, `closePDFViewer`,
  `resetPDFViewerSettings` and `getViewerViewport`. They drive the viewer, the DOM and local
  storage. The viewport is a parameter of the scroll model.
- `render`, `enableViewMode`, `save`, `highlight`/`dehighlight` with their timer, the alert dialog,
  `console.log`, and `dispatchWindowEvent` with the event at line 178. These are display and event
  effects; a rejection is modelled as the `Rejected` outcome carrying the alert text.
- `importAnnotation`: the asynchronous import of the container. Only the formatter it calls is
  modelled.
- `clearAllAnnotations`: it destroys every record through the records' own `destroy`, which is not
  part of this model.
- `autoBind`: a calling-convention artifact.
- `nextZIndex`: a drawing order.
- `convertToExportY`, the relation's `y`/`y1` and `JSON.stringify`: opaque collaborators, modelled as
  function parameters.
- `paddingBetweenPages`: a parameter, because its value is defined outside the page.
- The old calling style at lines 124-126, where the type is passed as a bare string: the model
  takes the type directly.
- Object aliasing: a relation refers to its endpoints by uuid rather than by object reference, and
  an in-place edit replaces the record at its position.
- The source loops over the filtered selected records; the model loops over the container positions
  and edits those that are selected. The effect is the same.
- `ScrollMapper.ScrollOffset`: heights, padding, scale, y and the scroll position are exact reals,
  whereas JavaScript computes them in IEEE double precision. Rounding is not modelled, so
  `ScrollOffsetInverse`, `ScrollMonotoneOnPage` and `ScrollMonotoneAcrossPages` hold in exact
  arithmetic only.
- `Page.PDFAnnoPage.ScrollToAnnotation`: does not model the browser clamping the scroll position to
  the scrollable range. A number coerced from a non-number page field is not modelled either.
- `Page.PDFAnnoPage.ValidateSchemaErrors`: does not model how JavaScript turns a primitive into text.
  A primitive is given with its rendering, and properties come in the order `Object.keys` lists
  them.
- The configuration files `AnnotationAutoConfiguration.java` and `WebsocketConfig.java`: Spring
  wiring outside the page.
