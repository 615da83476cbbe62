/** The annotation records held by the annotation container, the outcome of an
    editing call, and the container-wide invariants the editing operations keep. */
module AnnotationModel {

  datatype Option<T> = None | Some(value: T)

  /** The durable identifier of an annotation. */
  type Uuid = string

  /** One rectangle of a span's geometry, in document coordinates. */
  datatype Rect = Rect(x: real, y: real, width: real, height: real)

  /** A span or relation record. `None` stands for a JavaScript `null` text or
      colour. A relation refers to its two endpoint spans by their uuids. */
  datatype Annotation =
    | Span(uuid: Uuid, selected: bool, selectedTime: int,
           color: Option<string>, text: Option<string>,
           page: int, rectangles: seq<Rect>)
    | Relation(uuid: Uuid, selected: bool, selectedTime: int,
               direction: string, rel1: Uuid, rel2: Uuid,
               text: Option<string>, color: Option<string>)

  /** What an editing call did: it showed an advisory and changed nothing,
      it edited existing records, or it created one new record. */
  datatype Outcome = Rejected(message: string) | Updated | Created

  /** An outcome together with the container contents it leaves behind. */
  datatype Step = Step(outcome: Outcome, annotations: seq<Annotation>)

  function Uuids(annos: seq<Annotation>): set<Uuid>
  {
    set a | a in annos :: a.uuid
  }

  function SpanIds(annos: seq<Annotation>): set<Uuid>
  {
    set a | a in annos && a.Span? :: a.uuid
  }

  /** No two records of the container share a uuid. */
  predicate UniqueIds(annos: seq<Annotation>)
  {
    forall i, j :: 0 <= i < j < |annos| ==> annos[i].uuid != annos[j].uuid
  }

  /** Every relation joins two distinct spans of the container. */
  predicate EndpointsValid(annos: seq<Annotation>)
  {
    forall a :: a in annos && a.Relation? ==>
      a.rel1 != a.rel2 && a.rel1 in SpanIds(annos) && a.rel2 in SpanIds(annos)
  }

  predicate WellFormed(annos: seq<Annotation>)
  {
    UniqueIds(annos) && EndpointsValid(annos)
  }

  /** No two relations join the same unordered pair of spans. */
  predicate OnePerPair(annos: seq<Annotation>)
  {
    forall i, j :: 0 <= i < j < |annos| && annos[i].Relation? && annos[j].Relation? ==>
      {annos[i].rel1, annos[i].rel2} != {annos[j].rel1, annos[j].rel2}
  }

  /** The container's lookup by id: the first record carrying `id`. */
  function FindById(annos: seq<Annotation>, id: Uuid): (r: Option<Annotation>)
    ensures r.None? <==> id !in Uuids(annos)
    ensures r.Some? ==> r.value in annos && r.value.uuid == id
    ensures r.Some? ==> exists k :: 0 <= k < |annos| && annos[k] == r.value &&
                                    forall j :: 0 <= j < k ==> annos[j].uuid != id
  {
    if annos == [] then None
    else if annos[0].uuid == id then Some(annos[0])
    else
      var r := FindById(annos[1..], id);
      assert Uuids(annos) == {annos[0].uuid} + Uuids(annos[1..]) by {
        assert forall a :: a in annos <==> a == annos[0] || a in annos[1..];
      }
      if r.Some? then
        var k :| 0 <= k < |annos[1..]| && annos[1..][k] == r.value &&
                 forall j :: 0 <= j < k ==> annos[1..][j].uuid != id;
        assert annos[k + 1] == r.value;
        r
      else r
  }

  /** With unique ids the lookup finds the one record carrying `id`. */
  lemma FindByIdUnique(annos: seq<Annotation>, id: Uuid, k: nat)
    requires UniqueIds(annos)
    requires k < |annos| && annos[k].uuid == id
    ensures FindById(annos, id) == Some(annos[k])
  {
    var r := FindById(annos, id);
    var j :| 0 <= j < |annos| && annos[j] == r.value &&
             forall i :: 0 <= i < j ==> annos[i].uuid != id;
    assert j == k;
  }

  /** Appending a record keeps the ids unique exactly when its id is new. */
  lemma AddKeepsUniqueIds(annos: seq<Annotation>, a: Annotation)
    ensures UniqueIds(annos + [a]) <==> UniqueIds(annos) && a.uuid !in Uuids(annos)
  {
    var s := annos + [a];
    assert forall i :: 0 <= i < |annos| ==> annos[i] == s[i];
    if a.uuid in Uuids(annos) {
      var b :| b in annos && b.uuid == a.uuid;
      var i :| 0 <= i < |annos| && annos[i] == b;
      assert s[i].uuid == s[|annos|].uuid;
    }
    if UniqueIds(annos) && a.uuid !in Uuids(annos) {
      forall i, j | 0 <= i < j < |s| ensures s[i].uuid != s[j].uuid {
        if j == |annos| {
          assert s[i] in annos;
        } else {
          assert s[i] == annos[i] && s[j] == annos[j];
        }
      }
    }
  }

  /** Two records agree on everything the container invariants look at. */
  predicate SameShape(a: Annotation, b: Annotation)
  {
    && a.uuid == b.uuid
    && a.Span? == b.Span?
    && (a.Relation? && b.Relation? ==> a.rel1 == b.rel1 && a.rel2 == b.rel2)
  }

  lemma SameShapeSpanIds(s: seq<Annotation>, t: seq<Annotation>)
    requires |s| == |t| && forall k :: 0 <= k < |s| ==> SameShape(s[k], t[k])
    ensures SpanIds(s) == SpanIds(t) && Uuids(s) == Uuids(t)
  {
    forall id | id in SpanIds(s) ensures id in SpanIds(t) {
      var a :| a in s && a.Span? && a.uuid == id;
      var k :| 0 <= k < |s| && s[k] == a;
      assert t[k] in t;
    }
    forall id | id in SpanIds(t) ensures id in SpanIds(s) {
      var a :| a in t && a.Span? && a.uuid == id;
      var k :| 0 <= k < |t| && t[k] == a;
      assert s[k] in s;
    }
    forall id | id in Uuids(s) ensures id in Uuids(t) {
      var a :| a in s && a.uuid == id;
      var k :| 0 <= k < |s| && s[k] == a;
      assert t[k] in t;
    }
    forall id | id in Uuids(t) ensures id in Uuids(s) {
      var a :| a in t && a.uuid == id;
      var k :| 0 <= k < |t| && t[k] == a;
      assert s[k] in s;
    }
  }

  /** Edits that keep every record's shape keep the container invariants. */
  lemma SameShapeKeepsInvariants(s: seq<Annotation>, t: seq<Annotation>)
    requires |s| == |t| && forall k :: 0 <= k < |s| ==> SameShape(s[k], t[k])
    ensures WellFormed(s) ==> WellFormed(t)
    ensures OnePerPair(s) ==> OnePerPair(t)
  {
    SameShapeSpanIds(s, t);
    if EndpointsValid(s) {
      forall a | a in t && a.Relation?
        ensures a.rel1 != a.rel2 && a.rel1 in SpanIds(t) && a.rel2 in SpanIds(t)
      {
        var k :| 0 <= k < |t| && t[k] == a;
        assert s[k] in s && s[k].Relation?;
      }
    }
    if OnePerPair(s) {
      forall i, j | 0 <= i < j < |t| && t[i].Relation? && t[j].Relation?
        ensures {t[i].rel1, t[i].rel2} != {t[j].rel1, t[j].rel2}
      {
        assert SameShape(s[i], t[i]) && SameShape(s[j], t[j]);
      }
    }
  }
}
