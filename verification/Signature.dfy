/** The persisted signature of a corpus case: equal texts mean equal behaviour up to
    renaming, and nothing else does. */
module Signature {
  import opened Orders
  import opened Json
  import opened Records
  import opened Corpus

  /** What the manifest expects of a case. */
  datatype Expectation = Expectation(invariants: seq<string>, patch: string, replay: string)

  function EventFields(s: Shape<string>): Value
    requires s.EventShape?
  {
    Obj(map["type" := Str("event"), "kind" := Str(EventKindText(s.eventKind)),
      "classification" := Str(ClassificationText(s.cls)), "id" := Str(s.id), "parents" := Strings(s.parents)])
  }

  function EdgeFields(s: Shape<string>): Value
    requires s.EdgeShape?
  {
    Obj(map["type" := Str("edge"), "kind" := Str(EdgeKindText(s.edgeKind)),
      "classification" := Str(ClassificationText(s.cls)), "from" := Str(s.from), "to" := Str(s.to),
          "asserted" := Bool(s.asserted)])
  }

  function MemoryFields(s: Shape<string>): Value
    requires s.MemoryShape?
  {
    Obj(map["type" := Str("memory_op"), "action" := Str(ActionText(s.action)), "state" := Str(MemoryStateText(s.state)),
      "classification" := Str(ClassificationText(s.cls)), "event" := Str(s.event),
      "namespace" := Str(s.namespace), "item" := Str(s.item), "version" := Str(s.version)])
  }

  function ShapeJson(s: Shape<string>): Value {
    match s
    case EventShape(_, _, _, _) => EventFields(s)
    case EdgeShape(_, _, _, _, _) => EdgeFields(s)
    case MemoryShape(_, _, _, _, _, _, _) => MemoryFields(s)
  }

  function ShapesJson(shapes: seq<Shape<string>>): Value {
    Arr(seq(|shapes|, i requires 0 <= i < |shapes| => ShapeJson(shapes[i])))
  }

  function SignatureJson(structure: seq<Shape<string>>, e: Expectation): Value {
    Obj(map["structure" := ShapesJson(structure), "expected_invariants" := Strings(Sort(e.invariants, StrLess)),
      "patch" := Str(e.patch), "replay" := Str(e.replay)])
  }

  /** `_normalized_signature`. */
  method NormalizedSignature(records: seq<Record>, e: Expectation) returns (text: string)
    ensures text == Print(SignatureJson(Structure(Projection(records)), e))
  {
    var structure := NormalizedStructure(records);
    text := Print(SignatureJson(structure, e));
  }

  // ---------------------------------------------------------------- injectivity of the stored form

  lemma {:induction false} ClassificationTextInjective(a: Classification, b: Classification)
    ensures ClassificationText(a) == ClassificationText(b) ==> a == b
  {}

  lemma {:induction false} EventKindTextInjective(a: EventKind, b: EventKind)
    ensures EventKindText(a) == EventKindText(b) ==> a == b
  {}

  lemma {:induction false} EdgeKindTextInjective(a: EdgeKind, b: EdgeKind)
    ensures EdgeKindText(a) == EdgeKindText(b) ==> a == b
  {}

  lemma {:induction false} ActionTextInjective(a: Action, b: Action)
    ensures ActionText(a) == ActionText(b) ==> a == b
  {}

  lemma {:induction false} MemoryStateTextInjective(a: MemoryState, b: MemoryState)
    ensures MemoryStateText(a) == MemoryStateText(b) ==> a == b
  {}

  lemma {:induction false} StringsInjective(a: seq<string>, b: seq<string>)
    ensures Strings(a) == Strings(b) ==> a == b
  {
    if Strings(a) == Strings(b) {
      var x, y := Strings(a).items, Strings(b).items;
      assert |x| == |a| && |y| == |b|;
      forall i | 0 <= i < |a| ensures a[i] == b[i] {
        assert x[i] == Str(a[i]) && y[i] == Str(b[i]);
      }
    }
  }

  lemma {:induction false} TypeField(s: Shape<string>)
    ensures ShapeJson(s).Obj? && "type" in ShapeJson(s).fields
    ensures s.EventShape? ==> ShapeJson(s).fields["type"] == Str("event")
    ensures s.EdgeShape? ==> ShapeJson(s).fields["type"] == Str("edge")
    ensures s.MemoryShape? ==> ShapeJson(s).fields["type"] == Str("memory_op")
  {}

  lemma {:induction false} EventFieldsInjective(a: Shape<string>, b: Shape<string>)
    requires a.EventShape? && b.EventShape? && EventFields(a) == EventFields(b)
    ensures a == b
  {
    var x, y := EventFields(a).fields, EventFields(b).fields;
    assert x["kind"] == y["kind"] && x["classification"] == y["classification"] && x["id"] == y["id"]
      && x["parents"] == y["parents"];
    EventKindTextInjective(a.eventKind, b.eventKind);
    ClassificationTextInjective(a.cls, b.cls);
    StringsInjective(a.parents, b.parents);
  }

  lemma {:induction false} EdgeFieldsInjective(a: Shape<string>, b: Shape<string>)
    requires a.EdgeShape? && b.EdgeShape? && EdgeFields(a) == EdgeFields(b)
    ensures a == b
  {
    var x, y := EdgeFields(a).fields, EdgeFields(b).fields;
    assert x["kind"] == y["kind"] && x["classification"] == y["classification"];
    assert x["from"] == y["from"] && x["to"] == y["to"] && x["asserted"] == y["asserted"];
    EdgeKindTextInjective(a.edgeKind, b.edgeKind);
    ClassificationTextInjective(a.cls, b.cls);
  }

  lemma {:induction false} MemoryFieldsInjective(a: Shape<string>, b: Shape<string>)
    requires a.MemoryShape? && b.MemoryShape? && MemoryFields(a) == MemoryFields(b)
    ensures a == b
  {
    var x, y := MemoryFields(a).fields, MemoryFields(b).fields;
    assert x["action"] == y["action"] && x["state"] == y["state"] && x["classification"] == y["classification"];
    assert x["event"] == y["event"] && x["namespace"] == y["namespace"] && x["item"] == y["item"]
      && x["version"] == y["version"];
    ActionTextInjective(a.action, b.action);
    MemoryStateTextInjective(a.state, b.state);
    ClassificationTextInjective(a.cls, b.cls);
  }

  lemma {:induction false} ShapeJsonInjective(a: Shape<string>, b: Shape<string>)
    requires ShapeJson(a) == ShapeJson(b)
    ensures a == b
  {
    TypeField(a);
    TypeField(b);
    if a.EventShape? && b.EventShape? {
      EventFieldsInjective(a, b);
    } else if a.EdgeShape? && b.EdgeShape? {
      EdgeFieldsInjective(a, b);
    } else if a.MemoryShape? && b.MemoryShape? {
      MemoryFieldsInjective(a, b);
    }
  }

  lemma {:induction false} ShapesJsonInjective(a: seq<Shape<string>>, b: seq<Shape<string>>)
    ensures ShapesJson(a) == ShapesJson(b) ==> a == b
  {
    if ShapesJson(a) == ShapesJson(b) {
      var x, y := ShapesJson(a).items, ShapesJson(b).items;
      assert |x| == |a| && |y| == |b|;
      forall i | 0 <= i < |a| ensures a[i] == b[i] {
        assert x[i] == ShapeJson(a[i]) && y[i] == ShapeJson(b[i]);
        ShapeJsonInjective(a[i], b[i]);
      }
    }
  }

  lemma {:induction false} SortedStrings(a: seq<string>, b: seq<string>)
    ensures Sort(a, StrLess) == Sort(b, StrLess) <==> multiset(a) == multiset(b)
  {
    StrLessIsStrictTotal();
    if multiset(a) == multiset(b) {
      SortSorts(a, StrLess);
      SortSorts(b, StrLess);
      SortedIsUnique(Sort(a, StrLess), Sort(b, StrLess), StrLess);
    }
  }

  lemma {:induction false} SignatureFields(s: seq<Shape<string>>, e: Expectation)
    ensures var x := SignatureJson(s, e).fields;
      && x.Keys == {"structure", "expected_invariants", "patch", "replay"}
      && x["structure"] == ShapesJson(s) && x["expected_invariants"] == Strings(Sort(e.invariants, StrLess))
      && x["patch"] == Str(e.patch) && x["replay"] == Str(e.replay)
  {}

  lemma {:induction false} SignatureJsonInjective(s: seq<Shape<string>>, e: Expectation, s': seq<Shape<string>>,
      e': Expectation)
    ensures SignatureJson(s, e) == SignatureJson(s', e') <==>
      s == s' && Sort(e.invariants, StrLess) == Sort(e'.invariants, StrLess) && e.patch == e'.patch
          && e.replay == e'.replay
  {
    var x, y := SignatureJson(s, e).fields, SignatureJson(s', e').fields;
    SignatureFields(s, e);
    SignatureFields(s', e');
    if x == y {
      ShapesJsonInjective(s, s');
      StringsInjective(Sort(e.invariants, StrLess), Sort(e'.invariants, StrLess));
    }
  }

  /** Two corpus cases have the same signature text if and only if a one-to-one renaming of
      identifiers carries one trace's projection onto the other's and both expect the same
      invariants, patch and replay dispositions. */
  lemma {:induction false} SignatureMeaning(a: seq<Record>, e: Expectation, b: seq<Record>, e': Expectation)
    ensures Print(SignatureJson(Structure(Projection(a)), e)) == Print(SignatureJson(Structure(Projection(b)), e')) <==>
      && (exists m :: Renaming(m, Projection(a), Projection(b)))
      && multiset(e.invariants) == multiset(e'.invariants) && e.patch == e'.patch && e.replay == e'.replay
  {
    var s, s' := Structure(Projection(a)), Structure(Projection(b));
    PrintInjective(SignatureJson(s, e), SignatureJson(s', e'));
    SignatureJsonInjective(s, e, s', e');
    SortedStrings(e.invariants, e'.invariants);
    StructureIsCanonical(a, b);
  }
}
