/** Fixtures for given payloads: ingestion reaches every ledger its checks allow, and the
    fixtures that show where two of its properties end. */
module Fixtures {
  import opened Json
  import opened Orders
  import opened Records
  import opened Ledger
  import opened Ingest

  // ---------------------------------------------------------------- a source record for a payload

  function EventSource(p: Payload): Value
    requires p.Event?
  {
    Obj(map["type" := Str("event"), "id" := Str(p.sourceId), "classification" := Str(ClassificationText(p.cls)),
      "kind" := Str(EventKindText(p.eventKind)), "actor" := Str(p.actor),
      "state_version" := Str(p.stateVersion), "parents" := Strings(p.parents)])
  }

  function EdgeSource(p: Payload): Value
    requires p.Edge?
  {
    Obj(map["type" := Str("edge"), "id" := Str(p.sourceId), "classification" := Str(ClassificationText(p.cls)),
      "kind" := Str(EdgeKindText(p.edgeKind)), "from" := Str(p.from), "to" := Str(p.to),
      "source_asserted" := Bool(p.asserted)])
  }

  function MemoryOpSource(p: Payload): Value
    requires p.MemoryOp?
  {
    Obj(map["type" := Str("memory_op"), "id" := Str(p.sourceId), "classification" := Str(ClassificationText(p.cls)),
      "action" := Str(ActionText(p.action)), "namespace" := Str(p.entry.namespace), "item" := Str(p.entry.item),
      "version" := Str(p.entry.version), "state" := Str(MemoryStateText(p.state)), "event" := Str(p.eventRef)])
  }

  function SourceJson(p: Payload): Value
    requires p.Source?()
  {
    match p
    case Event(_, _, _, _, _, _, _) => EventSource(p)
    case Edge(_, _, _, _, _, _, _) => EdgeSource(p)
    case MemoryOp(_, _, _, _, _, _, _) => MemoryOpSource(p)
  }

  /** A payload some source record without further fields projects to. */
  predicate Plain(p: Payload) {
    ValidSource(p) && p.redacted == map[]
  }

  lemma {:induction false} EnumReads(p: Payload)
    ensures ClassificationOf(Some(Str(ClassificationText(p.cls)))) == Ok(p.cls)
    ensures p.Event? ==> EventKindOf(Some(Str(EventKindText(p.eventKind)))) == Ok(p.eventKind)
    ensures p.Edge? ==> EdgeKindOf(Some(Str(EdgeKindText(p.edgeKind)))) == Ok(p.edgeKind)
    ensures p.MemoryOp? ==> ActionOf(Some(Str(ActionText(p.action)))) == Ok(p.action)
    ensures p.MemoryOp? ==> MemoryStateOf(Some(Str(MemoryStateText(p.state)))) == Ok(p.state)
  {
    ClassificationReads(p.cls);
    match p
    case Event(_, _, kind, _, _, _, _) => EventKindReads(kind);
    case Edge(_, _, kind, _, _, _, _) => EdgeKindReads(kind);
    case MemoryOp(_, _, action, _, state, _, _) =>
      ActionReads(action);
      MemoryStateReads(state);
    case _ =>
  }

  lemma {:induction false} ClassificationReads(c: Classification)
    ensures ClassificationOf(Some(Str(ClassificationText(c)))) == Ok(c)
  {
    EnumAt([Public, Internal, Sensitive, Classification.Unknown], ClassificationText, "classification", c);
  }

  lemma {:induction false} EventKindReads(k: EventKind)
    ensures EventKindOf(Some(Str(EventKindText(k)))) == Ok(k)
  {
    EnumAt([Start, Step, Tool, Memory, Evaluate, Finish, Error], EventKindText, "event_kind", k);
  }

  lemma {:induction false} EdgeKindReads(k: EdgeKind)
    ensures EdgeKindOf(Some(Str(EdgeKindText(k)))) == Ok(k)
  {
    EnumAt([Parent, Input, Output, MemoryLink, Evaluation], EdgeKindText, "edge_kind", k);
  }

  lemma {:induction false} ActionReads(a: Action)
    ensures ActionOf(Some(Str(ActionText(a)))) == Ok(a)
  {
    EnumAt([Action.Read, Write, Quarantine, Expire], ActionText, "memory_action", a);
  }

  lemma {:induction false} MemoryStateReads(s: MemoryState)
    ensures MemoryStateOf(Some(Str(MemoryStateText(s)))) == Ok(s)
  {
    EnumAt([Clean, Stale, Tainted, Quarantined, Expired], MemoryStateText, "memory_state", s);
  }

  lemma {:induction false} EnumAt<T>(options: seq<T>, text: T -> string, field: string, x: T)
    requires x in options && forall y, z :: y in options && z in options && text(y) == text(z) ==> y == z
    ensures Enum(Some(Str(text(x))), options, text, field) == Ok(x)
  {
    if text(options[0]) != text(x) {
      assert forall y :: y in options[1..] ==> y in options;
      assert options == [options[0]] + options[1..];
      EnumAt(options[1..], text, field, x);
    }
  }

  lemma {:induction false} IdentsRead(names: seq<string>, field: string)
    requires forall s <- names :: IsIdentifier(s)
    ensures Idents(Strings(names).items, field) == Ok(names)
  {
    if names != [] {
      assert Strings(names).items[1..] == Strings(names[1..]).items;
      IdentsRead(names[1..], field);
      assert [names[0]] + names[1..] == names;
    }
  }

  lemma {:induction false} EventReads(p: Payload)
    requires p.Event? && Plain(p)
    ensures ProjectEvent(EventSource(p)) == Ok(p)
  {
    EnumReads(p);
    IdentsRead(p.parents, "parents");
    assert Redacted(EventSource(p), EVENT_FIELDS) == map[];
  }

  lemma {:induction false} EdgeReads(p: Payload)
    requires p.Edge? && Plain(p)
    ensures ProjectEdge(EdgeSource(p)) == Ok(p)
  {
    EnumReads(p);
    assert Redacted(EdgeSource(p), EDGE_FIELDS) == map[];
  }

  lemma {:induction false} MemoryOpReads(p: Payload)
    requires p.MemoryOp? && Plain(p)
    ensures ProjectMemoryOp(MemoryOpSource(p)) == Ok(p)
  {
    EnumReads(p);
    NothingRedacted(MemoryOpSource(p), MEMORY_FIELDS);
    MemoryOpFields(p);
    ReadsFromFields(MemoryOpSource(p), p);
  }

  lemma {:induction false} NothingRedacted(source: Value, allowed: set<string>)
    requires source.Obj? && source.fields.Keys <= allowed
    ensures Redacted(source, allowed) == map[]
  {}

  predicate HoldsOperation(source: Value, p: Payload)
    requires p.MemoryOp?
  {
    && Field(source, "id") == Some(Str(p.sourceId))
    && Field(source, "classification") == Some(Str(ClassificationText(p.cls)))
    && Field(source, "action") == Some(Str(ActionText(p.action)))
    && Field(source, "namespace") == Some(Str(p.entry.namespace)) && Field(source, "item") == Some(Str(p.entry.item))
    && Field(source, "version") == Some(Str(p.entry.version))
    && Field(source, "state") == Some(Str(MemoryStateText(p.state))) && Field(source, "event") == Some(Str(p.eventRef))
  }

  lemma {:induction false} MemoryOpFields(p: Payload)
    requires p.MemoryOp?
    ensures HoldsOperation(MemoryOpSource(p), p)
  {}

  lemma {:induction false} ReadsFromFields(source: Value, p: Payload)
    requires p.MemoryOp? && Plain(p) && source.Obj? && HoldsOperation(source, p)
    requires ClassificationOf(Some(Str(ClassificationText(p.cls)))) == Ok(p.cls)
    requires ActionOf(Some(Str(ActionText(p.action)))) == Ok(p.action)
    requires MemoryStateOf(Some(Str(MemoryStateText(p.state)))) == Ok(p.state)
    requires Redacted(source, MEMORY_FIELDS) == map[]
    ensures ProjectMemoryOp(source) == Ok(p)
  {}

  lemma {:induction false} SourceReads(p: Payload)
    requires Plain(p)
    ensures ProjectRecord(SourceJson(p)) == Ok(p)
  {
    SourceType(p);
    match p
    case Event(_, _, _, _, _, _, _) => EventReads(p);
    case Edge(_, _, _, _, _, _, _) => EdgeReads(p);
    case MemoryOp(_, _, _, _, _, _, _) => MemoryOpReads(p);
    ProjectsByType(SourceJson(p));
  }

  lemma {:induction false} SourceType(p: Payload)
    requires p.Source?()
    ensures p.Event? ==> TypeOf(EventSource(p)) == EventType
    ensures p.Edge? ==> TypeOf(EdgeSource(p)) == EdgeType
    ensures p.MemoryOp? ==> TypeOf(MemoryOpSource(p)) == MemoryType
  {}

  lemma {:induction false} ProjectsByType(source: Value)
    requires source.Obj?
    ensures TypeOf(source) == EventType ==> ProjectRecord(source) == ProjectEvent(source)
    ensures TypeOf(source) == EdgeType ==> ProjectRecord(source) == ProjectEdge(source)
    ensures TypeOf(source) == MemoryType ==> ProjectRecord(source) == ProjectMemoryOp(source)
  {}

  // ---------------------------------------------------------------- a fixture for a ledger

  function ManifestFields(start: Payload): Value
    requires start.RunStart?
  {
    Obj(map["fixture" := Str(start.fixture), "environment" := Str(start.environment), "seed" := Num(start.seed)])
  }

  function FixtureOf(runId: string, start: Payload, sources: seq<Value>): Value
    requires start.RunStart?
  {
    Obj(map["fixture_version" := Str("phase1a-1"), "run_id" := Str(runId), "records" := Arr(sources),
      "manifest" := ManifestFields(start)])
  }

  function Sources(payloads: seq<Payload>): (r: seq<Value>)
    requires forall p <- payloads :: Plain(p)
    ensures |r| == |payloads| && forall i :: 0 <= i < |r| ==> Plain(payloads[i]) && r[i] == SourceJson(payloads[i])
  {
    seq(|payloads|, i requires 0 <= i < |payloads| =>
      assert payloads[i] in payloads && Plain(payloads[i]);
      SourceJson(payloads[i]))
  }

  lemma {:induction false} SourcesStep(payloads: seq<Payload>)
    requires payloads != [] && (forall p <- payloads :: Plain(p)) && forall p <- payloads[1..] :: Plain(p)
    requires Plain(payloads[0]) && ProjectRecord(SourceJson(payloads[0])) == Ok(payloads[0])
    requires ProjectAll(Sources(payloads[1..])) == Ok(payloads[1..])
    ensures ProjectAll(Sources(payloads)) == Ok(payloads)
  {
    var first, rest := payloads[0], payloads[1..];
    assert Sources(payloads) == [SourceJson(first)] + Sources(rest);
    ProjectCons(SourceJson(first), Sources(rest), first, rest);
    assert [first] + rest == payloads;
  }

  lemma {:induction false} ProjectCons(source: Value, sources: seq<Value>, first: Payload, rest: seq<Payload>)
    requires ProjectRecord(source) == Ok(first) && ProjectAll(sources) == Ok(rest)
    ensures ProjectAll([source] + sources) == Ok([first] + rest)
  {
    assert ([source] + sources)[1..] == sources;
  }

  lemma {:induction false} SourcesRead(payloads: seq<Payload>)
    requires forall p <- payloads :: Plain(p)
    ensures ProjectAll(Sources(payloads)) == Ok(payloads)
  {
    if payloads != [] {
      assert payloads[0] in payloads && forall p <- payloads[1..] :: p in payloads;
      SourcesRead(payloads[1..]);
      SourceReads(payloads[0]);
      SourcesStep(payloads);
    }
  }

  /** A run identifier and payloads that pass the checks of ingestion. */
  predicate Ingestible(runId: string, start: Payload, payloads: seq<Payload>) {
    && IsIdentifier(runId) && start.RunStart? && IsIdentifier(start.fixture) && IsIdentifier(start.environment)
    && start.cls == Strictest(payloads, Internal)
    && |payloads| <= 128 && forall p <- payloads :: Plain(p)
  }

  lemma {:induction false} FixtureProjects(runId: string, start: Payload, payloads: seq<Payload>)
    requires Ingestible(runId, start, payloads)
    ensures Projected(FixtureOf(runId, start, Sources(payloads))) == Ok((runId, [start] + payloads))
  {
    var document := FixtureOf(runId, start, Sources(payloads));
    SourcesRead(payloads);
    ManifestReads(start);
    FixtureParts(runId, start, Sources(payloads));
    ProjectsFromParts(document, runId, start, payloads);
  }

  predicate HasParts(document: Value, runId: string, start: Payload, sources: seq<Value>)
    requires start.RunStart?
  {
    && document.Obj? && document.fields.Keys == {"fixture_version", "run_id", "records", "manifest"}
    && document.fields["fixture_version"] == Str("phase1a-1") && document.fields["run_id"] == Str(runId)
    && document.fields["records"] == Arr(sources) && document.fields["manifest"] == ManifestFields(start)
  }

  lemma {:induction false} FixtureParts(runId: string, start: Payload, sources: seq<Value>)
    requires start.RunStart?
    ensures HasParts(FixtureOf(runId, start, sources), runId, start, sources)
  {}

  lemma {:induction false} ProjectsFromParts(document: Value, runId: string, start: Payload, payloads: seq<Payload>)
    requires Ingestible(runId, start, payloads) && HasParts(document, runId, start, Sources(payloads))
    requires ProjectAll(Sources(payloads)) == Ok(payloads)
    ensures Projected(document) == Ok((runId, [start] + payloads))
  {
    ManifestReads(start);
  }

  lemma {:induction false} ManifestReads(start: Payload)
    requires start.RunStart? && IsIdentifier(start.fixture) && IsIdentifier(start.environment)
    ensures var manifest := ManifestFields(start);
      && manifest.fields.Keys == {"fixture", "environment", "seed"} && manifest.fields["seed"] == Num(start.seed)
      && Ident(Field(manifest, "fixture"), "fixture") == Ok(start.fixture)
      && Ident(Field(manifest, "environment"), "environment") == Ok(start.environment)
  {}

  // ---------------------------------------------------------------- within the limits

  predicate AsciiOnly(s: string) {
    forall i :: 0 <= i < |s| ==> s[i] as int < 0x80
  }

  predicate Short(s: string) {
    |s| <= 48 && AsciiOnly(s)
  }

  lemma {:induction false} AsciiLength(s: string)
    requires AsciiOnly(s)
    ensures Utf8Length(s) == |s|
  {
    if s != "" {
      assert s[0] as int < 0x80;
      AsciiLength(s[1..]);
    }
  }

  lemma {:induction false} IdentifierIsShort(s: string)
    requires IsIdentifier(s)
    ensures Short(s)
  {
    forall i | 0 <= i < |s| ensures s[i] as int < 0x80 { assert IdentChar(s[i]); }
  }

  /** A short text, a flag, a number, or a few short texts. */
  predicate Small(v: Value) {
    match v
    case Str(s) => Short(s)
    case Bool(_) => true
    case Num(_) => true
    case Arr(items) => |items| <= 16 && forall i :: 0 <= i < |items| ==> items[i].Str? && Short(items[i].s)
    case _ => false
  }

  lemma {:induction false} SmallFits(v: Value, depth: nat)
    requires Small(v) && depth < 12
    ensures WithinLimits(v, depth)
  {
    match v
    case Str(s) => AsciiLength(s);
    case Arr(items) => forall i | 0 <= i < |items| ensures WithinLimits(items[i],
        depth + 1) { AsciiLength(items[i].s); }
    case _ =>
  }

  lemma {:induction false} NamesSmall(names: seq<string>)
    requires |names| <= 16 && forall s <- names :: IsIdentifier(s)
    ensures Small(Strings(names))
  {
    forall i | 0 <= i < |names| ensures Short(names[i]) {
      assert names[i] in names;
      IdentifierIsShort(names[i]);
    }
  }

  predicate AllSmall(fields: map<string, Value>) {
    |fields| <= 32 && forall k :: k in fields ==> Short(k) && Small(fields[k])
  }

  /** A few short names with small values are within the limits. */
  lemma {:induction false} RecordFits(fields: map<string, Value>, depth: nat)
    requires AllSmall(fields) && depth < 11
    ensures WithinLimits(Obj(fields), depth)
  {
    forall k | k in fields ensures Utf8Length(k) <= 256 && WithinLimits(fields[k], depth + 1) {
      AsciiLength(k);
      SmallFits(fields[k], depth + 1);
    }
  }

  lemma {:induction false} ClassificationShort(c: Classification)
    ensures Short(ClassificationText(c))
  {}

  lemma {:induction false} EventKindShort(k: EventKind)
    ensures Short(EventKindText(k))
  {}

  lemma {:induction false} EdgeKindShort(k: EdgeKind)
    ensures Short(EdgeKindText(k))
  {}

  lemma {:induction false} ActionShort(a: Action)
    ensures Short(ActionText(a))
  {}

  lemma {:induction false} MemoryStateShort(s: MemoryState)
    ensures Short(MemoryStateText(s))
  {}

  /** The names of source fields are few and short. */
  lemma {:induction false} FieldNamesFit(fields: map<string, Value>)
    requires fields.Keys <= EVENT_FIELDS || fields.Keys <= EDGE_FIELDS || fields.Keys <= MEMORY_FIELDS
    requires forall k :: k in fields ==> Small(fields[k])
    ensures AllSmall(fields)
  {
    FewFields(fields.Keys);
    forall k | k in fields ensures Short(k) { ShortKey(k); }
  }

  lemma {:induction false} FewFields(keys: set<string>)
    requires keys <= EVENT_FIELDS || keys <= EDGE_FIELDS || keys <= MEMORY_FIELDS
    ensures |keys| <= 32
  {
    if keys <= EVENT_FIELDS {
      SubsetSize(keys, EVENT_FIELDS);
    } else if keys <= EDGE_FIELDS {
      SubsetSize(keys, EDGE_FIELDS);
    } else {
      SubsetSize(keys, MEMORY_FIELDS);
    }
  }

  lemma {:induction false} ShortKey(k: string)
    requires k in EVENT_FIELDS || k in EDGE_FIELDS || k in MEMORY_FIELDS
    ensures Short(k)
  {}

  lemma {:induction false} EventFits(p: Payload)
    requires p.Event? && ValidSource(p)
    ensures AllSmall(EventSource(p).fields)
  {
    var fields := EventSource(p).fields;
    ClassificationShort(p.cls);
    EventKindShort(p.eventKind);
    IdentifierIsShort(p.sourceId);
    IdentifierIsShort(p.actor);
    IdentifierIsShort(p.stateVersion);
    NamesSmall(p.parents);
    EventValuesSmall(p);
    assert fields.Keys <= EVENT_FIELDS;
    FieldNamesFit(fields);
  }

  lemma {:induction false} EventValuesSmall(p: Payload)
    requires p.Event? && Short(p.sourceId) && Short(p.actor) && Short(p.stateVersion) && Small(Strings(p.parents))
    requires Short(ClassificationText(p.cls)) && Short(EventKindText(p.eventKind))
    ensures forall k :: k in EventSource(p).fields ==> Small(EventSource(p).fields[k])
  {}

  lemma {:induction false} EdgeFits(p: Payload)
    requires p.Edge? && ValidSource(p)
    ensures AllSmall(EdgeSource(p).fields)
  {
    var fields := EdgeSource(p).fields;
    ClassificationShort(p.cls);
    EdgeKindShort(p.edgeKind);
    IdentifierIsShort(p.sourceId);
    IdentifierIsShort(p.from);
    IdentifierIsShort(p.to);
    EdgeValuesSmall(p);
    assert fields.Keys <= EDGE_FIELDS;
    FieldNamesFit(fields);
  }

  lemma {:induction false} EdgeValuesSmall(p: Payload)
    requires p.Edge? && Short(p.sourceId) && Short(p.from) && Short(p.to)
    requires Short(ClassificationText(p.cls)) && Short(EdgeKindText(p.edgeKind))
    ensures forall k :: k in EdgeSource(p).fields ==> Small(EdgeSource(p).fields[k])
  {}

  lemma {:induction false} MemoryOpFits(p: Payload)
    requires p.MemoryOp? && ValidSource(p)
    ensures AllSmall(MemoryOpSource(p).fields)
  {
    var fields := MemoryOpSource(p).fields;
    ClassificationShort(p.cls);
    ActionShort(p.action);
    MemoryStateShort(p.state);
    IdentifierIsShort(p.sourceId);
    IdentifierIsShort(p.entry.namespace);
    IdentifierIsShort(p.entry.item);
    IdentifierIsShort(p.entry.version);
    IdentifierIsShort(p.eventRef);
    MemoryOpValuesSmall(p);
    assert fields.Keys <= MEMORY_FIELDS;
    FieldNamesFit(fields);
  }

  lemma {:induction false} MemoryOpValuesSmall(p: Payload)
    requires p.MemoryOp? && Short(p.sourceId) && Short(p.eventRef)
    requires Short(p.entry.namespace) && Short(p.entry.item) && Short(p.entry.version)
    requires Short(ClassificationText(p.cls)) && Short(ActionText(p.action)) && Short(MemoryStateText(p.state))
    ensures forall k :: k in MemoryOpSource(p).fields ==> Small(MemoryOpSource(p).fields[k])
  {}

  lemma {:induction false} SourceFits(p: Payload)
    requires ValidSource(p)
    ensures AllSmall(SourceJson(p).fields) && WithinLimits(SourceJson(p), 2)
  {
    var fields := SourceJson(p).fields;
    assert AllSmall(fields) by {
      match p
      case Event(_, _, _, _, _, _, _) => EventFits(p);
      case Edge(_, _, _, _, _, _, _) => EdgeFits(p);
      case MemoryOp(_, _, _, _, _, _, _) => MemoryOpFits(p);
    }
    RecordFits(fields, 2);
    assert SourceJson(p) == Obj(fields);
  }

  lemma {:induction false} ManifestFits(start: Payload)
    requires start.RunStart? && IsIdentifier(start.fixture) && IsIdentifier(start.environment)
    ensures AllSmall(ManifestFields(start).fields)
  {
    IdentifierIsShort(start.fixture);
    IdentifierIsShort(start.environment);
  }

  const FIXTURE_FIELDS: set<string> := {"fixture_version", "run_id", "records", "manifest"}

  lemma {:induction false} FixtureNamesShort(k: string)
    requires k in FIXTURE_FIELDS
    ensures Short(k)
  {}

  /** A fixture is within the limits when its records are. */
  lemma {:induction false} FixtureFits(runId: string, start: Payload, sources: seq<Value>)
    requires IsIdentifier(runId) && start.RunStart? && IsIdentifier(start.fixture) && IsIdentifier(start.environment)
    requires |sources| <= 128
    ensures WithinLimits(FixtureOf(runId, start, sources), 0) <==>
      forall i :: 0 <= i < |sources| ==> WithinLimits(sources[i], 2)
  {
    var document := FixtureOf(runId, start, sources);
    FixtureParts(runId, start, sources);
    NamesFit(document.fields);
    OthersFit(document, runId, start, sources);
    OnlyOneMatters(document.fields, sources);
    SequenceFits(sources);
    assert document == Obj(document.fields);
  }

  lemma {:induction false} SequenceFits(sources: seq<Value>)
    requires |sources| <= 128
    ensures WithinLimits(Arr(sources), 1) <==> forall i :: 0 <= i < |sources| ==> WithinLimits(sources[i], 2)
  {}

  lemma {:induction false} NamesFit(fields: map<string, Value>)
    requires fields.Keys == FIXTURE_FIELDS
    ensures |fields| <= 32 && forall k :: k in fields ==> Utf8Length(k) <= 256
  {
    FourFields();
    forall k | k in fields ensures Utf8Length(k) <= 256 {
      FixtureNamesShort(k);
      AsciiLength(k);
    }
  }

  lemma {:induction false} FourFields()
    ensures |FIXTURE_FIELDS| <= 32
  {}

  lemma {:induction false} OthersFit(document: Value, runId: string, start: Payload, sources: seq<Value>)
    requires IsIdentifier(runId) && start.RunStart? && IsIdentifier(start.fixture) && IsIdentifier(start.environment)
    requires HasParts(document, runId, start, sources)
    ensures forall k :: k in document.fields && k != "records" ==> WithinLimits(document.fields[k], 1)
  {
    forall k | k in document.fields && k != "records" ensures WithinLimits(document.fields[k], 1) {
      OtherFits(document.fields[k], runId, start);
    }
  }

  lemma {:induction false} OtherFits(v: Value, runId: string, start: Payload)
    requires IsIdentifier(runId) && start.RunStart? && IsIdentifier(start.fixture) && IsIdentifier(start.environment)
    requires v == Str("phase1a-1") || v == Str(runId) || v == ManifestFields(start)
    ensures WithinLimits(v, 1)
  {
    if v == ManifestFields(start) {
      ManifestFits(start);
      RecordFits(v.fields, 1);
    } else {
      if v == Str(runId) {
        IdentifierIsShort(runId);
      }
      SmallFits(v, 1);
    }
  }

  lemma {:induction false} OnlyOneMatters(fields: map<string, Value>, sources: seq<Value>)
    requires |fields| <= 32 && "records" in fields && fields["records"] == Arr(sources)
    requires forall k :: k in fields ==> Utf8Length(k) <= 256
    requires forall k :: k in fields && k != "records" ==> WithinLimits(fields[k], 1)
    ensures WithinLimits(Obj(fields), 0) <==> WithinLimits(Arr(sources), 1)
  {}

  /** Ingestion reaches every ledger its checks allow: for any payloads that pass them, some
      fixture is ingested to exactly the chain of these payloads. */
  lemma {:induction false} EveryTraceIsIngested(h: Runtime, runId: string, start: Payload, payloads: seq<Payload>)
    requires Ingestible(runId, start, payloads)
    ensures Ingested(h, FixtureOf(runId, start, Sources(payloads))) == Ok(AppendAll(h, [], runId, [start] + payloads))
  {
    FixtureProjects(runId, start, payloads);
    forall i | 0 <= i < |payloads| ensures WithinLimits(Sources(payloads)[i], 2) { SourceFits(payloads[i]); }
    FixtureFits(runId, start, Sources(payloads));
  }

  // ---------------------------------------------------------------- the limits look at redacted fields

  /** The source of an event with one field outside the allowlist. */
  function Noted(p: Payload, name: string, note: Value): Value
    requires p.Event?
  {
    Obj(EventSource(p).fields[name := note])
  }

  lemma {:induction false} NotedFields(p: Payload, name: string, note: Value)
    requires p.Event? && name !in EVENT_FIELDS
    ensures forall k <- EVENT_FIELDS :: Field(Noted(p, name, note), k) == Field(EventSource(p), k)
    ensures EventSource(p).fields.Keys == EVENT_FIELDS
    ensures TypeOf(Noted(p, name, note)) == EventType
  {}

  lemma {:induction false} NotedReads(p: Payload, name: string, note: Value)
    requires p.Event? && Plain(p) && name !in EVENT_FIELDS
    ensures ProjectRecord(Noted(p, name, note)).Ok?
  {
    EnumReads(p);
    IdentsRead(p.parents, "parents");
    NotedFields(p, name, note);
  }

  lemma {:induction false} NotedFits(p: Payload, name: string, note: Value)
    requires p.Event? && ValidSource(p) && name !in EVENT_FIELDS && Short(name)
    ensures WithinLimits(Noted(p, name, note), 2) <==> WithinLimits(note, 3)
  {
    EventFits(p);
    NotedFields(p, name, note);
    SevenFields();
    SmallFieldsAndOne(EventSource(p).fields, name, note);
  }

  lemma {:induction false} SevenFields()
    ensures |EVENT_FIELDS| <= 31
  {}

  lemma {:induction false} SmallFieldsAndOne(fields: map<string, Value>, name: string, v: Value)
    requires AllSmall(fields) && |fields.Keys| <= 31 && name !in fields && Short(name)
    ensures WithinLimits(Obj(fields[name := v]), 2) <==> WithinLimits(v, 3)
  {
    SmallFieldsFit(fields);
    AsciiLength(name);
    OneFieldMore(fields, name, v);
  }

  lemma {:induction false} SmallFieldsFit(fields: map<string, Value>)
    requires AllSmall(fields)
    ensures forall k :: k in fields ==> Utf8Length(k) <= 256 && WithinLimits(fields[k], 3)
  {
    forall k | k in fields ensures Utf8Length(k) <= 256 && WithinLimits(fields[k], 3) {
      AsciiLength(k);
      SmallFits(fields[k], 3);
    }
  }

  lemma {:induction false} OneFieldMore(fields: map<string, Value>, name: string, v: Value)
    requires |fields| <= 31 && name !in fields && Utf8Length(name) <= 256
    requires forall k :: k in fields ==> Utf8Length(k) <= 256 && WithinLimits(fields[k], 3)
    ensures WithinLimits(Obj(fields[name := v]), 2) <==> WithinLimits(v, 3)
  {
    var more := fields[name := v];
    assert more.Keys == fields.Keys + {name};
    assert name in more && more[name] == v;
  }

  /** Lists within lists. */
  function Nested(n: nat): Value {
    if n == 0 then Arr([]) else Arr([Nested(n - 1)])
  }

  lemma {:induction false} NestedLength(n: nat)
    ensures |Print(Nested(n))| == 2 * n + 2
  {
    if n > 0 {
      NestedLength(n - 1);
      assert PrintItems([Nested(n - 1)]) == Print(Nested(n - 1));
    }
  }

  lemma {:induction false} NestedDepth(n: nat, depth: nat)
    ensures WithinLimits(Nested(n), depth) <==> depth + n <= 12
  {
    if n > 0 {
      NestedDepth(n - 1, depth + 1);
      assert Nested(n).items[0] == Nested(n - 1);
    }
  }

  function Repeated(n: nat): string {
    seq(n, _ => 'a')
  }

  lemma {:induction false} RepeatedLength(n: nat)
    ensures |Print(Str(Repeated(n)))| == n + 2
  {
    RepeatedEscape(n);
  }

  lemma {:induction false} RepeatedEscape(n: nat)
    ensures |Escape(Repeated(n))| == n
  {
    if n > 0 {
      assert Repeated(n)[1..] == Repeated(n - 1);
      RepeatedEscape(n - 1);
    }
  }

  /** Two fixtures that differ in a redacted field only, by values of one length: one nests too
      deeply and is refused, the other is ingested. */
  lemma {:induction false} LimitsSeeRedactedFields(h: Runtime, runId: string, start: Payload, p: Payload, name: string)
    requires p.Event? && Ingestible(runId, start, [p]) && name !in EVENT_FIELDS && Short(name)
    ensures var a := FixtureOf(runId, start, [Noted(p, name, Nested(10))]);
      var b := FixtureOf(runId, start, [Noted(p, name, Str(Repeated(20)))]);
      SameFixtureView(a, b) && Ingested(h, a) == Err(LimitExceeded) && Ingested(h, b).Ok?
  {
    NestedLength(10);
    RepeatedLength(20);
    NestedDepth(10, 3);
    RepeatedFits(20);
    DepthSeparates(h, runId, start, p, name, Nested(10), Str(Repeated(20)));
  }

  lemma {:induction false} DepthSeparates(h: Runtime, runId: string, start: Payload, p: Payload, name: string,
      deep: Value, flat: Value)
    requires p.Event? && Ingestible(runId, start, [p]) && name !in EVENT_FIELDS && Short(name)
    requires !WithinLimits(deep, 3) && WithinLimits(flat, 3) && ByteLength(deep) == ByteLength(flat)
    ensures var a := FixtureOf(runId, start, [Noted(p, name, deep)]);
      var b := FixtureOf(runId, start, [Noted(p, name, flat)]);
      SameFixtureView(a, b) && Ingested(h, a) == Err(LimitExceeded) && Ingested(h, b).Ok?
  {
    assert p in [p] && Plain(p);
    NotedLimits(runId, start, p, name, deep);
    NotedLimits(runId, start, p, name, flat);
    NotedViewsAgree(runId, start, p, name, deep, flat);
    NotedProjects(runId, start, p, name, flat);
  }

  lemma {:induction false} RepeatedFits(n: nat)
    requires n <= 256
    ensures WithinLimits(Str(Repeated(n)), 3)
  {
    AsciiLength(Repeated(n));
  }

  lemma {:induction false} NotedLimits(runId: string, start: Payload, p: Payload, name: string, note: Value)
    requires p.Event? && Ingestible(runId, start, [p]) && name !in EVENT_FIELDS && Short(name)
    ensures WithinLimits(FixtureOf(runId, start, [Noted(p, name, note)]), 0) <==> WithinLimits(note, 3)
  {
    var sources := [Noted(p, name, note)];
    assert p in [p] && Plain(p);
    NotedFits(p, name, note);
    FixtureFits(runId, start, sources);
    assert sources[0] == Noted(p, name, note);
  }

  lemma {:induction false} NotedViewsAgree(runId: string, start: Payload, p: Payload, name: string, x: Value, y: Value)
    requires p.Event? && start.RunStart? && ByteLength(x) == ByteLength(y) && name !in EVENT_FIELDS
    ensures SameFixtureView(FixtureOf(runId, start, [Noted(p, name, x)]), FixtureOf(runId, start, [Noted(p, name, y)]))
  {
    NotedFields(p, name, x);
    NotedFields(p, name, y);
    NotedView(p, name, x, y);
    OneRecordViews(runId, start, Noted(p, name, x), Noted(p, name, y));
  }

  lemma {:induction false} NotedView(p: Payload, name: string, x: Value, y: Value)
    requires p.Event? && ByteLength(x) == ByteLength(y) && name !in EVENT_FIELDS
    ensures SameView(Noted(p, name, x), Noted(p, name, y), EVENT_FIELDS)
  {}

  lemma {:induction false} OneRecordViews(runId: string, start: Payload, x: Value, y: Value)
    requires start.RunStart? && SameView(x, y, AllowedFields(TypeOf(x)))
    ensures SameFixtureView(FixtureOf(runId, start, [x]), FixtureOf(runId, start, [y]))
  {
    var a, b := FixtureOf(runId, start, [x]), FixtureOf(runId, start, [y]);
    FixtureParts(runId, start, [x]);
    FixtureParts(runId, start, [y]);
    assert b.fields == a.fields["records" := b.fields["records"]];
  }

  lemma {:induction false} NotedProjects(runId: string, start: Payload, p: Payload, name: string, note: Value)
    requires p.Event? && Ingestible(runId, start, [p]) && name !in EVENT_FIELDS
    ensures Projected(FixtureOf(runId, start, [Noted(p, name, note)])).Ok?
  {
    assert p in [p] && Plain(p);
    NotedReads(p, name, note);
    FixtureParts(runId, start, [Noted(p, name, note)]);
    assert ProjectAll([Noted(p, name, note)]).Ok?;
    ProjectsWhenSourcesDo(FixtureOf(runId, start, [Noted(p, name, note)]), runId, start, [Noted(p, name, note)]);
  }

  lemma {:induction false} ProjectsWhenSourcesDo(document: Value, runId: string, start: Payload, sources: seq<Value>)
    requires IsIdentifier(runId) && start.RunStart? && IsIdentifier(start.fixture) && IsIdentifier(start.environment)
    requires |sources| <= 128 && HasParts(document, runId, start, sources) && ProjectAll(sources).Ok?
    ensures Projected(document).Ok?
  {
    ManifestReads(start);
  }
}
