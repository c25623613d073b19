/** Typed-allowlist projection of source records and the ingestion loop, from a decoded JSON
    value on. */
module Ingest {
  import opened Json
  import opened Records
  import opened Ledger

  // ---------------------------------------------------------------- field grammars

  function Ident(v: Option<Value>, field: string): (r: Result<string>)
    ensures r.Ok? ==> v == Some(Str(r.value)) && IsIdentifier(r.value)
  {
    if v.Some? && v.value.Str? && IsIdentifier(v.value.s) then Ok(v.value.s) else Err(InvalidIdentifier(field))
  }

  function Idents(items: seq<Value>, field: string): (r: Result<seq<string>>)
    ensures r.Ok? ==> Strings(r.value) == Arr(items) && forall s <- r.value :: IsIdentifier(s)
  {
    if items == [] then assert Strings([]).items == []; Ok([])
    else
      var first :- Ident(Some(items[0]), field);
      var rest :- Idents(items[1..], field);
      assert Strings([first] + rest).items == [Str(first)] + Strings(rest).items;
      Ok([first] + rest)
  }

  function IdentList(v: Option<Value>, field: string): (r: Result<seq<string>>)
    ensures r.Ok? ==> v == Some(Strings(r.value)) && forall s <- r.value :: IsIdentifier(s)
  {
    if v.Some? && v.value.Arr? && |v.value.items| <= 16 then Idents(v.value.items, field)
    else Err(InvalidList(field))
  }

  function Enum<T>(v: Option<Value>, options: seq<T>, text: T -> string, field: string): (r: Result<T>)
    ensures r.Ok? ==> v == Some(Str(text(r.value)))
  {
    if options == [] then Err(InvalidEnum(field))
    else if v == Some(Str(text(options[0]))) then Ok(options[0])
    else Enum(v, options[1..], text, field)
  }

  /** Membership in a set raises on a list or a dictionary, which Python cannot hash. */
  predicate Unhashable(v: Option<Value>) {
    v.Some? && (v.value.Arr? || v.value.Obj?)
  }

  /** `_enum`. */
  function EnumOf<T>(v: Option<Value>, options: seq<T>, text: T -> string, field: string): (r: Result<T>)
    ensures r.Ok? ==> v == Some(Str(text(r.value)))
  {
    if Unhashable(v) then Err(TypeError) else Enum(v, options, text, field)
  }

  function ClassificationOf(v: Option<Value>): Result<Classification> {
    EnumOf(v, [Public, Internal, Sensitive, Classification.Unknown], ClassificationText, "classification")
  }

  function EventKindOf(v: Option<Value>): Result<EventKind> {
    EnumOf(v, [Start, Step, Tool, Memory, Evaluate, Finish, Error], EventKindText, "event_kind")
  }

  function EdgeKindOf(v: Option<Value>): Result<EdgeKind> {
    EnumOf(v, [Parent, Input, Output, MemoryLink, Evaluation], EdgeKindText, "edge_kind")
  }

  function ActionOf(v: Option<Value>): Result<Action> {
    EnumOf(v, [Action.Read, Write, Quarantine, Expire], ActionText, "memory_action")
  }

  function MemoryStateOf(v: Option<Value>): Result<MemoryState> {
    EnumOf(v, [Clean, Stale, Tainted, Quarantined, Expired], MemoryStateText, "memory_state")
  }

  /** `source.get(key, default)`. */
  function FieldOr(source: Value, key: string, default: Value): Option<Value> {
    match Field(source, key) case Some(v) => Some(v) case None => Some(default)
  }

  // ---------------------------------------------------------------- projection

  const EVENT_FIELDS: set<string> := {"type", "id", "classification", "kind", "actor", "state_version", "parents"}
  const EDGE_FIELDS: set<string> := {"type", "id", "classification", "kind", "from", "to", "source_asserted"}
  const MEMORY_FIELDS: set<string> :=
    {"type", "id", "classification", "action", "namespace", "item", "version", "state", "event"}

  function ByteLength(v: Value): nat {
    |Print(v)|
  }

  /** What remains of the fields outside the allowlist: their names and canonical lengths. */
  function Redacted(source: Value, allowed: set<string>): map<string, nat>
    requires source.Obj?
  {
    map k | k in source.fields && k !in allowed :: ByteLength(source.fields[k])
  }

  function ProjectEvent(source: Value): Result<Payload>
    requires source.Obj?
  {
    var id :- Ident(Field(source, "id"), "id");
    var cls :- ClassificationOf(FieldOr(source, "classification", Str("internal")));
    var kind :- EventKindOf(Field(source, "kind"));
    var actor :- Ident(Field(source, "actor"), "actor");
    var stateVersion :- Ident(Field(source, "state_version"), "state_version");
    var parents :- IdentList(FieldOr(source, "parents", Arr([])), "parents");
    Ok(Event(cls, id, kind, actor, stateVersion, parents, Redacted(source, EVENT_FIELDS)))
  }

  function ProjectEdge(source: Value): Result<Payload>
    requires source.Obj?
  {
    var id :- Ident(Field(source, "id"), "id");
    var cls :- ClassificationOf(FieldOr(source, "classification", Str("internal")));
    var kind :- EdgeKindOf(Field(source, "kind"));
    var from :- Ident(Field(source, "from"), "from");
    var to :- Ident(Field(source, "to"), "to");
    var asserted := Field(source, "source_asserted");
    if asserted.None? || !asserted.value.Bool? then Err(InvalidBoolean)
    else Ok(Edge(cls, id, kind, from, to, asserted.value.b, Redacted(source, EDGE_FIELDS)))
  }

  function ProjectMemoryOp(source: Value): Result<Payload>
    requires source.Obj?
  {
    var id :- Ident(Field(source, "id"), "id");
    var cls :- ClassificationOf(FieldOr(source, "classification", Str("internal")));
    var action :- ActionOf(Field(source, "action"));
    var namespace :- Ident(Field(source, "namespace"), "namespace");
    var item :- Ident(Field(source, "item"), "item");
    var version :- Ident(Field(source, "version"), "version");
    var state :- MemoryStateOf(Field(source, "state"));
    var eventRef :- Ident(Field(source, "event"), "event");
    Ok(MemoryOp(cls, id, action, Entry(namespace, item, version), state, eventRef, Redacted(source, MEMORY_FIELDS)))
  }

  datatype SourceType = EventType | EdgeType | MemoryType | NoType

  function TypeOf(source: Value): SourceType {
    var t := Field(source, "type");
    if t == Some(Str("event")) then EventType
    else if t == Some(Str("edge")) then EdgeType
    else if t == Some(Str("memory_op")) then MemoryType
    else NoType
  }

  function ProjectRecord(source: Value): Result<Payload> {
    match TypeOf(source)
    case EventType => ProjectEvent(source)
    case EdgeType => ProjectEdge(source)
    case MemoryType => ProjectMemoryOp(source)
    case NoType => if Unhashable(Field(source, "type")) then Err(TypeError) else Err(InvalidSourceRecordType)
  }

  function ProjectAll(sources: seq<Value>): (r: Result<seq<Payload>>)
    ensures r.Ok? ==> |r.value| == |sources|
    ensures r.Ok? ==> forall i :: 0 <= i < |sources| ==> ProjectRecord(sources[i]) == Ok(r.value[i])
  {
    if sources == [] then Ok([])
    else
      var first :- ProjectRecord(sources[0]);
      var rest :- ProjectAll(sources[1..]);
      Ok([first] + rest)
  }

  // ---------------------------------------------------------------- redaction

  function AllowedFields(t: SourceType): set<string> {
    match t
    case EventType => EVENT_FIELDS
    case EdgeType => EDGE_FIELDS
    case MemoryType => MEMORY_FIELDS
    case NoType => {"type"}
  }

  /** Same field names, equal allowed fields, and other fields of equal canonical length. */
  ghost predicate SameView(a: Value, b: Value, allowed: set<string>) {
    && a.Obj? && b.Obj? && a.fields.Keys == b.fields.Keys
    && (forall k <- allowed :: Field(a, k) == Field(b, k))
    && (forall k :: k in a.fields && k !in allowed ==> ByteLength(a.fields[k]) == ByteLength(b.fields[k]))
  }

  lemma {:induction false} SameRedaction(a: Value, b: Value, allowed: set<string>)
    requires a.Obj? && b.Obj?
    ensures SameView(a, b, allowed) ==> Redacted(a, allowed) == Redacted(b, allowed)
    ensures (forall k <- allowed :: Field(a, k) == Field(b, k)) && Redacted(a, allowed) == Redacted(b, allowed)
        ==> SameView(a, b, allowed)
  {
    var x, y := Redacted(a, allowed), Redacted(b, allowed);
    if (forall k <- allowed :: Field(a, k) == Field(b, k)) && x == y {
      forall k ensures k in a.fields <==> k in b.fields {
        if k in allowed {
          assert Field(a, k) == Field(b, k);
        } else {
          assert (k in x <==> k in a.fields) && (k in y <==> k in b.fields);
        }
      }
      assert a.fields.Keys == b.fields.Keys;
      forall k | k in a.fields && k !in allowed ensures ByteLength(a.fields[k]) == ByteLength(b.fields[k]) {
        assert x[k] == ByteLength(a.fields[k]) && y[k] == ByteLength(b.fields[k]);
      }
    }
  }

  lemma {:induction false} EventViewDecides(a: Value, b: Value)
    requires SameView(a, b, EVENT_FIELDS)
    ensures ProjectEvent(a) == ProjectEvent(b)
  {
    SameRedaction(a, b, EVENT_FIELDS);
    assert Field(a, "id") == Field(b, "id") && Field(a, "classification") == Field(b, "classification");
    assert Field(a, "kind") == Field(b, "kind") && Field(a, "actor") == Field(b, "actor");
    assert Field(a, "state_version") == Field(b, "state_version") && Field(a, "parents") == Field(b, "parents");
  }

  lemma {:induction false} EdgeViewDecides(a: Value, b: Value)
    requires SameView(a, b, EDGE_FIELDS)
    ensures ProjectEdge(a) == ProjectEdge(b)
  {
    SameRedaction(a, b, EDGE_FIELDS);
    assert Field(a, "id") == Field(b, "id") && Field(a, "classification") == Field(b, "classification");
    assert Field(a, "kind") == Field(b, "kind") && Field(a, "from") == Field(b, "from");
    assert Field(a, "to") == Field(b, "to") && Field(a, "source_asserted") == Field(b, "source_asserted");
  }

  lemma {:induction false} MemoryViewDecides(a: Value, b: Value)
    requires SameView(a, b, MEMORY_FIELDS)
    ensures ProjectMemoryOp(a) == ProjectMemoryOp(b)
  {
    SameRedaction(a, b, MEMORY_FIELDS);
    assert Field(a, "id") == Field(b, "id") && Field(a, "classification") == Field(b, "classification");
    assert Field(a, "action") == Field(b, "action") && Field(a, "namespace") == Field(b, "namespace");
    assert Field(a, "item") == Field(b, "item") && Field(a, "version") == Field(b, "version");
    assert Field(a, "state") == Field(b, "state") && Field(a, "event") == Field(b, "event");
  }

  /** Two source records that look alike after redaction project to the same payload, or
      fail with the same error. */
  lemma {:induction false} RecordNonInterference(a: Value, b: Value)
    requires SameView(a, b, AllowedFields(TypeOf(a)))
    ensures ProjectRecord(a) == ProjectRecord(b)
  {
    assert "type" in AllowedFields(TypeOf(a));
    assert Field(a, "type") == Field(b, "type");
    match TypeOf(a)
    case EventType => EventViewDecides(a, b);
    case EdgeType => EdgeViewDecides(a, b);
    case MemoryType => MemoryViewDecides(a, b);
    case NoType =>
  }

  /** The source record with the two defaults of the projection filled in. */
  function WithDefaults(source: Value): Value
    requires source.Obj?
  {
    var cls := FieldOr(source, "classification", Str("internal")).value;
    var parents := FieldOr(source, "parents", Arr([])).value;
    if TypeOf(source) == EventType then Obj(source.fields["classification" := cls]["parents" := parents])
    else Obj(source.fields["classification" := cls])
  }

  lemma {:induction false} Defaults(source: Value)
    requires source.Obj?
    ensures forall k {:trigger Field(WithDefaults(source), k)} :: (Field(WithDefaults(source), k) ==
      if k == "classification" then FieldOr(source, k, Str("internal"))
      else if k == "parents" && TypeOf(source) == EventType then FieldOr(source, k, Arr([]))
      else Field(source, k))
  {}

  lemma {:induction false} DefaultsRedaction(source: Value)
    requires source.Obj? && TypeOf(source) != NoType
    ensures Redacted(WithDefaults(source), AllowedFields(TypeOf(source)))
      == Redacted(source, AllowedFields(TypeOf(source)))
  {
    assert "classification" in AllowedFields(TypeOf(source));
    assert "parents" in EVENT_FIELDS;
  }

  /** What an accepted event payload tells of its source: every allowed field. */
  lemma {:induction false} EventTells(a: Value, k: string)
    requires a.Obj? && TypeOf(a) == EventType && ProjectEvent(a).Ok? && k in EVENT_FIELDS
    ensures var p := ProjectEvent(a).value; Field(WithDefaults(a), k) == Some(
      if k == "type" then Str("event") else if k == "id" then Str(p.sourceId)
      else if k == "classification" then Str(ClassificationText(p.cls))
      else if k == "kind" then Str(EventKindText(p.eventKind)) else if k == "actor" then Str(p.actor)
      else if k == "state_version" then Str(p.stateVersion) else Strings(p.parents))
  {
    Defaults(a);
  }

  lemma {:induction false} EdgeTells(a: Value, k: string)
    requires a.Obj? && TypeOf(a) == EdgeType && ProjectEdge(a).Ok? && k in EDGE_FIELDS
    ensures var p := ProjectEdge(a).value; Field(WithDefaults(a), k) == Some(
      if k == "type" then Str("edge") else if k == "id" then Str(p.sourceId)
      else if k == "classification" then Str(ClassificationText(p.cls))
      else if k == "kind" then Str(EdgeKindText(p.edgeKind)) else if k == "from" then Str(p.from)
      else if k == "to" then Str(p.to) else Bool(p.asserted))
  {
    Defaults(a);
  }

  lemma {:induction false} MemoryTells(a: Value, k: string)
    requires a.Obj? && TypeOf(a) == MemoryType && ProjectMemoryOp(a).Ok? && k in MEMORY_FIELDS
    ensures var p := ProjectMemoryOp(a).value; Field(WithDefaults(a), k) == Some(
      if k == "type" then Str("memory_op") else if k == "id" then Str(p.sourceId)
      else if k == "classification" then Str(ClassificationText(p.cls))
      else if k == "action" then Str(ActionText(p.action)) else if k == "namespace" then Str(p.entry.namespace)
      else if k == "item" then Str(p.entry.item) else if k == "version" then Str(p.entry.version)
      else if k == "state" then Str(MemoryStateText(p.state)) else Str(p.eventRef))
  {
    Defaults(a);
  }

  lemma {:induction false} ProjectedType(a: Value)
    requires ProjectRecord(a).Ok?
    ensures a.Obj? && TypeOf(a) != NoType
    ensures TypeOf(a) == EventType <==> ProjectRecord(a).value.Event?
    ensures TypeOf(a) == EdgeType <==> ProjectRecord(a).value.Edge?
    ensures TypeOf(a) == MemoryType <==> ProjectRecord(a).value.MemoryOp?
    ensures ProjectRecord(a).value.redacted == Redacted(a, AllowedFields(TypeOf(a)))
  {}

  /** Redaction is exact: two accepted source records give the same payload if and only if,
      once defaults are filled in, they have the same names, the same allowed fields and
      equally long other fields. No more of a source record reaches the ledger, and no less. */
  lemma {:induction false} RedactionExact(a: Value, b: Value)
    requires ProjectRecord(a).Ok? && ProjectRecord(b).Ok?
    ensures ProjectRecord(a) == ProjectRecord(b) <==>
            TypeOf(a) == TypeOf(b) && SameView(WithDefaults(a), WithDefaults(b), AllowedFields(TypeOf(a)))
  {
    ProjectedType(a);
    ProjectedType(b);
    if TypeOf(a) == TypeOf(b) {
      var allowed := AllowedFields(TypeOf(a));
      DefaultsRedaction(a);
      DefaultsRedaction(b);
      SameRedaction(WithDefaults(a), WithDefaults(b), allowed);
      match TypeOf(a)
      case EventType => EventsExact(a, b);
      case EdgeType => EdgesExact(a, b);
      case MemoryType => MemoryOpsExact(a, b);
    }
  }

  lemma {:induction false} EventsExact(a: Value, b: Value)
    requires a.Obj? && TypeOf(a) == EventType && ProjectEvent(a).Ok?
    requires b.Obj? && TypeOf(b) == EventType && ProjectEvent(b).Ok?
    ensures ProjectEvent(a) == ProjectEvent(b) <==>
      Redacted(a, EVENT_FIELDS) == Redacted(b, EVENT_FIELDS)
      && forall k <- EVENT_FIELDS :: Field(WithDefaults(a), k) == Field(WithDefaults(b), k)
  {
    if ProjectEvent(a) == ProjectEvent(b) {
      EventFieldsTold(a, b);
    }
    if forall k <- EVENT_FIELDS :: Field(WithDefaults(a), k) == Field(WithDefaults(b), k) {
      SameEventFields(a, b);
    }
  }

  lemma {:induction false} EventFieldsTold(a: Value, b: Value)
    requires a.Obj? && b.Obj? && TypeOf(a) == TypeOf(b) == EventType
    requires ProjectEvent(a).Ok? && ProjectEvent(a) == ProjectEvent(b)
    ensures forall k <- EVENT_FIELDS :: Field(WithDefaults(a), k) == Field(WithDefaults(b), k)
  {
    forall k | k in EVENT_FIELDS ensures Field(WithDefaults(a), k) == Field(WithDefaults(b), k) {
      EventTells(a, k);
      EventTells(b, k);
    }
  }

  lemma {:induction false} SameEventFields(a: Value, b: Value)
    requires a.Obj? && b.Obj? && TypeOf(a) == TypeOf(b) == EventType
    requires forall k <- EVENT_FIELDS :: Field(WithDefaults(a), k) == Field(WithDefaults(b), k)
    ensures Redacted(a, EVENT_FIELDS) == Redacted(b, EVENT_FIELDS) ==> ProjectEvent(a) == ProjectEvent(b)
  {
    assert "id" in EVENT_FIELDS && "classification" in EVENT_FIELDS && "kind" in EVENT_FIELDS
        && "actor" in EVENT_FIELDS && "state_version" in EVENT_FIELDS && "parents" in EVENT_FIELDS;
    Defaults(a);
    Defaults(b);
  }

  lemma {:induction false} EdgesExact(a: Value, b: Value)
    requires a.Obj? && TypeOf(a) == EdgeType && ProjectEdge(a).Ok?
    requires b.Obj? && TypeOf(b) == EdgeType && ProjectEdge(b).Ok?
    ensures ProjectEdge(a) == ProjectEdge(b) <==>
      Redacted(a, EDGE_FIELDS) == Redacted(b, EDGE_FIELDS)
      && forall k <- EDGE_FIELDS :: Field(WithDefaults(a), k) == Field(WithDefaults(b), k)
  {
    forall k | k in EDGE_FIELDS ensures ProjectEdge(a) == ProjectEdge(b) ==>
        Field(WithDefaults(a), k) == Field(WithDefaults(b), k) {
      EdgeTells(a, k);
      EdgeTells(b, k);
    }
    if forall k <- EDGE_FIELDS :: Field(WithDefaults(a), k) == Field(WithDefaults(b), k) {
      assert "id" in EDGE_FIELDS && "classification" in EDGE_FIELDS && "kind" in EDGE_FIELDS
          && "from" in EDGE_FIELDS && "to" in EDGE_FIELDS && "source_asserted" in EDGE_FIELDS;
      Defaults(a);
      Defaults(b);
    }
  }

  lemma {:induction false} MemoryOpsExact(a: Value, b: Value)
    requires a.Obj? && TypeOf(a) == MemoryType && ProjectMemoryOp(a).Ok?
    requires b.Obj? && TypeOf(b) == MemoryType && ProjectMemoryOp(b).Ok?
    ensures ProjectMemoryOp(a) == ProjectMemoryOp(b) <==>
      Redacted(a, MEMORY_FIELDS) == Redacted(b, MEMORY_FIELDS)
      && forall k <- MEMORY_FIELDS :: Field(WithDefaults(a), k) == Field(WithDefaults(b), k)
  {
    if ProjectMemoryOp(a) == ProjectMemoryOp(b) {
      MemoryFieldsTold(a, b);
    }
    if forall k <- MEMORY_FIELDS :: Field(WithDefaults(a), k) == Field(WithDefaults(b), k) {
      SameMemoryFields(a, b);
    }
  }

  lemma {:induction false} MemoryFieldsTold(a: Value, b: Value)
    requires a.Obj? && b.Obj? && TypeOf(a) == TypeOf(b) == MemoryType
    requires ProjectMemoryOp(a).Ok? && ProjectMemoryOp(a) == ProjectMemoryOp(b)
    ensures forall k <- MEMORY_FIELDS :: Field(WithDefaults(a), k) == Field(WithDefaults(b), k)
  {
    forall k | k in MEMORY_FIELDS ensures Field(WithDefaults(a), k) == Field(WithDefaults(b), k) {
      MemoryTells(a, k);
      MemoryTells(b, k);
    }
  }

  lemma {:induction false} SameMemoryFields(a: Value, b: Value)
    requires a.Obj? && b.Obj? && TypeOf(a) == TypeOf(b) == MemoryType
    requires forall k <- MEMORY_FIELDS :: Field(WithDefaults(a), k) == Field(WithDefaults(b), k)
    ensures Redacted(a, MEMORY_FIELDS) == Redacted(b, MEMORY_FIELDS) ==> ProjectMemoryOp(a) == ProjectMemoryOp(b)
  {
    assert "id" in MEMORY_FIELDS && "classification" in MEMORY_FIELDS && "action" in MEMORY_FIELDS
        && "namespace" in MEMORY_FIELDS && "item" in MEMORY_FIELDS && "version" in MEMORY_FIELDS
        && "state" in MEMORY_FIELDS && "event" in MEMORY_FIELDS;
    Defaults(a);
    Defaults(b);
  }

  // ---------------------------------------------------------------- ingestion

  /** `max(..., key=rank, default=...)`. */
  function Strictest(payloads: seq<Payload>, default: Classification): (c: Classification)
    ensures payloads == [] ==> c == default
    ensures payloads != [] ==> exists p :: p in payloads && p.cls == c
    ensures forall p <- payloads :: Rank(p.cls) <= Rank(c)
  {
    if payloads == [] then default
    else if |payloads| == 1 then payloads[0].cls
    else
      assert payloads == [payloads[0]] + payloads[1..];
      var rest := Strictest(payloads[1..], default);
      if Rank(rest) <= Rank(payloads[0].cls) then payloads[0].cls else rest
  }

  function RequireThat(condition: bool, error: Fault): Result<()> {
    if condition then Ok(()) else Err(error)
  }

  /** The checks and the projection that precede the append loop: the run identifier and the
      payload of every ledger record. */
  function Projected(document: Value): Result<(string, seq<Payload>)> {
    var _ :- RequireThat(document.Obj? && document.fields.Keys == {"fixture_version", "run_id", "records", "manifest"},
      InvalidFixtureShape);
    var records := document.fields["records"];
    FromParts(document.fields["fixture_version"], document.fields["run_id"], document.fields["manifest"],
      records.Arr? && |records.items| <= 128, if records.Arr? then ProjectAll(records.items) else Ok([]))
  }

  /** The checks after that of the keys, given whether the records are a short enough list and
      what they project to. */
  function FromParts(version: Value, runId: Value, manifest: Value, isList: bool, projected: Result<seq<Payload>>)
    : Result<(string, seq<Payload>)>
  {
    var _ :- RequireThat(version == Str("phase1a-1") && runId.Str? && IsIdentifier(runId.s), InvalidFixtureHeader);
    var _ :- RequireThat(isList && manifest.Obj?, InvalidFixtureCollections);
    var _ :- RequireThat(manifest.fields.Keys == {"fixture", "environment", "seed"}, InvalidManifest);
    var sources :- projected;
    var fixture :- Ident(Field(manifest, "fixture"), "fixture");
    var environment :- Ident(Field(manifest, "environment"), "environment");
    var seed := manifest.fields["seed"];
    var _ :- RequireThat(seed.Num?, InvalidSeed);
    var start := RunStart(Strictest(sources, Internal), fixture, environment, seed.n);
    Ok((runId.s, [start] + sources))
  }

  function Utf8Length(s: string): nat {
    if s == "" then 0
    else
      var c := s[0] as int;
      (if c < 0x80 then 1 else if c < 0x800 then 2 else if c < 0x10000 then 3 else 4) + Utf8Length(s[1..])
  }

  /** `_measure` does not raise. When several limits are exceeded the source reports the one
      it meets first in the order of the text, which a value does not keep. */
  predicate WithinLimits(v: Value, depth: nat) {
    && depth <= 12
    && match v
       case Str(s) => Utf8Length(s) <= 256
       case Arr(items) => |items| <= 512 && forall i :: 0 <= i < |items| ==> WithinLimits(items[i], depth + 1)
       case Obj(fields) =>
         && |fields| <= 32
         && forall k :: k in fields ==> depth < 12 && Utf8Length(k) <= 256 && WithinLimits(fields[k], depth + 1)
       case Float(_) => false
       case _ => true
  }

  function Ingested(h: Runtime, document: Value): Result<seq<Record>> {
    var _ :- RequireThat(WithinLimits(document, 0), LimitExceeded);
    var run :- Projected(document);
    Ok(AppendAll(h, [], run.0, run.1))
  }

  /** `ingest_fixture` after decoding: every record is chained to the one before it, so the
      written bytes verify. */
  method IngestFixture(h: Runtime, document: Value) returns (r: Result<seq<Record>>)
    ensures r == Ingested(h, document)
    ensures r.Ok? ==> Accepts(h, Stored(r.value)) && LedgerVerdict(h, LedgerText(r.value)) == ValidChain
  {
    if !WithinLimits(document, 0) {
      return Err(LimitExceeded);
    }
    var projected := Projected(document);
    if projected.Err? {
      return Err(projected.error);
    }
    var records := Chain(h, projected.value.0, projected.value.1);
    return Ok(records);
  }

  lemma {:induction false} ChainStep(h: Runtime, runId: string, records: seq<Record>, payloads: seq<Payload>,
      record: Record)
    requires |records| < |payloads| && Accepts(h, Stored(records))
    requires record == MakeRecord(h, runId, |records|, payloads[|records|], Tip(h, records))
    ensures Accepts(h, Stored(records + [record])) && h.digest(RecordJson(record)) == Tip(h, records + [record])
    ensures AppendAll(h, records + [record], runId, payloads[|records| + 1..])
      == AppendAll(h, records, runId, payloads[|records|..])
  {
    var rest := payloads[|records|..];
    AppendAccepted(h, records, runId, payloads[|records|]);
    assert rest[0] == payloads[|records|] && rest[1..] == payloads[|records| + 1..];
  }

  /** The append loop of ingestion. */
  method Chain(h: Runtime, runId: string, payloads: seq<Payload>) returns (records: seq<Record>)
    ensures records == AppendAll(h, [], runId, payloads)
    ensures Accepts(h, Stored(records)) && LedgerVerdict(h, LedgerText(records)) == ValidChain
  {
    var prev: string;
    records, prev := [], GENESIS;
    for sequence := 0 to |payloads|
      invariant |records| == sequence && prev == Tip(h, records)
      invariant AppendAll(h, records, runId, payloads[sequence..]) == AppendAll(h, [], runId, payloads)
      invariant Accepts(h, Stored(records))
    {
      var record := MakeRecord(h, runId, sequence, payloads[sequence], prev);
      ChainStep(h, runId, records, payloads, record);
      records := records + [record];
      prev := h.digest(RecordJson(record));
    }
    WrittenLedgerVerdict(h, records);
  }

  // ---------------------------------------------------------------- non-interference of whole fixtures

  /** Two fixtures equal except that fields outside the allowlist may hold other values of
      the same canonical length. */
  ghost predicate SameFixtureView(a: Value, b: Value) {
    && a.Obj? && b.Obj? && "records" in a.fields && "records" in b.fields
    && a.fields["records"].Arr? && b.fields["records"].Arr?
    && b == Obj(a.fields["records" := b.fields["records"]])
    && var x, y := a.fields["records"].items, b.fields["records"].items;
       |x| == |y| && forall i :: 0 <= i < |x| ==> SameView(x[i], y[i], AllowedFields(TypeOf(x[i])))
  }

  lemma {:induction false} SameProjections(x: seq<Value>, y: seq<Value>)
    requires |x| == |y| && forall i :: 0 <= i < |x| ==> SameView(x[i], y[i], AllowedFields(TypeOf(x[i])))
    ensures ProjectAll(x) == ProjectAll(y)
  {
    if x != [] {
      RecordNonInterference(x[0], y[0]);
      SameProjections(x[1..], y[1..]);
    }
  }

  /** Redaction non-interference: such fixtures give the same ledger, byte for byte, or fail
      with the same error, if and only if both or neither are within the size limits, which
      do look at the fields that are then redacted. */
  lemma {:induction false} RedactionNonInterference(h: Runtime, a: Value, b: Value)
    requires SameFixtureView(a, b)
    ensures Ingested(h, a) == Ingested(h, b) <==> (WithinLimits(a, 0) <==> WithinLimits(b, 0))
  {
    SameViewProjects(a, b);
    NeverLimitExceeded(a);
    NeverLimitExceeded(b);
  }

  lemma {:induction false} SameViewProjects(a: Value, b: Value)
    requires SameFixtureView(a, b)
    ensures Projected(a) == Projected(b)
  {
    SameProjections(a.fields["records"].items, b.fields["records"].items);
    assert a.fields.Keys == b.fields.Keys;
    assert forall k :: k in a.fields && k != "records" ==> a.fields[k] == b.fields[k];
    SameProjected(a, b);
  }

  lemma {:induction false} IdentsNeverLimited(items: seq<Value>, field: string)
    ensures Idents(items, field) != Err(LimitExceeded)
  {
    if items != [] {
      IdentsNeverLimited(items[1..], field);
    }
  }

  lemma {:induction false} EnumNeverLimited<T>(v: Option<Value>, options: seq<T>, text: T -> string, field: string)
    ensures Enum(v, options, text, field) != Err(LimitExceeded)
  {
    if options != [] {
      EnumNeverLimited(v, options[1..], text, field);
    }
  }

  lemma {:induction false} RecordNeverLimited(source: Value)
    ensures ProjectRecord(source) != Err(LimitExceeded)
  {
    match TypeOf(source)
    case EventType => EventNeverLimited(source);
    case EdgeType => EdgeNeverLimited(source);
    case MemoryType => MemoryOpNeverLimited(source);
    case NoType =>
  }

  lemma {:induction false} EventNeverLimited(source: Value)
    requires source.Obj?
    ensures ProjectEvent(source) != Err(LimitExceeded)
  {
    EnumsNeverLimited(FieldOr(source, "classification", Str("internal")));
    EnumsNeverLimited(Field(source, "kind"));
    var parents := FieldOr(source, "parents", Arr([]));
    if parents.value.Arr? {
      IdentsNeverLimited(parents.value.items, "parents");
    }
  }

  lemma {:induction false} EdgeNeverLimited(source: Value)
    requires source.Obj?
    ensures ProjectEdge(source) != Err(LimitExceeded)
  {
    EnumsNeverLimited(FieldOr(source, "classification", Str("internal")));
    EnumsNeverLimited(Field(source, "kind"));
  }

  lemma {:induction false} MemoryOpNeverLimited(source: Value)
    requires source.Obj?
    ensures ProjectMemoryOp(source) != Err(LimitExceeded)
  {
    EnumsNeverLimited(FieldOr(source, "classification", Str("internal")));
    EnumsNeverLimited(Field(source, "action"));
    EnumsNeverLimited(Field(source, "state"));
  }

  lemma {:induction false} EnumsNeverLimited(v: Option<Value>)
    ensures ClassificationOf(v) != Err(LimitExceeded) && EventKindOf(v) != Err(LimitExceeded)
    ensures EdgeKindOf(v) != Err(LimitExceeded) && ActionOf(v) != Err(LimitExceeded)
    ensures MemoryStateOf(v) != Err(LimitExceeded)
  {
    EnumNeverLimited(v, [Public, Internal, Sensitive, Classification.Unknown], ClassificationText, "classification");
    EnumNeverLimited(v, [Start, Step, Tool, Memory, Evaluate, Finish, Error], EventKindText, "event_kind");
    EnumNeverLimited(v, [Parent, Input, Output, MemoryLink, Evaluation], EdgeKindText, "edge_kind");
    EnumNeverLimited(v, [Action.Read, Write, Quarantine, Expire], ActionText, "memory_action");
    EnumNeverLimited(v, [Clean, Stale, Tainted, Quarantined, Expired], MemoryStateText, "memory_state");
  }

  lemma {:induction false} AllNeverLimited(sources: seq<Value>)
    ensures ProjectAll(sources) != Err(LimitExceeded)
  {
    if sources != [] {
      RecordNeverLimited(sources[0]);
      AllNeverLimited(sources[1..]);
    }
  }

  lemma {:induction false} NeverLimitExceeded(document: Value)
    ensures Projected(document) != Err(LimitExceeded)
  {
    if document.Obj? && "records" in document.fields && document.fields["records"].Arr? {
      AllNeverLimited(document.fields["records"].items);
    }
  }

  lemma {:induction false} SameProjected(a: Value, b: Value)
    requires SameFixtureView(a, b)
    requires a.fields.Keys == b.fields.Keys
    requires forall k :: k in a.fields && k != "records" ==> a.fields[k] == b.fields[k]
    requires ProjectAll(a.fields["records"].items) == ProjectAll(b.fields["records"].items)
    ensures Projected(a) == Projected(b)
  {}

  // ---------------------------------------------------------------- accepted traces

  predicate ValidSource(p: Payload) {
    match p
    case Event(_, id, _, actor, version, parents, _) =>
      IsIdentifier(id) && IsIdentifier(actor) && IsIdentifier(version)
      && |parents| <= 16 && forall s <- parents :: IsIdentifier(s)
    case Edge(_, id, _, from, to, _, _) => IsIdentifier(id) && IsIdentifier(from) && IsIdentifier(to)
    case MemoryOp(_, id, _, entry, _, eventRef, _) =>
      IsIdentifier(id) && IsIdentifier(entry.namespace) && IsIdentifier(entry.item) && IsIdentifier(entry.version)
      && IsIdentifier(eventRef)
    case _ => false
  }

  /** What ingestion guarantees of the records it returns, apart from the hash chain. */
  predicate Trace(records: seq<Record>) {
    && 1 <= |records| <= 129
    && records[0].payload.RunStart?
    && (forall i :: 0 <= i < |records| ==> records[i].sequence == i)
    && IsIdentifier(records[0].runId) && (forall i :: 0 <= i < |records| ==> records[i].runId == records[0].runId)
    && (forall i :: 0 <= i < |records| ==> IsRecordId(records[i].recordId))
    && (forall i :: 1 <= i < |records| ==> ValidSource(records[i].payload))
  }

  lemma {:induction false} ProjectedIsValid(source: Value)
    requires ProjectRecord(source).Ok?
    ensures ValidSource(ProjectRecord(source).value)
  {}

  lemma {:induction false} ProjectedPayloadsValid(document: Value)
    requires Projected(document).Ok?
    ensures var payloads := Projected(document).value.1;
      && 1 <= |payloads| <= 129 && payloads[0].RunStart? && IsIdentifier(Projected(document).value.0)
      && forall i :: 1 <= i < |payloads| ==> ValidSource(payloads[i])
  {
    var sources := document.fields["records"].items;
    forall i | 0 <= i < |sources| ensures ValidSource(ProjectRecord(sources[i]).value) {
      ProjectedIsValid(sources[i]);
    }
  }

  /** Every ingested ledger is such a trace. */
  lemma {:induction false} IngestedIsTrace(h: Runtime, document: Value)
    requires Ingested(h, document).Ok?
    ensures Trace(Ingested(h, document).value)
  {
    var (runId, payloads) := Projected(document).value;
    ProjectedPayloadsValid(document);
    TraceFromPayloads(AppendAll(h, [], runId, payloads), runId, payloads);
  }

  lemma {:induction false} TraceFromPayloads(records: seq<Record>, runId: string, payloads: seq<Payload>)
    requires 1 <= |payloads| <= 129 && payloads[0].RunStart? && IsIdentifier(runId)
    requires forall i :: 1 <= i < |payloads| ==> ValidSource(payloads[i])
    requires Extension([], payloads, runId, records)
    ensures Trace(records)
  {
    forall i | 0 <= i < |records|
      ensures records[i].payload == payloads[i] && records[i].sequence == i && records[i].runId == runId
      ensures IsRecordId(records[i].recordId)
    {
      assert payloads[i] == payloads[i];
    }
  }
}
