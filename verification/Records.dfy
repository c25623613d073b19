/** The projected records of a run: payloads, hash-linked envelopes, findings, memory
    manifests, patches and comparisons, with the JSON object each one is stored as. */
module Records {
  import opened Json
  import opened Numerals

  datatype Option<+T> = None | Some(value: T)

  /** The exceptions of the source, by message or, where it does not choose one, by type. */
  datatype Fault =
    | InvalidIdentifier(field: string) | InvalidList(field: string) | InvalidEnum(field: string)
    | HypothesisEvidenceUnbound | InvalidBoolean | InvalidFixtureCollections | InvalidFixtureHeader
    | InvalidFixtureShape | InvalidHumanSelfAttestation | LimitExceeded | BannedLanguage | TypeError
    | InvalidManifest | InvalidMemoryManifest | InvalidOrExecutablePatchFields | InvalidPatchIdentifier
    | InvalidReplayDocument | InvalidReplayResult | InvalidReverseDelta | InvalidSeed
    | InvalidSourceRecordType | KeyError | NoncanonicalReplayDocument | PatchBaseOrExpiryMismatch
    | PatchTargetAlreadyQuarantined | PatchTargetMissingOrAmbiguous | ReplayBaseMismatch | ReplayItemsChanged
    | ReplayQuarantineRemoved | ReplayResultStateMismatch | ReplayTransitionUnbounded | ReverseDeltaMismatch
    | RecursionError | ReverseTargetMismatch | SandboxedReplayFailedClosed | UnicodeEncodeError

  datatype Result<+T> = Ok(value: T) | Err(error: Fault) {
    predicate IsFailure() { Err? }
    function PropagateFailure<U>(): Result<U> requires Err? { Err(error) }
    function Extract(): T requires Ok? { value }
  }

  // ---------------------------------------------------------------- digests

  predicate LowerHex(c: char) {
    '0' <= c <= '9' || 'a' <= c <= 'f'
  }

  type Hex = s: string | |s| == 64 && forall c <- s :: LowerHex(c) witness seq(64, _ => '0')

  /** What the model does not look into. `digest` is any function from values to 64 lower-case
      hexadecimal digits; where two values must be told apart by it, a theorem hands out the
      collision instead. `canon` is the text printed for the number a floating-point literal is
      read as, and `whole` the integer that number equals, if any. */
  datatype Runtime = Runtime(
    digest: Value -> Hex, canon: FloatText -> FloatText, whole: FloatText -> Option<int>)

  /** Two different values with one digest. */
  predicate Collision(h: Runtime, x: Value, y: Value) {
    x != y && h.digest(x) == h.digest(y)
  }

  /** The digest of the source: a text hash over the canonical encoding. */
  function OverText(h: Runtime, sha: string -> Hex): Runtime {
    h.(digest := v => sha(Print(v)))
  }

  /** A collision of the source's digest is a collision of the text hash itself: the
      canonical encoding never maps two values to one text. */
  lemma {:induction false} CollisionOfTexts(h: Runtime, sha: string -> Hex, x: Value, y: Value)
    ensures Collision(OverText(h, sha), x, y) <==> Print(x) != Print(y) && sha(Print(x)) == sha(Print(y))
  {
    PrintInjective(x, y);
  }

  // ---------------------------------------------------------------- enumerations

  datatype Classification = Public | Internal | Sensitive | Unknown
  datatype EventKind = Start | Step | Tool | Memory | Evaluate | Finish | Error
  datatype EdgeKind = Parent | Input | Output | MemoryLink | Evaluation
  datatype Action = Read | Write | Quarantine | Expire
  datatype MemoryState = Clean | Stale | Tainted | Quarantined | Expired

  function Rank(c: Classification): nat {
    match c case Public => 0 case Internal => 1 case Sensitive => 2 case Unknown => 3
  }

  function ClassificationText(c: Classification): string {
    match c case Public => "public" case Internal => "internal" case Sensitive => "sensitive" case Unknown => "unknown"
  }

  function EventKindText(k: EventKind): string {
    match k
    case Start => "start" case Step => "step" case Tool => "tool" case Memory => "memory"
    case Evaluate => "evaluate" case Finish => "finish" case Error => "error"
  }

  function EdgeKindText(k: EdgeKind): string {
    match k
    case Parent => "parent" case Input => "input" case Output => "output"
    case MemoryLink => "memory" case Evaluation => "evaluation"
  }

  function ActionText(a: Action): string {
    match a case Read => "read" case Write => "write" case Quarantine => "quarantine" case Expire => "expire"
  }

  function MemoryStateText(s: MemoryState): string {
    match s
    case Clean => "clean" case Stale => "stale" case Tainted => "tainted"
    case Quarantined => "quarantined" case Expired => "expired"
  }

  // ---------------------------------------------------------------- identifiers

  predicate IdentChar(c: char) {
    'a' <= c <= 'z' || 'A' <= c <= 'Z' || '0' <= c <= '9' || c == '_' || c == '-' || c == '.' || c == ':'
  }

  predicate IsIdentifier(s: string) {
    1 <= |s| <= 48 && forall c <- s :: IdentChar(c)
  }

  // ---------------------------------------------------------------- payloads

  datatype Invariant = ParentReferentPresent | ParentEdgeNonconflicting | MemoryReadNotStale | TaintedMemoryNotReused

  /** A finding without its constant fields; `truncated` stands for the single evidence
      limitation the source can attach. */
  datatype Finding = Finding(
    check: Invariant, violated: bool, interventionRef: string, evidenceFor: seq<string>, truncated: bool)

  datatype Entry = Entry(namespace: string, item: string, version: string)

  datatype Manifest = Manifest(items: seq<Entry>, quarantine: seq<Entry>)

  datatype Reverse = Reverse(operation: string, target: Entry)

  datatype Patch = Patch(
    patchVersion: string, baseHash: string, operation: string, target: Entry,
    expiry: string, hypothesisRef: string, reverse: Reverse)

  datatype Comparison = Comparison(
    mechanism: string, evidenceLabel: string, outcomeLabel: string,
    baselineDigest: string, candidateDigest: string, baseBound: bool,
    added: seq<Entry>, removed: seq<Entry>, kept: seq<Entry>, documentsEqual: bool)

  datatype Payload =
    | RunStart(cls: Classification, fixture: string, environment: string, seed: int)
    | Event(cls: Classification, sourceId: string, eventKind: EventKind, actor: string, stateVersion: string,
            parents: seq<string>, redacted: map<string, nat>)
    | Edge(cls: Classification, sourceId: string, edgeKind: EdgeKind, from: string, to: string, asserted: bool,
           redacted: map<string, nat>)
    | MemoryOp(cls: Classification, sourceId: string, action: Action, entry: Entry, state: MemoryState,
               eventRef: string, redacted: map<string, nat>)
    | Hypothesis(cls: Classification, finding: Finding)
    | PatchRecord(cls: Classification, patch: Patch)
    | ReplayRecord(cls: Classification, comparison: Comparison, reversalRestored: bool)
    | Gate(cls: Classification, attest: string)
  {
    /** The record types a fixture can supply; only these carry a source identifier. */
    predicate Source?() {
      Event? || Edge? || MemoryOp?
    }

    function TypeText(): string {
      match this
      case RunStart(_, _, _, _) => "run"
      case Event(_, _, _, _, _, _, _) => "event"
      case Edge(_, _, _, _, _, _, _) => "edge"
      case MemoryOp(_, _, _, _, _, _, _) => "memory_op"
      case Hypothesis(_, _) => "hypothesis"
      case PatchRecord(_, _) => "patch"
      case ReplayRecord(_, _, _) => "replay"
      case Gate(_, _) => "gate_decision"
    }
  }

  datatype Record = Record(
    recordId: string, runId: string, sequence: nat, contentHash: string, prev: string, payload: Payload)

  // ---------------------------------------------------------------- stored form

  function Strings(xs: seq<string>): Value {
    Arr(seq(|xs|, i requires 0 <= i < |xs| => Str(xs[i])))
  }

  function TargetJson(e: Entry): map<string, Value> {
    map["namespace" := Str(e.namespace), "item" := Str(e.item), "version" := Str(e.version)]
  }

  function EntryJson(e: Entry): Value {
    Obj(TargetJson(e))
  }

  function Entries(xs: seq<Entry>): Value {
    Arr(seq(|xs|, i requires 0 <= i < |xs| => EntryJson(xs[i])))
  }

  function ManifestJson(m: Manifest): Value {
    Obj(map["items" := Entries(m.items), "quarantine" := Entries(m.quarantine)])
  }

  function RedactedJson(redacted: map<string, nat>): map<string, Value> {
    if redacted == map[] then map[] else
    map["redacted_fields" := Obj(map k | k in redacted :: Obj(map[
      "classification" := Str("unknown"), "byte_length" := Num(redacted[k]), "redacted" := Bool(true)]))]
  }

  function InvariantText(i: Invariant): string {
    match i
    case ParentReferentPresent => "parent_referent_present"
    case ParentEdgeNonconflicting => "parent_edge_nonconflicting"
    case MemoryReadNotStale => "memory_read_not_stale"
    case TaintedMemoryNotReused => "tainted_memory_not_reused_unquarantined"
  }

  function AlternativeText(i: Invariant): string {
    match i
    case ParentReferentPresent => "source_reference_may_be_incomplete"
    case ParentEdgeNonconflicting => "multiple_source_assertions_may_coexist"
    case MemoryReadNotStale => "fixture_state_label_may_be_inaccurate"
    case TaintedMemoryNotReused => "taint_label_or_quarantine_history_may_be_incomplete"
  }

  function FindingJson(f: Finding): map<string, Value> {
    map[
      "invariant" := Str(InvariantText(f.check)),
      "result" := Str(if f.violated then "hypothesis" else "abstention"),
      "confidence" := Str("unknown"),
      "intervention_ref" := Str(f.interventionRef),
      "evidence_for" := Strings(f.evidenceFor),
      "evidence_against" := Arr([]),
      "assumptions" := Strings(["fixture_assertions_untrusted", "deterministic_projection_only"]),
      "alternatives" := Strings([AlternativeText(f.check)]),
      "bounds" := Strings(["single_fixture", "phase1a_mechanism_only"]),
      "replay_result" := Str("not_run"),
      "evidence_limitations" := Strings(if f.truncated then ["lineage_truncated"] else [])]
  }

  function PatchJson(p: Patch): map<string, Value> {
    map[
      "patch_version" := Str(p.patchVersion), "base_hash" := Str(p.baseHash), "operation" := Str(p.operation),
      "expiry" := Str(p.expiry), "hypothesis_ref" := Str(p.hypothesisRef),
      "reverse" := Obj(map["operation" := Str(p.reverse.operation)] + TargetJson(p.reverse.target))]
    + TargetJson(p.target)
  }

  function ComparisonJson(c: Comparison): map<string, Value> {
    map[
      "mechanism_demonstration" := Str(c.mechanism),
      "evidence_label" := Str(c.evidenceLabel),
      "outcome_label" := Str(c.outcomeLabel),
      "baseline_digest" := Str(c.baselineDigest),
      "candidate_digest" := Str(c.candidateDigest),
      "candidate_base_bound" := Bool(c.baseBound),
      "quarantine_added" := Entries(c.added),
      "quarantine_removed" := Entries(c.removed),
      "quarantine_unchanged" := Entries(c.kept),
      "documents_equal" := Bool(c.documentsEqual)]
  }

  function RunJson(p: Payload): map<string, Value>
    requires p.RunStart?
  {
    map[
      "fixture" := Str(p.fixture), "environment" := Str(p.environment), "seed" := Num(p.seed),
      "fixture_version" := Str("phase1a-1"), "redactor_version" := Str("typed-allowlist-1"),
      "invariant_version" := Str("invariants-1"), "patch_version" := Str("memory-quarantine-1")]
  }

  function EventJson(p: Payload): map<string, Value>
    requires p.Event?
  {
    RedactedJson(p.redacted) + map[
      "source_id" := Str(p.sourceId), "event_kind" := Str(EventKindText(p.eventKind)), "actor" := Str(p.actor),
      "state_version" := Str(p.stateVersion), "parents" := Strings(p.parents)]
  }

  function EdgeJson(p: Payload): map<string, Value>
    requires p.Edge?
  {
    RedactedJson(p.redacted) + map[
      "source_id" := Str(p.sourceId), "edge_kind" := Str(EdgeKindText(p.edgeKind)), "from_ref" := Str(p.from),
      "to_ref" := Str(p.to), "source_asserted" := Bool(p.asserted)]
  }

  function MemoryOpJson(p: Payload): map<string, Value>
    requires p.MemoryOp?
  {
    RedactedJson(p.redacted) + TargetJson(p.entry) + map[
      "source_id" := Str(p.sourceId), "action" := Str(ActionText(p.action)),
      "state" := Str(MemoryStateText(p.state)), "event_ref" := Str(p.eventRef)]
  }

  function GateJson(p: Payload): map<string, Value>
    requires p.Gate?
  {
    map["rule_version" := Str("human-attestation-1"), "outcome" := Str(p.attest),
        "operator_self_attestation" := Bool(true)]
  }

  function ReplayJson(c: Comparison, restored: bool): map<string, Value> {
    ComparisonJson(c)["document_reversal_restored" := Bool(restored)]
  }

  function PayloadFields(p: Payload): map<string, Value> {
    match p
    case RunStart(_, _, _, _) => RunJson(p)
    case Event(_, _, _, _, _, _, _) => EventJson(p)
    case Edge(_, _, _, _, _, _, _) => EdgeJson(p)
    case MemoryOp(_, _, _, _, _, _, _) => MemoryOpJson(p)
    case Hypothesis(_, finding) => FindingJson(finding)
    case PatchRecord(_, patch) => PatchJson(patch)
    case ReplayRecord(_, comparison, restored) => ReplayJson(comparison, restored)
    case Gate(_, _) => GateJson(p)
  }

  function PayloadJson(p: Payload): Value {
    Obj(PayloadFields(p)["classification" := Str(ClassificationText(p.cls))])
  }

  function RecordJson(r: Record): Value {
    Obj(map[
      "schema_version" := Str("phase1a-1"),
      "record_id" := Str(r.recordId),
      "record_type" := Str(r.payload.TypeText()),
      "run_id" := Str(r.runId),
      "sequence" := Num(r.sequence),
      "observed_at" := Null,
      "ingested_at" := Str("deterministic-fixture-time"),
      "producer" := Str("trajectory-ledger-phase1a"),
      "source_ref" := Str("local-inert-fixture"),
      "classification" := Str(ClassificationText(r.payload.cls)),
      "content_hash" := Str(r.contentHash),
      "prev_record_hash" := Str(r.prev),
      "payload" := PayloadJson(r.payload)])
  }

  function RecordsJson(records: seq<Record>): Value {
    Arr(seq(|records|, i requires 0 <= i < |records| => RecordJson(records[i])))
  }

  // ---------------------------------------------------------------- envelopes

  function IdentityJson(recordType: Value, runId: Value, sequence: nat, contentHash: Value): Value {
    Obj(map["record_type" := recordType, "run_id" := runId, "sequence" := Num(sequence), "content_hash" := contentHash])
  }

  /** The prefix of record identifiers and 32 hexadecimal digits. */
  predicate IsRecordId(s: string) {
    |s| == 36 && s[..4] == "rec-" && forall i :: 4 <= i < 36 ==> LowerHex(s[i])
  }

  /** The record identifier a given identity must have. */
  function RecordId(h: Runtime, identity: Value): (r: string)
    ensures IsRecordId(r)
  {
    var d: string := h.digest(identity);
    assert forall i :: 0 <= i < 32 ==> LowerHex(d[i]);
    "rec-" + d[..32]
  }

  /** `make_envelope`. */
  function MakeEnvelope(h: Runtime, recordType: string, runId: string, sequence: nat, payload: Payload,
      prev: string): (r: Record)
    ensures r.payload == payload && r.sequence == sequence && r.runId == runId && r.prev == prev
    ensures IsRecordId(r.recordId)
  {
    var contentHash := h.digest(PayloadJson(payload));
    var identity := IdentityJson(Str(recordType), Str(runId), sequence, Str(contentHash));
    Record(RecordId(h, identity), runId, sequence, contentHash, prev, payload)
  }

  /** The envelope of a payload under its own record type. */
  function MakeRecord(h: Runtime, runId: string, sequence: nat, payload: Payload, prev: string): (r: Record)
    ensures r.payload == payload && r.sequence == sequence && r.runId == runId && r.prev == prev
    ensures IsRecordId(r.recordId)
  {
    match payload
    case RunStart(_, _, _, _) => MakeEnvelope(h, "run", runId, sequence, payload, prev)
    case Event(_, _, _, _, _, _, _) => MakeEnvelope(h, "event", runId, sequence, payload, prev)
    case Edge(_, _, _, _, _, _, _) => MakeEnvelope(h, "edge", runId, sequence, payload, prev)
    case MemoryOp(_, _, _, _, _, _, _) => MakeEnvelope(h, "memory_op", runId, sequence, payload, prev)
    case Hypothesis(_, _) => MakeEnvelope(h, "hypothesis", runId, sequence, payload, prev)
    case PatchRecord(_, _) => MakeEnvelope(h, "patch", runId, sequence, payload, prev)
    case ReplayRecord(_, _, _) => MakeEnvelope(h, "replay", runId, sequence, payload, prev)
    case Gate(_, _) => MakeEnvelope(h, "gate_decision", runId, sequence, payload, prev)
  }

  /** Record identifiers fit the identifier grammar, so a patch may refer to one. */
  lemma {:induction false} RecordIdIsIdentifier(s: string)
    requires IsRecordId(s)
    ensures IsIdentifier(s)
  {
    forall i | 0 <= i < |s| ensures IdentChar(s[i]) {
      if i < 4 {
        assert s[i] == s[..4][i];
      }
    }
  }

  // ---------------------------------------------------------------- injectivity of the manifest document

  lemma {:induction false} EntryJsonInjective(a: Entry, b: Entry)
    ensures EntryJson(a) == EntryJson(b) <==> a == b
  {
    var x, y := EntryJson(a).fields, EntryJson(b).fields;
    assert x["namespace"] == Str(a.namespace) && x["item"] == Str(a.item) && x["version"] == Str(a.version);
    assert y["namespace"] == Str(b.namespace) && y["item"] == Str(b.item) && y["version"] == Str(b.version);
  }

  lemma {:induction false} EntriesInjective(a: seq<Entry>, b: seq<Entry>)
    ensures Entries(a) == Entries(b) <==> a == b
  {
    if Entries(a) == Entries(b) {
      var x, y := Entries(a).items, Entries(b).items;
      assert |x| == |a| && |y| == |b|;
      forall i | 0 <= i < |a| ensures a[i] == b[i] {
        assert x[i] == EntryJson(a[i]) && y[i] == EntryJson(b[i]);
        EntryJsonInjective(a[i], b[i]);
      }
    }
  }

  lemma {:induction false} ManifestJsonInjective(a: Manifest, b: Manifest)
    ensures ManifestJson(a) == ManifestJson(b) <==> a == b
  {
    var x, y := ManifestJson(a).fields, ManifestJson(b).fields;
    assert x["items"] == Entries(a.items) && x["quarantine"] == Entries(a.quarantine);
    assert y["items"] == Entries(b.items) && y["quarantine"] == Entries(b.quarantine);
    EntriesInjective(a.items, b.items);
    EntriesInjective(a.quarantine, b.quarantine);
  }

  // ---------------------------------------------------------------- no record holds a floating-point number

  predicate AllFloatFree(fields: map<string, Value>) {
    forall k :: k in fields ==> FloatFree(fields[k])
  }

  lemma {:induction false} EntriesFloatFree(xs: seq<Entry>)
    ensures FloatFree(Entries(xs))
  {}

  lemma {:induction false} RedactedFloatFree(redacted: map<string, nat>)
    ensures AllFloatFree(RedactedJson(redacted))
  {
    if redacted != map[] {
      var fields := RedactedJson(redacted)["redacted_fields"].fields;
      forall k | k in fields ensures FloatFree(fields[k]) {
        assert AllFloatFree(fields[k].fields);
      }
      assert FloatFree(Obj(fields));
    }
  }

  lemma {:induction false} StringsFloatFree(xs: seq<string>)
    ensures FloatFree(Strings(xs))
  {}

  lemma {:induction false} FindingFloatFree(f: Finding)
    ensures AllFloatFree(FindingJson(f))
  {
    StringsFloatFree(f.evidenceFor);
    StringsFloatFree(["fixture_assertions_untrusted", "deterministic_projection_only"]);
    StringsFloatFree([AlternativeText(f.check)]);
    StringsFloatFree(["single_fixture", "phase1a_mechanism_only"]);
    StringsFloatFree(if f.truncated then ["lineage_truncated"] else []);
  }

  lemma {:induction false} PatchFloatFree(p: Patch)
    ensures AllFloatFree(PatchJson(p))
  {}

  lemma {:induction false} ReplayFloatFree(c: Comparison, restored: bool)
    ensures AllFloatFree(ReplayJson(c, restored))
  {
    EntriesFloatFree(c.added);
    EntriesFloatFree(c.removed);
    EntriesFloatFree(c.kept);
  }

  lemma {:induction false} EventFloatFree(p: Payload)
    requires p.Event?
    ensures AllFloatFree(EventJson(p))
  {
    RedactedFloatFree(p.redacted);
    assert FloatFree(Strings(p.parents));
  }

  lemma {:induction false} EdgeFloatFree(p: Payload)
    requires p.Edge?
    ensures AllFloatFree(EdgeJson(p))
  {
    RedactedFloatFree(p.redacted);
  }

  lemma {:induction false} MemoryOpFloatFree(p: Payload)
    requires p.MemoryOp?
    ensures AllFloatFree(MemoryOpJson(p))
  {
    RedactedFloatFree(p.redacted);
  }

  lemma {:induction false} PayloadFloatFree(p: Payload)
    ensures FloatFree(PayloadJson(p))
  {
    match p
    case Hypothesis(_, finding) => FindingFloatFree(finding);
    case PatchRecord(_, patch) => PatchFloatFree(patch);
    case ReplayRecord(_, comparison, restored) => ReplayFloatFree(comparison, restored);
    case RunStart(_, _, _, _) =>
    case Gate(_, _) =>
    case Event(_, _, _, _, _, _, _) => EventFloatFree(p);
    case Edge(_, _, _, _, _, _, _) => EdgeFloatFree(p);
    case MemoryOp(_, _, _, _, _, _, _) => MemoryOpFloatFree(p);
  }

  lemma {:induction false} RecordFloatFree(r: Record)
    ensures FloatFree(RecordJson(r))
  {
    PayloadFloatFree(r.payload);
  }
}
