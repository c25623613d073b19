/** The run of one fixture up to the artifacts: hypotheses, the patch and its saved-task
    comparison, the attestation and the diagnostic. */
module Pipeline {
  import opened Records
  import opened Ledger
  import opened Ingest
  import opened Analysis
  import opened Documents
  import opened Patching
  import opened Diagnostic
  import opened Wording

  /** How the sandboxed child answers a request; any answer is possible. */
  type Child = (Manifest, Manifest, string) -> Replay.ChildRun

  const ATTESTATIONS: set<string> := {"go", "narrow", "stop", "abstain"}

  datatype Attempt = Attempt(replay: ReplayResult, patch: Option<Patch>)

  datatype Run = Run(records: seq<Record>, findings: seq<Finding>, attempt: Attempt, diagnostic: Document)

  /** The records an attempt adds: its patch, and the comparison when it ran. */
  function AttemptPayloads(cls: Classification, attempt: Attempt): (r: seq<Payload>)
    ensures forall p <- r :: !p.Source?()
  {
    (if attempt.patch.Some? then [PatchRecord(cls, attempt.patch.value)] else [])
    + (if attempt.replay.Compared?
        then [ReplayRecord(cls, attempt.replay.comparison, attempt.replay.reversalRestored)] else [])
  }

  function StrictestOf(records: seq<Record>): Classification {
    Strictest(PayloadsOf(records), Classification.Unknown)
  }

  function Hypotheses(cls: Classification, findings: seq<Finding>): (r: seq<Payload>)
    ensures |r| == |findings| && forall i :: 0 <= i < |r| ==> r[i] == Hypothesis(cls, findings[i])
    ensures forall p <- r :: !p.Source?()
  {
    seq(|findings|, i requires 0 <= i < |findings| => Hypothesis(cls, findings[i]))
  }

  /** The first finding a patch may be built for. */
  function Eligible(findings: seq<Finding>): (r: Option<nat>)
    ensures r.Some? ==>
      r.value < |findings| && findings[r.value].violated && findings[r.value].check == TaintedMemoryNotReused
    ensures r.None? ==> forall f <- findings :: !(f.violated && f.check == TaintedMemoryNotReused)
  {
    if findings == [] then None
    else if findings[0].violated && findings[0].check == TaintedMemoryNotReused then Some(0)
    else match Eligible(findings[1..]) case None => None case Some(i) => Some(i + 1)
  }

  /** Patch, candidate, reversal and comparison for one target; a comparison that fails closed
      leaves the patch, an error that escapes ends the run. */
  function PatchAndCompare(h: Runtime, baseline: Manifest, target: Entry, hypothesisRef: string,
      child: Child): Result<Attempt> {
    var patch :- BuildPatch(h, baseline, target, hypothesisRef);
    var candidate :- Applied(h, baseline, patch);
    var restored :- Reversed(candidate, patch.target);
    var gate := Replay.Replayed(h, baseline, candidate, patch.baseHash, child(baseline, candidate, patch.baseHash));
    if gate.Err? && Replay.Escapes(gate.error) then Err(gate.error)
    else Ok(Attempt(Answer(gate, h.digest(ManifestJson(restored)) == h.digest(ManifestJson(baseline))), Some(patch)))
  }

  function Answer(gate: Result<Comparison>, reversalRestored: bool): ReplayResult {
    match gate case Ok(comparison) => Compared(comparison, reversalRestored) case Err(_) => NotRun(FailedClosed)
  }

  /** All cited references resolve, and to memory operations. */
  predicate EvidenceComplete(resolved: seq<Option<Record>>) {
    forall x <- resolved :: x.Some? && x.value.payload.MemoryOp?
  }

  /** A target some operation of the trace quarantined gets no patch. */
  function AttemptOn(h: Runtime, baseline: Manifest, target: Entry, hypothesisRef: string,
      child: Child): Result<Attempt> {
    if target in baseline.quarantine then Ok(Attempt(NotRun(AlreadyQuarantined), None))
    else PatchAndCompare(h, baseline, target, hypothesisRef, child)
  }

  function AttemptFrom(h: Runtime, records: seq<Record>, evidence: seq<string>, hypothesisRef: string,
      child: Child): Result<Attempt> {
    if evidence == [] then Err(HypothesisEvidenceUnbound)
    else
      var resolved := ResolveAll(records, evidence);
      if !EvidenceComplete(resolved) then Ok(Attempt(NotRun(EvidenceIncomplete), None))
      else
        assert resolved[0] in resolved;
        AttemptOn(h, ManifestOf(records), resolved[0].value.payload.entry, hypothesisRef, child)
  }

  /** The gating of patch and comparison on the records that end with the hypotheses. */
  function Attempted(h: Runtime, records: seq<Record>, findings: seq<Finding>, child: Child): Result<Attempt>
    requires |findings| <= |records|
  {
    match Eligible(findings)
    case None => Ok(Attempt(NotRun(NoHypothesis), None))
    case Some(e) =>
      AttemptFrom(h, records, findings[e].evidenceFor, records[|records| - |findings| + e].recordId, child)
  }

  ghost function WithHypotheses(h: Runtime, trace: seq<Record>): (r: seq<Record>)
    requires trace != []
    ensures |r| == |trace| + 4
    ensures Extension(trace, Hypotheses(StrictestOf(trace), Findings(trace)), trace[0].runId, r)
  {
    AppendAll(h, trace, trace[0].runId, Hypotheses(StrictestOf(trace), Findings(trace)))
  }

  /** The ledger of the run: what the attempt derived and the attestation come last. */
  function FinalRecords(h: Runtime, cls: Classification, records: seq<Record>, attempt: Attempt,
      attest: string): seq<Record>
    requires records != []
  {
    var runId := records[0].runId;
    Append(h, AppendAll(h, records, runId, AttemptPayloads(cls, attempt)), runId, Gate(cls, attest))
  }

  function EntryNames(entries: seq<Entry>): set<string> {
    (set e | e in entries :: e.namespace) + (set e | e in entries :: e.item) + (set e | e in entries :: e.version)
  }

  function ReplayNames(replay: ReplayResult): set<string> {
    match replay
    case NotRun(_) => {}
    case Compared(c, _) => EntryNames(c.added) + EntryNames(c.removed) + EntryNames(c.kept)
  }

  function FindingNames(findings: seq<Finding>): set<string> {
    (set f | f in findings :: f.interventionRef) + (set f, id | f in findings && id in f.evidenceFor :: id)
  }

  /** The identifiers the report renders. */
  function ReportNames(runId: string, findings: seq<Finding>, replay: ReplayResult): set<string> {
    {runId} + FindingNames(findings) + ReplayNames(replay)
  }

  /** The report, the diagnostic and their checks, on the complete ledger. */
  function Finished(h: Runtime, all: seq<Record>, runId: string, findings: seq<Finding>, attempt: Attempt,
      attest: string, baseDigest: string): (r: Result<Run>)
    ensures r.Ok? ==> r.value.records == all && r.value.findings == findings && r.value.attempt == attempt
  {
    if attest !in ATTESTATIONS then Err(InvalidHumanSelfAttestation)
    else if AnyWorded(ReportNames(runId, findings, attempt.replay)) then Err(BannedLanguage)
    else
      var diagnostic :- DocumentFor(h, all, findings, attempt.replay, baseDigest);
      Ok(Run(all, findings, attempt, diagnostic))
  }

  /** Everything after the analysis, given the records with their hypotheses. */
  function Concluded(h: Runtime, cls: Classification, records: seq<Record>, findings: seq<Finding>, child: Child,
      attest: string): Result<Run>
    requires |findings| <= |records| && records != []
  {
    var attempt :- Attempted(h, records, findings, child);
    Finished(h, FinalRecords(h, cls, records, attempt, attest), records[0].runId, findings, attempt, attest,
      h.digest(RecordsJson(records)))
  }

  ghost function RunOf(h: Runtime, trace: seq<Record>, child: Child, attest: string): Result<Run>
    requires trace != []
  {
    Concluded(h, StrictestOf(trace), WithHypotheses(h, trace), Findings(trace), child, attest)
  }

  // ---------------------------------------------------------------- what the appended records leave alone

  /** The appended records, when none of them is a source record. */
  lemma {:induction false} DerivedTail(records: seq<Record>, payloads: seq<Payload>, runId: string,
      all: seq<Record>) returns (tail: seq<Record>)
    requires Extension(records, payloads, runId, all) && forall p <- payloads :: !p.Source?()
    ensures all == records + tail
    ensures forall r <- tail :: !r.payload.Source?()
  {
    tail := all[|records|..];
    forall i | 0 <= i < |tail| ensures !tail[i].payload.Source?() {
      assert payloads[i] in payloads;
    }
  }

  lemma {:induction false} ManifestIgnoresDerived(records: seq<Record>, tail: seq<Record>)
    requires forall r <- tail :: !r.payload.Source?()
    ensures ManifestOf(records + tail) == ManifestOf(records)
  {
    assert ItemsOf(records + tail) == ItemsOf(records);
    assert QuarantinedIn(records + tail) == QuarantinedIn(records);
  }

  /** Records resolve and collect as the trace they extend, when no source record is added. */
  lemma {:induction false} ExtensionLeavesSources(records: seq<Record>, payloads: seq<Payload>, runId: string,
      all: seq<Record>)
    requires Extension(records, payloads, runId, all) && forall p <- payloads :: !p.Source?()
    ensures ManifestOf(all) == ManifestOf(records)
    ensures forall id :: Resolve(all, id) == Resolve(records, id)
  {
    var tail := DerivedTail(records, payloads, runId, all);
    ManifestIgnoresDerived(records, tail);
    forall id ensures Resolve(all, id) == Resolve(records, id) { ResolutionIgnoresDerived(records, tail, id); }
  }
}
