/** `run_fixture` up to the artifacts, step by step. */
module Cli {
  import opened Json
  import opened Records
  import opened Ledger
  import opened Ingest
  import opened Documents
  import opened Patching
  import opened Diagnostic
  import opened Wording
  import opened Pipeline
  import opened Exactness

  /** The append loop over `payloads`, carrying the digest of the last record. */
  method AppendPayloads(h: Runtime, start: seq<Record>, runId: string,
      payloads: seq<Payload>) returns (records: seq<Record>)
    requires start != []
    ensures records == AppendAll(h, start, runId, payloads)
  {
    records := start;
    var prev := h.digest(RecordJson(records[|records| - 1]));
    for i := 0 to |payloads|
      invariant records != [] && prev == Tip(h, records)
      invariant AppendAll(h, records, runId, payloads[i..]) == AppendAll(h, start, runId, payloads)
    {
      assert payloads[i..][0] == payloads[i] && payloads[i..][1..] == payloads[i + 1..];
      var record := MakeRecord(h, runId, |records|, payloads[i], prev);
      records := records + [record];
      prev := h.digest(RecordJson(record));
    }
  }

  /** A valid document with the target among its items, not yet quarantined. */
  predicate PatchPossible(baseline: Manifest, target: Entry, hypothesisRef: string) {
    && ValidDocument(baseline) && target in baseline.items && target !in baseline.quarantine
    && ValidEntry(target) && IsIdentifier(hypothesisRef)
  }

  /** Patch, candidate, reversal and comparison, by the in-place operations on copies. */
  method PatchAndReplay(h: Runtime, baseline: Manifest, target: Entry, hypothesisRef: string,
      child: Child) returns (r: Result<Attempt>)
    ensures r == PatchAndCompare(h, baseline, target, hypothesisRef, child)
    ensures PatchPossible(baseline, target, hypothesisRef) ==> PatchSucceeds(h, baseline, target, child, r)
  {
    if PatchPossible(baseline, target, hypothesisRef) {
      PatchAndCompareShape(h, baseline, target, hypothesisRef, child);
    }
    var built := BuildPatch(h, baseline, target, hypothesisRef);
    if built.Err? {
      return Err(built.error);
    }
    var patch := built.value;
    var candidate := ApplyPatch(h, baseline, patch);
    if candidate.Err? {
      return Err(candidate.error);
    }
    var restored := ReversePatch(candidate.value, patch);
    if restored.Err? {
      return Err(restored.error);
    }
    var gate := Replay.Replayed(h, baseline, candidate.value, patch.baseHash,
        child(baseline, candidate.value, patch.baseHash));
    if gate.Err? && Replay.Escapes(gate.error) {
      return Err(gate.error);
    }
    return Ok(Attempt(Answer(gate, h.digest(ManifestJson(restored.value)) == h.digest(ManifestJson(baseline))),
        Some(patch)));
  }

  method AttemptPatch(h: Runtime, records: seq<Record>, findings: seq<Finding>,
      child: Child) returns (r: Result<Attempt>)
    requires |findings| <= |records|
    ensures r == Attempted(h, records, findings, child)
  {
    var eligible := Eligible(findings);
    if eligible.None? {
      return Ok(Attempt(NotRun(NoHypothesis), None));
    }
    var evidence := findings[eligible.value].evidenceFor;
    if evidence == [] {
      return Err(HypothesisEvidenceUnbound);
    }
    var resolved := ResolveAll(records, evidence);
    if !EvidenceComplete(resolved) {
      return Ok(Attempt(NotRun(EvidenceIncomplete), None));
    }
    assert resolved[0] in resolved;
    var target := resolved[0].value.payload.entry;
    var baseline := MemoryManifest(records);
    if target in baseline.quarantine {
      return Ok(Attempt(NotRun(AlreadyQuarantined), None));
    }
    r := PatchAndReplay(h, baseline, target, records[|records| - |findings| + eligible.value].recordId, child);
  }

  lemma {:induction false} ConclusionSound(h: Runtime, cls: Classification, records: seq<Record>,
      findings: seq<Finding>, child: Child, attest: string)
    requires |findings| <= |records| && records != []
    ensures var r := Concluded(h, cls, records, findings, child, attest);
      r.Ok? ==>
        && records <= r.value.records && r.value.findings == findings
        && (Accepts(h, Stored(records)) ==> LedgerVerdict(h, LedgerText(r.value.records)) == ValidChain)
  {
    if Concluded(h, cls, records, findings, child, attest).Ok? {
      ConcludedRecords(h, cls, records, findings, child, attest);
      if Accepts(h, Stored(records)) {
        ConcludedLedgerVerifies(h, cls, records, findings, child, attest);
      }
    }
  }

  /** Everything after the hypotheses. */
  method Conclude(h: Runtime, cls: Classification, records: seq<Record>, findings: seq<Finding>, child: Child,
      attest: string)
    returns (r: Result<Run>)
    requires |findings| <= |records| && records != []
    ensures r == Concluded(h, cls, records, findings, child, attest)
    ensures r.Ok? ==> records <= r.value.records && r.value.findings == findings
    ensures r.Ok? && Accepts(h, Stored(records)) ==> LedgerVerdict(h, LedgerText(r.value.records)) == ValidChain
  {
    ConclusionSound(h, cls, records, findings, child, attest);
    var baseDigest := h.digest(RecordsJson(records));
    var attempt := AttemptPatch(h, records, findings, child);
    if attempt.Err? {
      return Err(attempt.error);
    }
    var extended := AppendPayloads(h, records, records[0].runId, AttemptPayloads(cls, attempt.value));
    var all := AppendPayloads(h, extended, records[0].runId, [Gate(cls, attest)]);
    OneAppend(h, extended, records[0].runId, Gate(cls, attest));
    r := Finish(h, all, records[0].runId, findings, attempt.value, attest, baseDigest);
  }

  /** The report, the diagnostic and their checks. */
  method Finish(h: Runtime, all: seq<Record>, runId: string, findings: seq<Finding>, attempt: Attempt, attest: string,
      baseDigest: string)
    returns (r: Result<Run>)
    ensures r == Finished(h, all, runId, findings, attempt, attest, baseDigest)
  {
    if attest !in ATTESTATIONS {
      return Err(InvalidHumanSelfAttestation);
    }
    if AnyWorded(ReportNames(runId, findings, attempt.replay)) {
      return Err(BannedLanguage);
    }
    var diagnostic := BuildDiagnostic(h, all, findings, attempt.replay, baseDigest);
    if diagnostic.Err? {
      return Err(diagnostic.error);
    }
    return Ok(Run(all, findings, attempt, diagnostic.value));
  }

  lemma {:induction false} OneAppend(h: Runtime, records: seq<Record>, runId: string, payload: Payload)
    ensures AppendAll(h, records, runId, [payload]) == Append(h, records, runId, payload)
  {
    assert [payload][1..] == [];
  }

  /** What a run on an accepted trace gives. */
  ghost predicate RunsAs(h: Runtime, trace: seq<Record>, child: Child, attest: string, r: Result<Run>)
    requires trace != []
  {
    && r == RunOf(h, trace, child, attest)
    && (r.Ok? <==> !ChildBreaks(h, trace, child) && attest in ATTESTATIONS && !AnyWorded(RunNames(h, trace, child)))
    && (r.Err? && attest in ATTESTATIONS ==> r == Err(RunFault(h, trace, child)))
    && (r.Err? && attest !in ATTESTATIONS && !ChildBreaks(h, trace, child) ==> r == Err(InvalidHumanSelfAttestation))
    && (ChildBreaks(h, trace, child) ==> r == Err(BreakingFault(h, trace, child)))
    && (r.Ok? ==> LedgerVerdict(h, LedgerText(r.value.records)) == ValidChain)
    && (r.Ok? ==> (r.value.diagnostic.decision.mayConsider <==> ReviewDue(h, trace, child)))
  }

  /** `run_fixture` on a decoded document: it passes on the error of ingestion; on an accepted
      document it fails exactly when the answer to a due comparison makes it raise, on an unknown
      attestation and on a worded identifier, and otherwise concludes with a ledger that verifies
      and with the recommendation exactly when `ReviewDue` holds of the trace. */
  method RunFixture(h: Runtime, document: Value, child: Child, attest: string) returns (r: Result<Run>)
    ensures match Ingested(h, document)
      case Err(error) => r == Err(error)
      case Ok(trace) => Trace(trace) && RunsAs(h, trace, child, attest, r)
  {
    var ingested := IngestFixture(h, document);
    if ingested.Err? {
      return Err(ingested.error);
    }
    IngestedIsTrace(h, document);
    r := RunTrace(h, ingested.value, child, attest);
  }

  method RunTrace(h: Runtime, trace: seq<Record>, child: Child, attest: string) returns (r: Result<Run>)
    requires Trace(trace) && Accepts(h, Stored(trace))
    ensures RunsAs(h, trace, child, attest, r)
  {
    TraceSequencesDistinct(trace);
    var findings := Violations.Evaluate(trace);
    var cls := StrictestOf(trace);
    var records := AppendPayloads(h, trace, trace[0].runId, Hypotheses(cls, findings));
    r := Conclude(h, cls, records, findings, child, attest);
    OutcomeOfRun(h, trace, child, attest, r);
  }

  lemma {:induction false} TraceSequencesDistinct(trace: seq<Record>)
    requires Trace(trace)
    ensures Analysis.DistinctSequences(trace)
  {}

  lemma {:induction false} OutcomeOfRun(h: Runtime, trace: seq<Record>, child: Child, attest: string, r: Result<Run>)
    requires Trace(trace) && Accepts(h, Stored(trace)) && r == RunOf(h, trace, child, attest)
    ensures RunsAs(h, trace, child, attest, r)
  {
    if attest in ATTESTATIONS {
      ReviewExactness(h, trace, child, attest);
    } else {
      UnknownAttestation(h, trace, child, attest);
    }
    if r.Ok? {
      RunLedgerVerifies(h, trace, child, attest);
    }
  }
}
