/** When a run recommends human review: an exact characterisation over all traces, and what
    of the diagnostic the later steps cannot change. */
module Exactness {
  import opened Orders
  import opened Records
  import opened Ledger
  import opened Ingest
  import opened Lineage
  import opened Analysis
  import opened Documents
  import opened Patching
  import opened Diagnostic
  import opened Pipeline
  import opened Violations
  import opened Wording

  // ---------------------------------------------------------------- the trace's own data

  /** No parent is missing, none conflict, no read is stale, and some read reuses a tainted version. */
  ghost predicate OnlyTaintedReuse(trace: seq<Record>) {
    !ParentMissing(trace) && !ParentsConflict(trace) && !StaleRead(trace) && TaintedReuse(trace)
  }

  /** With no edge cut, this is what the four findings report. */
  lemma {:induction false} OnlyReuseFindings(trace: seq<Record>)
    requires Trace(trace)
    ensures var f := Findings(trace);
      |EdgesOf(trace)| <= LINEAGE_LIMIT ==>
        (OnlyTaintedReuse(trace) <==> !f[0].violated && !f[1].violated && !f[2].violated && f[3].violated)
  {
    if |EdgesOf(trace)| <= LINEAGE_LIMIT {
      UncutFindingsMeaning(trace);
    }
  }

  /** The evidence identifiers of the tainted-reuse finding: the first eight reuses. */
  ghost function Cited(trace: seq<Record>): seq<string> {
    First(Reused(InOrder(trace)), EVIDENCE_LIMIT)
  }

  /** The cited identifiers are those of the first eight reuses of the trace. */
  lemma {:induction false} CitedMeaning(trace: seq<Record>)
    requires Trace(trace)
    ensures Cited(trace) == First(ReuseIds(trace, |trace|), EVIDENCE_LIMIT)
    ensures Cited(trace) != [] <==> TaintedReuse(trace)
  {
    ReusedMeaning(trace);
    SomeReuse(trace, |trace|);
  }

  /** Every cited identifier names exactly one source record. */
  ghost predicate EvidenceUnique(trace: seq<Record>) {
    forall id <- Cited(trace) :: UniquelyNamed(trace, id)
  }

  /** The memory version the first cited record is about. */
  ghost function TargetOf(trace: seq<Record>): Entry {
    if Cited(trace) == [] then Entry("", "", "")
    else
      var first := Resolve(trace, Cited(trace)[0]);
      if first.Some? && first.value.payload.MemoryOp? then first.value.payload.entry else Entry("", "", "")
  }

  function CandidateOf(baseline: Manifest, target: Entry): Manifest {
    Manifest(baseline.items, SortedEntries(Elements(baseline.quarantine) + {target}))
  }

  /** A patch target: reuse was found, its evidence is unique, and no operation of the whole
      trace, later ones included, quarantines the first reused version. */
  ghost predicate PatchDue(trace: seq<Record>) {
    Cited(trace) != [] && EvidenceUnique(trace) && TargetOf(trace) !in QuarantinedIn(trace)
  }

  /** The comparison of this trace's documents returned. */
  ghost predicate ComparisonReturned(h: Runtime, trace: seq<Record>, child: Child) {
    GateFor(h, ManifestOf(trace), TargetOf(trace), child).Ok?
  }

  lemma {:induction false} ItemsBound(records: seq<Record>)
    ensures |ItemsOf(records)| <= |records|
  {
    if records != [] {
      var init, last := records[..|records| - 1], records[|records| - 1];
      assert records == init + [last];
      ItemsBound(init);
      ManifestStep(init, last);
    }
  }

  lemma {:induction false} TraceItems(trace: seq<Record>)
    requires Trace(trace)
    ensures |ItemsOf(trace)| <= 128
    ensures forall e <- ItemsOf(trace) :: ValidEntry(e)
  {
    assert trace == [trace[0]] + trace[1..];
    assert ItemsOf(trace) == ItemsOf(trace[1..]);
    ItemsBound(trace[1..]);
  }

  /** The manifest of every trace is a valid document. */
  lemma {:induction false} ManifestIsValid(trace: seq<Record>)
    requires Trace(trace)
    ensures ValidDocument(ManifestOf(trace))
  {
    TraceItems(trace);
    var m := ManifestOf(trace);
    assert forall e :: e in m.items <==> e in Elements(m.items);
    assert forall e :: e in m.quarantine <==> e in Elements(m.quarantine);
    assert QuarantinedIn(trace) <= ItemsOf(trace);
    SubsetSize(QuarantinedIn(trace), ItemsOf(trace));
  }

  lemma {:induction false} ReusedSource(trace: seq<Record>, id: string) returns (r: Record)
    requires id in Reused(InOrder(trace))
    ensures r in trace && r.payload.MemoryOp? && r.payload.sourceId == id
  {
    ReusedIsRead(InOrder(trace), id);
    var p :| p in InOrder(trace) && p.action == Action.Read && p.sourceId == id;
    r := OrderedSource(trace, p);
  }

  lemma {:induction false} OrderedSource(trace: seq<Record>, p: MemoryPayload) returns (r: Record)
    requires p in InOrder(trace)
    ensures r in trace && r.payload == p
  {
    var ops := MemoryOps(trace);
    var sorted := Sort(ops, Earlier);
    MultisetMembers(sorted, ops);
    var i :| 0 <= i < |Payloads(sorted)| && Payloads(sorted)[i] == p;
    r := sorted[i];
  }

  /** A reused identifier that resolves, resolves to a memory operation of the trace. */
  lemma {:induction false} EvidenceIsMemory(trace: seq<Record>, id: string)
    requires id in Reused(InOrder(trace)) && Resolve(trace, id).Some?
    ensures Resolve(trace, id).value.payload.MemoryOp?
    ensures Resolve(trace, id).value.payload.entry in ItemsOf(trace)
  {
    var r := ReusedSource(trace, id);
    OnlyMatch(trace, id, r);
  }

  lemma {:induction false} OnlyMatch(trace: seq<Record>, id: string, r: Record)
    requires r in trace && r.payload.MemoryOp? && r.payload.sourceId == id && Resolve(trace, id).Some?
    ensures Resolve(trace, id) == Some(r)
  {
    var matches := Matches(trace, id);
    assert r in matches && matches[0] in matches;
  }

  lemma {:induction false} CitedResolve(trace: seq<Record>)
    ensures EvidenceUnique(trace) <==> EvidenceComplete(ResolveAll(trace, Cited(trace)))
    ensures EvidenceUnique(trace) <==> forall x <- ResolveAll(trace, Cited(trace)) :: x.Some?
    ensures EvidenceUnique(trace) && Cited(trace) != [] ==>
      Resolve(trace, Cited(trace)[0]).Some? && Resolve(trace, Cited(trace)[0]).value.payload.MemoryOp?
          && TargetOf(trace) in ItemsOf(trace)
  {
    var cited := Cited(trace);
    forall id | id in cited
      ensures Resolve(trace, id).Some? <==> UniquelyNamed(trace, id)
      ensures Resolve(trace, id).Some? ==>
        Resolve(trace, id).value.payload.MemoryOp? && Resolve(trace, id).value.payload.entry in ItemsOf(trace)
    {
      ResolveMeaning(trace, id);
      assert id in Reused(InOrder(trace));
      if Resolve(trace, id).Some? { EvidenceIsMemory(trace, id); }
    }
    ResolvedList(trace, cited);
  }

  lemma {:induction false} ResolvedList(trace: seq<Record>, cited: seq<string>)
    requires forall id <- cited :: Resolve(trace, id).Some? ==> Resolve(trace, id).value.payload.MemoryOp?
    ensures (forall id <- cited :: Resolve(trace, id).Some?) <==> EvidenceComplete(ResolveAll(trace, cited))
    ensures (forall id <- cited :: Resolve(trace, id).Some?) <==> forall x <- ResolveAll(trace, cited) :: x.Some?
  {
    var resolved := ResolveAll(trace, cited);
    forall i | 0 <= i < |cited| ensures cited[i] in cited && resolved[i] in resolved {}
  }

  // ---------------------------------------------------------------- patch and comparison

  /** What the accepted comparison of a quarantine candidate passes: every check but possibly
      the one that the two digests differ. */
  lemma {:induction false} AcceptedComparisonPasses(h: Runtime, baseline: Manifest, target: Entry, r: Comparison)
    requires target !in baseline.quarantine
    requires Replay.ValidateResult(h, r, baseline, CandidateOf(baseline, target)).Ok?
    ensures Assess(Compared(r, true), Some(target)).Passed() <==> r.baselineDigest != r.candidateDigest
    ensures r.baselineDigest == r.candidateDigest ==>
      Collision(h, ManifestJson(baseline), ManifestJson(CandidateOf(baseline, target)))
  {
    Replay.AcceptedListing(h, r, baseline, CandidateOf(baseline, target));
    ListedComparisonPasses(h, baseline, target, r);
  }

  lemma {:induction false} ListedComparisonPasses(h: Runtime, baseline: Manifest, target: Entry, r: Comparison)
    requires target !in baseline.quarantine
    requires Replay.WellLabelled(r) && Replay.MatchesListing(h, r, baseline, CandidateOf(baseline, target))
    ensures Assess(Compared(r, true), Some(target)).Passed() <==> r.baselineDigest != r.candidateDigest
    ensures r.baselineDigest == r.candidateDigest ==>
      Collision(h, ManifestJson(baseline), ManifestJson(CandidateOf(baseline, target)))
  {
    var candidate := CandidateOf(baseline, target);
    var before := Elements(baseline.quarantine);
    assert target !in before && target in Elements(candidate.quarantine);
    assert baseline != candidate;
    ManifestJsonInjective(baseline, candidate);
    assert Elements(candidate.quarantine) - before == {target} && before - Elements(candidate.quarantine) == {};
    SingletonListing(target);
    assert SortedEntries({}) == [];
  }

  lemma {:induction false} SingletonListing(e: Entry)
    ensures SortedEntries({e}) == [e]
  {
    var r := SortedEntries({e});
    assert r[0] in Elements(r);
  }

  lemma {:induction false} BuiltCandidate(h: Runtime, baseline: Manifest, target: Entry, hypothesisRef: string)
    requires ValidDocument(baseline) && target in baseline.items && target !in baseline.quarantine
    requires ValidEntry(target) && IsIdentifier(hypothesisRef)
    ensures var patch := BuildPatch(h, baseline, target, hypothesisRef);
      && patch.Ok? && patch.value.target == target && patch.value.baseHash == h.digest(ManifestJson(baseline))
      && Applied(h, baseline, patch.value) == Ok(CandidateOf(baseline, target))
      && Reversed(CandidateOf(baseline, target), target) == Ok(baseline)
      && ValidDocument(CandidateOf(baseline, target))
  {
    PatchRoundTrip(h, baseline, target, hypothesisRef);
    var candidate := Applied(h, baseline, BuildPatch(h, baseline, target, hypothesisRef).value).value;
    AscendingIsListing(candidate.quarantine);
  }

  /** The answer of the gate for this candidate. */
  function GateFor(h: Runtime, baseline: Manifest, target: Entry, child: Child): Result<Comparison> {
    var candidate, base := CandidateOf(baseline, target), h.digest(ManifestJson(baseline));
    Replay.Replayed(h, baseline, candidate, base, child(baseline, candidate, base))
  }

  /** For a due target the patch is built and applied, reversal restores the baseline, and
      the comparison completes exactly when the gate lets a result through; what escapes the
      gate ends the attempt. */
  lemma {:induction false} PatchAndCompareShape(h: Runtime, baseline: Manifest, target: Entry, hypothesisRef: string,
      child: Child)
    requires ValidDocument(baseline) && target in baseline.items && target !in baseline.quarantine
    requires ValidEntry(target) && IsIdentifier(hypothesisRef)
    ensures PatchSucceeds(h, baseline, target, child, PatchAndCompare(h, baseline, target, hypothesisRef, child))
  {
    BuiltCandidate(h, baseline, target, hypothesisRef);
  }

  /** The patch is for the target and applies, its reversal gives the baseline back, and the
      comparison is what the gate answers, if no error escapes it. */
  predicate PatchSucceeds(h: Runtime, baseline: Manifest, target: Entry, child: Child, attempt: Result<Attempt>) {
    var gate := GateFor(h, baseline, target, child);
    if gate.Err? && Replay.Escapes(gate.error) then attempt == Err(gate.error)
    else PatchFits(h, baseline, target, child, attempt)
  }

  predicate PatchFits(h: Runtime, baseline: Manifest, target: Entry, child: Child, attempt: Result<Attempt>) {
    && attempt.Ok? && attempt.value.patch.Some? && attempt.value.patch.value.target == target
    && Applied(h, baseline, attempt.value.patch.value) == Ok(CandidateOf(baseline, target))
    && Reversed(CandidateOf(baseline, target), target) == Ok(baseline)
    && attempt.value.replay == Answer(GateFor(h, baseline, target, child), true)
  }

  lemma {:induction false} CandidateTransition(baseline: Manifest, target: Entry)
    requires ValidDocument(baseline) && ValidDocument(CandidateOf(baseline, target))
    requires target !in baseline.quarantine
    ensures Replay.ValidTransition(baseline, CandidateOf(baseline, target))
  {
    OneMoreEntry(Elements(baseline.quarantine), target);
    assert target !in Elements(baseline.quarantine);
  }

  lemma {:induction false} OneMoreEntry(before: set<Entry>, e: Entry)
    ensures before <= before + {e}
    ensures e !in before ==> before + {e} - before == {e} && |before + {e} - before| == 1
  {
    if e !in before {
      assert before + {e} - before == {e};
    }
  }

  // ---------------------------------------------------------------- the attempt of a whole run

  lemma {:induction false} EligibleOfFour(f: seq<Finding>)
    requires |f| == 4 && f[3].check == TaintedMemoryNotReused
    requires f[0].check != TaintedMemoryNotReused && f[1].check != TaintedMemoryNotReused
      && f[2].check != TaintedMemoryNotReused
    ensures Eligible(f) == if f[3].violated then Some(3) else None
  {
    assert f[1..][0] == f[1] && f[1..][1..][0] == f[2] && f[1..][1..][1..][0] == f[3];
    assert f[1..][1..][1..][1..] == [];
  }

  /** The findings of a trace, in order, with what they cite and the truncation mark. */
  lemma {:induction false} TraceFindings(trace: seq<Record>)
    ensures var f := Findings(trace);
      && f[0].check == ParentReferentPresent && f[1].check == ParentEdgeNonconflicting
      && f[2].check == MemoryReadNotStale && f[3].check == TaintedMemoryNotReused
      && f[3].evidenceFor == Cited(trace) && (f[3].violated <==> Cited(trace) != [])
      && (forall x <- f :: x.truncated <==> |EdgesOf(trace)| > LINEAGE_LIMIT)
      && Eligible(f) == if Cited(trace) != [] then Some(3) else None
  {
    var lineage := LineageOf(trace, LINEAGE_LIMIT);
    FindingsShape(Flagged(lineage, Missing), Flagged(lineage, Conflicting), StaleReads(MemoryOps(trace)),
      Reused(InOrder(trace)), |EdgesOf(trace)| > LINEAGE_LIMIT);
    EligibleOfFour(Findings(trace));
  }

  lemma {:induction false} QuarantineListed(trace: seq<Record>)
    ensures forall e :: e in ManifestOf(trace).quarantine <==> e in QuarantinedIn(trace)
    ensures forall e :: e in ManifestOf(trace).items <==> e in ItemsOf(trace)
  {
    var m := ManifestOf(trace);
    assert forall e :: e in m.quarantine <==> e in Elements(m.quarantine);
    assert forall e :: e in m.items <==> e in Elements(m.items);
  }

  /** Records that continue the trace with its four hypotheses and nothing else. */
  ghost predicate Continues(records: seq<Record>, trace: seq<Record>) {
    && |records| >= 4 && IsIdentifier(records[|records| - 1].recordId)
    && ManifestOf(records) == ManifestOf(trace) && forall id :: Resolve(records, id) == Resolve(trace, id)
  }

  lemma {:induction false} HypothesesContinue(trace: seq<Record>, payloads: seq<Payload>, runId: string,
      records: seq<Record>)
    requires Extension(trace, payloads, runId, records) && |payloads| == 4 && forall p <- payloads :: !p.Source?()
    ensures Continues(records, trace)
  {
    ExtensionLeavesSources(trace, payloads, runId, records);
    LastRecordId(trace, payloads, runId, records);
  }

  lemma {:induction false} LastRecordId(trace: seq<Record>, payloads: seq<Payload>, runId: string, records: seq<Record>)
    requires Extension(trace, payloads, runId, records) && |payloads| == 4
    ensures IsIdentifier(records[|records| - 1].recordId)
  {
    assert payloads[3] == payloads[3];
    RecordIdIsIdentifier(records[|trace| + 3].recordId);
  }

  lemma {:induction false} AttemptFromCases(h: Runtime, trace: seq<Record>, records: seq<Record>, ref: string,
      child: Child)
    requires Continues(records, trace) && Cited(trace) != []
    ensures AttemptFrom(h, records, Cited(trace), ref, child) ==
      if EvidenceUnique(trace) then AttemptOn(h, ManifestOf(trace), TargetOf(trace), ref, child)
      else Ok(Attempt(NotRun(EvidenceIncomplete), None))
  {
    CitedResolve(trace);
    var resolved := ResolveAll(records, Cited(trace));
    assert resolved == ResolveAll(trace, Cited(trace));
  }

  /** The child's answer to the request of this trace. */
  ghost function AnswerTo(h: Runtime, trace: seq<Record>, child: Child): Replay.ChildRun {
    var baseline := ManifestOf(trace);
    child(baseline, CandidateOf(baseline, TargetOf(trace)), h.digest(ManifestJson(baseline)))
  }

  /** A comparison is due, and its answer makes the parent raise. */
  ghost predicate ChildBreaks(h: Runtime, trace: seq<Record>, child: Child) {
    PatchDue(trace) && Replay.Breaks(AnswerTo(h, trace, child))
  }

  ghost function BreakingFault(h: Runtime, trace: seq<Record>, child: Child): Fault {
    if AnswerTo(h, trace, child).TooDeep? then RecursionError else UnicodeEncodeError
  }

  lemma {:induction false} DueTransition(h: Runtime, trace: seq<Record>)
    requires Trace(trace) && PatchDue(trace)
    ensures Replay.ValidTransition(ManifestOf(trace), CandidateOf(ManifestOf(trace), TargetOf(trace)))
  {
    var baseline, target := ManifestOf(trace), TargetOf(trace);
    DueTarget(trace);
    CandidateIsValid(h, baseline, target);
    CandidateTransition(baseline, target);
  }

  lemma {:induction false} CandidateIsValid(h: Runtime, baseline: Manifest, target: Entry)
    requires ValidDocument(baseline) && target in baseline.items && target !in baseline.quarantine
    requires ValidEntry(target)
    ensures ValidDocument(CandidateOf(baseline, target))
  {
    BuiltCandidate(h, baseline, target, target.item);
  }

  /** An error escapes a due comparison exactly on such an answer. */
  lemma {:induction false} GateEscapes(h: Runtime, trace: seq<Record>, child: Child)
    requires Trace(trace) && PatchDue(trace)
    ensures var gate := GateFor(h, ManifestOf(trace), TargetOf(trace), child);
      && (gate.Err? && Replay.Escapes(gate.error) <==> ChildBreaks(h, trace, child))
      && (ChildBreaks(h, trace, child) ==> gate.error == BreakingFault(h, trace, child))
  {
    var baseline := ManifestOf(trace);
    var candidate, base := CandidateOf(baseline, TargetOf(trace)), h.digest(ManifestJson(baseline));
    DueTransition(h, trace);
    Replay.EscapeMeaning(h, baseline, candidate, base, child(baseline, candidate, base));
  }

  /** The attempt of a trace raises exactly when its child breaks it, and otherwise emits a
      patch exactly when one is due. */
  ghost predicate AttemptFits(h: Runtime, trace: seq<Record>, child: Child, attempt: Result<Attempt>) {
    if ChildBreaks(h, trace, child) then attempt == Err(BreakingFault(h, trace, child))
    else
      && attempt.Ok? && attempt.value.replay == ReplayOf(h, trace, child)
      && (attempt.value.patch.Some? <==> PatchDue(trace))
  }

  lemma {:induction false} AttemptOnCases(h: Runtime, trace: seq<Record>, ref: string, child: Child)
    requires Trace(trace) && Cited(trace) != [] && EvidenceUnique(trace) && IsIdentifier(ref)
    ensures AttemptFits(h, trace, child, AttemptOn(h, ManifestOf(trace), TargetOf(trace), ref, child))
  {
    QuarantineListed(trace);
    if TargetOf(trace) !in QuarantinedIn(trace) {
      DueTarget(trace);
      GateEscapes(h, trace, child);
      PatchAndCompareShape(h, ManifestOf(trace), TargetOf(trace), ref, child);
    }
  }

  /** How the comparison of a trace ends: it stops at the first condition that fails, and for
      a due patch completes exactly when the gate answers. */
  ghost function ReplayOf(h: Runtime, trace: seq<Record>, child: Child): ReplayResult {
    if Cited(trace) == [] then NotRun(NoHypothesis)
    else if !EvidenceUnique(trace) then NotRun(EvidenceIncomplete)
    else if TargetOf(trace) in QuarantinedIn(trace) then NotRun(AlreadyQuarantined)
    else Answer(GateFor(h, ManifestOf(trace), TargetOf(trace), child), true)
  }

  lemma {:induction false} FromShape(h: Runtime, trace: seq<Record>, records: seq<Record>, ref: string, child: Child)
    requires Trace(trace) && Continues(records, trace) && Cited(trace) != [] && IsIdentifier(ref)
    ensures AttemptFits(h, trace, child, AttemptFrom(h, records, Cited(trace), ref, child))
  {
    AttemptFromCases(h, trace, records, ref, child);
    if EvidenceUnique(trace) {
      AttemptOnCases(h, trace, ref, child);
    }
  }

  lemma {:induction false} AttemptedUnfolds(h: Runtime, records: seq<Record>, findings: seq<Finding>, child: Child)
    requires |findings| == 4 <= |records|
    ensures Eligible(findings) == None ==>
      Attempted(h, records, findings, child) == Ok(Attempt(NotRun(NoHypothesis), None))
    ensures Eligible(findings) == Some(3) ==>
      Attempted(h, records, findings, child)
          == AttemptFrom(h, records, findings[3].evidenceFor, records[|records| - 1].recordId, child)
  {}

  /** The attempt of a run raises exactly when the answer to a due comparison makes it raise,
      and otherwise emits a patch exactly when one is due. */
  lemma {:induction false} AttemptShape(h: Runtime, trace: seq<Record>, records: seq<Record>, findings: seq<Finding>,
      child: Child)
    requires Trace(trace) && |findings| == 4 && Continues(records, trace)
    requires findings[3].evidenceFor == Cited(trace)
      && Eligible(findings) == if Cited(trace) != [] then Some(3) else None
    ensures AttemptFits(h, trace, child, Attempted(h, records, findings, child))
  {
    AttemptedUnfolds(h, records, findings, child);
    if Cited(trace) != [] {
      FromShape(h, trace, records, records[|records| - 1].recordId, child);
    }
  }

  lemma {:induction false} DueTarget(trace: seq<Record>)
    requires Trace(trace) && PatchDue(trace)
    ensures ValidDocument(ManifestOf(trace)) && ValidEntry(TargetOf(trace))
    ensures TargetOf(trace) in ManifestOf(trace).items && TargetOf(trace) !in ManifestOf(trace).quarantine
  {
    ManifestIsValid(trace);
    TraceItems(trace);
    CitedResolve(trace);
    QuarantineListed(trace);
  }

  // ---------------------------------------------------------------- the diagnostic of a whole run

  lemma {:induction false} PointsOfFour(records: seq<Record>, f: seq<Finding>)
    requires |f| == 4
    ensures PointsOf(records, f)
      == PointStep(records, f[0]) + PointStep(records, f[1]) + PointStep(records, f[2]) + PointStep(records, f[3])
  {
    var rest := f[1..];
    assert rest[0] == f[1] && rest[1..][0] == f[2] && rest[1..][1..][0] == f[3] && rest[1..][1..][1..] == [];
    assert PointsOf(records, rest[1..][1..]) == PointStep(records, f[3]);
    assert PointsOf(records, rest[1..]) == PointStep(records, f[2]) + PointStep(records, f[3]);
  }

  lemma {:induction false} EntryOfFour(records: seq<Record>, f: seq<Finding>)
    requires |f| == 4 && f[3].check == TaintedMemoryNotReused
    requires f[0].check != TaintedMemoryNotReused && f[1].check != TaintedMemoryNotReused
      && f[2].check != TaintedMemoryNotReused
    ensures ExpectedEntry(records, f, None) == EntryStep(records, f[3], None)
  {
    var rest := f[1..];
    assert rest[0] == f[1] && rest[1..][0] == f[2] && rest[1..][1..][0] == f[3] && rest[1..][1..][1..] == [];
    assert EntryStep(records, f[0], None) == Ok(None) && EntryStep(records, f[1], None) == Ok(None)
      && EntryStep(records, f[2], None) == Ok(None);
    assert ExpectedEntry(records, rest[1..][1..], None) == EntryStep(records, f[3], None);
    assert ExpectedEntry(records, rest[1..], None) == ExpectedEntry(records, rest[1..][1..], None);
    assert ExpectedEntry(records, rest, None) == ExpectedEntry(records, rest[1..], None);
  }

  /** The tainted-reuse finding is supported exactly when reuse was found and its evidence is
      unique; its expected entry is then the target. */
  lemma {:induction false} TaintedSupport(trace: seq<Record>, records: seq<Record>, finding: Finding)
    requires finding.evidenceFor == Cited(trace) && (finding.violated <==> Cited(trace) != [])
    requires finding.check == TaintedMemoryNotReused
    requires forall id :: Resolve(records, id) == Resolve(trace, id)
    ensures Supported(records, finding) <==> Cited(trace) != [] && EvidenceUnique(trace)
    ensures EntryStep(records, finding, None)
      == Ok(if Cited(trace) != [] && EvidenceUnique(trace) then Some(TargetOf(trace)) else None)
  {
    CitedResolve(trace);
    assert ResolveAll(records, Cited(trace)) == ResolveAll(trace, Cited(trace));
  }

  /** The comparison passes exactly when it returned on a due patch with two digests. */
  ghost predicate ComparisonPasses(h: Runtime, trace: seq<Record>, child: Child) {
    && PatchDue(trace) && ComparisonReturned(h, trace, child)
    && !Collision(h, ManifestJson(ManifestOf(trace)), ManifestJson(CandidateOf(ManifestOf(trace), TargetOf(trace))))
  }

  lemma {:induction false} AssessmentOfRun(h: Runtime, trace: seq<Record>, child: Child)
    ensures Assess(ReplayOf(h, trace, child), if Cited(trace) != []
      && EvidenceUnique(trace) then Some(TargetOf(trace)) else None).Passed()
      <==> ComparisonPasses(h, trace, child)
  {
    if PatchDue(trace) && ComparisonReturned(h, trace, child) {
      QuarantineListed(trace);
      AssessmentOfAnswer(h, ManifestOf(trace), TargetOf(trace), child);
    }
  }

  lemma {:induction false} AssessmentOfAnswer(h: Runtime, baseline: Manifest, target: Entry, child: Child)
    requires target !in baseline.quarantine && GateFor(h, baseline, target, child).Ok?
    ensures Assess(Answer(GateFor(h, baseline, target, child), true), Some(target)).Passed()
      <==> !Collision(h, ManifestJson(baseline), ManifestJson(CandidateOf(baseline, target)))
  {
    var candidate, base := CandidateOf(baseline, target), h.digest(ManifestJson(baseline));
    var c := GateFor(h, baseline, target, child).value;
    Replay.ReplayedMeaning(h, baseline, candidate, base, child(baseline, candidate, base), c);
    AcceptedComparisonPasses(h, baseline, target, c);
    assert Answer(GateFor(h, baseline, target, child), true) == Compared(c, true);
    if c.baselineDigest != c.candidateDigest {
      Replay.AcceptedListing(h, c, baseline, candidate);
    }
  }

  /** When a run recommends human review, on the trace alone: tainted reuse is the only
      violated invariant, no edge was cut from the lineage, every cited identifier names one
      source record, the first reused version is quarantined nowhere in the trace, and the
      comparison came back with two different digests. */
  ghost predicate ReviewDue(h: Runtime, trace: seq<Record>, child: Child) {
    && OnlyTaintedReuse(trace)
    && |EdgesOf(trace)| <= LINEAGE_LIMIT
    && EvidenceUnique(trace)
    && TargetOf(trace) !in QuarantinedIn(trace)
    && ComparisonReturned(h, trace, child)
    && !Collision(h, ManifestJson(ManifestOf(trace)), ManifestJson(CandidateOf(ManifestOf(trace), TargetOf(trace))))
  }

  lemma {:induction false} DiagnosticOfRun(h: Runtime, trace: seq<Record>, all: seq<Record>, f: seq<Finding>,
      child: Child, baseDigest: string)
    requires Trace(trace) && f == Findings(trace) && forall id :: Resolve(all, id) == Resolve(trace, id)
    ensures var d := Drafted(h, all, f, ReplayOf(h, trace, child), baseDigest);
      d.Ok? && (d.value.decision.mayConsider <==> ReviewDue(h, trace, child))
  {
    TraceFindings(trace);
    EntryOfFour(all, f);
    OnlyReuseFindings(trace);
    TaintedSupport(trace, all, f[3]);
    AssessmentOfRun(h, trace, child);
    RecommendationOfFour(h, all, f, ReplayOf(h, trace, child), baseDigest);
  }

  /** The recommendation on the four findings of an evaluation. */
  lemma {:induction false} RecommendationOfFour(h: Runtime, records: seq<Record>, f: seq<Finding>,
      replay: ReplayResult, baseDigest: string)
    requires |f| == 4 && f[3].check == TaintedMemoryNotReused
    requires f[0].check != TaintedMemoryNotReused && f[1].check != TaintedMemoryNotReused
      && f[2].check != TaintedMemoryNotReused
    requires ExpectedEntry(records, f, None).Ok?
    ensures Drafted(h, records, f, replay, baseDigest).Ok?
    ensures Drafted(h, records, f, replay, baseDigest).value.decision.mayConsider <==>
      && !f[0].violated && !f[1].violated && !f[2].violated && f[3].violated
      && Supported(records, f[3]) && !f[3].truncated && Assess(replay, ExpectedEntry(records, f, None).value).Passed()
  {
    var points, proposals := PointsOf(records, f), ProposalsOf(h, records, f, baseDigest);
    var passed := Assess(replay, ExpectedEntry(records, f, None).value).Passed();
    ProposalsAnswerPoints(h, records, f, baseDigest);
    RecommendationMeaning(points, proposals, passed);
    PointsOfFour(records, f);
    OneOfFour(records, f);
  }

  lemma {:induction false} OneOfFour(records: seq<Record>, f: seq<Finding>)
    requires |f| == 4 && f[3].check == TaintedMemoryNotReused
    requires f[0].check != TaintedMemoryNotReused && f[1].check != TaintedMemoryNotReused
      && f[2].check != TaintedMemoryNotReused
    ensures var points := PointStep(records, f[0]) + PointStep(records, f[1]) + PointStep(records,
      f[2]) + PointStep(records, f[3]);
      && (|points| == 1 && points[0].check == TaintedMemoryNotReused <==>
          !f[0].violated && !f[1].violated && !f[2].violated && f[3].violated)
      && (|points| == 1 && points[0].check == TaintedMemoryNotReused ==> points[0] == MakePoint(records, f[3]))
  {}

  // ---------------------------------------------------------------- the run

  /** The identifiers the report of a run renders: the run's, those the findings cite, and the
      entries of a comparison that returned. */
  ghost function RunNames(h: Runtime, trace: seq<Record>, child: Child): set<string>
    requires trace != []
  {
    ReportNames(trace[0].runId, Findings(trace), ReplayOf(h, trace, child))
  }

  /** What is known of a run on a trace: it raises when its child breaks it or a rendered
      identifier is worded, and concludes otherwise, with the attempt, the resolution and the
      diagnostic the trace determines. */
  ghost predicate RunFits(h: Runtime, trace: seq<Record>, child: Child, baseDigest: string, r: Result<Run>)
    requires trace != []
  {
    if ChildBreaks(h, trace, child) then r == Err(BreakingFault(h, trace, child))
    else if AnyWorded(RunNames(h, trace, child)) then r == Err(BannedLanguage)
    else r.Ok? && ConclusionFits(h, trace, child, baseDigest, r)
  }

  ghost predicate ConclusionFits(h: Runtime, trace: seq<Record>, child: Child, baseDigest: string, r: Result<Run>)
    requires r.Ok?
  {
    && r.value.attempt.replay == ReplayOf(h, trace, child)
    && (r.value.attempt.patch.Some? <==> PatchDue(trace))
    && (forall id :: Resolve(r.value.records, id) == Resolve(trace, id))
    && Ok(r.value.diagnostic) == Drafted(h, r.value.records, Findings(trace), ReplayOf(h, trace, child), baseDigest)
    && (r.value.diagnostic.decision.mayConsider <==> ReviewDue(h, trace, child))
  }

  ghost function BaseDigest(h: Runtime, trace: seq<Record>): string
    requires trace != []
  {
    h.digest(RecordsJson(WithHypotheses(h, trace)))
  }

  lemma {:induction false} RunShape(h: Runtime, trace: seq<Record>, child: Child, attest: string)
    requires Trace(trace) && attest in ATTESTATIONS
    ensures RunFits(h, trace, child, BaseDigest(h, trace), RunOf(h, trace, child, attest))
  {
    TraceFindings(trace);
    WithHypothesesContinues(h, trace);
    ConcludedShape(h, StrictestOf(trace), trace, WithHypotheses(h, trace), Findings(trace), child, attest);
  }

  lemma {:induction false} WithHypothesesContinues(h: Runtime, trace: seq<Record>)
    requires trace != []
    ensures Continues(WithHypotheses(h, trace), trace)
  {
    var payloads := Hypotheses(StrictestOf(trace), Findings(trace));
    HypothesesContinue(trace, payloads, trace[0].runId, WithHypotheses(h, trace));
  }

  lemma {:induction false} ConcludedShape(h: Runtime, cls: Classification, trace: seq<Record>, records: seq<Record>,
      f: seq<Finding>, child: Child, attest: string)
    requires Trace(trace) && Continues(records, trace) && f == Findings(trace) && attest in ATTESTATIONS
    requires records[0].runId == trace[0].runId
    requires f[3].evidenceFor == Cited(trace) && Eligible(f) == if Cited(trace) != [] then Some(3) else None
    ensures RunFits(h, trace, child, h.digest(RecordsJson(records)), Concluded(h, cls, records, f, child, attest))
  {
    AttemptShape(h, trace, records, f, child);
    if !ChildBreaks(h, trace, child) {
      var attempt := Attempted(h, records, f, child).value;
      AttemptConcludes(h, cls, trace, records, f, child, attest, attempt);
    }
  }

  lemma {:induction false} AttemptConcludes(h: Runtime, cls: Classification, trace: seq<Record>,
      records: seq<Record>, f: seq<Finding>, child: Child, attest: string, attempt: Attempt)
    requires Trace(trace) && Continues(records, trace) && f == Findings(trace) && attest in ATTESTATIONS
    requires records[0].runId == trace[0].runId && !ChildBreaks(h, trace, child)
    requires Attempted(h, records, f, child) == Ok(attempt) && AttemptFits(h, trace, child, Ok(attempt))
    ensures RunFits(h, trace, child, h.digest(RecordsJson(records)), Concluded(h, cls, records, f, child, attest))
  {
    var all, baseDigest := FinalRecords(h, cls, records, attempt, attest), h.digest(RecordsJson(records));
    FinalRecordsLeaveSources(h, cls, records, attempt, attest);
    DiagnosticOfRun(h, trace, all, f, child, baseDigest);
    ConcludedUnfolds(h, cls, records, f, child, attest, attempt, all);
    RunIdIsRendered(h, trace, child);
    if !AnyWorded(RunNames(h, trace, child)) {
      DraftIsReleased(h, trace, all, f, attempt.replay, baseDigest);
    }
  }

  lemma {:induction false} RunIdIsRendered(h: Runtime, trace: seq<Record>, child: Child)
    requires trace != []
    ensures RunNames(h, trace, child) == ReportNames(trace[0].runId, Findings(trace), ReplayOf(h, trace, child))
  {}

  /** The end of a run, once its attempt is known. */
  lemma {:induction false} ConcludedUnfolds(h: Runtime, cls: Classification, records: seq<Record>, f: seq<Finding>,
      child: Child, attest: string, attempt: Attempt, all: seq<Record>)
    requires |f| <= |records| && records != [] && attest in ATTESTATIONS
    requires Attempted(h, records, f, child) == Ok(attempt) && all == FinalRecords(h, cls, records, attempt, attest)
    ensures Concluded(h, cls, records, f, child, attest) ==
      if AnyWorded(ReportNames(records[0].runId, f, attempt.replay)) then Err(BannedLanguage)
      else
        var d := DocumentFor(h, all, f, attempt.replay, h.digest(RecordsJson(records)));
        if d.Ok? then Ok(Run(all, f, attempt, d.value)) else Err(d.error)
  {}

  /** The check of the diagnostic never raises when that of the report did not. */
  lemma {:induction false} DraftIsReleased(h: Runtime, trace: seq<Record>, all: seq<Record>, f: seq<Finding>,
      replay: ReplayResult, baseDigest: string)
    requires Trace(trace) && forall id :: Resolve(all, id) == Resolve(trace, id)
    requires !AnyWorded(FindingNames(f)) && Drafted(h, all, f, replay, baseDigest).Ok?
    ensures DocumentFor(h, all, f, replay, baseDigest) == Drafted(h, all, f, replay, baseDigest)
  {
    var d := Drafted(h, all, f, replay, baseDigest).value;
    forall id | Resolve(all, id).Some? ensures !Worded(Resolve(all, id).value.recordId) {
      ResolveMeaning(trace, id);
      RecordIdsAreNotWorded(Resolve(all, id).value.recordId);
    }
    PointNamesUnworded(all, f);
    ProposalNamesUnworded(h, all, f, baseDigest);
    PartsUnworded(d);
  }

  lemma {:induction false} PartsUnworded(d: Document)
    requires (forall p <- d.points :: PointUnworded(p)) && forall p <- d.proposals :: ProposalUnworded(p)
    ensures !AnyWorded(DocumentNames(d))
  {}

  lemma {:induction false} EvidenceUnworded(records: seq<Record>, finding: Finding)
    requires forall id :: Resolve(records, id).Some? ==> !Worded(Resolve(records, id).value.recordId)
    ensures forall id <- EvidenceIds(records, finding) :: !Worded(id)
  {
    if Supported(records, finding) {
      var evidence := Evidence(records, finding);
      forall i | 0 <= i < |evidence| ensures !Worded(RecordIds(evidence)[i]) {
        assert Resolve(records, finding.evidenceFor[i]) == Some(evidence[i]);
      }
    }
  }

  predicate PointUnworded(p: Point) {
    !Worded(p.failureRef) && forall id <- p.evidenceIds :: !Worded(id)
  }

  lemma {:induction false} PointNamesUnworded(records: seq<Record>, f: seq<Finding>)
    requires forall id :: Resolve(records, id).Some? ==> !Worded(Resolve(records, id).value.recordId)
    requires forall x <- f :: !Worded(x.interventionRef)
    ensures forall p <- PointsOf(records, f) :: PointUnworded(p)
  {
    if f != [] {
      PointNamesUnworded(records, f[1..]);
      EvidenceUnworded(records, f[0]);
      ShortNamesAreNotWorded("none");
      assert f[0] in f;
    }
  }

  predicate ProposalUnworded(p: Proposal) {
    !Worded(p.target) && forall id <- p.evidenceIds :: !Worded(id)
  }

  lemma {:induction false} ProposalNamesUnworded(h: Runtime, records: seq<Record>, f: seq<Finding>, baseDigest: string)
    requires forall id :: Resolve(records, id).Some? ==> !Worded(Resolve(records, id).value.recordId)
    requires forall x <- f :: !Worded(x.interventionRef)
    ensures forall p <- ProposalsOf(h, records, f, baseDigest) :: ProposalUnworded(p)
  {
    if f != [] {
      ProposalNamesUnworded(h, records, f[1..], baseDigest);
      EvidenceUnworded(records, f[0]);
      assert f[0] in f;
    }
  }

  lemma {:induction false} FinalRecordsLeaveSources(h: Runtime, cls: Classification, records: seq<Record>,
      attempt: Attempt, attest: string)
    requires records != []
    ensures forall id :: Resolve(FinalRecords(h, cls, records, attempt, attest), id) == Resolve(records, id)
  {
    var runId, derived := records[0].runId, AttemptPayloads(cls, attempt);
    var middle := AppendAll(h, records, runId, derived);
    ExtensionJoin(records, derived, middle, [Gate(cls, attest)], FinalRecords(h, cls, records, attempt, attest), runId);
    ExtensionLeavesSources(records, derived + [Gate(cls, attest)], runId,
        FinalRecords(h, cls, records, attempt, attest));
  }

  /** The error of a run that raises. */
  ghost function RunFault(h: Runtime, trace: seq<Record>, child: Child): Fault {
    if ChildBreaks(h, trace, child) then BreakingFault(h, trace, child) else BannedLanguage
  }

  /** End-to-end exactness: a run on an accepted trace raises exactly when the answer to a due
      comparison makes it raise or an identifier it renders is worded, and otherwise concludes;
      then it recommends human review exactly when `ReviewDue` holds. */
  lemma {:induction false} ReviewExactness(h: Runtime, trace: seq<Record>, child: Child, attest: string)
    requires Trace(trace) && attest in ATTESTATIONS
    ensures var r := RunOf(h, trace, child, attest);
      && (r.Ok? <==> !ChildBreaks(h, trace, child) && !AnyWorded(RunNames(h, trace, child)))
      && (r.Err? ==> r == Err(RunFault(h, trace, child)))
      && (r.Ok? ==> (r.value.diagnostic.decision.mayConsider <==> ReviewDue(h, trace, child)))
  {
    RunShape(h, trace, child, attest);
  }

  /** What a finding on these identifiers names: the first eight, or the word for none. */
  ghost predicate Named(ids: seq<string>, id: string) {
    if ids == [] then id == "none" else id in First(ids, EVIDENCE_LIMIT)
  }

  /** What the four findings of a trace name. */
  ghost predicate NamedByFindings(trace: seq<Record>, id: string) {
    || Named(MissingIds(trace), id) || Named(ConflictingIds(trace), id)
    || Named(StaleIds(trace), id) || Named(ReuseIds(trace, |trace|), id)
  }

  lemma {:induction false} CitesNames(f: Finding, ids: seq<string>, id: string)
    requires Cites(f, ids)
    ensures id == f.interventionRef || id in f.evidenceFor <==> Named(ids, id)
  {}

  lemma {:induction false} NamesOfFour(f: seq<Finding>, id: string)
    requires |f| == 4
    ensures id in FindingNames(f) <==>
      || id == f[0].interventionRef || id in f[0].evidenceFor || id == f[1].interventionRef || id in f[1].evidenceFor
      || id == f[2].interventionRef || id in f[2].evidenceFor || id == f[3].interventionRef || id in f[3].evidenceFor
  {
    assert f[0] in f && f[1] in f && f[2] in f && f[3] in f;
  }

  /** The identifiers the findings cite, read off the records. */
  lemma {:induction false} FindingNamesMeaning(trace: seq<Record>, id: string)
    requires Trace(trace)
    ensures id in FindingNames(Findings(trace)) <==> NamedByFindings(trace, id)
  {
    var f := Findings(trace);
    FindingsMeaning(trace);
    NamesOfFour(f, id);
    CitesNames(f[0], MissingIds(trace), id);
    CitesNames(f[1], ConflictingIds(trace), id);
    CitesNames(f[2], StaleIds(trace), id);
    CitesNames(f[3], ReuseIds(trace, |trace|), id);
  }

  /** The identifiers the report renders, read off the trace: a comparison contributes the
      quarantined entries and the target. */
  lemma {:induction false} RunNamesMeaning(h: Runtime, trace: seq<Record>, child: Child, id: string)
    requires Trace(trace)
    ensures id in RunNames(h, trace, child) <==>
      || id == trace[0].runId
      || NamedByFindings(trace, id)
      || (PatchDue(trace) && ComparisonReturned(h, trace, child)
          && exists e :: e in QuarantinedIn(trace) + {TargetOf(trace)} && Component(e, id))
  {
    var findings, replay := Findings(trace), ReplayOf(h, trace, child);
    ReportNamesSplit(trace[0].runId, findings, replay, id);
    FindingNamesMeaning(trace, id);
    RunIdIsRendered(h, trace, child);
    if PatchDue(trace) && ComparisonReturned(h, trace, child) {
      ComparedEntries(h, trace, child);
      ReplayNamesMeaning(replay, id);
    } else {
      NoComparison(h, trace, child);
    }
  }

  lemma {:induction false} ReportNamesSplit(runId: string, findings: seq<Finding>, replay: ReplayResult, id: string)
    ensures id in ReportNames(runId, findings, replay) <==>
      id == runId || id in FindingNames(findings) || id in ReplayNames(replay)
    ensures replay.NotRun? ==> ReplayNames(replay) == {}
  {}

  lemma {:induction false} NoComparison(h: Runtime, trace: seq<Record>, child: Child)
    requires !(PatchDue(trace) && ComparisonReturned(h, trace, child))
    ensures ReplayOf(h, trace, child).NotRun?
  {}

  /** A source identifier or the start of an edge of the trace. */
  ghost predicate SourceName(trace: seq<Record>, id: string) {
    NamesSource(trace, id) || exists e :: HasEdge(trace, e) && e.from == id
  }

  lemma {:induction false} StartIsNamed(trace: seq<Record>, edges: seq<EdgePayload>, id: string)
    requires id in DanglingStarts(trace, edges) || id in ContradictedStarts(trace, edges)
    ensures exists e :: e in edges && e.from == id
  {
    assert edges == [edges[0]] + edges[1..];
    if edges[0].from != id {
      StartIsNamed(trace, edges[1..], id);
    }
  }

  lemma {:induction false} OrphanIsChild(trace: seq<Record>, child: string, parents: seq<string>, id: string)
    requires id in Orphaned(trace, child, parents)
    ensures id == child
  {
    if NamesSource(trace, parents[0]) || id != child {
      OrphanIsChild(trace, child, parents[1..], id);
    }
  }

  lemma {:induction false} ChildIsNamed(trace: seq<Record>, part: seq<Record>, id: string)
    requires id in DanglingChildren(trace, part)
    ensures NamesSource(part, id)
  {
    var p := part[0].payload;
    assert part == [part[0]] + part[1..];
    if id in DanglingChildren(trace, part[1..]) {
      ChildIsNamed(trace, part[1..], id);
    } else {
      OrphanIsChild(trace, p.sourceId, p.parents, id);
    }
  }

  lemma {:induction false} StaleIsNamed(records: seq<Record>, id: string)
    requires id in StaleIds(records)
    ensures NamesSource(records, id)
  {
    assert records == [records[0]] + records[1..];
    if id in StaleIds(records[1..]) {
      StaleIsNamed(records[1..], id);
    }
  }

  lemma {:induction false} ReuseIsNamed(trace: seq<Record>, n: nat, id: string)
    requires n <= |trace| && id in ReuseIds(trace, n)
    ensures NamesSource(trace, id)
  {
    if id in ReuseIds(trace, n - 1) {
      ReuseIsNamed(trace, n - 1, id);
    } else {
      assert trace[n - 1] in trace;
    }
  }

  /** Apart from the word for none, the findings name sources of the trace only. */
  lemma {:induction false} FindingsNameSources(trace: seq<Record>, id: string)
    requires NamedByFindings(trace, id) && id != "none"
    ensures SourceName(trace, id)
  {
    if id in DanglingStarts(trace, Shown(trace)) || id in ContradictedStarts(trace, Shown(trace)) {
      StartIsNamed(trace, Shown(trace), id);
      EdgesOfMembers(trace);
    } else if id in DanglingChildren(trace, trace) {
      ChildIsNamed(trace, trace, id);
    } else if id in StaleIds(trace) {
      StaleIsNamed(trace, id);
    } else {
      ReuseIsNamed(trace, |trace|, id);
    }
  }

  /** A run on a trace none of whose identifiers is worded fails only by the answer of its child. */
  lemma {:induction false} UnwordedTraceConcludes(h: Runtime, trace: seq<Record>, child: Child, attest: string)
    requires Trace(trace) && attest in ATTESTATIONS && Unworded(trace)
    ensures RunOf(h, trace, child, attest).Ok? <==> !ChildBreaks(h, trace, child)
  {
    ReviewExactness(h, trace, child, attest);
    forall id | id in RunNames(h, trace, child) ensures !Worded(id) {
      UnwordedName(h, trace, child, id);
    }
  }

  ghost predicate Unworded(trace: seq<Record>)
    requires trace != []
  {
    && !Worded(trace[0].runId)
    && (forall id :: SourceName(trace, id) ==> !Worded(id))
    && forall e <- ItemsOf(trace) :: !Worded(e.namespace) && !Worded(e.item) && !Worded(e.version)
  }

  lemma {:induction false} UnwordedName(h: Runtime, trace: seq<Record>, child: Child, id: string)
    requires Trace(trace) && Unworded(trace) && id in RunNames(h, trace, child)
    ensures !Worded(id)
  {
    RunNamesMeaning(h, trace, child, id);
    if NamedByFindings(trace, id) {
      UnwordedReference(trace, id);
    } else if id != trace[0].runId {
      UnwordedComponent(trace, id);
    }
  }

  lemma {:induction false} UnwordedComponent(trace: seq<Record>, id: string)
    requires trace != [] && Unworded(trace) && PatchDue(trace)
    requires exists e :: e in QuarantinedIn(trace) + {TargetOf(trace)} && Component(e, id)
    ensures !Worded(id)
  {
    ComparedAreItems(trace);
  }

  lemma {:induction false} UnwordedReference(trace: seq<Record>, id: string)
    requires trace != [] && Unworded(trace) && NamedByFindings(trace, id)
    ensures !Worded(id)
  {
    if |id| <= 5 {
      ShortNamesAreNotWorded(id);
    } else {
      FindingsNameSources(trace, id);
    }
  }

  lemma {:induction false} ComparedAreItems(trace: seq<Record>)
    requires PatchDue(trace)
    ensures QuarantinedIn(trace) + {TargetOf(trace)} <= ItemsOf(trace)
  {
    CitedResolve(trace);
  }

  predicate Component(e: Entry, id: string) {
    id == e.namespace || id == e.item || id == e.version
  }

  lemma {:induction false} ReplayNamesMeaning(replay: ReplayResult, id: string)
    requires replay.Compared?
    ensures var c := replay.comparison;
      id in ReplayNames(replay) <==> exists e :: (e in c.added || e in c.removed || e in c.kept) && Component(e, id)
  {
    var c := replay.comparison;
    EntryNamesMeaning(c.added, id);
    EntryNamesMeaning(c.removed, id);
    EntryNamesMeaning(c.kept, id);
  }

  lemma {:induction false} EntryNamesMeaning(entries: seq<Entry>, id: string)
    ensures id in EntryNames(entries) <==> exists e :: e in entries && Component(e, id)
  {}

  lemma {:induction false} ComparedEntries(h: Runtime, trace: seq<Record>, child: Child)
    requires Trace(trace) && PatchDue(trace) && ComparisonReturned(h, trace, child)
    ensures ReplayOf(h, trace, child).Compared?
    ensures var c := ReplayOf(h, trace, child).comparison;
      forall e :: e in c.added || e in c.removed || e in c.kept <==> e in QuarantinedIn(trace) + {TargetOf(trace)}
  {
    var c := GateFor(h, ManifestOf(trace), TargetOf(trace), child).value;
    GatedEntries(h, ManifestOf(trace), TargetOf(trace), child);
    QuarantineListed(trace);
  }

  lemma {:induction false} GatedEntries(h: Runtime, baseline: Manifest, target: Entry, child: Child)
    requires GateFor(h, baseline, target, child).Ok?
    ensures var c := GateFor(h, baseline, target, child).value;
      forall e :: e in c.added || e in c.removed || e in c.kept <==> e in baseline.quarantine || e == target
  {
    var candidate, base := CandidateOf(baseline, target), h.digest(ManifestJson(baseline));
    var c := GateFor(h, baseline, target, child).value;
    Replay.ReplayedMeaning(h, baseline, candidate, base, child(baseline, candidate, base), c);
    MatchedEntries(h, baseline, target, c);
  }

  lemma {:induction false} MatchedEntries(h: Runtime, baseline: Manifest, target: Entry, c: Comparison)
    requires Replay.ValidTransition(baseline, CandidateOf(baseline, target))
    requires Replay.ValidateResult(h, c, baseline, CandidateOf(baseline, target)).Ok?
    ensures forall e :: e in c.added || e in c.removed || e in c.kept <==> e in baseline.quarantine || e == target
  {
    Replay.DifferenceMeaning(h, baseline, CandidateOf(baseline, target), c);
    ListedBoth(baseline, target, c.added, c.kept);
  }

  lemma {:induction false} ListedBoth(baseline: Manifest, target: Entry, added: seq<Entry>, kept: seq<Entry>)
    requires SortedEntries(Elements(added) + Elements(kept)) == SortedEntries(Elements(baseline.quarantine) + {target})
    ensures forall e :: e in added || e in kept <==> e in baseline.quarantine || e == target
  {
    assert Elements(added) + Elements(kept) == Elements(baseline.quarantine) + {target};
    forall e ensures e in added || e in kept <==> e in baseline.quarantine || e == target {
      assert e in Elements(added) + Elements(kept) <==> e in Elements(baseline.quarantine) + {target};
    }
  }

  /** A run on an accepted trace with an unknown attestation is refused, unless it ends before. */
  lemma {:induction false} UnknownAttestation(h: Runtime, trace: seq<Record>, child: Child, attest: string)
    requires Trace(trace) && attest !in ATTESTATIONS
    ensures RunOf(h, trace, child, attest) == Err(
      if ChildBreaks(h, trace, child) then BreakingFault(h, trace, child) else InvalidHumanSelfAttestation)
  {
    TraceFindings(trace);
    WithHypothesesContinues(h, trace);
    AttemptShape(h, trace, WithHypotheses(h, trace), Findings(trace), child);
  }

  /** A child that answers, if at all, with the comparison of the documents it was sent. */
  ghost predicate Honest(h: Runtime, child: Child) {
    forall b, c, e :: child(b, c, e) == Replay.NoResult
      || child(b, c, e) == Replay.Wrote(Replay.AsWritten(Replay.CompareDocuments(h, b, c, e)))
  }

  /** An honest answer never makes the parent raise. */
  lemma {:induction false} HonestChildFits(h: Runtime, trace: seq<Record>, child: Child)
    requires Honest(h, child)
    ensures !ChildBreaks(h, trace, child)
  {
    var baseline := ManifestOf(trace);
    var candidate, base := CandidateOf(baseline, TargetOf(trace)), h.digest(ManifestJson(baseline));
    Replay.TextsDoNotTrip(Replay.CompareDocuments(h, baseline, candidate, base));
  }

  /** With an honest child no assumption on the digest is left: an accepted comparison already
      rules a collision out, so the recommendation is given exactly when the trace qualifies
      and `replay` returned. */
  lemma {:induction false} HonestReviewExactness(h: Runtime, trace: seq<Record>, child: Child, attest: string)
    requires Trace(trace) && attest in ATTESTATIONS && Honest(h, child)
    ensures var r := RunOf(h, trace, child, attest);
      r.Ok? ==> (r.value.diagnostic.decision.mayConsider <==>
        && OnlyTaintedReuse(trace) && |EdgesOf(trace)| <= LINEAGE_LIMIT && EvidenceUnique(trace)
        && TargetOf(trace) !in QuarantinedIn(trace)
        && r.value.attempt.replay.Compared?)
  {
    RunShape(h, trace, child, attest);
    HonestReview(h, trace, child);
  }

  lemma {:induction false} HonestReview(h: Runtime, trace: seq<Record>, child: Child)
    requires Trace(trace) && Honest(h, child)
    ensures ReviewDue(h, trace, child) <==>
      && OnlyTaintedReuse(trace) && |EdgesOf(trace)| <= LINEAGE_LIMIT && EvidenceUnique(trace)
      && TargetOf(trace) !in QuarantinedIn(trace) && ReplayOf(h, trace, child).Compared?
  {
    CitedMeaning(trace);
    if PatchDue(trace) && ComparisonReturned(h, trace, child) {
      HonestComparison(h, ManifestOf(trace), TargetOf(trace), child);
    }
  }

  lemma {:induction false} HonestComparison(h: Runtime, baseline: Manifest, target: Entry, child: Child)
    requires Honest(h, child) && GateFor(h, baseline, target, child).Ok?
    ensures !Collision(h, ManifestJson(baseline), ManifestJson(CandidateOf(baseline, target)))
  {
    var candidate, base := CandidateOf(baseline, target), h.digest(ManifestJson(baseline));
    var c := GateFor(h, baseline, target, child).value;
    Replay.ReplayedMeaning(h, baseline, candidate, base, child(baseline, candidate, base), c);
    Replay.AsWrittenInjective(c, Replay.CompareDocuments(h, baseline, candidate, base));
    Replay.ChildAndParentAgree(h, baseline, candidate);
  }

  /** Proposals, their identifiers and the failure points are the same for every outcome of
      the comparison and every attestation. */
  lemma {:induction false} ProposalsAreStable(h: Runtime, trace: seq<Record>, child: Child, attest: string,
      child': Child, attest': string)
    requires Trace(trace) && attest in ATTESTATIONS && attest' in ATTESTATIONS
    ensures var r, r' := RunOf(h, trace, child, attest), RunOf(h, trace, child', attest');
      r.Ok? && r'.Ok? ==>
        && r.value.diagnostic.proposals == r'.value.diagnostic.proposals
        && r.value.diagnostic.points == r'.value.diagnostic.points
  {
    RunShape(h, trace, child, attest);
    RunShape(h, trace, child', attest');
    var r, r' := RunOf(h, trace, child, attest), RunOf(h, trace, child', attest');
    if r.Ok? && r'.Ok? {
      FittingRunsAgree(h, trace, BaseDigest(h, trace), child, r, child', r');
    }
  }

  lemma {:induction false} FittingRunsAgree(h: Runtime, trace: seq<Record>, baseDigest: string, child: Child,
      r: Result<Run>, child': Child, r': Result<Run>)
    requires r.Ok? && r'.Ok?
    requires ConclusionFits(h, trace, child, baseDigest, r) && ConclusionFits(h, trace, child', baseDigest, r')
    ensures r.value.diagnostic.proposals == r'.value.diagnostic.proposals
    ensures r.value.diagnostic.points == r'.value.diagnostic.points
  {
    SameResolutionSameProposals(h, r.value.records, r'.value.records, Findings(trace), baseDigest);
  }

  lemma {:induction false} SameResolutionSameProposals(h: Runtime, a: seq<Record>, b: seq<Record>,
      findings: seq<Finding>, baseDigest: string)
    requires forall id :: Resolve(a, id) == Resolve(b, id)
    ensures PointsOf(a, findings) == PointsOf(b, findings)
    ensures ProposalsOf(h, a, findings, baseDigest) == ProposalsOf(h, b, findings, baseDigest)
  {
    if findings != [] {
      SameResolutionSameProposals(h, a, b, findings[1..], baseDigest);
      SameEvidence(a, b, findings[0]);
    }
  }

  lemma {:induction false} SameEvidence(a: seq<Record>, b: seq<Record>, finding: Finding)
    requires forall id :: Resolve(a, id) == Resolve(b, id)
    ensures Supported(a, finding) == Supported(b, finding)
    ensures EvidenceIds(a, finding) == EvidenceIds(b, finding) && MakePoint(a, finding) == MakePoint(b, finding)
  {
    assert ResolveAll(a, finding.evidenceFor) == ResolveAll(b, finding.evidenceFor);
    if Supported(a, finding) {
      assert Evidence(a, finding) == Evidence(b, finding);
    }
  }

  /** The whole ledger of a run verifies when the ingested one does. */
  lemma {:induction false} RunLedgerVerifies(h: Runtime, trace: seq<Record>, child: Child, attest: string)
    requires trace != [] && Accepts(h, Stored(trace)) && RunOf(h, trace, child, attest).Ok?
    ensures LedgerVerdict(h, LedgerText(RunOf(h, trace, child, attest).value.records)) == ValidChain
  {
    var cls, records := StrictestOf(trace), WithHypotheses(h, trace);
    AppendAllAccepted(h, trace, trace[0].runId, Hypotheses(cls, Findings(trace)));
    ConcludedLedgerVerifies(h, cls, records, Findings(trace), child, attest);
  }

  lemma {:induction false} ConcludedLedgerVerifies(h: Runtime, cls: Classification, records: seq<Record>,
      f: seq<Finding>, child: Child, attest: string)
    requires |f| <= |records| && records != [] && Accepts(h, Stored(records))
      && Concluded(h, cls, records, f, child, attest).Ok?
    ensures LedgerVerdict(h, LedgerText(Concluded(h, cls, records, f, child, attest).value.records)) == ValidChain
  {
    ConcludedRecords(h, cls, records, f, child, attest);
    FinalLedgerVerifies(h, cls, records, Attempted(h, records, f, child).value, attest);
  }

  lemma {:induction false} ConcludedRecords(h: Runtime, cls: Classification, records: seq<Record>, f: seq<Finding>,
      child: Child, attest: string)
    requires |f| <= |records| && records != [] && Concluded(h, cls, records, f, child, attest).Ok?
    ensures Attempted(h, records, f, child).Ok?
    ensures Concluded(h, cls, records, f, child, attest).value.records
      == FinalRecords(h, cls, records, Attempted(h, records, f, child).value, attest)
    ensures Concluded(h, cls, records, f, child, attest).value.findings == f
    ensures records <= Concluded(h, cls, records, f, child, attest).value.records
  {
    FinalExtends(h, cls, records, Attempted(h, records, f, child).value, attest);
  }

  lemma {:induction false} FinalExtends(h: Runtime, cls: Classification, records: seq<Record>, attempt: Attempt,
      attest: string)
    requires records != []
    ensures records <= FinalRecords(h, cls, records, attempt, attest)
  {}

  lemma {:induction false} FinalLedgerVerifies(h: Runtime, cls: Classification, records: seq<Record>,
      attempt: Attempt, attest: string)
    requires records != [] && Accepts(h, Stored(records))
    ensures LedgerVerdict(h, LedgerText(FinalRecords(h, cls, records, attempt, attest))) == ValidChain
  {
    var runId := records[0].runId;
    var middle := AppendAll(h, records, runId, AttemptPayloads(cls, attempt));
    AppendAllAccepted(h, records, runId, AttemptPayloads(cls, attempt));
    AppendAccepted(h, middle, runId, Gate(cls, attest));
    WrittenLedgerVerdict(h, FinalRecords(h, cls, records, attempt, attest));
  }
}
