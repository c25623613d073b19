/** The diagnostic view over a ledger: resolved failure points, declarative proposals, the
    assessment of the saved-task comparison, and the review gate. */
module Diagnostic {
  import opened Orders
  import opened Json
  import opened Records
  import opened Wording
  import Replay

  // ---------------------------------------------------------------- resolution

  function Matches(records: seq<Record>, id: string): (r: seq<Record>)
    ensures forall x :: x in r <==> x in records && x.payload.Source?() && x.payload.sourceId == id
  {
    if records == [] then []
    else
      assert records == [records[0]] + records[1..];
      (if records[0].payload.Source?() && records[0].payload.sourceId == id then [records[0]] else [])
      + Matches(records[1..], id)
  }

  /** `resolve_unique_source_record`. */
  function Resolve(records: seq<Record>, id: string): Option<Record> {
    var matches := Matches(records, id);
    if |matches| == 1 then Some(matches[0]) else None
  }

  predicate NamedBy(r: Record, id: string) {
    r.payload.Source?() && r.payload.sourceId == id
  }

  /** Exactly one position of the ledger holds a source record with this identifier. */
  ghost predicate UniquelyNamed(records: seq<Record>, id: string) {
    exists i :: 0 <= i < |records| && NamedBy(records[i], id)
      && forall j :: 0 <= j < |records| && NamedBy(records[j], id) ==> j == i
  }

  lemma {:induction false} MatchesNone(records: seq<Record>, id: string)
    ensures Matches(records, id) == [] <==> forall j :: 0 <= j < |records| ==> !NamedBy(records[j], id)
  {
    var matches := Matches(records, id);
    if matches != [] {
      assert matches[0] in records;
    }
    if j :| 0 <= j < |records| && NamedBy(records[j], id) {
      assert records[j] in matches;
    }
  }

  lemma {:induction false} MatchesAppend(a: seq<Record>, b: seq<Record>, id: string)
    ensures Matches(a + b, id) == Matches(a, id) + Matches(b, id)
  {
    if a == [] {
      assert a + b == b;
    } else {
      assert (a + b)[1..] == a[1..] + b;
      MatchesAppend(a[1..], b, id);
    }
  }

  lemma {:induction false} MatchesAround(before: seq<Record>, r: Record, after: seq<Record>, id: string)
    requires NamedBy(r, id)
    ensures |Matches(before + [r] + after, id)| == 1 <==> Matches(before, id) == [] && Matches(after, id) == []
  {
    MatchesAppend(before + [r], after, id);
    MatchesAppend(before, [r], id);
    assert Matches([r], id) == [r];
  }

  lemma {:induction false} OnlyAt(records: seq<Record>, i: nat, id: string)
    requires i < |records| && NamedBy(records[i], id)
    ensures |Matches(records, id)| == 1 <==> forall j :: 0 <= j < |records| && NamedBy(records[j], id) ==> j == i
  {
    var before, after := records[..i], records[i + 1..];
    assert records == before + [records[i]] + after;
    MatchesAround(before, records[i], after, id);
    MatchesNone(before, id);
    MatchesNone(after, id);
    AroundIndex(before, records[i], after, id);
  }

  lemma {:induction false} AroundIndex(before: seq<Record>, r: Record, after: seq<Record>, id: string)
    requires NamedBy(r, id)
    ensures var records := before + [r] + after;
      (forall j :: 0 <= j < |records| && NamedBy(records[j], id) ==> j == |before|) <==>
      (forall j :: 0 <= j < |before| ==> !NamedBy(before[j], id))
          && (forall j :: 0 <= j < |after| ==> !NamedBy(after[j], id))
  {
    var records, n := before + [r] + after, |before|;
    if forall j :: 0 <= j < |records| && NamedBy(records[j], id) ==> j == n {
      forall j | 0 <= j < |before| ensures !NamedBy(before[j], id) { assert records[j] == before[j]; }
      forall j | 0 <= j < |after| ensures !NamedBy(after[j], id) { assert records[n + 1 + j] == after[j]; }
    }
  }

  /** Resolution answers exactly when one source record carries the identifier, and then with it. */
  lemma {:induction false} ResolveMeaning(records: seq<Record>, id: string)
    ensures Resolve(records, id).Some? <==> UniquelyNamed(records, id)
    ensures Resolve(records, id).Some? ==>
      Resolve(records, id).value in records && NamedBy(Resolve(records, id).value, id)
  {
    var matches := Matches(records, id);
    if |matches| == 1 {
      assert matches[0] in matches;
    }
    if i :| 0 <= i < |records| && NamedBy(records[i], id) {
      OnlyAt(records, i, id);
    } else {
      MatchesNone(records, id);
    }
  }

  /** Records that carry no source identifier do not affect resolution. */
  lemma {:induction false} ResolutionIgnoresDerived(records: seq<Record>, derived: seq<Record>, id: string)
    requires forall r <- derived :: !r.payload.Source?()
    ensures Resolve(records + derived, id) == Resolve(records, id)
  {
    MatchesAppend(records, derived, id);
    MatchesNone(derived, id);
  }

  function ResolveAll(records: seq<Record>, refs: seq<string>): (r: seq<Option<Record>>)
    ensures |r| == |refs| && forall i :: 0 <= i < |r| ==> r[i] == Resolve(records, refs[i])
  {
    seq(|refs|, i requires 0 <= i < |refs| => Resolve(records, refs[i]))
  }

  // ---------------------------------------------------------------- points and proposals

  datatype Point = Point(
    check: Invariant, supported: bool, failureRef: string, evidenceIds: seq<string>, limited: bool)

  datatype ProposalType = Workflow | Policy | MemoryChange

  datatype Proposal = Proposal(
    proposalType: ProposalType, operation: string, target: string, evidenceIds: seq<string>, baseDigest: string,
        id: string)

  /** `PROPOSAL_BY_INVARIANT`. */
  function ProposalFor(check: Invariant): (ProposalType, string) {
    match check
    case ParentReferentPresent => (Workflow, "require_present_parent_reference")
    case ParentEdgeNonconflicting => (Workflow, "require_single_asserted_parent_target")
    case MemoryReadNotStale => (Policy, "require_current_memory_version_on_read")
    case TaintedMemoryNotReused => (MemoryChange, "quarantine_exact_memory_version")
  }

  function ProposalFields(p: Proposal, kind: string, disposition: string): Value {
    Obj(map[
      "proposal_version" := Str("phase1c-declarative-2"),
      "proposal_type" := Str(kind),
      "operation" := Str(p.operation),
      "target_ref" := Str(p.target),
      "evidence_record_ids" := Strings(p.evidenceIds),
      "base_projection_digest" := Str(p.baseDigest),
      "expiry" := Str("end_of_saved_task_replay"),
      "reversible" := Bool(true),
      "reverse" := Obj(map["operation" := Str("restore_saved_task_baseline"), "target_ref" := Str(p.target)]),
      "disposition" := Str(disposition),
      "execution_authority" := Str("none")])
  }

  function ProposalJson(p: Proposal): Value {
    match p.proposalType
    case Workflow => ProposalFields(p, "workflow", "declarative_review_only")
    case Policy => ProposalFields(p, "policy", "declarative_review_only")
    case MemoryChange => ProposalFields(p, "memory", "eligible_for_saved_task_comparison")
  }

  /** `_proposal`; the identifier is a digest of everything else. */
  function MakeProposal(h: Runtime, finding: Finding, evidenceIds: seq<string>, baseDigest: string): Proposal {
    var (kind, operation) := ProposalFor(finding.check);
    var bare := Proposal(kind, operation, finding.interventionRef, evidenceIds, baseDigest, "");
    bare.(id := "proposal-" + h.digest(ProposalJson(bare))[..24])
  }

  /** All references resolve, and there is at least one. */
  predicate Supported(records: seq<Record>, finding: Finding) {
    finding.evidenceFor != [] && forall x <- ResolveAll(records, finding.evidenceFor) :: x.Some?
  }

  function Evidence(records: seq<Record>, finding: Finding): (r: seq<Record>)
    requires Supported(records, finding)
    ensures |r| == |finding.evidenceFor| > 0
    ensures forall i :: 0 <= i < |r| ==> Resolve(records, finding.evidenceFor[i]) == Some(r[i])
  {
    var resolved := ResolveAll(records, finding.evidenceFor);
    assert forall i :: 0 <= i < |resolved| ==> resolved[i] in resolved;
    seq(|resolved|, i requires 0 <= i < |resolved| => resolved[i].value)
  }

  function RecordIds(records: seq<Record>): seq<string> {
    seq(|records|, i requires 0 <= i < |records| => records[i].recordId)
  }

  function EvidenceIds(records: seq<Record>, finding: Finding): seq<string> {
    if Supported(records, finding) then RecordIds(Evidence(records, finding)) else []
  }

  function MakePoint(records: seq<Record>, finding: Finding): Point {
    var supported := Supported(records, finding);
    Point(finding.check, supported, if supported then finding.interventionRef else "none",
      EvidenceIds(records, finding), finding.truncated)
  }

  /** What one finding contributes. */
  function PointStep(records: seq<Record>, finding: Finding): seq<Point> {
    if finding.violated then [MakePoint(records, finding)] else []
  }

  function ProposalStep(h: Runtime, records: seq<Record>, finding: Finding, baseDigest: string): seq<Proposal> {
    if finding.violated && Supported(records, finding)
    then [MakeProposal(h, finding, EvidenceIds(records, finding), baseDigest)] else []
  }

  function PointsOf(records: seq<Record>, findings: seq<Finding>): seq<Point> {
    if findings == [] then [] else PointStep(records, findings[0]) + PointsOf(records, findings[1..])
  }

  function ProposalsOf(h: Runtime, records: seq<Record>, findings: seq<Finding>, baseDigest: string): seq<Proposal> {
    if findings == [] then []
    else ProposalStep(h, records, findings[0], baseDigest) + ProposalsOf(h, records, findings[1..], baseDigest)
  }

  /** The entry the last supported memory finding points at; reading it from a record that is
      no memory operation is a `KeyError` in the source. */
  function EntryStep(records: seq<Record>, finding: Finding, entry: Option<Entry>): Result<Option<Entry>> {
    if finding.violated && Supported(records, finding) && ProposalFor(finding.check).0 == MemoryChange then
      var first := Evidence(records, finding)[0];
      if first.payload.MemoryOp? then Ok(Some(first.payload.entry)) else Err(KeyError)
    else Ok(entry)
  }

  function ExpectedEntry(records: seq<Record>, findings: seq<Finding>, entry: Option<Entry>): Result<Option<Entry>> {
    if findings == [] then Ok(entry)
    else
      var next :- EntryStep(records, findings[0], entry);
      ExpectedEntry(records, findings[1..], next)
  }

  // ---------------------------------------------------------------- replay assessment

  datatype NotRunReason = NoHypothesis | EvidenceIncomplete | AlreadyQuarantined | FailedClosed

  datatype ReplayResult = NotRun(reason: NotRunReason) | Compared(comparison: Comparison, reversalRestored: bool)

  datatype Assessment = Assessment(
    completed: bool, inputLabel: bool, notRealOutcome: bool, digestsPresent: bool,
    baseBound: bool, onlyExpectedChange: bool, differs: bool, reversalRestored: bool)
  {
    predicate Passed() {
      completed && inputLabel && notRealOutcome && digestsPresent && baseBound && onlyExpectedChange && differs
          && reversalRestored
    }
  }

  /** `_replay_assessment`; every check of a comparison that was not run fails. */
  function Assess(replay: ReplayResult, expected: Option<Entry>): Assessment {
    match replay
    case NotRun(_) => Assessment(false, false, false, false, false, false, false, false)
    case Compared(c, restored) => Assessment(
      c.mechanism == Replay.MECHANISM, c.evidenceLabel == Replay.EVIDENCE_LABEL, c.outcomeLabel == Replay.OUTCOME_LABEL,
      Replay.HexDigest(c.baselineDigest) && Replay.HexDigest(c.candidateDigest),
      c.baseBound,
      expected.Some? && c.added == [expected.value] && c.removed == [],
      !c.documentsEqual && c.baselineDigest != c.candidateDigest,
      restored)
  }

  // ---------------------------------------------------------------- review decision

  datatype Blocker =
    | NoViolationObserved | EvidenceIncompleteOrAmbiguous | SeveralSupportedPoints | ProposalNotEligible
    | ComparisonFailed

  datatype NextStep =
    | ReviewMemoryCandidate | CollectDiscriminatingEvidence | RepairTraceEvidence
    | ReviewDeclarativeProposal | ReviewFailedComparison | ReviewOutsideInvariants

  datatype Decision = Decision(mayConsider: bool, blockers: seq<Blocker>, nextStep: NextStep)

  function SupportedPoints(points: seq<Point>): (r: seq<Point>)
    ensures forall p :: p in r <==> p in points && p.supported
  {
    if points == [] then []
    else
      assert points == [points[0]] + points[1..];
      (if points[0].supported then [points[0]] else []) + SupportedPoints(points[1..])
  }

  function MemoryProposals(proposals: seq<Proposal>): (r: seq<Proposal>)
    ensures |r| <= |proposals|
    ensures forall p :: p in r <==> p in proposals && p.proposalType == MemoryChange
  {
    if proposals == [] then []
    else
      assert proposals == [proposals[0]] + proposals[1..];
      (if proposals[0].proposalType == MemoryChange then [proposals[0]] else []) + MemoryProposals(proposals[1..])
  }

  function AppendIf(blockers: seq<Blocker>, condition: bool, blocker: Blocker): (r: seq<Blocker>)
    ensures forall x :: x in r <==> x in blockers || (condition && x == blocker)
    ensures r == [] <==> blockers == [] && !condition
  {
    if condition then blockers + [blocker] else blockers
  }

  function Blockers(points: seq<Point>, proposals: seq<Proposal>, passed: bool): seq<Blocker> {
    var supported, memory := |SupportedPoints(points)|, |MemoryProposals(proposals)|;
    var incomplete := exists p :: p in points && (!p.supported || p.limited);
    var none := AppendIf([], points == [], NoViolationObserved);
    var several := AppendIf(AppendIf(none, incomplete, EvidenceIncompleteOrAmbiguous), supported > 1,
      SeveralSupportedPoints);
    AppendIf(AppendIf(several, supported == 1 && memory == 0, ProposalNotEligible),
      supported == 1 && memory == 1 && !passed, ComparisonFailed)
  }

  function Decide(points: seq<Point>, proposals: seq<Proposal>, passed: bool): Decision {
    var blockers := Blockers(points, proposals, passed);
    var mayConsider := blockers == [] && |SupportedPoints(points)| == 1 && |proposals| == 1
        && |MemoryProposals(proposals)| == 1;
    Decision(mayConsider, blockers,
      if mayConsider then ReviewMemoryCandidate
      else if SeveralSupportedPoints in blockers then CollectDiscriminatingEvidence
      else if EvidenceIncompleteOrAmbiguous in blockers then RepairTraceEvidence
      else if ProposalNotEligible in blockers then ReviewDeclarativeProposal
      else if ComparisonFailed in blockers then ReviewFailedComparison
      else ReviewOutsideInvariants)
  }

  // ---------------------------------------------------------------- coherence of the gate

  /** The proposal a supported point stands for. */
  predicate Answers(proposal: Proposal, point: Point) {
    && (proposal.proposalType, proposal.operation) == ProposalFor(point.check)
    && proposal.target == point.failureRef && proposal.evidenceIds == point.evidenceIds
  }

  /** Supported points and proposals correspond one to one, in order. */
  lemma {:induction false} ProposalsAnswerPoints(h: Runtime, records: seq<Record>, findings: seq<Finding>,
      baseDigest: string)
    ensures AnswerAll(ProposalsOf(h, records, findings, baseDigest), SupportedPoints(PointsOf(records, findings)))
  {
    if findings != [] {
      ProposalsAnswerPoints(h, records, findings[1..], baseDigest);
      StepAnswers(h, records, findings[0], baseDigest);
      SupportedAppend(PointStep(records, findings[0]), PointsOf(records, findings[1..]));
    }
  }

  predicate AnswerAll(proposals: seq<Proposal>, points: seq<Point>) {
    |proposals| == |points| && forall i :: 0 <= i < |proposals| ==> Answers(proposals[i], points[i])
  }

  lemma {:induction false} StepAnswers(h: Runtime, records: seq<Record>, finding: Finding, baseDigest: string)
    ensures AnswerAll(ProposalStep(h, records, finding, baseDigest), SupportedPoints(PointStep(records, finding)))
  {}

  lemma {:induction false} SupportedAppend(a: seq<Point>, b: seq<Point>)
    requires |a| <= 1
    ensures SupportedPoints(a + b) == SupportedPoints(a) + SupportedPoints(b)
  {
    assert a == [] ==> a + b == b;
    assert a != [] ==> (a + b)[1..] == b;
  }

  lemma {:induction false} AllSupported(points: seq<Point>)
    requires forall p <- points :: p.supported
    ensures SupportedPoints(points) == points
  {
    if points != [] {
      AllSupported(points[1..]);
    }
  }

  /** Which blocking reasons are given. */
  lemma {:induction false} BlockersMeaning(points: seq<Point>, proposals: seq<Proposal>, passed: bool)
    ensures var blockers := Blockers(points, proposals, passed);
      var supported, memory := |SupportedPoints(points)|, |MemoryProposals(proposals)|;
      && (SeveralSupportedPoints in blockers <==> supported > 1)
      && (EvidenceIncompleteOrAmbiguous in blockers <==> exists p :: p in points && (!p.supported || p.limited))
      && (ProposalNotEligible in blockers <==> supported == 1 && memory == 0)
      && (ComparisonFailed in blockers <==> supported == 1 && memory == 1 && !passed)
  {}

  lemma {:induction false} NoBlockers(points: seq<Point>, proposals: seq<Proposal>, passed: bool)
    ensures var supported, memory := |SupportedPoints(points)|, |MemoryProposals(proposals)|;
      Blockers(points, proposals, passed) == [] <==>
        && points != [] && (forall p <- points :: p.supported && !p.limited) && supported <= 1
        && !(supported == 1 && memory == 0) && !(supported == 1 && memory == 1 && !passed)
  {}


  lemma {:induction false} DecideCoherent(points: seq<Point>, proposals: seq<Proposal>, passed: bool)
    requires |SupportedPoints(points)| == |proposals|
    ensures var d := Decide(points, proposals, passed);
      && (d.mayConsider <==> d.blockers == [])
      && (d.nextStep == ReviewOutsideInvariants <==> points == [])
  {
    BlockersMeaning(points, proposals, passed);
    NoBlockers(points, proposals, passed);
    if forall p <- points :: p.supported {
      AllSupported(points);
    }
  }

  /** When the recommendation is given, read off the points alone: one point, supported and
      not limited, for the memory invariant, and a passed comparison. */
  lemma {:induction false} RecommendationMeaning(points: seq<Point>, proposals: seq<Proposal>, passed: bool)
    requires AnswerAll(proposals, SupportedPoints(points))
    ensures Decide(points, proposals, passed).mayConsider <==>
      |points| == 1 && points[0].supported && !points[0].limited && points[0].check == TaintedMemoryNotReused && passed
  {
    DecideCoherent(points, proposals, passed);
    if forall p <- points :: p.supported {
      AllSupported(points);
    }
    if |proposals| == 1 {
      assert MemoryProposals(proposals) == if proposals[0].proposalType == MemoryChange then proposals else [];
    }
  }

  /** What every outcome says of the points: the recommendation, each of the five next steps of
      an abstention, and the blocking reasons behind it. */
  predicate DecisionFits(points: seq<Point>, passed: bool, d: Decision) {
    var supported := |SupportedPoints(points)|;
    var incomplete := exists p :: p in points && (!p.supported || p.limited);
    var single := |points| == 1 && points[0].supported && !points[0].limited;
    && (d.mayConsider <==> d.blockers == [])
    && (d.mayConsider <==> single && points[0].check == TaintedMemoryNotReused && passed)
    && (d.nextStep == ReviewMemoryCandidate <==> d.mayConsider)
    && (d.nextStep == ReviewOutsideInvariants <==> points == [])
    && (d.nextStep == CollectDiscriminatingEvidence <==> supported > 1)
    && (d.nextStep == RepairTraceEvidence <==> supported <= 1 && incomplete)
    && (d.nextStep == ReviewDeclarativeProposal <==> single && points[0].check != TaintedMemoryNotReused)
    && (d.nextStep == ReviewFailedComparison <==> single && points[0].check == TaintedMemoryNotReused && !passed)
  }

  lemma {:induction false} SinglePoint(points: seq<Point>, proposals: seq<Proposal>)
    requires AnswerAll(proposals, SupportedPoints(points))
    requires |SupportedPoints(points)| == 1 && forall p <- points :: p.supported
    ensures |points| == 1
    ensures |MemoryProposals(proposals)| == if points[0].check == TaintedMemoryNotReused then 1 else 0
  {
    AllSupported(points);
    assert MemoryProposals(proposals) == if proposals[0].proposalType == MemoryChange then proposals else [];
  }

  lemma {:induction false} DecideFits(points: seq<Point>, proposals: seq<Proposal>, passed: bool)
    requires AnswerAll(proposals, SupportedPoints(points))
    ensures DecisionFits(points, passed, Decide(points, proposals, passed))
  {
    DecideCoherent(points, proposals, passed);
    RecommendationMeaning(points, proposals, passed);
    BlockersMeaning(points, proposals, passed);
    if |points| == 1 && points[0].supported {
      AllSupported(points);
    }
    if |SupportedPoints(points)| == 1 && forall p <- points :: p.supported {
      SinglePoint(points, proposals);
    }
  }

  // ---------------------------------------------------------------- the decision

  /** The blocking reasons, in the order in which they are appended. */
  method CollectBlockers(points: seq<Point>, supported: seq<Point>, memory: seq<Proposal>,
      assessment: Assessment, ghost proposals: seq<Proposal>) returns (blockers: seq<Blocker>)
    requires supported == SupportedPoints(points) && memory == MemoryProposals(proposals)
    ensures blockers == Blockers(points, proposals, assessment.Passed())
  {
    var unsupported := exists p :: p in points && !p.supported;
    var incomplete := exists p :: p in points && p.supported && p.limited;
    blockers := [];
    if points == [] {
      blockers := blockers + [NoViolationObserved];
    }
    if unsupported || incomplete {
      blockers := blockers + [EvidenceIncompleteOrAmbiguous];
    }
    if |supported| > 1 {
      blockers := blockers + [SeveralSupportedPoints];
    }
    if |supported| == 1 && memory == [] {
      blockers := blockers + [ProposalNotEligible];
    }
    if |supported| == 1 && |memory| == 1 && !assessment.Passed() {
      blockers := blockers + [ComparisonFailed];
    }
  }

  /** `_review_decision`. */
  method ReviewDecision(points: seq<Point>, proposals: seq<Proposal>,
      assessment: Assessment) returns (decision: Decision)
    ensures decision == Decide(points, proposals, assessment.Passed())
    ensures AnswerAll(proposals, SupportedPoints(points)) ==> DecisionFits(points, assessment.Passed(), decision)
  {
    var supported := SupportedPoints(points);
    var memory := MemoryProposals(proposals);
    var blockers := CollectBlockers(points, supported, memory, assessment, proposals);
    var mayConsider := blockers == [] && |supported| == 1 && |proposals| == 1 && |memory| == 1;
    var nextStep;
    if mayConsider {
      nextStep := ReviewMemoryCandidate;
    } else if SeveralSupportedPoints in blockers {
      nextStep := CollectDiscriminatingEvidence;
    } else if EvidenceIncompleteOrAmbiguous in blockers {
      nextStep := RepairTraceEvidence;
    } else if ProposalNotEligible in blockers {
      nextStep := ReviewDeclarativeProposal;
    } else if ComparisonFailed in blockers {
      nextStep := ReviewFailedComparison;
    } else {
      nextStep := ReviewOutsideInvariants;
    }
    decision := Decision(mayConsider, blockers, nextStep);
    if AnswerAll(proposals, SupportedPoints(points)) {
      DecideFits(points, proposals, assessment.Passed());
    }
  }

  // ---------------------------------------------------------------- the diagnostic

  datatype Document = Document(points: seq<Point>, proposals: seq<Proposal>, assessment: Assessment, decision: Decision)

  /** The diagnostic before its wording check. */
  function Drafted(h: Runtime, records: seq<Record>, findings: seq<Finding>, replay: ReplayResult,
      baseDigest: string): Result<Document> {
    var expected :- ExpectedEntry(records, findings, None);
    Ok(DocumentOf(PointsOf(records, findings), ProposalsOf(h, records, findings, baseDigest), Assess(replay, expected)))
  }

  function DocumentOf(points: seq<Point>, proposals: seq<Proposal>, assessment: Assessment): Document {
    Document(points, proposals, assessment, Decide(points, proposals, assessment.Passed()))
  }

  /** The identifiers the diagnostic renders. */
  function DocumentNames(d: Document): set<string> {
    (set p | p in d.points :: p.failureRef) + (set p, id | p in d.points && id in p.evidenceIds :: id)
    + (set p | p in d.proposals :: p.target) + (set p, id | p in d.proposals && id in p.evidenceIds :: id)
  }

  function DocumentFor(h: Runtime, records: seq<Record>, findings: seq<Finding>, replay: ReplayResult,
      baseDigest: string): Result<Document> {
    var document :- Drafted(h, records, findings, replay, baseDigest);
    if AnyWorded(DocumentNames(document)) then Err(BannedLanguage) else Ok(document)
  }

  /** The loop of `build_diagnostic`. */
  method CollectPoints(h: Runtime, records: seq<Record>, findings: seq<Finding>, baseDigest: string)
    returns (points: seq<Point>, proposals: seq<Proposal>, expectedEntry: Result<Option<Entry>>)
    ensures expectedEntry == ExpectedEntry(records, findings, None)
    ensures expectedEntry.Ok? ==> points == PointsOf(records, findings)
    ensures expectedEntry.Ok? ==> proposals == ProposalsOf(h, records, findings, baseDigest)
  {
    points, proposals, expectedEntry := [], [], Ok(None);
    for i := 0 to |findings|
      invariant expectedEntry.Ok?
      invariant points == PointsOf(records, findings[..i])
      invariant proposals == ProposalsOf(h, records, findings[..i], baseDigest)
      invariant ExpectedEntry(records, findings[i..], expectedEntry.value) == ExpectedEntry(records, findings, None)
    {
      var finding := findings[i];
      ghost var entry := expectedEntry.value;
      CollectStep(h, records, findings, i, baseDigest);
      assert findings[i..][0] == finding && findings[i..][1..] == findings[i + 1..];
      if finding.violated {
        points := points + [MakePoint(records, finding)];
        if Supported(records, finding) {
          var proposal := MakeProposal(h, finding, EvidenceIds(records, finding), baseDigest);
          proposals := proposals + [proposal];
          if proposal.proposalType == MemoryChange {
            var first := Evidence(records, finding)[0];
            if !first.payload.MemoryOp? {
              return points, proposals, Err(KeyError);
            }
            expectedEntry := Ok(Some(first.payload.entry));
          }
        }
      }
      assert EntryStep(records, finding, entry) == expectedEntry;
    }
    assert findings[..|findings|] == findings;
  }

  lemma {:induction false} CollectStep(h: Runtime, records: seq<Record>, findings: seq<Finding>, i: nat,
      baseDigest: string)
    requires i < |findings|
    ensures PointsOf(records, findings[..i + 1]) == PointsOf(records, findings[..i]) + PointStep(records, findings[i])
    ensures ProposalsOf(h, records, findings[..i + 1], baseDigest)
         == ProposalsOf(h, records, findings[..i], baseDigest) + ProposalStep(h, records, findings[i], baseDigest)
  {
    assert findings[..i + 1] == findings[..i] + [findings[i]];
    PointsAppend(records, findings[..i], findings[i]);
    ProposalsAppend(h, records, findings[..i], findings[i], baseDigest);
  }

  lemma {:induction false} PointsAppend(records: seq<Record>, findings: seq<Finding>, last: Finding)
    ensures PointsOf(records, findings + [last]) == PointsOf(records, findings) + PointStep(records, last)
  {
    if findings == [] {
      PointsCons(records, findings + [last], last, []);
    } else {
      var first, rest := findings[0], findings[1..];
      PointsAppend(records, rest, last);
      PointsCons(records, findings, first, rest);
      PointsCons(records, findings + [last], first, rest + [last]);
      Associates(PointStep(records, first), PointsOf(records, rest), PointStep(records, last));
    }
  }

  lemma {:induction false} PointsCons(records: seq<Record>, findings: seq<Finding>, first: Finding,
      rest: seq<Finding>)
    requires findings == [first] + rest
    ensures PointsOf(records, findings) == PointStep(records, first) + PointsOf(records, rest)
  {
    assert findings[1..] == rest;
  }

  lemma {:induction false} ProposalsAppend(h: Runtime, records: seq<Record>, findings: seq<Finding>, last: Finding,
      baseDigest: string)
    ensures ProposalsOf(h, records, findings + [last], baseDigest)
         == ProposalsOf(h, records, findings, baseDigest) + ProposalStep(h, records, last, baseDigest)
  {
    if findings == [] {
      ProposalsCons(h, records, findings + [last], last, [], baseDigest);
    } else {
      var first, rest := findings[0], findings[1..];
      ProposalsAppend(h, records, rest, last, baseDigest);
      ProposalsCons(h, records, findings, first, rest, baseDigest);
      ProposalsCons(h, records, findings + [last], first, rest + [last], baseDigest);
      Associates(ProposalStep(h, records, first, baseDigest), ProposalsOf(h, records, rest, baseDigest),
        ProposalStep(h, records, last, baseDigest));
    }
  }

  lemma {:induction false} ProposalsCons(h: Runtime, records: seq<Record>, findings: seq<Finding>, first: Finding,
      rest: seq<Finding>, baseDigest: string)
    requires findings == [first] + rest
    ensures ProposalsOf(h, records, findings, baseDigest)
         == ProposalStep(h, records, first, baseDigest) + ProposalsOf(h, records, rest, baseDigest)
  {
    assert findings[1..] == rest;
  }

  /** `build_diagnostic`: it raises on a failed read of an entry and on a worded identifier;
      otherwise its proposals answer the supported points and its decision fits the points. */
  method BuildDiagnostic(h: Runtime, records: seq<Record>, findings: seq<Finding>, replay: ReplayResult,
      baseDigest: string)
    returns (r: Result<Document>)
    ensures r == DocumentFor(h, records, findings, replay, baseDigest)
    ensures r.Ok? ==>
      && AnswerAll(r.value.proposals, SupportedPoints(r.value.points))
      && DecisionFits(r.value.points, r.value.assessment.Passed(), r.value.decision)
    ensures r.Err? <==>
      || ExpectedEntry(records, findings, None).Err?
      || AnyWorded(DocumentNames(Drafted(h, records, findings, replay, baseDigest).value))
  {
    var points, proposals, expectedEntry := CollectPoints(h, records, findings, baseDigest);
    if expectedEntry.Err? {
      return Err(expectedEntry.error);
    }
    var assessment := Assess(replay, expectedEntry.value);
    var decision := ReviewDecision(points, proposals, assessment);
    ProposalsAnswerPoints(h, records, findings, baseDigest);
    var document := Document(points, proposals, assessment, decision);
    if AnyWorded(DocumentNames(document)) {
      return Err(BannedLanguage);
    }
    return Ok(document);
  }

  /** The gate is coherent: the outcome is the recommendation exactly when nothing blocks
      it, and the last next step is reached exactly when there is no point at all. */
  lemma {:induction false} GateCoherent(h: Runtime, records: seq<Record>, findings: seq<Finding>,
      replay: ReplayResult, baseDigest: string)
    requires DocumentFor(h, records, findings, replay, baseDigest).Ok?
    ensures var d := DocumentFor(h, records, findings, replay, baseDigest).value;
      && (d.decision.mayConsider <==> d.decision.blockers == [])
      && (d.decision.nextStep == ReviewOutsideInvariants <==> d.points == [])
  {
    var d := DocumentFor(h, records, findings, replay, baseDigest).value;
    ProposalsAnswerPoints(h, records, findings, baseDigest);
    DecideCoherent(d.points, d.proposals, d.assessment.Passed());
  }
}
