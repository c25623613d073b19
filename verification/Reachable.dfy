/** What the runs on a few small fixtures come to: the recommendation is not out of reach, and
    neither are the two ways in which a run on an accepted trace raises. */
module Reachable {
  import opened Json
  import opened Records
  import opened Ledger
  import opened Ingest
  import opened Lineage
  import opened Documents
  import opened Diagnostic
  import opened Pipeline
  import opened Exactness
  import opened Wording
  import opened Fixtures
  import opened Disposition
  import opened Violations

  /** A run record, a tainted write, and a read of the same version under another identifier. */
  ghost predicate WriteThenRead(start: Record, write: Record, read: Record) {
    && start.payload.RunStart? && write.payload.MemoryOp? && read.payload.MemoryOp?
    && write.payload.action == Write && write.payload.state == Tainted
    && read.payload.action == Action.Read && read.payload.state == Clean
    && write.payload.entry == read.payload.entry && write.payload.sourceId != read.payload.sourceId
    && Trace([start, write, read])
  }

  lemma {:induction false} NoLineage(start: Record, write: Record, read: Record)
    requires start.payload.RunStart? && write.payload.MemoryOp? && read.payload.MemoryOp?
    ensures var trace := [start, write, read];
      EdgesOf(trace) == [] && !ParentMissing(trace) && !ParentsConflict(trace)
  {
    NoEdges([start, write, read]);
    NoParents([start, write, read]);
  }

  lemma {:induction false} OnlyReuse(start: Record, write: Record, read: Record)
    requires WriteThenRead(start, write, read)
    ensures OnlyTaintedReuse([start, write, read]) && Cited([start, write, read]) == [read.payload.sourceId]
  {
    var trace := [start, write, read];
    NoLineage(start, write, read);
    SequencesOfThree(start, write, read);
    TwoOperations(start, write, read);
    NoneStale(start, write, read);
    OnlyCited(trace, read.payload.sourceId);
  }

  lemma {:induction false} NoneStale(start: Record, write: Record, read: Record)
    requires start.payload.RunStart? && write.payload.MemoryOp? && read.payload.MemoryOp?
    requires write.payload.state == Tainted && read.payload.state == Clean
    ensures !StaleRead([start, write, read])
  {}

  lemma {:induction false} SequencesOfThree(start: Record, write: Record, read: Record)
    requires Trace([start, write, read])
    ensures write.sequence < read.sequence
  {
    assert [start, write, read][1] == write && [start, write, read][2] == read;
  }

  lemma {:induction false} OnlyCited(trace: seq<Record>, id: string)
    requires Trace(trace) && Cited(trace) == [id] && !ParentMissing(trace) && !ParentsConflict(trace)
    requires !StaleRead(trace)
    ensures OnlyTaintedReuse(trace)
  {
    CitedMeaning(trace);
  }

  lemma {:induction false} NoParents(trace: seq<Record>)
    requires forall r <- trace :: !r.payload.Edge? && !r.payload.Event?
    ensures !ParentMissing(trace) && !ParentsConflict(trace)
  {}

  lemma {:induction false} NoEdges(records: seq<Record>)
    requires forall r <- records :: !r.payload.Edge?
    ensures EdgesOf(records) == []
  {
    if records != [] {
      NoEdges(records[1..]);
    }
  }

  lemma {:induction false} LastResolves(before: seq<Record>, last: Record, id: string)
    requires NamedBy(last, id) && forall i :: 0 <= i < |before| ==> !NamedBy(before[i], id)
    ensures Resolve(before + [last], id) == Some(last) && UniquelyNamed(before + [last], id)
  {
    MatchesNone(before, id);
    MatchesAppend(before, [last], id);
    assert [last][1..] == [];
    assert Matches([last], id) == [last];
    ResolveMeaning(before + [last], id);
  }

  lemma {:induction false} OneCitedIsDue(trace: seq<Record>, read: Record, id: string)
    requires Cited(trace) == [id] && UniquelyNamed(trace, id) && Resolve(trace, id) == Some(read)
      && read.payload.MemoryOp?
    requires QuarantinedIn(trace) == {}
    ensures EvidenceUnique(trace) && TargetOf(trace) == read.payload.entry && PatchDue(trace)
  {}

  lemma {:induction false} NoQuarantine(trace: seq<Record>)
    requires forall r <- trace :: r.payload.MemoryOp? ==> r.payload.action != Quarantine
    ensures QuarantinedIn(trace) == {}
  {}

  lemma {:induction false} PatchIsDue(start: Record, write: Record, read: Record)
    requires WriteThenRead(start, write, read)
    ensures var trace := [start, write, read];
      EvidenceUnique(trace) && TargetOf(trace) == read.payload.entry && TargetOf(trace) !in QuarantinedIn(trace)
          && PatchDue(trace)
  {
    var trace, id := [start, write, read], read.payload.sourceId;
    OnlyReuse(start, write, read);
    ReadResolves(start, write, read);
    NoQuarantine(trace);
    OneCitedIsDue(trace, read, id);
  }

  lemma {:induction false} ReadResolves(start: Record, write: Record, read: Record)
    requires WriteThenRead(start, write, read)
    ensures Resolve([start, write, read], read.payload.sourceId) == Some(read)
    ensures UniquelyNamed([start, write, read], read.payload.sourceId)
  {
    assert [start, write, read] == [start, write] + [read];
    LastResolves([start, write], read, read.payload.sourceId);
  }

  ghost predicate Answering(child: Child) {
    forall b, c, e :: child(b, c, e).Wrote?
  }

  /** An honest child that answers lets the comparison of a due patch through, unless the two
      documents collide. */
  lemma {:induction false} HonestAnswerReturns(h: Runtime, trace: seq<Record>, child: Child)
    requires Trace(trace) && PatchDue(trace)
    requires Honest(h, child) && Answering(child)
    ensures ComparisonReturned(h, trace, child) <==>
      !Collision(h, ManifestJson(ManifestOf(trace)), ManifestJson(CandidateOf(ManifestOf(trace), TargetOf(trace))))
  {
    var baseline, target := ManifestOf(trace), TargetOf(trace);
    var candidate, base := CandidateOf(baseline, target), h.digest(ManifestJson(baseline));
    DueTransition(h, trace);
    var honest := Replay.CompareDocuments(h, baseline, candidate, base);
    Replay.ReplayedMeaning(h, baseline, candidate, base, child(baseline, candidate, base), honest);
    Replay.ChildAndParentAgree(h, baseline, candidate);
    if ComparisonReturned(h, trace, child) {
      var c := GateFor(h, baseline, target, child).value;
      Replay.ReplayedMeaning(h, baseline, candidate, base, child(baseline, candidate, base), c);
      Replay.AsWrittenInjective(c, honest);
    }
  }

  /** On such a trace, with a child that answers honestly, a run that concludes recommends human
      review unless the two memory documents collide. */
  lemma {:induction false} ReuseIsReviewed(h: Runtime, start: Record, write: Record, read: Record, child: Child,
      attest: string)
    requires WriteThenRead(start, write, read) && attest in ATTESTATIONS
    requires Honest(h, child) && Answering(child)
    requires RunOf(h, [start, write, read], child, attest).Ok?
    ensures var trace := [start, write, read];
      RunOf(h, trace, child, attest).value.diagnostic.decision.mayConsider <==>
        !Collision(h, ManifestJson(ManifestOf(trace)), ManifestJson(CandidateOf(ManifestOf(trace), read.payload.entry)))
  {
    var trace := [start, write, read];
    NoLineage(start, write, read);
    OnlyReuse(start, write, read);
    PatchIsDue(start, write, read);
    HonestAnswerReturns(h, trace, child);
    ReviewExactness(h, trace, child, attest);
  }

  /** The fixtures of a tainted write and a read are ingested to such traces, and their runs do
      recommend review, unless the two memory documents collide. */
  lemma {:induction false} RecommendationIsReached(h: Runtime, w: string, r: string, child: Child, attest: string)
    returns (document: Value, trace: seq<Record>)
    requires IsIdentifier(w) && IsIdentifier(r) && w != r && |w| <= 5 && |r| <= 5
    requires attest in ATTESTATIONS && Honest(h, child) && Answering(child)
    ensures document == WriteAndRead(w, r) && Ingested(h, document) == Ok(trace) && Trace(trace)
    ensures var run, baseline := RunOf(h, trace, child, attest), ManifestOf(trace);
      run.Ok? && (run.value.diagnostic.decision.mayConsider <==>
        !Collision(h, ManifestJson(baseline), ManifestJson(CandidateOf(baseline, Entry("n", "i", "v")))))
  {
    var start, write, read;
    document, start, write, read := WriteAndReadIngests(h, w, r);
    trace := [start, write, read];
    HonestChildFits(h, trace, child);
    SmallRunConcludes(h, start, write, read, child, attest);
    ReuseIsReviewed(h, start, write, read, child, attest);
  }

  // ---------------------------------------------------------------- runs that raise

  lemma {:induction false} NothingCited(trace: seq<Record>)
    requires Trace(trace) && forall r <- trace :: !r.payload.MemoryOp?
    ensures !PatchDue(trace)
  {
    CitedMeaning(trace);
  }

  lemma {:induction false} EmptyFixtureIngests(h: Runtime, runId: string)
    returns (document: Value, trace: seq<Record>)
    requires IsIdentifier(runId)
    ensures document == FixtureOf(runId, BEGINNING, []) && Ingested(h, document) == Ok(trace) && Trace(trace)
    ensures trace[0].runId == runId && forall r <- trace :: !r.payload.MemoryOp?
  {
    EveryTraceIsIngested(h, runId, BEGINNING, []);
    document, trace := FixtureOf(runId, BEGINNING, []), AppendAll(h, [], runId, [BEGINNING] + []);
    IngestedIsTrace(h, document);
    assert trace[0].payload == BEGINNING;
  }

  lemma {:induction false} RunIdRendered(h: Runtime, trace: seq<Record>, child: Child)
    requires trace != [] && Worded(trace[0].runId)
    ensures AnyWorded(RunNames(h, trace, child))
  {
    assert trace[0].runId in RunNames(h, trace, child);
  }

  /** A fixture of no records under a worded run identifier is ingested, and no run on its trace
      concludes. */
  lemma {:induction false} WordedRunRaises(h: Runtime, runId: string, child: Child, attest: string)
    returns (document: Value, trace: seq<Record>)
    requires IsIdentifier(runId) && Worded(runId) && attest in ATTESTATIONS
    ensures document == FixtureOf(runId, BEGINNING, []) && Ingested(h, document) == Ok(trace) && Trace(trace)
    ensures RunOf(h, trace, child, attest) == Err(BannedLanguage)
  {
    document, trace := EmptyFixtureIngests(h, runId);
    NothingCited(trace);
    RunIdRendered(h, trace, child);
    ReviewExactness(h, trace, child, attest);
  }

  lemma {:induction false} BecauseIsWorded()
    ensures IsIdentifier("because") && Worded("because")
  {
    assert Lower("because") == "because";
    assert OccursAt(Lower("because"), "because", 0);
  }

  /** An input on which a run raises whatever its child answers. */
  lemma {:induction false} BecauseRaises(h: Runtime, child: Child, attest: string)
    returns (document: Value, trace: seq<Record>)
    requires attest in ATTESTATIONS
    ensures document == FixtureOf("because", BEGINNING, []) && Ingested(h, document) == Ok(trace) && Trace(trace)
    ensures RunOf(h, trace, child, attest) == Err(BannedLanguage)
  {
    BecauseIsWorded();
    document, trace := WordedRunRaises(h, "because", child, attest);
  }

  /** A well-labelled result whose first added entry has a namespace with a lone surrogate. */
  function SurrogateResult(): Replay.Written {
    var zeros := seq(64, _ => '0');
    Replay.Written(Replay.MECHANISM, Replay.EVIDENCE_LABEL, Replay.OUTCOME_LABEL, zeros, zeros, true,
      [Replay.Fields(Replay.LoneSurrogate, Replay.Text("i"), Replay.Text("v"))], [], [], false)
  }

  lemma {:induction false} SurrogateTrips()
    ensures Replay.TripsParent(SurrogateResult())
  {
    assert Replay.TripsAfter(SurrogateResult().added, {}, []);
  }

  /** Whatever it is sent, the child writes this result. */
  ghost predicate AlwaysWrites(child: Child, answer: Replay.Written) {
    forall b, c, e :: child(b, c, e) == Replay.Wrote(answer)
  }

  lemma {:induction false} TrippingAnswerBreaks(h: Runtime, trace: seq<Record>, child: Child, answer: Replay.Written)
    requires PatchDue(trace) && Replay.TripsParent(answer) && AlwaysWrites(child, answer)
    ensures ChildBreaks(h, trace, child) && BreakingFault(h, trace, child) == UnicodeEncodeError
  {
    assert AnswerTo(h, trace, child) == Replay.Wrote(answer);
  }

  /** An input on which a run raises when its child writes that result. */
  lemma {:induction false} SurrogateRaises(h: Runtime, w: string, r: string, child: Child, attest: string)
    returns (document: Value, trace: seq<Record>)
    requires IsIdentifier(w) && IsIdentifier(r) && w != r && attest in ATTESTATIONS
    requires AlwaysWrites(child, SurrogateResult())
    ensures document == WriteAndRead(w, r) && Ingested(h, document) == Ok(trace) && Trace(trace)
    ensures RunOf(h, trace, child, attest) == Err(UnicodeEncodeError)
  {
    var start, write, read;
    document, start, write, read := WriteAndReadIngests(h, w, r);
    trace := [start, write, read];
    PatchIsDue(start, write, read);
    SurrogateTrips();
    TrippingAnswerBreaks(h, trace, child, SurrogateResult());
    ReviewExactness(h, trace, child, attest);
  }
}
