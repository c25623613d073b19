/** The corpus validator recomputes the patch disposition of a case from its records alone;
    when that agrees with the run itself. */
module Disposition {
  import opened Records
  import opened Ingest
  import opened Analysis
  import opened Documents
  import opened Diagnostic
  import opened Pipeline
  import opened Exactness
  import opened Fixtures
  import opened Json
  import opened Ledger
  import opened Violations
  import opened Wording

  datatype PatchDisposition = NotEmitted | BlockedAlreadyQuarantined | Emitted

  /** The first memory operation with this identifier. */
  function FirstMemoryOp(records: seq<Record>, id: string): Option<Record> {
    if records == [] then None
    else if records[0].payload.MemoryOp? && records[0].payload.sourceId == id then Some(records[0])
    else FirstMemoryOp(records[1..], id)
  }

  /** The recomputation of `validate_manifest`, given the findings of the trace. */
  function Recomputed(trace: seq<Record>, findings: seq<Finding>): Result<PatchDisposition> {
    match Eligible(findings)
    case None => Ok(NotEmitted)
    case Some(e) =>
      if findings[e].evidenceFor == [] then Err(KeyError)
      else
        var target := FirstMemoryOp(trace, findings[e].evidenceFor[0]);
        if target.None? then Err(KeyError)
        else if target.value.payload.MemoryOp?
            && target.value.payload.entry in QuarantinedIn(trace) then Ok(BlockedAlreadyQuarantined)
        else Ok(Emitted)
  }

  /** What the run did about a patch. */
  function Actual(attempt: Attempt): PatchDisposition {
    if attempt.patch.Some? then Emitted
    else if attempt.replay == NotRun(AlreadyQuarantined) then BlockedAlreadyQuarantined
    else NotEmitted
  }

  lemma {:induction false} FirstMemoryOpFound(records: seq<Record>, id: string)
    ensures FirstMemoryOp(records, id).Some? <==>
      exists r :: r in records && r.payload.MemoryOp? && r.payload.sourceId == id
    ensures FirstMemoryOp(records, id).Some? ==>
      var r := FirstMemoryOp(records, id).value; r in records && r.payload.MemoryOp? && r.payload.sourceId == id
  {
    if records != [] {
      assert records == [records[0]] + records[1..];
      FirstMemoryOpFound(records[1..], id);
    }
  }

  /** A reused identifier always names some memory operation, and the target when it is unique. */
  lemma {:induction false} RecomputedTarget(trace: seq<Record>)
    requires Cited(trace) != []
    ensures FirstMemoryOp(trace, Cited(trace)[0]).Some? && FirstMemoryOp(trace, Cited(trace)[0]).value.payload.MemoryOp?
    ensures EvidenceUnique(trace) ==> FirstMemoryOp(trace, Cited(trace)[0]).value.payload.entry == TargetOf(trace)
  {
    var id := Cited(trace)[0];
    var r := ReusedSource(trace, id);
    FirstMemoryOpFound(trace, id);
    if EvidenceUnique(trace) {
      CitedResolve(trace);
      ResolvedIsFirst(trace, id);
    }
  }

  lemma {:induction false} ResolvedIsFirst(trace: seq<Record>, id: string)
    requires Resolve(trace, id).Some? && FirstMemoryOp(trace, id).Some?
    ensures Resolve(trace, id) == FirstMemoryOp(trace, id)
  {
    FirstMemoryOpFound(trace, id);
    var matches := Matches(trace, id);
    assert FirstMemoryOp(trace, id).value in matches && matches[0] in matches;
  }

  /** The replay disposition the validator expects with a patch disposition. */
  function RecomputedReplay(patch: PatchDisposition): bool {
    patch.Emitted?
  }

  /** The patch dispositions agree if and only if nothing is cited or every cited identifier
      names exactly one source record; on ambiguous evidence the run emits nothing while the
      validator still expects a patch or a block. The replay dispositions agree as well if and
      only if, in addition, the comparison of a due patch returned. */
  lemma {:induction false} DispositionsAgree(h: Runtime, trace: seq<Record>, child: Child, attest: string)
    requires Trace(trace) && attest in ATTESTATIONS && RunOf(h, trace, child, attest).Ok?
    ensures Recomputed(trace, Findings(trace)).Ok?
    ensures var attempt := RunOf(h, trace, child, attest).value.attempt;
      var expected := Recomputed(trace, Findings(trace)).value;
      && (expected == Actual(attempt) <==> Cited(trace) == [] || EvidenceUnique(trace))
      && (expected == Actual(attempt) && RecomputedReplay(expected) == attempt.replay.Compared? <==>
            && (Cited(trace) == [] || EvidenceUnique(trace))
            && (PatchDue(trace) ==> ComparisonReturned(h, trace, child)))
  {
    RunShape(h, trace, child, attest);
    RecomputedShape(trace);
    var attempt := RunOf(h, trace, child, attest).value.attempt;
    ActualShape(h, trace, child, attempt);
    ReplayShape(h, trace, child);
  }

  lemma {:induction false} ReplayShape(h: Runtime, trace: seq<Record>, child: Child)
    ensures ReplayOf(h, trace, child).Compared? <==> PatchDue(trace) && ComparisonReturned(h, trace, child)
  {}

  lemma {:induction false} RecomputedShape(trace: seq<Record>)
    ensures Recomputed(trace, Findings(trace)) == Ok(
      if Cited(trace) == [] then NotEmitted
      else if FirstMemoryOp(trace, Cited(trace)[0]).Some?
          && FirstMemoryOp(trace, Cited(trace)[0]).value.payload.MemoryOp?
              && FirstMemoryOp(trace, Cited(trace)[0]).value.payload.entry in QuarantinedIn(trace)
                  then BlockedAlreadyQuarantined
      else Emitted)
    ensures Cited(trace) != [] && EvidenceUnique(trace) ==>
      Recomputed(trace, Findings(trace))
          == Ok(if TargetOf(trace) in QuarantinedIn(trace) then BlockedAlreadyQuarantined else Emitted)
  {
    TraceFindings(trace);
    if Cited(trace) != [] {
      RecomputedTarget(trace);
    }
  }

  lemma {:induction false} ActualShape(h: Runtime, trace: seq<Record>, child: Child, attempt: Attempt)
    requires attempt.replay == ReplayOf(h, trace, child) && (attempt.patch.Some? <==> PatchDue(trace))
    ensures Actual(attempt) ==
      if Cited(trace) == [] || !EvidenceUnique(trace) then NotEmitted
      else if TargetOf(trace) in QuarantinedIn(trace) then BlockedAlreadyQuarantined
      else Emitted
  {}

  // ---------------------------------------------------------------- a fixture on which they differ

  function Operation(id: string, action: Action, state: MemoryState): Payload {
    MemoryOp(Internal, id, action, Entry("n", "i", "v"), state, "e", map[])
  }

  const BEGINNING: Payload := RunStart(Internal, "f", "e", 0)

  /** The fixture of a tainted write and a read with the given identifiers. */
  function WriteAndRead(write: string, read: string): Value
    requires IsIdentifier(write) && IsIdentifier(read)
  {
    OperationsPlain(write, read);
    FixtureOf("r", BEGINNING, Sources([Operation(write, Write, Tainted), Operation(read, Action.Read, Clean)]))
  }

  lemma {:induction false} OperationPlain(id: string, action: Action, state: MemoryState)
    requires IsIdentifier(id)
    ensures Plain(Operation(id, action, state))
  {}

  lemma {:induction false} OperationsPlain(write: string, read: string)
    requires IsIdentifier(write) && IsIdentifier(read)
    ensures forall p <- [Operation(write, Write, Tainted), Operation(read, Action.Read, Clean)] :: Plain(p)
  {
    OperationPlain(write, Write, Tainted);
    OperationPlain(read, Action.Read, Clean);
  }

  /** Its three records. */
  lemma {:induction false} WriteAndReadIngests(h: Runtime, write: string, read: string)
    returns (document: Value, start: Record, w: Record, r: Record)
    requires IsIdentifier(write) && IsIdentifier(read)
    ensures document == WriteAndRead(write, read)
    ensures Ingested(h, document) == Ok([start, w, r])
    ensures Trace([start, w, r]) && start.runId == "r" && start.payload == BEGINNING
    ensures w.payload == Operation(write, Write, Tainted) && r.payload == Operation(read, Action.Read, Clean)
    ensures w.sequence < r.sequence
  {
    var payloads := [Operation(write, Write, Tainted), Operation(read, Action.Read, Clean)];
    OperationsPlain(write, read);
    BothInternal(payloads);
    EveryTraceIsIngested(h, "r", BEGINNING, payloads);
    var all := [BEGINNING] + payloads;
    var trace := AppendAll(h, [], "r", all);
    document := WriteAndRead(write, read);
    IngestedIsTrace(h, document);
    start, w, r := ThreeOf(trace, all);
  }

  lemma {:induction false} BothInternal(payloads: seq<Payload>)
    requires |payloads| == 2 && payloads[0].cls == Internal && payloads[1].cls == Internal
    ensures Strictest(payloads, Internal) == Internal
  {
    assert payloads[1..] == [payloads[1]];
  }

  lemma {:induction false} ThreeOf(trace: seq<Record>, payloads: seq<Payload>) returns (start: Record, w: Record,
      r: Record)
    requires |payloads| == 3 && Extension([], payloads, "r", trace)
    ensures trace == [start, w, r] && start.runId == "r"
    ensures start.payload == payloads[0] && w.payload == payloads[1] && r.payload == payloads[2]
    ensures w.sequence < r.sequence
  {
    start, w, r := trace[0], trace[1], trace[2];
    assert payloads[0] == payloads[0] && payloads[1] == payloads[1] && payloads[2] == payloads[2];
  }

  /** A fixture whose write and read share one identifier is ingested, its run concludes, and
      the two patch dispositions differ. */
  lemma {:induction false} DispositionsCanDiffer(h: Runtime, id: string, child: Child, attest: string)
    returns (document: Value, trace: seq<Record>)
    requires IsIdentifier(id) && |id| <= 5 && attest in ATTESTATIONS
    ensures document == WriteAndRead(id, id) && Ingested(h, document) == Ok(trace) && Trace(trace)
    ensures var r := RunOf(h, trace, child, attest);
      r.Ok? && Recomputed(trace, Findings(trace)) != Ok(Actual(r.value.attempt))
  {
    var start, w, r;
    document, start, w, r := WriteAndReadIngests(h, id, id);
    trace := [start, w, r];
    SharedNameDiffers(h, start, w, r, child, attest);
  }

  lemma {:induction false} SharedNameDiffers(h: Runtime, start: Record, w: Record, r: Record, child: Child,
      attest: string)
    requires Trace([start, w, r]) && attest in ATTESTATIONS && start.payload.RunStart? && |start.runId| <= 5
    requires SmallOperation(w.payload) && SmallOperation(r.payload) && w.sequence < r.sequence
    requires w.payload.action == Write && w.payload.state == Tainted && r.payload.action == Action.Read
    requires w.payload.entry == r.payload.entry && w.payload.sourceId == r.payload.sourceId
    ensures var trace := [start, w, r];
      var run := RunOf(h, trace, child, attest);
      run.Ok? && Recomputed(trace, Findings(trace)) != Ok(Actual(run.value.attempt))
  {
    AmbiguousEvidence(start, w, r);
    SmallRunConcludes(h, start, w, r, child, attest);
    DispositionsAgree(h, [start, w, r], child, attest);
  }

  lemma {:induction false} AmbiguousEvidence(start: Record, w: Record, r: Record)
    requires start.payload.RunStart? && w.payload.MemoryOp? && r.payload.MemoryOp? && w.sequence < r.sequence
    requires w.payload.action == Write && w.payload.state == Tainted && r.payload.action == Action.Read
    requires w.payload.entry == r.payload.entry && w.payload.sourceId == r.payload.sourceId
    ensures Cited([start, w, r]) != [] && !EvidenceUnique([start, w, r])
  {
    var trace, id := [start, w, r], r.payload.sourceId;
    TwoOperations(start, w, r);
    assert NamedBy(trace[1], id) && NamedBy(trace[2], id);
    assert id in Cited(trace);
  }

  /** No identifier of such a trace is long enough to be worded. */
  lemma {:induction false} SmallRunConcludes(h: Runtime, start: Record, w: Record, r: Record, child: Child,
      attest: string)
    requires Trace([start, w, r]) && attest in ATTESTATIONS && start.payload.RunStart? && |start.runId| <= 5
    requires SmallOperation(w.payload) && SmallOperation(r.payload) && !ChildBreaks(h, [start, w, r], child)
    ensures RunOf(h, [start, w, r], child, attest).Ok?
  {
    SmallTraceUnworded(start, w, r);
    UnwordedTraceConcludes(h, [start, w, r], child, attest);
  }

  lemma {:induction false} SmallTraceUnworded(start: Record, w: Record, r: Record)
    requires start.payload.RunStart? && |start.runId| <= 5 && SmallOperation(w.payload) && SmallOperation(r.payload)
    ensures Unworded([start, w, r])
  {
    var trace := [start, w, r];
    ShortNamesAreNotWorded(start.runId);
    forall id | SourceName(trace, id) ensures !Worded(id) {
      assert id == w.payload.sourceId || id == r.payload.sourceId;
      ShortNamesAreNotWorded(id);
    }
    forall e | e in ItemsOf(trace) ensures !Worded(e.namespace) && !Worded(e.item) && !Worded(e.version) {
      ShortNamesAreNotWorded(e.namespace);
      ShortNamesAreNotWorded(e.item);
      ShortNamesAreNotWorded(e.version);
    }
  }

  predicate SmallOperation(p: Payload) {
    && p.MemoryOp? && |p.sourceId| <= 5
    && |p.entry.namespace| <= 5 && |p.entry.item| <= 5 && |p.entry.version| <= 5
  }

  lemma {:induction false} TwoOperations(start: Record, write: Record, read: Record)
    requires start.payload.RunStart? && write.payload.MemoryOp? && read.payload.MemoryOp?
      && write.sequence < read.sequence
    requires write.payload.state == Tainted && write.payload.action != Quarantine && read.payload.action == Action.Read
    requires write.payload.entry == read.payload.entry
    requires write.payload.action != Action.Read
    ensures Cited([start, write, read]) == [read.payload.sourceId]
  {
    TwoOrdered(start, write, read);
    ReusedOfTwo(write.payload, read.payload);
  }

  lemma {:induction false} TwoOrdered(start: Record, write: Record, read: Record)
    requires start.payload.RunStart? && write.payload.MemoryOp? && read.payload.MemoryOp?
      && write.sequence < read.sequence
    ensures InOrder([start, write, read]) == [write.payload, read.payload]
  {
    OpsOfThree(start, write, read);
    SortedAlready([write, read]);
    assert Payloads([write, read]) == [write.payload, read.payload];
  }

  lemma {:induction false} OpsOfThree(start: Record, write: Record, read: Record)
    requires start.payload.RunStart? && write.payload.MemoryOp? && read.payload.MemoryOp?
    ensures MemoryOps([start, write, read]) == [write, read]
  {
    assert [start, write, read] == [start] + [write, read];
    assert [write, read] == [write] + [read] && [read] == [read] + [];
    MemoryOpsCons(start, [write, read]);
    MemoryOpsCons(write, [read]);
    MemoryOpsCons(read, []);
  }

  lemma {:induction false} ReusedOfTwo(write: MemoryPayload, read: MemoryPayload)
    requires write.state == Tainted && write.action != Quarantine && write.action != Action.Read
    requires read.action == Action.Read && write.entry == read.entry
    ensures Reused([write, read]) == [read.sourceId]
  {
    var none: seq<MemoryPayload> := [];
    assert none + [write] == [write] && [write] + [read] == [write, read];
    ReusedSnoc(none, write);
    ReusedSnoc([write], read);
    assert write in [write] && Taints(write, read.entry);
  }
}
