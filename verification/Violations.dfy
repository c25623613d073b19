/** The evaluation of a trace, and what its four findings say of the records alone. */
module Violations {
  import opened Orders
  import opened Records
  import opened Ingest
  import opened Lineage
  import opened Analysis

  // ---------------------------------------------------------------- the statements

  ghost predicate HasEdge(trace: seq<Record>, e: Payload) {
    e.Edge? && exists r :: r in trace && r.payload == e
  }

  /** A parent edge with an endpoint that names no source record. */
  ghost predicate DanglingEdge(trace: seq<Record>, e: Payload) {
    e.Edge? && e.edgeKind == Parent && (!NamesSource(trace, e.from) || !NamesSource(trace, e.to))
  }

  /** A parent edge that some parent edge of the trace contradicts. */
  ghost predicate ContradictedEdge(trace: seq<Record>, e: Payload) {
    e.Edge? && e.edgeKind == Parent
    && exists g :: HasEdge(trace, g) && g.edgeKind == Parent && g.from == e.from && g.to != e.to
  }

  ghost predicate DanglingClaim(trace: seq<Record>) {
    exists child, parent :: ParentClaim(trace, child, parent) && !NamesSource(trace, parent)
  }

  /** Some parent edge or parent-array entry refers to what is no source record. */
  ghost predicate ParentMissing(trace: seq<Record>) {
    (exists e :: HasEdge(trace, e) && DanglingEdge(trace, e)) || DanglingClaim(trace)
  }

  /** Two parent edges give one source different parents. */
  ghost predicate ParentsConflict(trace: seq<Record>) {
    exists e :: HasEdge(trace, e) && ContradictedEdge(trace, e)
  }

  ghost predicate StaleRead(trace: seq<Record>) {
    exists r :: r in trace && r.payload.MemoryOp? && r.payload.action == Action.Read && r.payload.state == Stale
  }

  ghost predicate TaintedBefore(trace: seq<Record>, j: nat, e: Entry) {
    exists i :: 0 <= i < j <= |trace| && trace[i].payload.MemoryOp? && Taints(trace[i].payload, e)
  }

  ghost predicate QuarantinedBefore(trace: seq<Record>, j: nat, e: Entry) {
    exists i :: 0 <= i < j <= |trace| && trace[i].payload.MemoryOp? && Quarantines(trace[i].payload, e)
  }

  /** Record `j` reads a memory version that an earlier operation tainted and none quarantined. */
  ghost predicate ReuseAt(trace: seq<Record>, j: nat) {
    && j < |trace| && trace[j].payload.MemoryOp? && trace[j].payload.action == Action.Read
    && TaintedBefore(trace, j, trace[j].payload.entry) && !QuarantinedBefore(trace, j, trace[j].payload.entry)
  }

  ghost predicate TaintedReuse(trace: seq<Record>) {
    exists j: nat :: ReuseAt(trace, j)
  }

  /** The identifiers of the reusing records, in trace order. */
  ghost function ReuseIds(trace: seq<Record>, n: nat): seq<string>
    requires n <= |trace|
  {
    if n == 0 then []
    else ReuseIds(trace, n - 1) + if ReuseAt(trace, n - 1) then [trace[n - 1].payload.sourceId] else []
  }

  // ---------------------------------------------------------------- lineage findings

  lemma {:induction false} EdgesOfMembers(records: seq<Record>)
    ensures forall e: Payload :: e in EdgesOf(records) <==> HasEdge(records, e)
  {
    if records != [] {
      EdgesOfMembers(records[1..]);
      assert records == [records[0]] + records[1..];
      forall e: Payload ensures e in EdgesOf(records) <==> HasEdge(records, e) {
        assert HasEdge(records, e) <==> (e.Edge? && records[0].payload == e) || HasEdge(records[1..], e);
      }
    }
  }

  /** The edges the lineage shows. */
  function Shown(records: seq<Record>): (r: seq<EdgePayload>)
    ensures |EdgesOf(records)| <= LINEAGE_LIMIT ==> r == EdgesOf(records)
  {
    EdgesOf(records)[..Min(|EdgesOf(records)|, LINEAGE_LIMIT)]
  }

  /** Where the dangling ones of the given edges start. */
  ghost function DanglingStarts(records: seq<Record>, edges: seq<EdgePayload>): seq<string> {
    if edges == [] then []
    else (if DanglingEdge(records, edges[0]) then [edges[0].from] else []) + DanglingStarts(records, edges[1..])
  }

  /** Where the contradicted ones of the given edges start. */
  ghost function ContradictedStarts(records: seq<Record>, edges: seq<EdgePayload>): seq<string> {
    if edges == [] then []
    else
      (if ContradictedEdge(records, edges[0]) then [edges[0].from] else []) + ContradictedStarts(records, edges[1..])
  }

  /** The child, once for each of the parents that names no source record. */
  ghost function Orphaned(records: seq<Record>, child: string, parents: seq<string>): seq<string> {
    if parents == [] then []
    else (if NamesSource(records, parents[0]) then [] else [child]) + Orphaned(records, child, parents[1..])
  }

  /** The children of the dangling claims of the given records. */
  ghost function DanglingChildren(records: seq<Record>, part: seq<Record>): seq<string> {
    if part == [] then []
    else
      var p := part[0].payload;
      (if p.Event? then Orphaned(records, p.sourceId, p.parents) else []) + DanglingChildren(records, part[1..])
  }

  /** What the first finding refers to: the starts of the dangling edges shown, then the
      children of the dangling claims. */
  ghost function MissingIds(records: seq<Record>): seq<string> {
    DanglingStarts(records, Shown(records)) + DanglingChildren(records, records)
  }

  /** What the second finding refers to: the starts of the contradicted edges shown. */
  ghost function ConflictingIds(records: seq<Record>): seq<string> {
    ContradictedStarts(records, Shown(records))
  }

  lemma {:induction false} FlaggedAppend(a: seq<LineageEntry>, b: seq<LineageEntry>, state: LinkState)
    ensures Flagged(a + b, state) == Flagged(a, state) + Flagged(b, state)
  {
    if a == [] {
      assert a + b == b;
    } else {
      assert (a + b)[1..] == a[1..] + b;
      FlaggedAppend(a[1..], b, state);
    }
  }

  lemma {:induction false} EdgeFlagged(records: seq<Record>, e: EdgePayload)
    ensures var link := EdgeLink(EdgesOf(records), SourceIds(records), e);
      && link.from == e.from && link.kind == e.edgeKind
      && (e.edgeKind == Parent && Missing in link.states <==> DanglingEdge(records, e))
      && (e.edgeKind == Parent && Conflicting in link.states <==> ContradictedEdge(records, e))
  {
    StatesOfEdge(records, e);
    EdgesOfMembers(records);
  }

  lemma {:induction false} LinksFlagged(records: seq<Record>, part: seq<EdgePayload>, links: seq<LineageEntry>)
    requires |links| == |part|
    requires forall i :: 0 <= i < |part| ==> links[i] == EdgeLink(EdgesOf(records), SourceIds(records), part[i])
    ensures Flagged(links, Missing) == DanglingStarts(records, part)
    ensures Flagged(links, Conflicting) == ContradictedStarts(records, part)
  {
    if part != [] {
      EdgeFlagged(records, part[0]);
      LinksFlagged(records, part[1..], links[1..]);
    }
  }

  lemma {:induction false} ClaimFlagged(records: seq<Record>, child: string, parents: seq<string>)
    ensures Flagged(ParentLinks(SourceIds(records), child, parents), Missing) == Orphaned(records, child, parents)
    ensures Flagged(ParentLinks(SourceIds(records), child, parents), Conflicting) == []
  {
    if parents != [] {
      var ids := SourceIds(records);
      SourceIdsMeaning(records);
      assert {parents[0]} <= ids <==> parents[0] in ids;
      assert ParentLinks(ids, child, parents)[1..] == ParentLinks(ids, child, parents[1..]);
      ClaimFlagged(records, child, parents[1..]);
    }
  }

  lemma {:induction false} ClaimsFlagged(records: seq<Record>, part: seq<Record>)
    ensures Flagged(AllParentLinks(SourceIds(records), part), Missing) == DanglingChildren(records, part)
    ensures Flagged(AllParentLinks(SourceIds(records), part), Conflicting) == []
  {
    if part != [] {
      var ids, rest := SourceIds(records), AllParentLinks(SourceIds(records), part[1..]);
      ClaimsFlagged(records, part[1..]);
      if part[0].payload.Event? {
        var links := ParentLinks(ids, part[0].payload.sourceId, part[0].payload.parents);
        ClaimFlagged(records, part[0].payload.sourceId, part[0].payload.parents);
        FlaggedAppend(links, rest, Missing);
        FlaggedAppend(links, rest, Conflicting);
      } else {
        assert [] + rest == rest;
      }
    }
  }

  /** The references of the lineage findings, in the order in which the lineage gives them. */
  lemma {:induction false} FlaggedMeaning(records: seq<Record>)
    ensures Flagged(LineageOf(records, LINEAGE_LIMIT), Missing) == MissingIds(records)
    ensures Flagged(LineageOf(records, LINEAGE_LIMIT), Conflicting) == ConflictingIds(records)
  {
    var edges, ids := EdgesOf(records), SourceIds(records);
    var links := EdgeLinks(edges, ids, Min(|edges|, LINEAGE_LIMIT));
    var claims := AllParentLinks(ids, records);
    var cut := if |edges| > LINEAGE_LIMIT then [Truncation(LINEAGE_LIMIT, |edges|)] else [];
    LinksFlagged(records, Shown(records), links);
    ClaimsFlagged(records, records);
    PartsFlagged(links, claims, cut, Missing);
    PartsFlagged(links, claims, cut, Conflicting);
  }

  lemma {:induction false} PartsFlagged(links: seq<LineageEntry>, claims: seq<LineageEntry>, cut: seq<LineageEntry>,
      state: LinkState)
    requires cut == [] || (|cut| == 1 && cut[0].Truncation?)
    ensures Flagged(links + claims + cut, state) == Flagged(links, state) + Flagged(claims, state)
  {
    FlaggedAppend(links + claims, cut, state);
    FlaggedAppend(links, claims, state);
    assert Flagged(cut, state) == [];
  }

  lemma {:induction false} SomeStart(records: seq<Record>, edges: seq<EdgePayload>)
    ensures DanglingStarts(records, edges) != [] <==> exists e :: e in edges && DanglingEdge(records, e)
    ensures ContradictedStarts(records, edges) != [] <==> exists e :: e in edges && ContradictedEdge(records, e)
  {
    if edges != [] {
      assert edges == [edges[0]] + edges[1..];
      SomeStart(records, edges[1..]);
    }
  }

  lemma {:induction false} SomeOrphan(records: seq<Record>, child: string, parents: seq<string>)
    ensures Orphaned(records, child, parents) != [] <==> exists p :: p in parents && !NamesSource(records, p)
  {
    if parents != [] {
      assert parents == [parents[0]] + parents[1..];
      SomeOrphan(records, child, parents[1..]);
    }
  }

  ghost predicate DanglingClaimIn(records: seq<Record>, part: seq<Record>) {
    exists child, parent :: ParentClaim(part, child, parent) && !NamesSource(records, parent)
  }

  lemma {:induction false} SomeClaim(records: seq<Record>, part: seq<Record>)
    ensures DanglingChildren(records, part) != [] <==> DanglingClaimIn(records, part)
  {
    if part != [] {
      var p, rest := part[0].payload, part[1..];
      SomeClaim(records, rest);
      if p.Event? {
        SomeOrphan(records, p.sourceId, p.parents);
        if parent :| parent in p.parents && !NamesSource(records, parent) {
          ClaimStep(part, p.sourceId, parent);
        }
      }
      if child, parent :| ParentClaim(rest, child, parent) && !NamesSource(records, parent) {
        ClaimStep(part, child, parent);
      }
      if child, parent :| ParentClaim(part, child, parent) && !NamesSource(records, parent) {
        ClaimStep(part, child, parent);
      }
    }
  }

  lemma {:induction false} ClaimStep(part: seq<Record>, child: string, parent: string)
    requires part != []
    ensures var p := part[0].payload;
      ParentClaim(part, child, parent) <==>
        (p.Event? && p.sourceId == child && parent in p.parents) || ParentClaim(part[1..], child, parent)
  {
    assert part == [part[0]] + part[1..];
  }

  /** When the first finding is violated: a shown parent edge dangles, or some parent claim does. */
  lemma {:induction false} MissingMeaning(records: seq<Record>)
    ensures MissingIds(records) != [] <==>
      (exists e :: e in Shown(records) && DanglingEdge(records, e)) || DanglingClaim(records)
  {
    SomeStart(records, Shown(records));
    SomeClaim(records, records);
  }

  // ---------------------------------------------------------------- memory findings

  /** The identifiers of the stale reads, in the order of the records. */
  ghost function StaleIds(records: seq<Record>): seq<string> {
    if records == [] then []
    else
      var p := records[0].payload;
      (if p.MemoryOp? && p.action == Action.Read && p.state == Stale then [p.sourceId] else [])
      + StaleIds(records[1..])
  }

  lemma {:induction false} StaleMeaning(records: seq<Record>)
    ensures StaleReads(MemoryOps(records)) == StaleIds(records)
  {
    if records != [] {
      var ops := MemoryOps(records[1..]);
      StaleMeaning(records[1..]);
      if records[0].payload.MemoryOp? {
        StaleStep(records[0], ops);
      } else {
        assert MemoryOps(records) == ops;
      }
    }
  }

  lemma {:induction false} StaleStep(r: Record, ops: seq<Record>)
    requires r.payload.MemoryOp? && forall x <- ops :: x.payload.MemoryOp?
    ensures StaleReads([r] + ops) ==
      (if r.payload.action == Action.Read && r.payload.state == Stale then [r.payload.sourceId] else [])
          + StaleReads(ops)
  {
    assert ([r] + ops)[1..] == ops;
  }

  lemma {:induction false} SomeStale(records: seq<Record>)
    ensures StaleIds(records) != [] <==> StaleRead(records)
  {
    if records != [] {
      assert records == [records[0]] + records[1..];
      SomeStale(records[1..]);
    }
  }

  /** The memory operations in the order of the records. */
  function Ops(records: seq<Record>): seq<MemoryPayload> {
    Payloads(MemoryOps(records))
  }

  lemma {:induction false} MemoryOpsCons(r: Record, rest: seq<Record>)
    ensures MemoryOps([r] + rest) == (if r.payload.MemoryOp? then [r] else []) + MemoryOps(rest)
  {
    assert ([r] + rest)[1..] == rest;
  }

  lemma {:induction false} MemoryOpsSnoc(a: seq<Record>, r: Record)
    ensures MemoryOps(a + [r]) == MemoryOps(a) + if r.payload.MemoryOp? then [r] else []
  {
    if a == [] {
      assert a + [r] == [r] + [];
      MemoryOpsCons(r, []);
    } else {
      var first, rest := a[0], a[1..];
      assert a == [first] + rest && a + [r] == [first] + (rest + [r]);
      MemoryOpsSnoc(rest, r);
      MemoryOpsCons(first, rest);
      MemoryOpsCons(first, rest + [r]);
      Associates(if first.payload.MemoryOp? then [first] else [], MemoryOps(rest),
        if r.payload.MemoryOp? then [r] else []);
    }
  }

  predicate InSequence(records: seq<Record>) {
    forall i, j :: 0 <= i < j < |records| ==> records[i].sequence < records[j].sequence
  }

  lemma {:induction false} MemoryOpsInSequence(records: seq<Record>)
    requires InSequence(records)
    ensures InSequence(MemoryOps(records))
  {
    if records != [] {
      var rest := MemoryOps(records[1..]);
      MemoryOpsInSequence(records[1..]);
      forall i | 0 <= i < |rest| ensures records[0].sequence < rest[i].sequence {
        assert rest[i] in records[1..];
      }
    }
  }

  lemma {:induction false} SortedAlready(ops: seq<Record>)
    requires InSequence(ops)
    ensures Sort(ops, Earlier) == ops
  {
    EarlierIsWeakOrder();
    SortSorts(ops, Earlier);
    MultisetMembers(Sort(ops, Earlier), ops);
    assert NonDescending(ops, Earlier);
    assert forall x, y :: x in ops && y in ops ==> x == y || Earlier(x, y) || Earlier(y, x);
    SortedIsUnique(Sort(ops, Earlier), ops, Earlier);
  }

  /** On a trace the operations are in the order of the records. */
  lemma {:induction false} TraceIsInOrder(trace: seq<Record>)
    requires Trace(trace)
    ensures InOrder(trace) == Ops(trace)
  {
    MemoryOpsInSequence(trace);
    SortedAlready(MemoryOps(trace));
  }

  lemma {:induction false} ReusesInTrace(trace: seq<Record>, n: nat)
    requires n < |trace| && trace[n].payload.MemoryOp?
    ensures Reuses(Ops(trace[..n]), trace[n].payload) <==> ReuseAt(trace, n)
  {
    forall p: MemoryPayload
      ensures p in Ops(trace[..n]) <==> exists i :: 0 <= i < n && trace[i].payload.MemoryOp? && trace[i].payload == p
    {
      OpsMembers(trace, n, p);
    }
  }

  lemma {:induction false} OpsMembers(trace: seq<Record>, n: nat, p: MemoryPayload)
    requires n <= |trace|
    ensures p in Ops(trace[..n]) <==> exists i :: 0 <= i < n && trace[i].payload.MemoryOp? && trace[i].payload == p
  {
    var before := trace[..n];
    var ops := MemoryOps(before);
    if p in Payloads(ops) {
      var k :| 0 <= k < |ops| && Payloads(ops)[k] == p;
      assert ops[k] in before;
    }
    if i :| 0 <= i < n && trace[i].payload.MemoryOp? && trace[i].payload == p {
      assert before[i] in ops;
      var k :| 0 <= k < |ops| && ops[k] == before[i];
      assert Payloads(ops)[k] == p;
    }
  }

  lemma {:induction false} ReusedPrefix(trace: seq<Record>, n: nat)
    requires n <= |trace|
    ensures Reused(Ops(trace[..n])) == ReuseIds(trace, n)
  {
    if n > 0 {
      ReusedPrefix(trace, n - 1);
      OpsStep(trace, n);
      if trace[n - 1].payload.MemoryOp? {
        ReusesInTrace(trace, n - 1);
      }
      ReuseStep(trace, n, Ops(trace[..n - 1]), Ops(trace[..n]));
    }
  }

  lemma {:induction false} OpsStep(trace: seq<Record>, n: nat)
    requires 0 < n <= |trace|
    ensures var p := trace[n - 1].payload;
      Ops(trace[..n]) == Ops(trace[..n - 1]) + if p.MemoryOp? then [p] else []
  {
    assert trace[..n] == trace[..n - 1] + [trace[n - 1]];
    OpsSnoc(trace[..n - 1], trace[n - 1]);
  }

  lemma {:induction false} OpsSnoc(before: seq<Record>, r: Record)
    ensures Ops(before + [r]) == Ops(before) + if r.payload.MemoryOp? then [r.payload] else []
  {
    MemoryOpsSnoc(before, r);
  }

  lemma {:induction false} ReuseStep(trace: seq<Record>, n: nat, xs: seq<MemoryPayload>, ys: seq<MemoryPayload>)
    requires 0 < n <= |trace|
    requires var p := trace[n - 1].payload;
      && ys == xs + (if p.MemoryOp? then [p] else [])
      && (p.MemoryOp? ==> (Reuses(xs, p) <==> ReuseAt(trace, n - 1)))
    requires Reused(xs) == ReuseIds(trace, n - 1)
    ensures Reused(ys) == ReuseIds(trace, n)
  {
    var p := trace[n - 1].payload;
    if p.MemoryOp? {
      ReusedSnoc(xs, p);
    } else {
      assert ys == xs;
    }
  }

  /** The reuses the analysis reports, in the order it reports them, are those of the trace. */
  lemma {:induction false} ReusedMeaning(trace: seq<Record>)
    requires Trace(trace)
    ensures Reused(InOrder(trace)) == ReuseIds(trace, |trace|)
  {
    TraceIsInOrder(trace);
    ReusedPrefix(trace, |trace|);
    assert trace[..|trace|] == trace;
  }

  lemma {:induction false} SomeReuse(trace: seq<Record>, n: nat)
    requires n <= |trace|
    ensures ReuseIds(trace, n) != [] <==> exists j: nat :: j < n && ReuseAt(trace, j)
  {
    if n > 0 {
      SomeReuse(trace, n - 1);
    }
  }

  // ---------------------------------------------------------------- the findings

  /** The finding refers to these identifiers: it is violated exactly when there are some, points
      at the first and cites the first eight. */
  predicate Cites(f: Finding, ids: seq<string>) {
    && (f.violated <==> ids != []) && f.evidenceFor == First(ids, EVIDENCE_LIMIT)
    && f.interventionRef == if ids == [] then "none" else ids[0]
  }

  /** What the findings say of the records, whatever the number of edges; the last one says it
      of a trace. */
  ghost predicate FindingsSay(records: seq<Record>, f: seq<Finding>) {
    && |f| == 4
    && Cites(f[0], MissingIds(records)) && Cites(f[1], ConflictingIds(records)) && Cites(f[2], StaleIds(records))
    && (f[0].violated <==> (exists e :: e in Shown(records) && DanglingEdge(records, e)) || DanglingClaim(records))
    && (f[1].violated <==> exists e :: e in Shown(records) && ContradictedEdge(records, e))
    && (f[2].violated <==> StaleRead(records))
    && (Trace(records) ==> Cites(f[3], ReuseIds(records, |records|)) && (f[3].violated <==> TaintedReuse(records)))
    && forall x <- f :: x.truncated <==> |EdgesOf(records)| > LINEAGE_LIMIT
  }

  lemma {:induction false} FindingsMeaning(records: seq<Record>)
    ensures FindingsSay(records, Findings(records))
  {
    FlaggedMeaning(records);
    MissingMeaning(records);
    SomeStart(records, Shown(records));
    StaleMeaning(records);
    SomeStale(records);
    if Trace(records) {
      CitedReuses(records);
    }
    ListsCited(MissingIds(records), ConflictingIds(records), StaleIds(records), Reused(InOrder(records)),
      |EdgesOf(records)| > LINEAGE_LIMIT);
  }

  lemma {:induction false} CitedReuses(trace: seq<Record>)
    requires Trace(trace)
    ensures Reused(InOrder(trace)) == ReuseIds(trace, |trace|)
    ensures ReuseIds(trace, |trace|) != [] <==> TaintedReuse(trace)
  {
    ReusedMeaning(trace);
    SomeReuse(trace, |trace|);
  }

  lemma {:induction false} ListsCited(missing: seq<string>, conflicts: seq<string>, stale: seq<string>,
      reused: seq<string>, truncated: bool)
    ensures var f := MakeFindings(missing, conflicts, stale, reused, truncated);
      && Cites(f[0], missing) && Cites(f[1], conflicts) && Cites(f[2], stale) && Cites(f[3], reused)
      && forall x <- f :: x.truncated <==> truncated
  {}

  /** With no edge cut, every edge counts. */
  lemma {:induction false} UncutFindingsMeaning(trace: seq<Record>)
    requires Trace(trace) && |EdgesOf(trace)| <= LINEAGE_LIMIT
    ensures var f := Findings(trace);
      && (f[0].violated <==> ParentMissing(trace)) && (f[1].violated <==> ParentsConflict(trace))
      && (f[2].violated <==> StaleRead(trace)) && (f[3].violated <==> TaintedReuse(trace))
  {
    FindingsMeaning(trace);
    EdgesOfMembers(trace);
  }

  /** `evaluate`. Sorting pairs of sequence number and payload is an error in the source when
      two different operations share a number, so the numbers are distinct. */
  method Evaluate(records: seq<Record>) returns (findings: seq<Finding>)
    requires DistinctSequences(records)
    ensures findings == Findings(records) && FindingsSay(records, findings)
  {
    var lineage := BuildLineage(records, LINEAGE_LIMIT);
    TruncationMark(records);
    var truncated := exists x :: x in lineage && x.Truncation?;
    var memory := MemoryOps(records);
    var reused := ReusedPass(InOrder(records));
    findings := MakeFindings(Flagged(lineage, Missing), Flagged(lineage, Conflicting), StaleReads(memory), reused,
        truncated);
    FindingsMeaning(records);
  }
}
