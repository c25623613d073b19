/** The four invariants over a trace. */
module Analysis {
  import opened Orders
  import opened Records
  import opened Lineage

  const LINEAGE_LIMIT: nat := 16
  const EVIDENCE_LIMIT: nat := 8

  type MemoryPayload = p: Payload | p.MemoryOp?
    witness MemoryOp(Public, "", Action.Read, Entry("", "", ""), Clean, "", map[])

  function MemoryOps(records: seq<Record>): (r: seq<Record>)
    ensures forall x :: x in r <==> x in records && x.payload.MemoryOp?
  {
    if records == [] then []
    else
      assert records == [records[0]] + records[1..];
      (if records[0].payload.MemoryOp? then [records[0]] else []) + MemoryOps(records[1..])
  }

  predicate Earlier(a: Record, b: Record) {
    a.sequence < b.sequence
  }

  function Payloads(ops: seq<Record>): (r: seq<MemoryPayload>)
    requires forall x <- ops :: x.payload.MemoryOp?
    ensures |r| == |ops| && forall i :: 0 <= i < |r| ==> r[i] == ops[i].payload
  {
    seq(|ops|, i requires 0 <= i < |ops| => assert ops[i] in ops; ops[i].payload)
  }

  // ---------------------------------------------------------------- tainted reuse

  predicate Taints(p: MemoryPayload, e: Entry) {
    p.action != Quarantine && p.state == Tainted && p.entry == e
  }

  predicate Quarantines(p: MemoryPayload, e: Entry) {
    p.action == Quarantine && p.entry == e
  }

  /** `op` reads a version that an earlier operation other than a quarantine labelled tainted
      and that no earlier operation quarantined. */
  ghost predicate Reuses(earlier: seq<MemoryPayload>, op: MemoryPayload) {
    && op.action == Action.Read
    && (exists p :: p in earlier && Taints(p, op.entry))
    && !(exists p :: p in earlier && Quarantines(p, op.entry))
  }

  /** The identifiers of the reusing reads, in order. */
  ghost function Reused(ops: seq<MemoryPayload>): seq<string> {
    if ops == [] then []
    else
      var earlier, op := ops[..|ops| - 1], ops[|ops| - 1];
      Reused(earlier) + (if Reuses(earlier, op) then [op.sourceId] else [])
  }

  ghost function TaintedBy(ops: seq<MemoryPayload>): set<Entry> {
    set p | p in ops && Taints(p, p.entry) :: p.entry
  }

  ghost function QuarantinedBy(ops: seq<MemoryPayload>): set<Entry> {
    set p | p in ops && Quarantines(p, p.entry) :: p.entry
  }

  lemma {:induction false} SeenStep(ops: seq<MemoryPayload>, op: MemoryPayload)
    ensures TaintedBy(ops + [op]) == TaintedBy(ops) + if Taints(op, op.entry) then {op.entry} else {}
    ensures QuarantinedBy(ops + [op]) == QuarantinedBy(ops) + if Quarantines(op, op.entry) then {op.entry} else {}
  {}

  lemma {:induction false} ReusesSeen(earlier: seq<MemoryPayload>, op: MemoryPayload)
    ensures Reuses(earlier, op) <==>
      op.action == Action.Read && op.entry in TaintedBy(earlier) && op.entry !in QuarantinedBy(earlier)
  {}

  /** The taint loop of `evaluate`, over the operations in sequence order. */
  method ReusedPass(ops: seq<MemoryPayload>) returns (reused: seq<string>)
    ensures reused == Reused(ops)
  {
    var taintedSeen: set<Entry>, quarantined: set<Entry> := {}, {};
    reused := [];
    for i := 0 to |ops|
      invariant reused == Reused(ops[..i])
      invariant taintedSeen == TaintedBy(ops[..i]) && quarantined == QuarantinedBy(ops[..i])
    {
      var op := ops[i];
      assert ops[..i + 1] == ops[..i] + [op] && ops[..i + 1][..i] == ops[..i];
      SeenStep(ops[..i], op);
      ReusesSeen(ops[..i], op);
      if op.action == Quarantine {
        quarantined := quarantined + {op.entry};
        continue;
      }
      if op.action == Action.Read && op.entry in taintedSeen && op.entry !in quarantined {
        reused := reused + [op.sourceId];
      }
      if op.state == Tainted {
        taintedSeen := taintedSeen + {op.entry};
      }
    }
    assert ops[..|ops|] == ops;
  }

  /** A longer trace only extends the list: later operations neither add nor remove earlier reuses. */
  lemma {:induction false} ReusedIsPrefix(ops: seq<MemoryPayload>, more: seq<MemoryPayload>)
    ensures Reused(ops) <= Reused(ops + more)
  {
    if more == [] {
      assert ops + more == ops;
    } else {
      var init := more[..|more| - 1];
      ReusedIsPrefix(ops, init);
      assert (ops + more)[..|ops + more| - 1] == ops + init;
    }
  }

  function OnEntry(ops: seq<MemoryPayload>, e: Entry): (r: seq<MemoryPayload>)
    ensures forall p :: p in r <==> p in ops && p.entry == e
  {
    if ops == [] then []
    else
      var init, last := ops[..|ops| - 1], ops[|ops| - 1];
      assert ops == init + [last];
      OnEntry(init, e) + (if last.entry == e then [last] else [])
  }

  /** The reuses of one memory version, in order. */
  ghost function ReusedOn(ops: seq<MemoryPayload>, e: Entry): seq<string> {
    if ops == [] then []
    else
      var earlier, op := ops[..|ops| - 1], ops[|ops| - 1];
      ReusedOn(earlier, e) + (if op.entry == e && Reuses(earlier, op) then [op.sourceId] else [])
  }

  lemma {:induction false} ReusedSnoc(earlier: seq<MemoryPayload>, op: MemoryPayload)
    ensures Reused(earlier + [op]) == Reused(earlier) + if Reuses(earlier, op) then [op.sourceId] else []
  {
    assert (earlier + [op])[..|earlier|] == earlier;
  }

  /** Memory versions cannot interfere: the reuses of one version are those found when every
      operation on other versions is removed from the trace. */
  lemma {:induction false} OtherEntriesDoNotInterfere(ops: seq<MemoryPayload>, e: Entry)
    ensures ReusedOn(ops, e) == Reused(OnEntry(ops, e))
  {
    if ops != [] {
      var earlier, op := ops[..|ops| - 1], ops[|ops| - 1];
      OtherEntriesDoNotInterfere(earlier, e);
      if op.entry == e {
        ReusedSnoc(OnEntry(earlier, e), op);
        KeptDecides(earlier, op);
      } else {
        assert OnEntry(ops, e) == OnEntry(earlier, e);
      }
    }
  }

  lemma {:induction false} KeptDecides(earlier: seq<MemoryPayload>, op: MemoryPayload)
    ensures Reuses(earlier, op) <==> Reuses(OnEntry(earlier, op.entry), op)
  {
    var kept := OnEntry(earlier, op.entry);
    assert forall p :: p in earlier && Taints(p, op.entry) <==> p in kept && Taints(p, op.entry);
    assert forall p :: p in earlier && Quarantines(p, op.entry) <==> p in kept && Quarantines(p, op.entry);
  }

  /** Quarantine is permanent: after one, no operation whatever brings back a reuse of that version. */
  lemma {:induction false} QuarantineIsPermanent(ops: seq<MemoryPayload>, more: seq<MemoryPayload>, e: Entry)
    requires exists p :: p in ops && Quarantines(p, e)
    ensures ReusedOn(ops + more, e) == ReusedOn(ops, e)
  {
    if more == [] {
      assert ops + more == ops;
    } else {
      var init, last := more[..|more| - 1], more[|more| - 1];
      QuarantineIsPermanent(ops, init, e);
      assert (ops + more)[..|ops + more| - 1] == ops + init;
      var p :| p in ops && Quarantines(p, e);
      assert p in ops + init;
    }
  }

  /** Every reported identifier belongs to a read of the trace. */
  lemma {:induction false} ReusedIsRead(ops: seq<MemoryPayload>, id: string)
    requires id in Reused(ops)
    ensures exists p :: p in ops && p.action == Action.Read && p.sourceId == id
  {
    var earlier, op := ops[..|ops| - 1], ops[|ops| - 1];
    assert ops == earlier + [op];
    if id in Reused(earlier) {
      ReusedIsRead(earlier, id);
      var p :| p in earlier && p.action == Action.Read && p.sourceId == id;
      assert p in ops;
    } else {
      assert op in ops;
    }
  }

  // ---------------------------------------------------------------- the order of the records

  ghost predicate DistinctSequences(records: seq<Record>) {
    forall i, j :: 0 <= i < j < |records| ==> records[i].sequence != records[j].sequence
  }

  lemma {:induction false} EarlierIsWeakOrder()
    ensures StrictWeak<Record>(Earlier)
  {
    forall x: Record ensures !Earlier(x, x) {}
    forall x: Record, y: Record, z: Record | Earlier(x, y) && Earlier(y, z) ensures Earlier(x, z) {}
    forall x: Record, y: Record, z: Record | !Earlier(x, y) && !Earlier(y, z) ensures !Earlier(x, z) {}
  }

  /** The memory operations by sequence number. */
  function InOrder(records: seq<Record>): seq<MemoryPayload> {
    var ops := MemoryOps(records);
    var sorted := Sort(ops, Earlier);
    MultisetMembers(sorted, ops);
    Payloads(sorted)
  }

  lemma {:induction false} MemoryOpsCount(records: seq<Record>)
    ensures forall x :: multiset(MemoryOps(records))[x] == if x.payload.MemoryOp? then multiset(records)[x] else 0
  {
    if records != [] {
      assert records == [records[0]] + records[1..];
      MemoryOpsCount(records[1..]);
    }
  }

  /** The taint pass sees the operations by sequence number, so with distinct numbers the
      order of the record list is irrelevant. */
  lemma {:induction false} RecordOrderIsIrrelevant(a: seq<Record>, b: seq<Record>)
    requires multiset(a) == multiset(b) && DistinctSequences(a)
    ensures Reused(InOrder(a)) == Reused(InOrder(b))
  {
    MemoryOpsCount(a);
    MemoryOpsCount(b);
    DistinctOps(a);
    SortedOpsAgree(MemoryOps(a), MemoryOps(b));
  }

  lemma {:induction false} DistinctOps(records: seq<Record>)
    requires DistinctSequences(records)
    ensures forall x, y :: x in MemoryOps(records) && y in MemoryOps(records) ==> x == y || x.sequence != y.sequence
  {}

  lemma {:induction false} SortedOpsAgree(x: seq<Record>, y: seq<Record>)
    requires multiset(x) == multiset(y)
    requires forall a, b :: a in x && b in x ==> a == b || a.sequence != b.sequence
    ensures Sort(x, Earlier) == Sort(y, Earlier)
  {
    EarlierIsWeakOrder();
    SortSorts(x, Earlier);
    SortSorts(y, Earlier);
    var u, v := Sort(x, Earlier), Sort(y, Earlier);
    MultisetMembers(u, x);
    SortedIsUnique(u, v, Earlier);
  }

  // ---------------------------------------------------------------- evaluation

  function Flagged(lineage: seq<LineageEntry>, state: LinkState): seq<string> {
    if lineage == [] then []
    else
      (if lineage[0].Link? && lineage[0].kind == Parent && state in lineage[0].states then [lineage[0].from] else [])
      + Flagged(lineage[1..], state)
  }

  function StaleReads(ops: seq<Record>): seq<string>
    requires forall x <- ops :: x.payload.MemoryOp?
  {
    if ops == [] then []
    else
      (if ops[0].payload.action == Action.Read && ops[0].payload.state == Stale then [ops[0].payload.sourceId] else [])
      + StaleReads(ops[1..])
  }

  function First<T>(xs: seq<T>, n: nat): seq<T> {
    if |xs| <= n then xs else xs[..n]
  }

  /** `_finding`. */
  function MakeFinding(check: Invariant, refs: seq<string>, truncated: bool): Finding {
    Finding(check, refs != [], if refs == [] then "none" else refs[0], First(refs, EVIDENCE_LIMIT), truncated)
  }

  function MakeFindings(missing: seq<string>, conflicts: seq<string>, stale: seq<string>, reused: seq<string>,
      truncated: bool)
    : (r: seq<Finding>)
    ensures |r| == 4
  {
    [MakeFinding(ParentReferentPresent, missing, truncated),
     MakeFinding(ParentEdgeNonconflicting, conflicts, truncated),
     MakeFinding(MemoryReadNotStale, stale, truncated),
     MakeFinding(TaintedMemoryNotReused, reused, truncated)]
  }

  lemma {:induction false} FindingsShape(missing: seq<string>, conflicts: seq<string>, stale: seq<string>,
      reused: seq<string>, truncated: bool)
    ensures var r := MakeFindings(missing, conflicts, stale, reused, truncated);
      && r[0].check == ParentReferentPresent && (r[0].violated <==> missing != [])
      && r[1].check == ParentEdgeNonconflicting && (r[1].violated <==> conflicts != [])
      && r[2].check == MemoryReadNotStale && (r[2].violated <==> stale != [])
      && r[3].check == TaintedMemoryNotReused && (r[3].violated <==> reused != [])
      && r[3].evidenceFor == First(reused, EVIDENCE_LIMIT)
      && forall f <- r :: f.truncated == truncated
  {}

  ghost function Findings(records: seq<Record>): (r: seq<Finding>)
    ensures |r| == 4
  {
    var lineage := LineageOf(records, LINEAGE_LIMIT);
    MakeFindings(Flagged(lineage, Missing), Flagged(lineage, Conflicting), StaleReads(MemoryOps(records)),
      Reused(InOrder(records)), |EdgesOf(records)| > LINEAGE_LIMIT)
  }

  lemma {:induction false} TruncationMark(records: seq<Record>)
    ensures (exists x :: x in LineageOf(records, LINEAGE_LIMIT) && x.Truncation?) <==>
      |EdgesOf(records)| > LINEAGE_LIMIT
  {
    var lineage := LineageOf(records, LINEAGE_LIMIT);
    forall x | x in AllParentLinks(SourceIds(records), records) ensures x.Link? {
      ParentClaimsMeaning(records, x);
    }
    if |EdgesOf(records)| > LINEAGE_LIMIT {
      assert lineage[|lineage| - 1].Truncation?;
    }
  }
}
