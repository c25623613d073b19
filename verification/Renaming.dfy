/** The analysis depends on identifiers only through their equality: renaming them one-to-one
    renames its results. */
module Renaming {
  import opened Orders
  import opened Records
  import opened Lineage
  import opened Analysis

  type Rename = string -> string

  function MapEntry(f: Rename, e: Entry): Entry {
    Entry(f(e.namespace), f(e.item), f(e.version))
  }

  /** `q` is `p` with its identifiers renamed; fields the analysis does not read are free. */
  predicate Carries(f: Rename, p: Payload, q: Payload) {
    match p
    case Event(_, id, _, _, _, parents, _) => q.Event? && q.sourceId == f(id) && q.parents == MapSeq(f, parents)
    case Edge(_, id, kind, from, to, asserted, _) =>
      q.Edge? && q.sourceId == f(id) && q.edgeKind == kind && q.from == f(from) && q.to == f(to)
          && q.asserted == asserted
    case MemoryOp(_, id, action, entry, state, _, _) =>
      q.MemoryOp? && q.sourceId == f(id) && q.action == action && q.state == state && q.entry == MapEntry(f, entry)
    case _ => !q.Source?()
  }

  predicate CarriesRecord(f: Rename, a: Record, b: Record) {
    a.sequence == b.sequence && Carries(f, a.payload, b.payload)
  }

  predicate CarriesAll(f: Rename, a: seq<Record>, b: seq<Record>) {
    |a| == |b| && forall i :: 0 <= i < |a| ==> CarriesRecord(f, a[i], b[i])
  }

  lemma {:induction false} CarriesCons(f: Rename, a: Record, b: Record, x: seq<Record>, y: seq<Record>)
    requires CarriesRecord(f, a, b) && CarriesAll(f, x, y)
    ensures CarriesAll(f, [a] + x, [b] + y)
  {}

  function PayloadNames(p: Payload): set<string> {
    match p
    case Event(_, id, _, _, _, parents, _) => {id} + Elements(parents)
    case Edge(_, id, _, from, to, _, _) => {id, from, to}
    case MemoryOp(_, id, _, entry, _, _, _) => {id, entry.namespace, entry.item, entry.version}
    case _ => {}
  }

  /** Every identifier the analysis reads is in `names`. */
  predicate NamedWithin(records: seq<Record>, names: set<string>) {
    forall r <- records :: PayloadNames(r.payload) <= names
  }

  ghost predicate OneToOne(f: Rename, names: set<string>) {
    forall x, y :: x in names && y in names && f(x) == f(y) ==> x == y
  }

  // ---------------------------------------------------------------- lineage

  lemma {:induction false} SourceIdsCarried(f: Rename, a: seq<Record>, b: seq<Record>, names: set<string>, x: string)
    requires CarriesAll(f, a, b) && NamedWithin(a, names) && OneToOne(f, names) && x in names
    ensures f(x) in SourceIds(b) <==> x in SourceIds(a)
  {
    if x in SourceIds(a) {
      var r :| r in a && r.payload.Source?() && r.payload.sourceId == x;
      var i :| 0 <= i < |a| && a[i] == r;
      assert b[i] in b && b[i].payload.sourceId == f(x);
    }
    if f(x) in SourceIds(b) {
      var r :| r in b && r.payload.Source?() && r.payload.sourceId == f(x);
      var i :| 0 <= i < |b| && b[i] == r;
      assert a[i] in a && a[i].payload.sourceId in PayloadNames(a[i].payload);
    }
  }

  predicate EdgesCarried(f: Rename, a: seq<EdgePayload>, b: seq<EdgePayload>) {
    |a| == |b| && forall i :: 0 <= i < |a| ==> Carries(f, a[i], b[i])
  }

  lemma {:induction false} EdgesOfCarried(f: Rename, a: seq<Record>, b: seq<Record>, names: set<string>)
    requires CarriesAll(f, a, b) && NamedWithin(a, names)
    ensures EdgesCarried(f, EdgesOf(a), EdgesOf(b))
    ensures forall e <- EdgesOf(a) :: PayloadNames(e) <= names
  {
    if a != [] {
      assert a == [a[0]] + a[1..];
      EdgesOfCarried(f, a[1..], b[1..], names);
    }
  }

  lemma {:induction false} ContradictionCarried(f: Rename, a: seq<EdgePayload>, b: seq<EdgePayload>,
      names: set<string>, i: nat)
    requires EdgesCarried(f, a, b) && OneToOne(f, names) && i < |a|
    requires forall e <- a :: PayloadNames(e) <= names
    ensures Contradicted(b, b[i]) <==> Contradicted(a, a[i])
  {
    if Contradicted(a, a[i]) {
      var g :| g in a && SameClaim(a[i], g) && g.to != a[i].to;
      var j :| 0 <= j < |a| && a[j] == g;
      assert b[j] in b && SameClaim(b[i], b[j]) && a[i] in a && a[j] in a;
      assert {a[i].to, a[j].to} <= names;
    }
    if Contradicted(b, b[i]) {
      var g :| g in b && SameClaim(b[i], g) && g.to != b[i].to;
      var j :| 0 <= j < |b| && b[j] == g;
      assert a[j] in a && a[i] in a;
      assert SameClaim(a[i], a[j]) && a[j].to != a[i].to;
    }
  }

  function MapLink(f: Rename, x: LineageEntry): LineageEntry {
    match x case Link(from, to, kind, states) => Link(f(from), f(to), kind, states) case Truncation(_, _) => x
  }

  lemma {:induction false} EdgeLinkCarried(f: Rename, a: seq<Record>, b: seq<Record>, names: set<string>, i: nat)
    requires CarriesAll(f, a, b) && NamedWithin(a, names) && OneToOne(f, names)
    requires i < |EdgesOf(a)| == |EdgesOf(b)|
    ensures EdgeLink(EdgesOf(b), SourceIds(b), EdgesOf(b)[i])
      == MapLink(f, EdgeLink(EdgesOf(a), SourceIds(a), EdgesOf(a)[i]))
  {
    EdgesOfCarried(f, a, b, names);
    ContradictionCarried(f, EdgesOf(a), EdgesOf(b), names, i);
    var e := EdgesOf(a)[i];
    assert e in EdgesOf(a);
    SourceIdsCarried(f, a, b, names, e.from);
    SourceIdsCarried(f, a, b, names, e.to);
    assert {f(e.from), f(e.to)} <= SourceIds(b) <==> {e.from, e.to} <= SourceIds(a);
  }

  lemma {:induction false} ParentLinksCarried(f: Rename, a: seq<Record>, b: seq<Record>, names: set<string>,
      child: string, parents: seq<string>)
    requires CarriesAll(f, a, b) && NamedWithin(a, names) && OneToOne(f, names) && Elements(parents) <= names
    ensures ParentLinks(SourceIds(b), f(child), MapSeq(f, parents))
      == MapSeq(x => MapLink(f, x), ParentLinks(SourceIds(a), child, parents))
  {
    forall i | 0 <= i < |parents|
      ensures ParentLink(SourceIds(b), f(child), f(parents[i]))
        == MapLink(f, ParentLink(SourceIds(a), child, parents[i]))
    {
      assert parents[i] in Elements(parents);
      SourceIdsCarried(f, a, b, names, parents[i]);
    }
  }

  lemma {:induction false} AllParentLinksCarried(f: Rename, a: seq<Record>, b: seq<Record>, names: set<string>,
      x: seq<Record>, y: seq<Record>)
    requires CarriesAll(f, a, b) && NamedWithin(a, names) && OneToOne(f, names)
    requires CarriesAll(f, x, y) && NamedWithin(x, names)
    ensures AllParentLinks(SourceIds(b), y) == MapSeq(l => MapLink(f, l), AllParentLinks(SourceIds(a), x))
    decreases |x|
  {
    if x != [] {
      var p := x[0].payload;
      assert x[0] in x && x == [x[0]] + x[1..];
      AllParentLinksCarried(f, a, b, names, x[1..], y[1..]);
      if p.Event? {
        ParentLinksCarried(f, a, b, names, p.sourceId, p.parents);
        MapSeqAppend(l => MapLink(f, l), ParentLinks(SourceIds(a), p.sourceId, p.parents),
            AllParentLinks(SourceIds(a), x[1..]));
      }
    }
  }

  lemma {:induction false} LineageCarried(f: Rename, a: seq<Record>, b: seq<Record>, names: set<string>, maxDepth: nat)
    requires CarriesAll(f, a, b) && NamedWithin(a, names) && OneToOne(f, names)
    ensures LineageOf(b, maxDepth) == MapSeq(l => MapLink(f, l), LineageOf(a, maxDepth))
    ensures |EdgesOf(b)| == |EdgesOf(a)|
  {
    var g := (l: LineageEntry) => MapLink(f, l);
    EdgesOfCarried(f, a, b, names);
    AllParentLinksCarried(f, a, b, names, a, b);
    var n := Min(|EdgesOf(a)|, maxDepth);
    var x, y := EdgeLinks(EdgesOf(a), SourceIds(a), n), EdgeLinks(EdgesOf(b), SourceIds(b), n);
    forall i | 0 <= i < n ensures y[i] == g(x[i]) { EdgeLinkCarried(f, a, b, names, i); }
    assert y == MapSeq(g, x);
    var parents := AllParentLinks(SourceIds(a), a);
    var cut := if |EdgesOf(a)| > maxDepth then [Truncation(maxDepth, |EdgesOf(a)|)] else [];
    MapSeqAppend(g, x, parents);
    MapSeqAppend(g, x + parents, cut);
    assert MapSeq(g, cut) == cut;
  }

  lemma {:induction false} FlaggedCarried(f: Rename, lineage: seq<LineageEntry>, state: LinkState)
    ensures Flagged(MapSeq(l => MapLink(f, l), lineage), state) == MapSeq(f, Flagged(lineage, state))
  {
    if lineage != [] {
      FlaggedCarried(f, lineage[1..], state);
      assert MapSeq(l => MapLink(f, l), lineage)[1..] == MapSeq(l => MapLink(f, l), lineage[1..]);
    }
  }

  // ---------------------------------------------------------------- memory

  lemma {:induction false} MemoryOpsCarried(f: Rename, a: seq<Record>, b: seq<Record>)
    requires CarriesAll(f, a, b)
    ensures CarriesAll(f, MemoryOps(a), MemoryOps(b))
  {
    if a != [] {
      MemoryOpsCarried(f, a[1..], b[1..]);
      assert CarriesRecord(f, a[0], b[0]);
      if a[0].payload.MemoryOp? {
        CarriesCons(f, a[0], b[0], MemoryOps(a[1..]), MemoryOps(b[1..]));
      }
    }
  }

  lemma {:induction false} StaleReadsCarried(f: Rename, x: seq<Record>, y: seq<Record>)
    requires CarriesAll(f, x, y)
    requires (forall r <- x :: r.payload.MemoryOp?) && (forall r <- y :: r.payload.MemoryOp?)
    ensures StaleReads(y) == MapSeq(f, StaleReads(x))
  {
    if x != [] {
      StaleReadsCarried(f, x[1..], y[1..]);
      assert CarriesRecord(f, x[0], y[0]);
      var head := if x[0].payload.action == Action.Read
          && x[0].payload.state == Stale then [x[0].payload.sourceId] else [];
      MapSeqAppend(f, head, StaleReads(x[1..]));
    }
  }

  lemma {:induction false} InsertCarried(f: Rename, r: Record, s: Record, xs: seq<Record>, ys: seq<Record>)
    requires CarriesRecord(f, r, s) && CarriesAll(f, xs, ys)
    ensures CarriesAll(f, Insert(r, xs, Earlier), Insert(s, ys, Earlier))
  {
    if xs == [] || Earlier(r, xs[0]) {
      assert ys != [] ==> CarriesRecord(f, xs[0], ys[0]);
      CarriesCons(f, r, s, xs, ys);
    } else {
      assert CarriesRecord(f, xs[0], ys[0]);
      InsertCarried(f, r, s, xs[1..], ys[1..]);
      CarriesCons(f, xs[0], ys[0], Insert(r, xs[1..], Earlier), Insert(s, ys[1..], Earlier));
    }
  }

  lemma {:induction false} SortCarried(f: Rename, xs: seq<Record>, ys: seq<Record>)
    requires CarriesAll(f, xs, ys)
    ensures CarriesAll(f, Sort(xs, Earlier), Sort(ys, Earlier))
  {
    if xs != [] {
      assert CarriesRecord(f, xs[0], ys[0]);
      SortCarried(f, xs[1..], ys[1..]);
      InsertCarried(f, xs[0], ys[0], Sort(xs[1..], Earlier), Sort(ys[1..], Earlier));
    }
  }

  predicate OpsCarried(f: Rename, xs: seq<MemoryPayload>, ys: seq<MemoryPayload>) {
    |xs| == |ys| && forall i :: 0 <= i < |xs| ==> Carries(f, xs[i], ys[i])
  }

  lemma {:induction false} InOrderCarried(f: Rename, a: seq<Record>, b: seq<Record>)
    requires CarriesAll(f, a, b)
    ensures OpsCarried(f, InOrder(a), InOrder(b))
  {
    MemoryOpsCarried(f, a, b);
    SortCarried(f, MemoryOps(a), MemoryOps(b));
    var x, y := Sort(MemoryOps(a), Earlier), Sort(MemoryOps(b), Earlier);
    MultisetMembers(x, MemoryOps(a));
    MultisetMembers(y, MemoryOps(b));
    PayloadsCarried(f, x, y);
  }

  lemma {:induction false} PayloadsCarried(f: Rename, x: seq<Record>, y: seq<Record>)
    requires CarriesAll(f, x, y)
    requires (forall r <- x :: r.payload.MemoryOp?) && (forall r <- y :: r.payload.MemoryOp?)
    ensures OpsCarried(f, Payloads(x), Payloads(y))
  {
    forall i | 0 <= i < |x| ensures Carries(f, Payloads(x)[i], Payloads(y)[i]) {
      assert CarriesRecord(f, x[i], y[i]);
    }
  }

  lemma {:induction false} InOrderNamed(a: seq<Record>, names: set<string>)
    requires NamedWithin(a, names)
    ensures forall p <- InOrder(a) :: PayloadNames(p) <= names
  {
    var sorted := Sort(MemoryOps(a), Earlier);
    MultisetMembers(sorted, MemoryOps(a));
    forall i | 0 <= i < |sorted| ensures PayloadNames(Payloads(sorted)[i]) <= names {
      assert sorted[i] in a;
    }
  }

  lemma {:induction false} EntryCarried(f: Rename, names: set<string>, p: MemoryPayload, p': MemoryPayload,
      q: MemoryPayload, q': MemoryPayload)
    requires Carries(f, p, q) && Carries(f, p', q') && OneToOne(f, names) && PayloadNames(p) <= names
      && PayloadNames(p') <= names
    ensures q.entry == q'.entry <==> p.entry == p'.entry
  {}

  lemma {:induction false} ReusesCarried(f: Rename, names: set<string>, xs: seq<MemoryPayload>,
      ys: seq<MemoryPayload>, p: MemoryPayload, q: MemoryPayload)
    requires OpsCarried(f, xs, ys) && Carries(f, p, q) && OneToOne(f, names)
    requires PayloadNames(p) <= names && forall x <- xs :: PayloadNames(x) <= names
    ensures Reuses(ys, q) <==> Reuses(xs, p)
  {
    TaintsCarried(f, names, xs, ys, p, q);
    QuarantinesCarried(f, names, xs, ys, p, q);
  }

  lemma {:induction false} TaintsCarried(f: Rename, names: set<string>, xs: seq<MemoryPayload>,
      ys: seq<MemoryPayload>, p: MemoryPayload, q: MemoryPayload)
    requires OpsCarried(f, xs, ys) && Carries(f, p, q) && OneToOne(f, names)
    requires PayloadNames(p) <= names && forall x <- xs :: PayloadNames(x) <= names
    ensures (exists y :: y in ys && Taints(y, q.entry)) <==> (exists x :: x in xs && Taints(x, p.entry))
  {
    forall i | 0 <= i < |xs| ensures Taints(xs[i], p.entry) <==> Taints(ys[i], q.entry) {
      assert xs[i] in xs;
      EntryCarried(f, names, xs[i], p, ys[i], q);
    }
    assert (exists x :: x in xs && Taints(x, p.entry)) <==> (exists i :: 0 <= i < |xs| && Taints(xs[i], p.entry));
    assert (exists y :: y in ys && Taints(y, q.entry)) <==> (exists i :: 0 <= i < |ys| && Taints(ys[i], q.entry));
  }

  lemma {:induction false} QuarantinesCarried(f: Rename, names: set<string>, xs: seq<MemoryPayload>,
      ys: seq<MemoryPayload>, p: MemoryPayload, q: MemoryPayload)
    requires OpsCarried(f, xs, ys) && Carries(f, p, q) && OneToOne(f, names)
    requires PayloadNames(p) <= names && forall x <- xs :: PayloadNames(x) <= names
    ensures (exists y :: y in ys && Quarantines(y, q.entry)) <==> (exists x :: x in xs && Quarantines(x, p.entry))
  {
    forall i | 0 <= i < |xs| ensures Quarantines(xs[i], p.entry) <==> Quarantines(ys[i], q.entry) {
      assert xs[i] in xs;
      EntryCarried(f, names, xs[i], p, ys[i], q);
    }
    assert (exists x :: x in xs && Quarantines(x, p.entry)) <==>
      (exists i :: 0 <= i < |xs| && Quarantines(xs[i], p.entry));
    assert (exists y :: y in ys && Quarantines(y, q.entry)) <==>
      (exists i :: 0 <= i < |ys| && Quarantines(ys[i], q.entry));
  }

  lemma {:induction false} ReusedCarried(f: Rename, names: set<string>, xs: seq<MemoryPayload>, ys: seq<MemoryPayload>)
    requires OpsCarried(f, xs, ys) && OneToOne(f, names) && forall x <- xs :: PayloadNames(x) <= names
    ensures Reused(ys) == MapSeq(f, Reused(xs))
  {
    if xs != [] {
      var n := |xs| - 1;
      var u, v, p, q := xs[..n], ys[..n], xs[n], ys[n];
      assert xs == u + [p] && ys == v + [q];
      assert p in xs && (forall x <- u :: x in xs) && Carries(f, p, q);
      OpsPrefix(f, xs, ys, n);
      ReusedCarried(f, names, u, v);
      ReusedStepCarried(f, names, u, v, p, q);
    }
  }

  lemma {:induction false} OpsPrefix(f: Rename, xs: seq<MemoryPayload>, ys: seq<MemoryPayload>, n: nat)
    requires OpsCarried(f, xs, ys) && n <= |xs|
    ensures OpsCarried(f, xs[..n], ys[..n])
  {}

  lemma {:induction false} ReusedStepCarried(f: Rename, names: set<string>, u: seq<MemoryPayload>,
      v: seq<MemoryPayload>, p: MemoryPayload, q: MemoryPayload)
    requires OpsCarried(f, u, v) && Carries(f, p, q) && OneToOne(f, names)
    requires PayloadNames(p) <= names && forall x <- u :: PayloadNames(x) <= names
    requires Reused(v) == MapSeq(f, Reused(u))
    ensures Reused(v + [q]) == MapSeq(f, Reused(u + [p]))
  {
    ReusesCarried(f, names, u, v, p, q);
    ReusedSnoc(u, p);
    ReusedSnoc(v, q);
    MapSeqAppend(f, Reused(u), if Reuses(u, p) then [p.sourceId] else []);
  }

  // ---------------------------------------------------------------- findings

  /** A finding with its references renamed; the word used for "no reference" is kept. */
  function MapFinding(f: Rename, x: Finding): Finding {
    Finding(x.check, x.violated, if x.violated then f(x.interventionRef)
        else x.interventionRef, MapSeq(f, x.evidenceFor), x.truncated)
  }

  lemma {:induction false} MakeFindingCarried(f: Rename, check: Invariant, refs: seq<string>, truncated: bool)
    ensures MakeFinding(check, MapSeq(f, refs), truncated) == MapFinding(f, MakeFinding(check, refs, truncated))
  {
    assert First(MapSeq(f, refs), EVIDENCE_LIMIT) == MapSeq(f, First(refs, EVIDENCE_LIMIT));
  }

  /** Equivariance: if the identifiers of a trace are renamed one-to-one, the four findings
      are the same but for the renamed references. */
  lemma {:induction false} EvaluationIsEquivariant(f: Rename, a: seq<Record>, b: seq<Record>, names: set<string>)
    requires CarriesAll(f, a, b) && NamedWithin(a, names) && OneToOne(f, names)
    ensures Findings(b) == MapSeq(x => MapFinding(f, x), Findings(a))
  {
    var lineage, cut := LineageOf(a, LINEAGE_LIMIT), |EdgesOf(a)| > LINEAGE_LIMIT;
    LineageCarried(f, a, b, names, LINEAGE_LIMIT);
    FlaggedCarried(f, lineage, Missing);
    FlaggedCarried(f, lineage, Conflicting);
    MemoryOpsCarried(f, a, b);
    StaleReadsCarried(f, MemoryOps(a), MemoryOps(b));
    InOrderCarried(f, a, b);
    InOrderNamed(a, names);
    ReusedCarried(f, names, InOrder(a), InOrder(b));
    FindingsMapped(f, Flagged(lineage, Missing), Flagged(lineage, Conflicting), StaleReads(MemoryOps(a)),
        Reused(InOrder(a)), cut);
  }

  lemma {:induction false} FindingsMapped(f: Rename, missing: seq<string>, conflicts: seq<string>,
      stale: seq<string>, reused: seq<string>, truncated: bool)
    ensures MakeFindings(MapSeq(f, missing), MapSeq(f, conflicts), MapSeq(f, stale), MapSeq(f, reused), truncated)
         == MapSeq(x => MapFinding(f, x), MakeFindings(missing, conflicts, stale, reused, truncated))
  {
    MakeFindingCarried(f, ParentReferentPresent, missing, truncated);
    MakeFindingCarried(f, ParentEdgeNonconflicting, conflicts, truncated);
    MakeFindingCarried(f, MemoryReadNotStale, stale, truncated);
    MakeFindingCarried(f, TaintedMemoryNotReused, reused, truncated);
  }
}
