/** The rebuildable lineage projection: asserted edges with their states, and parent arrays
    as derived claims. */
module Lineage {
  import opened Records

  datatype LinkState = SourceAsserted | ReferentPresent | Missing | Conflicting | Derived

  datatype LineageEntry =
    | Link(from: string, to: string, kind: EdgeKind, states: seq<LinkState>)
    | Truncation(represented: nat, total: nat)

  type EdgePayload = p: Payload | p.Edge? witness Edge(Public, "", Parent, "", "", false, map[])

  function SourceIds(records: seq<Record>): set<string> {
    set r | r in records && r.payload.Source?() :: r.payload.sourceId
  }

  function EdgesOf(records: seq<Record>): seq<EdgePayload> {
    if records == [] then []
    else (if records[0].payload.Edge? then [records[0].payload] else []) + EdgesOf(records[1..])
  }

  predicate SameClaim(a: EdgePayload, b: EdgePayload) {
    a.from == b.from && a.edgeKind == b.edgeKind
  }

  /** Another edge, anywhere in the trace, claims the same source and kind with another target. */
  predicate Contradicted(edges: seq<EdgePayload>, e: EdgePayload) {
    exists f :: f in edges && SameClaim(e, f) && f.to != e.to
  }

  function Presence(ids: set<string>, endpoints: set<string>): LinkState {
    if endpoints <= ids then ReferentPresent else Missing
  }

  function EdgeLink(edges: seq<EdgePayload>, ids: set<string>, e: EdgePayload): LineageEntry {
    Link(e.from, e.to, e.edgeKind,
      (if e.asserted then [SourceAsserted] else [])
      + [Presence(ids, {e.from, e.to})]
      + (if Contradicted(edges, e) then [Conflicting] else []))
  }

  function EdgeLinks(edges: seq<EdgePayload>, ids: set<string>, n: nat): (r: seq<LineageEntry>)
    requires n <= |edges|
    ensures |r| == n && forall i :: 0 <= i < n ==> r[i] == EdgeLink(edges, ids, edges[i])
  {
    seq(n, i requires 0 <= i < n => EdgeLink(edges, ids, edges[i]))
  }

  function ParentLink(ids: set<string>, child: string, parent: string): LineageEntry {
    Link(child, parent, Parent, [Derived, Presence(ids, {parent})])
  }

  function ParentLinks(ids: set<string>, child: string, parents: seq<string>): (r: seq<LineageEntry>)
    ensures |r| == |parents| && forall i :: 0 <= i < |r| ==> r[i] == ParentLink(ids, child, parents[i])
  {
    seq(|parents|, i requires 0 <= i < |parents| => ParentLink(ids, child, parents[i]))
  }

  function AllParentLinks(ids: set<string>, records: seq<Record>): seq<LineageEntry> {
    if records == [] then []
    else
      (if records[0].payload.Event? then ParentLinks(ids, records[0].payload.sourceId, records[0].payload.parents)
          else [])
      + AllParentLinks(ids, records[1..])
  }

  function Min(a: nat, b: nat): nat {
    if a <= b then a else b
  }

  function LineageOf(records: seq<Record>, maxDepth: nat): seq<LineageEntry> {
    var edges, ids := EdgesOf(records), SourceIds(records);
    EdgeLinks(edges, ids, Min(|edges|, maxDepth))
    + AllParentLinks(ids, records)
    + (if |edges| > maxDepth then [Truncation(maxDepth, |edges|)] else [])
  }

  // ---------------------------------------------------------------- the source's loops

  function Targets(edges: seq<EdgePayload>, key: (string, EdgeKind)): set<string> {
    set e | e in edges && (e.from, e.edgeKind) == key :: e.to
  }

  lemma {:induction false} SeveralTargets(edges: seq<EdgePayload>, e: EdgePayload)
    requires e in edges
    ensures |Targets(edges, (e.from, e.edgeKind))| > 1 <==> Contradicted(edges, e)
  {
    var targets := Targets(edges, (e.from, e.edgeKind));
    assert e.to in targets;
    var others := targets - {e.to};
    assert |targets| == |others| + 1;
    if Contradicted(edges, e) {
      var f :| f in edges && SameClaim(e, f) && f.to != e.to;
      assert f.to in others;
    } else {
      assert others == {};
    }
  }

  /** The index of claimed targets, filled edge by edge. */
  method IndexTargets(edges: seq<EdgePayload>) returns (pairs: map<(string, EdgeKind), set<string>>)
    ensures forall e <- edges ::
      && (e.from, e.edgeKind) in pairs
      && pairs[(e.from, e.edgeKind)] == Targets(edges, (e.from, e.edgeKind))
  {
    pairs := map[];
    for i := 0 to |edges|
      invariant forall e <- edges[..i] :: (e.from, e.edgeKind) in pairs
      invariant forall key :: key in pairs ==> pairs[key] == Targets(edges[..i], key)
      invariant forall key :: key !in pairs ==> Targets(edges[..i], key) == {}
    {
      var key := (edges[i].from, edges[i].edgeKind);
      assert edges[..i + 1] == edges[..i] + [edges[i]];
      forall k ensures Targets(edges[..i + 1], k) == Targets(edges[..i], k) + (if k == key then {edges[i].to} else {}) {
        TargetsStep(edges[..i], edges[i], k);
      }
      pairs := pairs[key := (if key in pairs then pairs[key] else {}) + {edges[i].to}];
    }
    assert edges[..|edges|] == edges;
  }

  lemma {:induction false} TargetsStep(edges: seq<EdgePayload>, e: EdgePayload, k: (string, EdgeKind))
    ensures Targets(edges + [e], k) == Targets(edges, k) + (if k == (e.from, e.edgeKind) then {e.to} else {})
  {}

  /** The states of one represented edge, given the targets indexed for its claim. */
  method EdgeStates(edges: seq<EdgePayload>, ids: set<string>, edge: EdgePayload, targets: set<string>)
    returns (states: seq<LinkState>)
    requires edge in edges && targets == Targets(edges, (edge.from, edge.edgeKind))
    ensures states == EdgeLink(edges, ids, edge).states
  {
    states := [];
    if edge.asserted {
      states := states + [SourceAsserted];
    }
    assert edge.from in ids && edge.to in ids <==> {edge.from, edge.to} <= ids;
    states := states + [if edge.from in ids && edge.to in ids then ReferentPresent else Missing];
    SeveralTargets(edges, edge);
    if |targets| > 1 {
      states := states + [Conflicting];
    }
  }

  /** The derived claims of one parent array, appended to `links`. */
  method DeriveClaims(ids: set<string>, child: string, parents: seq<string>,
      links: seq<LineageEntry>) returns (result: seq<LineageEntry>)
    ensures result == links + ParentLinks(ids, child, parents)
  {
    result := links;
    for j := 0 to |parents|
      invariant result == links + ParentLinks(ids, child, parents)[..j]
    {
      result := result + [Link(child, parents[j], Parent,
          [Derived, if parents[j] in ids then ReferentPresent else Missing])];
    }
  }

  /** The derived claims of every parent array, appended to `links`. */
  method DeriveParentClaims(records: seq<Record>, ids: set<string>,
      links: seq<LineageEntry>) returns (result: seq<LineageEntry>)
    ensures result == links + AllParentLinks(ids, records)
  {
    result := links;
    for i := 0 to |records|
      invariant result + AllParentLinks(ids, records[i..]) == links + AllParentLinks(ids, records)
    {
      ClaimsStep(ids, records, i);
      if records[i].payload.Event? {
        result := DeriveClaims(ids, records[i].payload.sourceId, records[i].payload.parents, result);
      }
    }
  }

  lemma {:induction false} ClaimsStep(ids: set<string>, records: seq<Record>, i: nat)
    requires i < |records|
    ensures AllParentLinks(ids, records[i..]) ==
      (if records[i].payload.Event? then ParentLinks(ids, records[i].payload.sourceId, records[i].payload.parents)
       else [])
      + AllParentLinks(ids, records[i + 1..])
  {
    assert records[i..][1..] == records[i + 1..];
  }

  /** `build_lineage`. */
  method BuildLineage(records: seq<Record>, maxDepth: nat) returns (result: seq<LineageEntry>)
    ensures result == LineageOf(records, maxDepth)
  {
    var ids, edges := SourceIds(records), EdgesOf(records);
    var pairs := IndexTargets(edges);
    result := [];
    var shown := Min(|edges|, maxDepth);
    for i := 0 to shown
      invariant result == EdgeLinks(edges, ids, i)
    {
      var edge := edges[i];
      var states := EdgeStates(edges, ids, edge, pairs[(edge.from, edge.edgeKind)]);
      result := result + [Link(edge.from, edge.to, edge.edgeKind, states)];
    }
    result := DeriveParentClaims(records, ids, result);
    if |edges| > maxDepth {
      result := result + [Truncation(maxDepth, |edges|)];
    }
  }

  // ---------------------------------------------------------------- meaning

  function TotalParents(records: seq<Record>): nat {
    if records == [] then 0
    else (if records[0].payload.Event? then |records[0].payload.parents| else 0) + TotalParents(records[1..])
  }

  /** A parent-array claim of some event of the trace. */
  ghost predicate ParentClaim(records: seq<Record>, child: string, parent: string) {
    exists r :: r in records && r.payload.Event? && r.payload.sourceId == child && parent in r.payload.parents
  }

  lemma {:induction false} ParentLinksMeaning(ids: set<string>, records: seq<Record>)
    ensures |AllParentLinks(ids, records)| == TotalParents(records)
    ensures forall x :: x in AllParentLinks(ids, records) <==>
      exists child, parent :: ParentClaim(records, child, parent) && x == ParentLink(ids, child, parent)
  {
    if records != [] {
      var head, rest := records[0].payload, AllParentLinks(ids, records[1..]);
      ParentLinksMeaning(ids, records[1..]);
      assert records == [records[0]] + records[1..];
      forall x ensures x in AllParentLinks(ids, records) <==>
        exists child, parent :: ParentClaim(records, child, parent) && x == ParentLink(ids, child, parent)
      {
        if x in AllParentLinks(ids, records) {
          if x in rest {
            var child, parent :| ParentClaim(records[1..], child, parent) && x == ParentLink(ids, child, parent);
            assert ParentClaim(records, child, parent);
          } else {
            var links := ParentLinks(ids, head.sourceId, head.parents);
            var i :| 0 <= i < |links| && links[i] == x;
            assert ParentClaim(records, head.sourceId, head.parents[i]);
          }
        }
        if child, parent :| ParentClaim(records, child, parent) && x == ParentLink(ids, child, parent) {
          var r :| r in records && r.payload.Event? && r.payload.sourceId == child && parent in r.payload.parents;
          if r in records[1..] {
            assert ParentClaim(records[1..], child, parent);
          } else {
            var links := ParentLinks(ids, head.sourceId, head.parents);
            var i :| 0 <= i < |head.parents| && head.parents[i] == parent;
            assert links[i] == x && links[i] in links;
          }
        }
      }
    }
  }

  /** A name carried as source identifier by some event, edge or memory operation. */
  ghost predicate NamesSource(records: seq<Record>, id: string) {
    exists r :: r in records && r.payload.Source?() && r.payload.sourceId == id
  }

  /** What the lineage says of an edge: it conflicts exactly when some edge of the whole
      trace has its source and kind and another target, and misses a referent exactly when
      an endpoint names no source record. */
  ghost predicate DescribesEdge(records: seq<Record>, entry: LineageEntry, e: EdgePayload) {
    && entry.Link? && entry.from == e.from && entry.to == e.to && entry.kind == e.edgeKind
    && (SourceAsserted in entry.states <==> e.asserted)
    && (Conflicting in entry.states <==>
        exists f :: f in EdgesOf(records) && f.from == e.from && f.edgeKind == e.edgeKind && f.to != e.to)
    && (Missing in entry.states <==> !NamesSource(records, e.from) || !NamesSource(records, e.to))
    && (ReferentPresent in entry.states <==> Missing !in entry.states)
    && Derived !in entry.states
  }

  /** The first edges up to the cut are described against the whole trace, the cut ones
      included; after them come the parent claims, and the truncation mark exactly when
      edges were cut. */
  lemma {:induction false} LineageMeaning(records: seq<Record>, maxDepth: nat)
    ensures var lineage, edges := LineageOf(records, maxDepth), EdgesOf(records);
      var shown := Min(|edges|, maxDepth);
      && |lineage| == shown + TotalParents(records) + (if |edges| > maxDepth then 1 else 0)
      && (forall i :: 0 <= i < shown ==> DescribesEdge(records, lineage[i], edges[i]))
      && lineage[shown..shown + TotalParents(records)] == AllParentLinks(SourceIds(records), records)
      && (|edges| > maxDepth ==> lineage[|lineage| - 1] == Truncation(maxDepth, |edges|))
  {
    var lineage, edges, ids := LineageOf(records, maxDepth), EdgesOf(records), SourceIds(records);
    var shown := Min(|edges|, maxDepth);
    ParentLinksMeaning(ids, records);
    assert lineage[shown..shown + TotalParents(records)] == AllParentLinks(ids, records);
    forall i | 0 <= i < shown ensures DescribesEdge(records, lineage[i], edges[i]) {
      assert lineage[i] == EdgeLink(edges, ids, edges[i]);
      StatesOfEdge(records, edges[i]);
    }
  }

  lemma {:induction false} StatesOfEdge(records: seq<Record>, e: EdgePayload)
    ensures DescribesEdge(records, EdgeLink(EdgesOf(records), SourceIds(records), e), e)
  {
    SourceIdsMeaning(records);
    assert Contradicted(EdgesOf(records), e) <==>
      exists f :: f in EdgesOf(records) && f.from == e.from && f.edgeKind == e.edgeKind && f.to != e.to;
  }

  /** Parent arrays: every claim is represented and nothing else, none conflicts, and a
      claim misses its referent exactly when the parent names no source record. */
  lemma {:induction false} ParentClaimsMeaning(records: seq<Record>, x: LineageEntry)
    ensures x in AllParentLinks(SourceIds(records), records) <==>
      && x.Link? && x.kind == Parent && ParentClaim(records, x.from, x.to)
      && x.states == [Derived, if NamesSource(records, x.to) then ReferentPresent else Missing]
  {
    ParentLinksMeaning(SourceIds(records), records);
    SourceIdsMeaning(records);
    if x.Link? && ParentClaim(records, x.from, x.to) {
      assert x == ParentLink(SourceIds(records), x.from, x.to) <==>
        x.kind == Parent && x.states == [Derived, if NamesSource(records, x.to) then ReferentPresent else Missing];
    }
  }

  lemma {:induction false} SourceIdsMeaning(records: seq<Record>)
    ensures forall id :: id in SourceIds(records) <==> NamesSource(records, id)
  {}
}
