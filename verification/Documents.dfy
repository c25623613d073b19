/** Memory documents: the manifest collected from a trace and the validation a document
    passes before it is compared. */
module Documents {
  import opened Orders
  import opened Records

  /** Order of the key triples. */
  predicate EntryLess(a: Entry, b: Entry) {
    StrLess(a.namespace, b.namespace)
    || (a.namespace == b.namespace
        && (StrLess(a.item, b.item) || (a.item == b.item && StrLess(a.version, b.version))))
  }

  lemma {:induction false} EntryLessTransitive(a: Entry, b: Entry, c: Entry)
    requires EntryLess(a, b) && EntryLess(b, c)
    ensures EntryLess(a, c)
  {
    if StrLess(a.namespace, b.namespace) && StrLess(b.namespace, c.namespace) {
      StrLessTransitive(a.namespace, b.namespace, c.namespace);
    }
    if StrLess(a.item, b.item) && StrLess(b.item, c.item) { StrLessTransitive(a.item, b.item, c.item); }
    if StrLess(a.version, b.version) && StrLess(b.version, c.version) {
      StrLessTransitive(a.version, b.version, c.version);
    }
  }

  lemma {:induction false} EntryLessTotal(a: Entry, b: Entry)
    ensures a == b || EntryLess(a, b) || EntryLess(b, a)
  {
    StrLessTotal(a.namespace, b.namespace);
    StrLessTotal(a.item, b.item);
    StrLessTotal(a.version, b.version);
  }

  lemma {:induction false} EntryLessIrreflexive(a: Entry)
    ensures !EntryLess(a, a)
  {
    StrLessIrreflexive(a.namespace);
    StrLessIrreflexive(a.item);
    StrLessIrreflexive(a.version);
  }

  lemma {:induction false} EntryLessIsStrictTotal()
    ensures StrictTotal(EntryLess)
  {
    forall x: Entry ensures !EntryLess(x, x) { EntryLessIrreflexive(x); }
    forall x: Entry, y: Entry, z: Entry | EntryLess(x, y) && EntryLess(y, z) ensures EntryLess(x, z) {
      EntryLessTransitive(x, y, z);
    }
    forall x: Entry, y: Entry ensures x == y || EntryLess(x, y) || EntryLess(y, x) { EntryLessTotal(x, y); }
    forall x: Entry, y: Entry, z: Entry | !EntryLess(x, y) && !EntryLess(y, z) ensures !EntryLess(x, z) {
      if EntryLess(x, z) {
        EntryLessTotal(x, y);
        EntryLessTotal(y, z);
        if EntryLess(y, x) { EntryLessTransitive(y, x, z); }
      }
    }
  }

  function SortedEntries(s: set<Entry>): (r: seq<Entry>)
    ensures Ascending(r, EntryLess) && Elements(r) == s && |r| == |s|
  {
    EntryLessIsStrictTotal();
    SortedSet(s, EntryLess)
  }

  /** Sorting distinct entries lists their set. */
  lemma {:induction false} SortIsListing(xs: seq<Entry>)
    requires Distinct(xs)
    ensures Sort(xs, EntryLess) == SortedEntries(Elements(xs))
  {
    EntryLessIsStrictTotal();
    var sorted := Sort(xs, EntryLess);
    SortSorts(xs, EntryLess);
    PermutationDistinct(xs, sorted);
    DistinctSortedAscends(sorted, EntryLess);
    MultisetMembers(xs, sorted);
    assert Elements(sorted) == Elements(xs);
    AscendingIsUnique(sorted, SortedEntries(Elements(xs)), EntryLess);
  }

  /** A strictly ascending list is the listing of its own set. */
  lemma {:induction false} AscendingIsListing(xs: seq<Entry>)
    requires Ascending(xs, EntryLess)
    ensures xs == SortedEntries(Elements(xs)) && Distinct(xs)
  {
    EntryLessIsStrictTotal();
    AscendingIsUnique(xs, SortedEntries(Elements(xs)), EntryLess);
    DistinctSortedAscends(xs, EntryLess);
  }

  // ---------------------------------------------------------------- the manifest of a trace

  function ItemsOf(records: seq<Record>): set<Entry> {
    set r | r in records && r.payload.MemoryOp? :: r.payload.entry
  }

  function QuarantinedIn(records: seq<Record>): set<Entry> {
    set r | r in records && r.payload.MemoryOp? && r.payload.action == Quarantine :: r.payload.entry
  }

  /** Every memory version of the trace, and every version some operation quarantined, each
      once and in key order. */
  function ManifestOf(records: seq<Record>): Manifest {
    Manifest(SortedEntries(ItemsOf(records)), SortedEntries(QuarantinedIn(records)))
  }

  /** `_memory_manifest`. */
  method MemoryManifest(records: seq<Record>) returns (manifest: Manifest)
    ensures manifest == ManifestOf(records)
  {
    var items: seq<Entry>, quarantine: seq<Entry> := [], [];
    for i := 0 to |records|
      invariant Distinct(items) && Elements(items) == ItemsOf(records[..i])
      invariant Distinct(quarantine) && Elements(quarantine) == QuarantinedIn(records[..i])
    {
      var record := records[i];
      assert records[..i + 1] == records[..i] + [record];
      ManifestStep(records[..i], record);
      if !record.payload.MemoryOp? {
        continue;
      }
      var entry := record.payload.entry;
      if entry !in items {
        items := items + [entry];
      }
      if record.payload.action == Quarantine && entry !in quarantine {
        quarantine := quarantine + [entry];
      }
    }
    assert records[..|records|] == records;
    SortIsListing(items);
    SortIsListing(quarantine);
    manifest := Manifest(Sort(items, EntryLess), Sort(quarantine, EntryLess));
  }

  lemma {:induction false} ManifestStep(records: seq<Record>, r: Record)
    ensures ItemsOf(records + [r]) == ItemsOf(records) + if r.payload.MemoryOp? then {r.payload.entry} else {}
    ensures QuarantinedIn(records + [r]) == QuarantinedIn(records)
      + if r.payload.MemoryOp? && r.payload.action == Quarantine then {r.payload.entry} else {}
  {}

  // ---------------------------------------------------------------- document validation

  predicate ValidEntry(e: Entry) {
    IsIdentifier(e.namespace) && IsIdentifier(e.item) && IsIdentifier(e.version)
  }

  predicate ValidCollection(entries: seq<Entry>) {
    |entries| <= 128 && Ascending(entries, EntryLess) && forall e <- entries :: ValidEntry(e)
  }

  /** Bounded, strictly ordered collections of well-formed entries, the quarantine within the items. */
  predicate ValidDocument(document: Manifest) {
    && ValidCollection(document.items) && ValidCollection(document.quarantine)
    && forall e <- document.quarantine :: e in document.items
  }

  /** The listing of a set of items of a valid collection is a valid collection. */
  lemma {:induction false} ListedWithin(s: set<Entry>, items: seq<Entry>)
    requires ValidCollection(items) && forall e <- s :: e in items
    ensures ValidCollection(SortedEntries(s)) && forall e <- SortedEntries(s) :: e in items
  {
    var listed := SortedEntries(s);
    forall e | e in listed ensures e in items { assert e in Elements(listed); }
    BoundedSubset(listed, items);
  }

  lemma {:induction false} BoundedSubset(xs: seq<Entry>, ys: seq<Entry>)
    requires Ascending(xs, EntryLess) && forall e <- xs :: e in ys
    ensures |xs| <= |ys|
  {
    AscendingIsListing(xs);
    assert Elements(xs) <= Elements(ys);
    SubsetSize(Elements(xs), Elements(ys));
    ElementsSize(ys);
  }

  lemma {:induction false} ElementsSize(ys: seq<Entry>)
    ensures |Elements(ys)| <= |ys|
  {
    if ys != [] {
      ElementsSize(ys[1..]);
      assert ys == [ys[0]] + ys[1..];
      assert Elements(ys) == {ys[0]} + Elements(ys[1..]);
    }
  }

  /** The error one collection raises: a repeated or malformed entry is invalid, a mere
      disorder not canonical. */
  function CollectionVerdict(entries: seq<Entry>): (r: Result<set<Entry>>)
    ensures r.Ok? <==> ValidCollection(entries)
    ensures r.Ok? ==> r.value == Elements(entries)
    ensures r.Err? ==> r.error == InvalidReplayDocument || r.error == NoncanonicalReplayDocument
  {
    EntryLessIsStrictTotal();
    DistinctSortedAscends(entries, EntryLess);
    SortedFixpoint(entries);
    if |entries| > 128 || !Distinct(entries) || !(forall e <- entries :: ValidEntry(e)) then Err(InvalidReplayDocument)
    else if entries != Sort(entries, EntryLess) then Err(NoncanonicalReplayDocument)
    else Ok(Elements(entries))
  }

  /** The first error of `validate_document`. */
  function DocumentVerdict(document: Manifest): (r: Result<()>)
    ensures r.Ok? <==> ValidDocument(document)
    ensures r.Err? ==> r.error == InvalidReplayDocument || r.error == NoncanonicalReplayDocument
  {
    assert forall e :: e in Elements(document.quarantine) <==> e in document.quarantine;
    var items :- CollectionVerdict(document.items);
    var quarantine :- CollectionVerdict(document.quarantine);
    if quarantine <= items then Ok(()) else Err(InvalidReplayDocument)
  }

  /** One pass of the source's outer loop. */
  method ValidateCollection(entries: seq<Entry>) returns (r: Result<set<Entry>>)
    ensures r == CollectionVerdict(entries)
  {
    if |entries| > 128 {
      return Err(InvalidReplayDocument);
    }
    var seen: set<Entry> := {};
    for i := 0 to |entries|
      invariant seen == Elements(entries[..i]) && Distinct(entries[..i])
      invariant forall e <- entries[..i] :: ValidEntry(e)
    {
      OneMore(entries, i);
      if !ValidEntry(entries[i]) || entries[i] in seen {
        assert entries[i] in entries;
        if entries[i] in seen {
          var j :| 0 <= j < i && entries[..i][j] == entries[i];
          assert entries[j] == entries[i];
        }
        return Err(InvalidReplayDocument);
      }
      seen := seen + {entries[i]};
    }
    assert entries[..|entries|] == entries;
    if entries != Sort(entries, EntryLess) {
      return Err(NoncanonicalReplayDocument);
    }
    return Ok(seen);
  }

  lemma {:induction false} SortedFixpoint(xs: seq<Entry>)
    ensures xs == Sort(xs, EntryLess) <==> NonDescending(xs, EntryLess)
  {
    EntryLessIsStrictTotal();
    SortSorts(xs, EntryLess);
    if NonDescending(xs, EntryLess) {
      SortedIsUnique(xs, Sort(xs, EntryLess), EntryLess);
    }
  }

  /** `validate_document`. */
  method ValidateDocument(document: Manifest) returns (r: Result<()>)
    ensures r == DocumentVerdict(document)
    ensures r.Ok? <==> ValidDocument(document)
  {
    var items := ValidateCollection(document.items);
    if items.Err? {
      return Err(items.error);
    }
    var quarantine := ValidateCollection(document.quarantine);
    if quarantine.Err? {
      return Err(quarantine.error);
    }
    if !(quarantine.value <= items.value) {
      return Err(InvalidReplayDocument);
    }
    return Ok(());
  }
}
