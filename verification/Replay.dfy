/** Comparison of two memory documents: what the child process computes, what the parent
    demands of it, and the pure gate around both. */
module Replay {
  import opened Orders
  import opened Records
  import opened Documents

  const MECHANISM := "bounded_declarative_document_comparison"
  const EVIDENCE_LABEL := "scripted_fixture_response"
  const OUTCOME_LABEL := "not_real_task_outcome"

  /** The errors `run_fixture` does not turn into a comparison that failed closed. */
  predicate Escapes(error: Fault) {
    error == UnicodeEncodeError || error == RecursionError
  }

  /** `validate_transition`, as the first error it raises. */
  function TransitionError(baseline: Manifest, candidate: Manifest): (r: Result<()>)
    ensures r.Err? ==> !Escapes(r.error)
  {
    var _ :- DocumentVerdict(baseline);
    var _ :- DocumentVerdict(candidate);
    if candidate.items != baseline.items then Err(ReplayItemsChanged)
    else if !(Elements(baseline.quarantine) <= Elements(candidate.quarantine)) then Err(ReplayQuarantineRemoved)
    else if |Elements(candidate.quarantine) - Elements(baseline.quarantine)| > 1 then Err(ReplayTransitionUnbounded)
    else Ok(())
  }

  predicate ValidTransition(baseline: Manifest, candidate: Manifest) {
    TransitionError(baseline, candidate).Ok?
  }

  // ---------------------------------------------------------------- dictionaries of entries

  type Key = (string, string, string)

  function KeyOf(e: Entry): Key {
    (e.namespace, e.item, e.version)
  }

  function EntryOf(k: Key): Entry {
    Entry(k.0, k.1, k.2)
  }

  /** Tuples compare as the entries they key. */
  predicate KeyLess(a: Key, b: Key) {
    EntryLess(EntryOf(a), EntryOf(b))
  }

  lemma {:induction false} KeyLessIsStrictTotal()
    ensures StrictTotal(KeyLess)
  {
    EntryLessIsStrictTotal();
    forall a: Key, b: Key ensures a == b || KeyLess(a, b) || KeyLess(b, a) {
      assert EntryOf(a) == EntryOf(b) ==> a == b;
    }
  }

  /** `{key(entry): entry}`. */
  function ByKey(entries: seq<Entry>): map<Key, Entry> {
    map e | e in entries :: KeyOf(e) := e
  }

  /** `[source[key] for key in sorted(keys)]`. */
  function Ordered(keys: set<Key>, source: map<Key, Entry>): (r: seq<Entry>)
    requires keys <= source.Keys
  {
    KeyLessIsStrictTotal();
    var sorted := SortedSet(keys, KeyLess);
    assert forall i :: 0 <= i < |sorted| ==> sorted[i] in Elements(sorted);
    seq(|sorted|, i requires 0 <= i < |sorted| => source[sorted[i]])
  }

  lemma {:induction false} ByKeyMembers(entries: seq<Entry>, k: Key)
    ensures k in ByKey(entries) <==> EntryOf(k) in entries
    ensures k in ByKey(entries) ==> ByKey(entries)[k] == EntryOf(k)
  {
    assert KeyOf(EntryOf(k)) == k;
  }

  /** Reading a dictionary in the order of its keys lists the entries behind them. */
  lemma {:induction false} OrderedIsListing(keys: set<Key>, entries: seq<Entry>, s: set<Entry>)
    requires keys <= ByKey(entries).Keys && forall k: Key :: k in keys <==> EntryOf(k) in s
    ensures Ordered(keys, ByKey(entries)) == SortedEntries(s)
  {
    KeyLessIsStrictTotal();
    EntryLessIsStrictTotal();
    var sorted, r := SortedSet(keys, KeyLess), Ordered(keys, ByKey(entries));
    forall i | 0 <= i < |r| ensures r[i] == EntryOf(sorted[i]) && r[i] in s {
      assert sorted[i] in Elements(sorted);
      ByKeyMembers(entries, sorted[i]);
    }
    forall e | e in s ensures e in r {
      assert EntryOf(KeyOf(e)) == e && KeyOf(e) in Elements(sorted);
      var i :| 0 <= i < |sorted| && sorted[i] == KeyOf(e);
      assert r[i] == e;
    }
    assert Elements(r) == s;
    AscendingIsListing(r);
  }

  /** The three lists both sides compute, as listings of sets of entries. */
  lemma {:induction false} DifferenceIsListing(a: seq<Entry>, b: seq<Entry>)
    ensures Ordered(ByKey(a).Keys - ByKey(b).Keys, ByKey(a)) == SortedEntries(Elements(a) - Elements(b))
    ensures Ordered(ByKey(a).Keys * ByKey(b).Keys, ByKey(a)) == SortedEntries(Elements(a) * Elements(b))
  {
    forall k: Key
      ensures k in ByKey(a).Keys <==> EntryOf(k) in Elements(a)
      ensures k in ByKey(b).Keys <==> EntryOf(k) in Elements(b)
    {
      ByKeyMembers(a, k);
      ByKeyMembers(b, k);
    }
    OrderedIsListing(ByKey(a).Keys - ByKey(b).Keys, a, Elements(a) - Elements(b));
    OrderedIsListing(ByKey(a).Keys * ByKey(b).Keys, a, Elements(a) * Elements(b));
  }

  // ---------------------------------------------------------------- child and parent

  /** The `compare_documents` operation of the child, on the documents of its request. */
  function CompareDocuments(h: Runtime, baseline: Manifest, candidate: Manifest, expectedBase: string): Comparison {
    var baselineDigest, candidateDigest := h.digest(ManifestJson(baseline)), h.digest(ManifestJson(candidate));
    var before, after := ByKey(baseline.quarantine), ByKey(candidate.quarantine);
    Comparison(MECHANISM, EVIDENCE_LABEL, OUTCOME_LABEL, baselineDigest, candidateDigest,
      expectedBase == baselineDigest,
      Ordered(after.Keys - before.Keys, after), Ordered(before.Keys - after.Keys, before),
      Ordered(before.Keys * after.Keys, before),
      baselineDigest == candidateDigest)
  }

  lemma {:induction false} CompareListing(h: Runtime, baseline: Manifest, candidate: Manifest, expectedBase: string)
    ensures var c := CompareDocuments(h, baseline, candidate, expectedBase);
      var before, after := Elements(baseline.quarantine), Elements(candidate.quarantine);
      c.added == SortedEntries(after - before) && c.removed == SortedEntries(before - after)
      && c.kept == SortedEntries(before * after)
  {
    DifferenceIsListing(candidate.quarantine, baseline.quarantine);
    DifferenceIsListing(baseline.quarantine, candidate.quarantine);
  }

  predicate HexDigest(s: string) {
    |s| == 64 && forall c <- s :: LowerHex(c)
  }

  predicate WellLabelled(r: Comparison) {
    && r.mechanism == MECHANISM && r.evidenceLabel == EVIDENCE_LABEL && r.outcomeLabel == OUTCOME_LABEL
    && HexDigest(r.baselineDigest) && HexDigest(r.candidateDigest)
  }

  /** The checks of `validate_replay_result` that need no document, as the first error. */
  function ResultError(r: Comparison): Result<()> {
    if !WellLabelled(r) then Err(InvalidReplayResult)
    else
      var _ :- DocumentVerdict(Manifest(r.added, []));
      var _ :- DocumentVerdict(Manifest(r.removed, []));
      DocumentVerdict(Manifest(r.kept, []))
  }

  /** The checks against the parent's own recomputation, which compares the documents
      themselves and not their digests. */
  predicate MatchesDocuments(h: Runtime, r: Comparison, baseline: Manifest, candidate: Manifest) {
    var before, after := ByKey(baseline.quarantine), ByKey(candidate.quarantine);
    && r.baselineDigest == h.digest(ManifestJson(baseline))
    && r.candidateDigest == h.digest(ManifestJson(candidate))
    && r.baseBound
    && r.added == Ordered(after.Keys - before.Keys, after)
    && r.removed == Ordered(before.Keys - after.Keys, before)
    && r.kept == Ordered(before.Keys * after.Keys, before)
    && r.documentsEqual == (baseline == candidate)
  }

  /** The same checks on sets of entries. */
  predicate MatchesListing(h: Runtime, r: Comparison, baseline: Manifest, candidate: Manifest) {
    var before, after := Elements(baseline.quarantine), Elements(candidate.quarantine);
    && r.baselineDigest == h.digest(ManifestJson(baseline))
    && r.candidateDigest == h.digest(ManifestJson(candidate))
    && r.baseBound
    && r.added == SortedEntries(after - before)
    && r.removed == SortedEntries(before - after)
    && r.kept == SortedEntries(before * after)
    && r.documentsEqual == (baseline == candidate)
  }

  lemma {:induction false} MatchingIsListing(h: Runtime, r: Comparison, baseline: Manifest, candidate: Manifest)
    ensures MatchesDocuments(h, r, baseline, candidate) <==> MatchesListing(h, r, baseline, candidate)
  {
    DifferenceIsListing(candidate.quarantine, baseline.quarantine);
    DifferenceIsListing(baseline.quarantine, candidate.quarantine);
  }

  /** `validate_replay_result` with both documents given. */
  function ValidateResult(h: Runtime, r: Comparison, baseline: Manifest, candidate: Manifest): Result<Comparison> {
    var _ :- ResultError(r);
    if !MatchesDocuments(h, r, baseline, candidate) then Err(ReplayResultStateMismatch)
    else Ok(r)
  }

  // ---------------------------------------------------------------- results as they are written

  /** A component of an entry as it is decoded: a string, a string with a lone surrogate, which
      has no UTF-8 form, or no string. */
  datatype Field = Text(text: string) | LoneSurrogate | NotText

  /** An element of a list as it is decoded; what is no object of the three keys is no entry. */
  datatype Item = Fields(namespace: Field, item: Field, version: Field) | NoEntry

  /** A decoded result. A field of another type than the source's is an error like a wrong label
      or, for a list, like a list of no entry. */
  datatype Written = Written(
    mechanism: string, evidenceLabel: string, outcomeLabel: string,
    baselineDigest: string, candidateDigest: string, baseBound: bool,
    added: seq<Item>, removed: seq<Item>, kept: seq<Item>, documentsEqual: bool)
  {
    /** The result, once its lists are read. */
    function With(added: seq<Entry>, removed: seq<Entry>, kept: seq<Entry>): Comparison {
      Comparison(mechanism, evidenceLabel, outcomeLabel, baselineDigest, candidateDigest, baseBound,
        added, removed, kept, documentsEqual)
    }
  }

  function ReadField(field: Field): Result<string> {
    match field
    case Text(text) => if IsIdentifier(text) then Ok(text) else Err(InvalidReplayDocument)
    case LoneSurrogate => Err(UnicodeEncodeError)
    case NotText => Err(InvalidReplayDocument)
  }

  /** Components are read in order, up to the first that is no identifier. */
  function ReadItem(x: Item): (r: Result<Entry>)
    ensures r.Err? ==> r.error == InvalidReplayDocument || r.error == UnicodeEncodeError
  {
    match x
    case NoEntry => Err(InvalidReplayDocument)
    case Fields(namespace, item, version) =>
      var n :- ReadField(namespace);
      var i :- ReadField(item);
      var v :- ReadField(version);
      Ok(Entry(n, i, v))
  }

  /** The loop over one collection, with the entries seen so far. */
  function ReadItems(items: seq<Item>, seen: set<Entry>): (r: Result<seq<Entry>>)
    ensures r.Err? ==> r.error == InvalidReplayDocument || r.error == UnicodeEncodeError
  {
    if items == [] then Ok([])
    else
      var e :- ReadItem(items[0]);
      if e in seen then Err(InvalidReplayDocument)
      else
        var rest :- ReadItems(items[1..], seen + {e});
        Ok([e] + rest)
  }

  function ReadCollection(items: seq<Item>): (r: Result<seq<Entry>>)
    ensures r.Err? ==> r.error != RecursionError
  {
    if |items| > 128 then Err(InvalidReplayDocument)
    else
      var entries :- ReadItems(items, {});
      if entries != Sort(entries, EntryLess) then Err(NoncanonicalReplayDocument) else Ok(entries)
  }

  /** The checks of a written result that need no document. */
  function ReadResult(w: Written): (r: Result<Comparison>)
    ensures r.Err? ==> r.error != RecursionError
  {
    if !WellLabelled(w.With([], [], [])) then Err(InvalidReplayResult)
    else
      var added :- ReadCollection(w.added);
      var removed :- ReadCollection(w.removed);
      var kept :- ReadCollection(w.kept);
      Ok(w.With(added, removed, kept))
  }

  /** `validate_replay_result` on what the child wrote. */
  function ValidateWritten(h: Runtime, w: Written, baseline: Manifest, candidate: Manifest): Result<Comparison> {
    var r :- ReadResult(w);
    if !MatchesDocuments(h, r, baseline, candidate) then Err(ReplayResultStateMismatch) else Ok(r)
  }

  function AsItem(e: Entry): Item {
    Fields(Text(e.namespace), Text(e.item), Text(e.version))
  }

  function AsItems(entries: seq<Entry>): (r: seq<Item>)
    ensures |r| == |entries| && forall i :: 0 <= i < |r| ==> r[i] == AsItem(entries[i])
  {
    seq(|entries|, i requires 0 <= i < |entries| => AsItem(entries[i]))
  }

  /** A result as it is written. */
  function AsWritten(r: Comparison): Written {
    Written(r.mechanism, r.evidenceLabel, r.outcomeLabel, r.baselineDigest, r.candidateDigest, r.baseBound,
      AsItems(r.added), AsItems(r.removed), AsItems(r.kept), r.documentsEqual)
  }

  lemma {:induction false} ReadItemMeaning(x: Item)
    ensures forall e :: ReadItem(x) == Ok(e) <==> ValidEntry(e) && x == AsItem(e)
  {}

  lemma {:induction false} ReadItemsMeaning(items: seq<Item>, seen: set<Entry>, entries: seq<Entry>)
    ensures ReadItems(items, seen) == Ok(entries) <==>
      && items == AsItems(entries) && (forall e <- entries :: ValidEntry(e) && e !in seen) && Distinct(entries)
  {
    if items != [] && entries != [] {
      var e, rest := entries[0], entries[1..];
      ReadItemMeaning(items[0]);
      ReadItemsMeaning(items[1..], seen + {e}, rest);
      ReadStep(items, seen, entries);
    }
  }

  lemma {:induction false} ReadStep(items: seq<Item>, seen: set<Entry>, entries: seq<Entry>)
    requires items != [] && entries != []
    ensures ReadItems(items, seen) == Ok(entries) <==>
      && ReadItem(items[0]) == Ok(entries[0]) && entries[0] !in seen
      && ReadItems(items[1..], seen + {entries[0]}) == Ok(entries[1..])
  {
    assert entries == [entries[0]] + entries[1..];
  }

  /** What is read was written as it is, and every valid collection is read. */
  lemma {:induction false} ReadCollectionMeaning(items: seq<Item>, entries: seq<Entry>)
    ensures ReadCollection(items) == Ok(entries) <==> items == AsItems(entries) && ValidCollection(entries)
  {
    EntryLessIsStrictTotal();
    ReadItemsMeaning(items, {}, entries);
    SortedFixpoint(entries);
    DistinctSortedAscends(entries, EntryLess);
  }

  lemma {:induction false} ReadResultMeaning(w: Written, r: Comparison)
    ensures ReadResult(w) == Ok(r) <==> w == AsWritten(r) && ResultError(r).Ok?
  {
    ReadCollectionMeaning(w.added, r.added);
    ReadCollectionMeaning(w.removed, r.removed);
    ReadCollectionMeaning(w.kept, r.kept);
    ResultErrorMeaning(r);
  }

  lemma {:induction false} ResultErrorMeaning(r: Comparison)
    ensures ResultError(r).Ok? <==>
      WellLabelled(r) && ValidCollection(r.added) && ValidCollection(r.removed) && ValidCollection(r.kept)
  {}

  /** A result passes exactly when it is the written form of one that passes on its entries. */
  lemma {:induction false} WrittenMeaning(h: Runtime, w: Written, r: Comparison, baseline: Manifest,
      candidate: Manifest)
    ensures ValidateWritten(h, w, baseline, candidate) == Ok(r) <==>
      w == AsWritten(r) && ValidateResult(h, r, baseline, candidate) == Ok(r)
  {
    ReadResultMeaning(w, r);
  }

  // ---------------------------------------------------------------- results that make the parent raise

  /** The collection is read. */
  ghost predicate Reads(items: seq<Item>) {
    exists entries :: items == AsItems(entries) && ValidCollection(entries)
  }

  predicate Identifier(field: Field) {
    field.Text? && IsIdentifier(field.text)
  }

  /** The first component that is no identifier holds a lone surrogate. */
  predicate Unencodable(x: Item) {
    && x.Fields?
    && (x.namespace.LoneSurrogate?
        || (Identifier(x.namespace) && (x.item.LoneSurrogate? || (Identifier(x.item) && x.version.LoneSurrogate?))))
  }

  /** Well-formed, distinct entries, none of them seen before, and then an unencodable one. */
  ghost predicate TripsAfter(items: seq<Item>, seen: set<Entry>, before: seq<Entry>) {
    && |before| < |items| && items[..|before|] == AsItems(before) && Unencodable(items[|before|])
    && Distinct(before) && forall e <- before :: ValidEntry(e) && e !in seen
  }

  ghost predicate Trips(items: seq<Item>) {
    |items| <= 128 && exists before :: TripsAfter(items, {}, before)
  }

  /** A well-labelled result whose first list that is not read trips the parent. */
  ghost predicate TripsParent(w: Written) {
    && WellLabelled(w.With([], [], []))
    && (Trips(w.added) || (Reads(w.added) && (Trips(w.removed) || (Reads(w.removed) && Trips(w.kept)))))
  }

  lemma {:induction false} UnencodableMeaning(x: Item)
    ensures ReadItem(x) == Err(UnicodeEncodeError) <==> Unencodable(x)
  {}

  lemma {:induction false} TripsStep(items: seq<Item>, seen: set<Entry>, e: Entry, rest: seq<Entry>)
    requires items != [] && ReadItem(items[0]) == Ok(e) && e !in seen
    ensures TripsAfter(items, seen, [e] + rest) <==> TripsAfter(items[1..], seen + {e}, rest)
  {
    ReadItemMeaning(items[0]);
    if |rest| + 1 < |items| {
      PrefixStep(items, e, rest);
    }
    DistinctStep(e, rest, seen);
  }

  lemma {:induction false} PrefixStep(items: seq<Item>, e: Entry, rest: seq<Entry>)
    requires |rest| + 1 < |items| && items[0] == AsItem(e)
    ensures items[..|rest| + 1] == AsItems([e] + rest) <==> items[1..][..|rest|] == AsItems(rest)
  {
    assert items[..|rest| + 1] == [items[0]] + items[1..][..|rest|];
    assert AsItems([e] + rest) == [AsItem(e)] + AsItems(rest);
  }

  lemma {:induction false} DistinctStep(e: Entry, rest: seq<Entry>, seen: set<Entry>)
    requires ValidEntry(e) && e !in seen
    ensures Distinct([e] + rest) && (forall x <- [e] + rest :: ValidEntry(x) && x !in seen) <==>
      Distinct(rest) && forall x <- rest :: ValidEntry(x) && x !in seen + {e}
  {
    var all := [e] + rest;
    assert all[1..] == rest;
    if Distinct(all) {
      assert forall i :: 0 <= i < |rest| ==> rest[i] == all[i + 1] && all[i + 1] != all[0];
    }
  }

  lemma {:induction false} TripsHead(items: seq<Item>, seen: set<Entry>, before: seq<Entry>)
    requires TripsAfter(items, seen, before)
    ensures before == [] ==> ReadItem(items[0]) == Err(UnicodeEncodeError)
    ensures before != [] ==> ReadItem(items[0]) == Ok(before[0]) && before[0] !in seen
  {
    UnencodableMeaning(items[|before|]);
    if before != [] {
      assert items[0] == items[..|before|][0] == AsItem(before[0]);
      ReadItemMeaning(items[0]);
    }
  }

  lemma {:induction false} ReadItemsTrips(items: seq<Item>, seen: set<Entry>)
    ensures ReadItems(items, seen) == Err(UnicodeEncodeError) <==> exists before :: TripsAfter(items, seen, before)
  {
    if before :| TripsAfter(items, seen, before) {
      TripsHead(items, seen, before);
    }
    if items != [] {
      UnencodableMeaning(items[0]);
      if Unencodable(items[0]) {
        assert TripsAfter(items, seen, []);
      } else if ReadItem(items[0]).Ok? && ReadItem(items[0]).value !in seen {
        var e := ReadItem(items[0]).value;
        ReadItemsTrips(items[1..], seen + {e});
        if rest :| TripsAfter(items[1..], seen + {e}, rest) {
          TripsStep(items, seen, e, rest);
        }
        if before :| TripsAfter(items, seen, before) {
          TripsHead(items, seen, before);
          assert before == [e] + before[1..];
          TripsStep(items, seen, e, before[1..]);
        }
      }
    }
  }

  lemma {:induction false} ReadCollectionTrips(items: seq<Item>)
    ensures ReadCollection(items).Ok? <==> Reads(items)
    ensures ReadCollection(items) == Err(UnicodeEncodeError) <==> Trips(items)
  {
    ReadItemsTrips(items, {});
    if ReadCollection(items).Ok? {
      ReadCollectionMeaning(items, ReadCollection(items).value);
    }
    if entries :| items == AsItems(entries) && ValidCollection(entries) {
      ReadCollectionMeaning(items, entries);
    }
  }

  function Prepend(entries: seq<Entry>, rest: Result<seq<Entry>>): Result<seq<Entry>> {
    match rest case Ok(more) => Ok(entries + more) case Err(error) => Err(error)
  }

  lemma {:induction false} PrependNone(rest: Result<seq<Entry>>)
    ensures Prepend([], rest) == rest
  {
    if rest.Ok? {
      assert [] + rest.value == rest.value;
    }
  }

  /** The loop over the entries of a list as it is written. */
  method CollectItems(items: seq<Item>) returns (r: Result<seq<Entry>>)
    ensures r == ReadItems(items, {})
  {
    var entries: seq<Entry>, seen: set<Entry> := [], {};
    ghost var whole := ReadItems(items, {});
    assert items[0..] == items;
    PrependNone(whole);
    for i := 0 to |items|
      invariant whole == Prepend(entries, ReadItems(items[i..], seen))
    {
      var e := ReadItem(items[i]);
      ItemsStep(items, i, seen, entries);
      if e.Err? {
        return Err(e.error);
      }
      if e.value in seen {
        return Err(InvalidReplayDocument);
      }
      entries, seen := entries + [e.value], seen + {e.value};
    }
    assert entries + [] == entries;
    return Ok(entries);
  }

  /** One pass of the source's outer loop over a list as it is written. */
  method ValidateItems(items: seq<Item>) returns (r: Result<seq<Entry>>)
    ensures r == ReadCollection(items)
    ensures r.Ok? <==> Reads(items)
    ensures r == Err(UnicodeEncodeError) <==> Trips(items)
  {
    ReadCollectionTrips(items);
    if |items| > 128 {
      return Err(InvalidReplayDocument);
    }
    r := CollectItems(items);
    if r.Ok? && r.value != Sort(r.value, EntryLess) {
      r := Err(NoncanonicalReplayDocument);
    }
  }

  lemma {:induction false} ItemsStep(items: seq<Item>, i: nat, seen: set<Entry>, entries: seq<Entry>)
    requires i < |items|
    ensures var e, here := ReadItem(items[i]), Prepend(entries, ReadItems(items[i..], seen));
      if e.Err? then here == Err(e.error)
      else if e.value in seen then here == Err(InvalidReplayDocument)
      else here == Prepend(entries + [e.value], ReadItems(items[i + 1..], seen + {e.value}))
  {
    assert items[i..][1..] == items[i + 1..];
    var e := ReadItem(items[i]);
    if e.Ok? && e.value !in seen {
      PrependOne(entries, e.value, ReadItems(items[i + 1..], seen + {e.value}));
    }
  }

  lemma {:induction false} PrependOne(entries: seq<Entry>, e: Entry, rest: Result<seq<Entry>>)
    ensures Prepend(entries, Prepend([e], rest)) == Prepend(entries + [e], rest)
  {
    if rest.Ok? {
      Associates(entries, [e], rest.value);
    }
  }

  /** Which written results make the parent raise an error that it does not turn into one of
      its own: none whose components all have a UTF-8 form. */
  lemma {:induction false} UnencodableResult(h: Runtime, w: Written, baseline: Manifest, candidate: Manifest)
    ensures ValidateWritten(h, w, baseline, candidate) == Err(UnicodeEncodeError) <==> TripsParent(w)
  {
    ReadCollectionTrips(w.added);
    ReadCollectionTrips(w.removed);
    ReadCollectionTrips(w.kept);
  }

  lemma {:induction false} TextsAreEncodable(entries: seq<Entry>)
    ensures !Trips(AsItems(entries))
  {}

  /** A result of strings that have a UTF-8 form does not trip the parent. */
  lemma {:induction false} TextsDoNotTrip(r: Comparison)
    ensures !TripsParent(AsWritten(r))
  {
    TextsAreEncodable(r.added);
    TextsAreEncodable(r.removed);
    TextsAreEncodable(r.kept);
  }

  lemma {:induction false} AsItemsInjective(a: seq<Entry>, b: seq<Entry>)
    requires AsItems(a) == AsItems(b)
    ensures a == b
  {
    forall i | 0 <= i < |a| ensures a[i] == b[i] {
      assert AsItems(a)[i] == AsItem(a[i]) && AsItems(b)[i] == AsItem(b[i]);
    }
  }

  lemma {:induction false} AsWrittenInjective(a: Comparison, b: Comparison)
    requires AsWritten(a) == AsWritten(b)
    ensures a == b
  {
    AsItemsInjective(a.added, b.added);
    AsItemsInjective(a.removed, b.removed);
    AsItemsInjective(a.kept, b.kept);
  }

  // ---------------------------------------------------------------- the gate

  /** What the launch of the child yields: no usable result, a result nested so deeply that its
      decoding exhausts the interpreter's stack, or a decoded result. */
  datatype ChildRun = NoResult | TooDeep | Wrote(result: Written)

  /** `replay`. */
  function Replayed(h: Runtime, baseline: Manifest, candidate: Manifest, expectedBase: string,
      child: ChildRun): Result<Comparison> {
    var _ :- TransitionError(baseline, candidate);
    if expectedBase != h.digest(ManifestJson(baseline)) then Err(ReplayBaseMismatch)
    else match child
      case NoResult => Err(SandboxedReplayFailedClosed)
      case TooDeep => Err(RecursionError)
      case Wrote(result) => ValidateWritten(h, result, baseline, candidate)
  }

  /** What the gate lets through is a validated result of the child for an allowed transition. */
  lemma {:induction false} ReplayedMeaning(h: Runtime, baseline: Manifest, candidate: Manifest, expectedBase: string,
      child: ChildRun, r: Comparison)
    ensures Replayed(h, baseline, candidate, expectedBase, child) == Ok(r) <==>
      && ValidTransition(baseline, candidate) && expectedBase == h.digest(ManifestJson(baseline))
      && child == Wrote(AsWritten(r)) && ValidateResult(h, r, baseline, candidate) == Ok(r)
  {
    if child.Wrote? {
      WrittenMeaning(h, child.result, r, baseline, candidate);
    }
  }

  /** A child whose answer makes the parent raise. */
  ghost predicate Breaks(child: ChildRun) {
    child.TooDeep? || (child.Wrote? && TripsParent(child.result))
  }

  /** An error escapes exactly on an allowed request that such a child answers. */
  lemma {:induction false} EscapeMeaning(h: Runtime, baseline: Manifest, candidate: Manifest, expectedBase: string,
      child: ChildRun)
    ensures var gate := Replayed(h, baseline, candidate, expectedBase, child);
      gate.Err? && Escapes(gate.error) <==>
        ValidTransition(baseline, candidate) && expectedBase == h.digest(ManifestJson(baseline)) && Breaks(child)
    ensures var gate := Replayed(h, baseline, candidate, expectedBase, child);
      gate.Err? && Escapes(gate.error) ==> gate.error == if child.TooDeep? then RecursionError else UnicodeEncodeError
  {
    match child
    case NoResult =>
    case TooDeep =>
    case Wrote(w) => EscapeWritten(h, baseline, candidate, w);
  }

  lemma {:induction false} EscapeWritten(h: Runtime, baseline: Manifest, candidate: Manifest, w: Written)
    ensures var checked := ValidateWritten(h, w, baseline, candidate);
      && (checked.Err? && Escapes(checked.error) <==> TripsParent(w))
      && (checked.Err? ==> checked.error != RecursionError)
  {
    UnencodableResult(h, w, baseline, candidate);
  }

  // ---------------------------------------------------------------- what a difference says

  lemma {:induction false} TransitionSets(baseline: Manifest, candidate: Manifest)
    requires ValidTransition(baseline, candidate)
    ensures candidate.items == baseline.items
    ensures Elements(baseline.quarantine) <= Elements(candidate.quarantine)
    ensures |Elements(candidate.quarantine) - Elements(baseline.quarantine)| <= 1
    ensures baseline.quarantine == SortedEntries(Elements(baseline.quarantine))
    ensures candidate.quarantine == SortedEntries(Elements(candidate.quarantine))
  {
    AscendingIsListing(baseline.quarantine);
    AscendingIsListing(candidate.quarantine);
  }

  /** On an allowed transition nothing is removed, what is kept is the baseline's quarantine,
      added and kept together are the candidate's, at most one entry is added, and none is
      exactly when the documents are equal. */
  lemma {:induction false} DifferenceMeaning(h: Runtime, baseline: Manifest, candidate: Manifest, r: Comparison)
    requires ValidTransition(baseline, candidate) && MatchesDocuments(h, r, baseline, candidate)
    ensures r.removed == [] && r.kept == baseline.quarantine
    ensures SortedEntries(Elements(r.added) + Elements(r.kept)) == candidate.quarantine
    ensures Elements(r.added) !! Elements(r.kept) && |r.added| <= 1
    ensures r.added == [] <==> baseline == candidate
    ensures r.documentsEqual <==> r.added == []
  {
    MatchingIsListing(h, r, baseline, candidate);
    ListedDifference(h, baseline, candidate, r);
  }

  lemma {:induction false} ListedDifference(h: Runtime, baseline: Manifest, candidate: Manifest, r: Comparison)
    requires ValidTransition(baseline, candidate) && MatchesListing(h, r, baseline, candidate)
    ensures r.removed == [] && r.kept == baseline.quarantine
    ensures SortedEntries(Elements(r.added) + Elements(r.kept)) == candidate.quarantine
    ensures Elements(r.added) !! Elements(r.kept) && |r.added| <= 1
    ensures r.added == [] <==> baseline == candidate
    ensures r.documentsEqual <==> r.added == []
  {
    TransitionSets(baseline, candidate);
    DifferenceSets(Elements(baseline.quarantine), Elements(candidate.quarantine));
  }

  lemma {:induction false} DifferenceSets(before: set<Entry>, after: set<Entry>)
    requires before <= after
    ensures SortedEntries(before - after) == [] && before * after == before && (after - before) + before == after
    ensures SortedEntries(after - before) == [] <==> before == after
  {
    assert before - after == {};
    assert after - before == {} <==> before == after;
    assert |SortedEntries(after - before)| == |after - before|;
  }

  lemma {:induction false} DifferencesValid(before: seq<Entry>, after: seq<Entry>)
    requires ValidCollection(before) && ValidCollection(after)
    ensures ValidCollection(SortedEntries(Elements(after) - Elements(before)))
    ensures ValidCollection(SortedEntries(Elements(before) - Elements(after)))
    ensures ValidCollection(SortedEntries(Elements(before) * Elements(after)))
  {
    ListedCollection(Elements(after) - Elements(before), after);
    ListedCollection(Elements(before) - Elements(after), before);
    ListedCollection(Elements(before) * Elements(after), before);
  }

  lemma {:induction false} ListedCollection(s: set<Entry>, entries: seq<Entry>)
    requires s <= Elements(entries) && ValidCollection(entries)
    ensures ValidCollection(SortedEntries(s))
  {
    forall e | e in s ensures e in entries { assert e in Elements(entries); }
    ListedWithin(s, entries);
  }

  lemma {:induction false} HonestLabels(h: Runtime, baseline: Manifest, candidate: Manifest, expectedBase: string)
    ensures WellLabelled(CompareDocuments(h, baseline, candidate, expectedBase))
  {}

  lemma {:induction false} HonestResultWellFormed(h: Runtime, baseline: Manifest, candidate: Manifest)
    requires ValidCollection(baseline.quarantine) && ValidCollection(candidate.quarantine)
    ensures ResultError(CompareDocuments(h, baseline, candidate, h.digest(ManifestJson(baseline)))).Ok?
  {
    var honest := CompareDocuments(h, baseline, candidate, h.digest(ManifestJson(baseline)));
    HonestLabels(h, baseline, candidate, h.digest(ManifestJson(baseline)));
    CompareListing(h, baseline, candidate, h.digest(ManifestJson(baseline)));
    DifferencesValid(baseline.quarantine, candidate.quarantine);
    WellFormedResult(honest);
  }

  lemma {:induction false} WellFormedResult(r: Comparison)
    requires WellLabelled(r) && ValidCollection(r.added) && ValidCollection(r.removed) && ValidCollection(r.kept)
    ensures ResultError(r).Ok?
  {
    ResultErrorMeaning(r);
  }

  /** What an accepted result is known to hold. */
  lemma {:induction false} AcceptedListing(h: Runtime, r: Comparison, baseline: Manifest, candidate: Manifest)
    requires ValidateResult(h, r, baseline, candidate).Ok?
    ensures WellLabelled(r) && MatchesListing(h, r, baseline, candidate)
  {
    MatchingIsListing(h, r, baseline, candidate);
  }

  /** Child and parent agree: the honest child's result is accepted exactly when it does not
      rest on a digest collision of the two documents. */
  lemma {:induction false} ChildAndParentAgree(h: Runtime, baseline: Manifest, candidate: Manifest)
    requires ValidTransition(baseline, candidate)
    ensures var honest := CompareDocuments(h, baseline, candidate, h.digest(ManifestJson(baseline)));
      ValidateResult(h, honest, baseline, candidate) == Ok(honest) <==>
        !Collision(h, ManifestJson(baseline), ManifestJson(candidate))
  {
    HonestResultWellFormed(h, baseline, candidate);
    ManifestJsonInjective(baseline, candidate);
    var honest := CompareDocuments(h, baseline, candidate, h.digest(ManifestJson(baseline)));
    assert MatchesDocuments(h, honest, baseline, candidate) <==> honest.documentsEqual == (baseline == candidate);
  }

  /** An accepted result, whoever wrote it, differs from the honest child's at most in the
      equality flag, and not at all where the two documents do not collide. */
  lemma {:induction false} AcceptedResultIsUnique(h: Runtime, baseline: Manifest, candidate: Manifest, r: Comparison)
    requires ValidateResult(h, r, baseline, candidate).Ok?
    ensures var honest := CompareDocuments(h, baseline, candidate, h.digest(ManifestJson(baseline)));
      && r == honest.(documentsEqual := baseline == candidate)
      && (!Collision(h, ManifestJson(baseline), ManifestJson(candidate)) ==> r == honest)
  {
    ManifestJsonInjective(baseline, candidate);
  }
}
