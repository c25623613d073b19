/** One base-bound, declarative memory-quarantine patch and its reversal. */
module Patching {
  import opened Orders
  import opened Records
  import opened Documents

  /** `build_patch`. */
  function BuildPatch(h: Runtime, manifest: Manifest, target: Entry, hypothesisRef: string): Result<Patch> {
    if ValidEntry(target) && IsIdentifier(hypothesisRef) then
      Ok(Patch("memory-quarantine-1", h.digest(ManifestJson(manifest)), "quarantine", target, "end-of-replay",
          hypothesisRef,
        Reverse("remove_quarantine", target)))
    else Err(InvalidPatchIdentifier)
  }

  /** `validate_patch`, as the first error it raises. */
  function PatchError(h: Runtime, patch: Patch, manifest: Manifest): Result<()> {
    if patch.patchVersion != "memory-quarantine-1"
        || patch.operation != "quarantine" then Err(InvalidOrExecutablePatchFields)
    else if patch.baseHash != h.digest(ManifestJson(manifest))
        || patch.expiry != "end-of-replay" then Err(PatchBaseOrExpiryMismatch)
    else if patch.reverse.operation != "remove_quarantine" then Err(InvalidReverseDelta)
    else if !ValidEntry(patch.target) || !IsIdentifier(patch.hypothesisRef) then Err(InvalidPatchIdentifier)
    else if patch.reverse.target != patch.target then Err(ReverseDeltaMismatch)
    else Ok(())
  }

  predicate WellFormed(manifest: Manifest) {
    (forall e <- manifest.items :: ValidEntry(e)) && forall e <- manifest.quarantine :: ValidEntry(e)
  }

  function Count(xs: seq<Entry>, e: Entry): nat {
    multiset(xs)[e]
  }

  function RemoveFirst(xs: seq<Entry>, e: Entry): (r: seq<Entry>)
    requires e in xs
    ensures multiset(r) == multiset(xs) - multiset{e}
  {
    assert xs == [xs[0]] + xs[1..];
    if xs[0] == e then xs[1..] else [xs[0]] + RemoveFirst(xs[1..], e)
  }

  /** `apply_patch` by its result: the target joins the sorted quarantine and nothing else changes. */
  function Applied(h: Runtime, manifest: Manifest, patch: Patch): Result<Manifest> {
    var _ :- PatchError(h, patch, manifest);
    QuarantineEntry(manifest, patch.target)
  }

  function QuarantineEntry(manifest: Manifest, target: Entry): Result<Manifest> {
    if !WellFormed(manifest) then Err(InvalidMemoryManifest)
    else if Count(manifest.items, target) != 1 then Err(PatchTargetMissingOrAmbiguous)
    else if target in manifest.quarantine then Err(PatchTargetAlreadyQuarantined)
    else Ok(Manifest(manifest.items, Sort(manifest.quarantine + [target], EntryLess)))
  }

  function Reversed(candidate: Manifest, target: Entry): Result<Manifest> {
    if !WellFormed(candidate) then Err(InvalidMemoryManifest)
    else if Count(candidate.quarantine, target) != 1 then Err(ReverseTargetMismatch)
    else
      assert target in multiset(candidate.quarantine);
      Ok(Manifest(candidate.items, RemoveFirst(candidate.quarantine, target)))
  }

  /** `apply_patch`: the edits are made on a copy, so the manifest itself is untouched. */
  method ApplyPatch(h: Runtime, manifest: Manifest, patch: Patch) returns (r: Result<Manifest>)
    ensures r == Applied(h, manifest, patch)
    ensures r.Ok? ==> r.value.items == manifest.items && NonDescending(r.value.quarantine, EntryLess)
    ensures r.Ok? ==> multiset(r.value.quarantine) == multiset(manifest.quarantine) + multiset{patch.target}
  {
    var checked := PatchError(h, patch, manifest);
    if checked.Err? {
      return Err(checked.error);
    }
    if !WellFormed(manifest) {
      return Err(InvalidMemoryManifest);
    }
    var quarantine := manifest.quarantine;
    if Count(manifest.items, patch.target) != 1 {
      return Err(PatchTargetMissingOrAmbiguous);
    }
    if patch.target in quarantine {
      return Err(PatchTargetAlreadyQuarantined);
    }
    quarantine := quarantine + [patch.target];
    EntryLessIsStrictTotal();
    SortSorts(quarantine, EntryLess);
    quarantine := Sort(quarantine, EntryLess);
    return Ok(Manifest(manifest.items, quarantine));
  }

  /** `reverse_patch`. */
  method ReversePatch(candidate: Manifest, patch: Patch) returns (r: Result<Manifest>)
    ensures r == Reversed(candidate, patch.target)
    ensures r.Ok? ==> r.value.items == candidate.items
    ensures r.Ok? ==> multiset(candidate.quarantine) == multiset(r.value.quarantine) + multiset{patch.target}
    ensures r.Ok? ==> patch.target !in r.value.quarantine
  {
    if !WellFormed(candidate) {
      return Err(InvalidMemoryManifest);
    }
    var quarantine := candidate.quarantine;
    if Count(quarantine, patch.target) != 1 {
      return Err(ReverseTargetMismatch);
    }
    assert patch.target in multiset(quarantine);
    quarantine := RemoveFirst(quarantine, patch.target);
    assert patch.target !in multiset(quarantine);
    return Ok(Manifest(candidate.items, quarantine));
  }

  // ---------------------------------------------------------------- round trip

  lemma {:induction false} RemoveKeepsOrder(xs: seq<Entry>, e: Entry)
    requires NonDescending(xs, EntryLess) && e in xs
    ensures NonDescending(RemoveFirst(xs, e), EntryLess)
  {
    if xs[0] != e {
      var tail := xs[1..];
      var rest := RemoveFirst(tail, e);
      RemoveKeepsOrder(tail, e);
      RemoveMembers(tail, e);
      forall j | 0 <= j < |rest| ensures !EntryLess(rest[j], xs[0]) {
        assert rest[j] in rest && rest[j] in tail;
        var k :| 0 <= k < |tail| && tail[k] == rest[j];
        assert !EntryLess(xs[k + 1], xs[0]);
      }
      ConsKeepsOrder(xs[0], rest);
    }
  }

  lemma {:induction false} RemoveMembers(xs: seq<Entry>, e: Entry)
    requires e in xs
    ensures forall x <- RemoveFirst(xs, e) :: x in xs
  {
    forall x | x in RemoveFirst(xs, e) ensures x in xs {
      assert x in multiset(RemoveFirst(xs, e));
    }
  }

  lemma {:induction false} ConsKeepsOrder(x: Entry, rest: seq<Entry>)
    requires NonDescending(rest, EntryLess) && forall j :: 0 <= j < |rest| ==> !EntryLess(rest[j], x)
    ensures NonDescending([x] + rest, EntryLess)
  {}

  /** Removing the added entry from the re-sorted list gives the sorted original. */
  lemma {:induction false} RemoveAdded(xs: seq<Entry>, e: Entry)
    ensures e in Sort(xs + [e], EntryLess)
    ensures RemoveFirst(Sort(xs + [e], EntryLess), e) == Sort(xs, EntryLess)
  {
    EntryLessIsStrictTotal();
    var sorted := Sort(xs + [e], EntryLess);
    assert e in multiset(xs + [e]);
    assert e in multiset(sorted);
    SortSorts(xs + [e], EntryLess);
    SortSorts(xs, EntryLess);
    RemoveKeepsOrder(sorted, e);
    assert multiset(RemoveFirst(sorted, e)) == multiset(xs);
    SortedIsUnique(RemoveFirst(sorted, e), Sort(xs, EntryLess), EntryLess);
  }

  lemma {:induction false} ReversalOfQuarantine(manifest: Manifest, target: Entry)
    requires QuarantineEntry(manifest, target).Ok?
    ensures Reversed(QuarantineEntry(manifest, target).value, target)
      == Ok(Manifest(manifest.items, Sort(manifest.quarantine, EntryLess)))
  {
    var q, e := manifest.quarantine, target;
    RemoveAdded(q, e);
    AddedOnce(q, e);
    ReversedList(manifest.items, Sort(q + [e], EntryLess), e);
  }

  lemma {:induction false} ReversedList(items: seq<Entry>, list: seq<Entry>, e: Entry)
    requires e in list && Count(list, e) == 1 && WellFormed(Manifest(items, list))
    ensures Reversed(Manifest(items, list), e) == Ok(Manifest(items, RemoveFirst(list, e)))
  {}

  lemma {:induction false} AddedOnce(q: seq<Entry>, e: Entry)
    requires e !in q
    ensures Count(Sort(q + [e], EntryLess), e) == 1
    ensures forall x <- Sort(q + [e], EntryLess) :: x in q || x == e
  {
    assert e !in multiset(q);
    MultisetMembers(Sort(q + [e], EntryLess), q + [e]);
  }

  /** Reversal undoes application on every manifest the application accepts, up to the order
      of the quarantine list; the manifest itself comes back if and only if its quarantine
      list was in key order, which `apply_patch` does not check. */
  lemma {:induction false} ReversalExact(h: Runtime, manifest: Manifest, patch: Patch)
    requires Applied(h, manifest, patch).Ok?
    ensures var candidate := Applied(h, manifest, patch).value;
      && Reversed(candidate, patch.target) == Ok(Manifest(manifest.items, Sort(manifest.quarantine, EntryLess)))
      && (Reversed(candidate, patch.target) == Ok(manifest) <==> NonDescending(manifest.quarantine, EntryLess))
  {
    ReversalOfQuarantine(manifest, patch.target);
    SortedFixpoint(manifest.quarantine);
  }

  /** An accepted manifest whose reversal differs: its quarantine list is out of order. */
  lemma {:induction false} UnsortedQuarantineIsNotRestored(h: Runtime, hypothesisRef: string)
    requires IsIdentifier(hypothesisRef)
    ensures var a, b, c := Entry("n", "i", "a"), Entry("n", "i", "b"), Entry("n", "i", "c");
      NotRestored(h, Manifest([a, b, c], [b, a]), c, hypothesisRef)
  {
    UnsortedIsNotRestored(h, Entry("n", "i", "a"), Entry("n", "i", "b"), Entry("n", "i", "c"), hypothesisRef);
  }

  /** A patch for the target is built and applies, and its reversal is another manifest. */
  predicate NotRestored(h: Runtime, manifest: Manifest, target: Entry, hypothesisRef: string) {
    var patch := BuildPatch(h, manifest, target, hypothesisRef);
    && patch.Ok?
    && var candidate := Applied(h, manifest, patch.value);
       candidate.Ok? && Reversed(candidate.value, patch.value.target) != Ok(manifest)
  }

  lemma {:induction false} UnsortedIsNotRestored(h: Runtime, a: Entry, b: Entry, c: Entry, hypothesisRef: string)
    requires ValidEntry(a) && ValidEntry(b) && ValidEntry(c) && a != c && b != c && EntryLess(a, b)
    requires IsIdentifier(hypothesisRef)
    ensures NotRestored(h, Manifest([a, b, c], [b, a]), c, hypothesisRef)
  {
    var manifest := Manifest([a, b, c], [b, a]);
    BuiltPatchPasses(h, manifest, c, hypothesisRef);
    StepIsNotRestored(a, b, c);
    PatchNotRestored(h, manifest, c, hypothesisRef);
  }

  lemma {:induction false} PatchNotRestored(h: Runtime, manifest: Manifest, target: Entry, hypothesisRef: string)
    requires var patch := BuildPatch(h, manifest, target, hypothesisRef);
      patch.Ok? && patch.value.target == target && PatchError(h, patch.value, manifest).Ok?
    requires QuarantineEntry(manifest, target).Ok?
    requires Reversed(QuarantineEntry(manifest, target).value, target) != Ok(manifest)
    ensures NotRestored(h, manifest, target, hypothesisRef)
  {}

  lemma {:induction false} StepIsNotRestored(a: Entry, b: Entry, c: Entry)
    requires ValidEntry(a) && ValidEntry(b) && ValidEntry(c) && a != c && b != c && EntryLess(a, b)
    ensures var manifest := Manifest([a, b, c], [b, a]);
      QuarantineEntry(manifest, c).Ok? && Reversed(QuarantineEntry(manifest, c).value, c) != Ok(manifest)
  {
    SwappedIsUnsorted(a, b);
    TargetIsOnce(a, b, c);
    ReversalOfQuarantine(Manifest([a, b, c], [b, a]), c);
  }

  lemma {:induction false} SwappedIsUnsorted(a: Entry, b: Entry)
    requires EntryLess(a, b)
    ensures [b, a] != Sort([b, a], EntryLess)
  {
    assert EntryLess([b, a][1], [b, a][0]);
    SortedFixpoint([b, a]);
  }

  lemma {:induction false} TargetIsOnce(a: Entry, b: Entry, c: Entry)
    requires ValidEntry(a) && ValidEntry(b) && ValidEntry(c) && a != c && b != c
    ensures QuarantineEntry(Manifest([a, b, c], [b, a]), c).Ok?
  {
    CountOfThree(a, b, c);
  }

  lemma {:induction false} CountOfThree(a: Entry, b: Entry, c: Entry)
    requires a != c && b != c
    ensures Count([a, b, c], c) == 1
  {
    assert [a, b, c] == [a] + [b] + [c];
  }

  lemma {:induction false} BuiltPatchPasses(h: Runtime, manifest: Manifest, target: Entry, hypothesisRef: string)
    requires ValidEntry(target) && IsIdentifier(hypothesisRef)
    ensures var patch := BuildPatch(h, manifest, target, hypothesisRef);
      patch.Ok? && patch.value.target == target && PatchError(h, patch.value, manifest).Ok?
  {}

  /** On a valid document a patch is built and applies exactly when its target is an item
      not yet quarantined; reversal then restores the document, and the result is a valid
      document again, with the target the only change. */
  lemma {:induction false} PatchRoundTrip(h: Runtime, manifest: Manifest, target: Entry, hypothesisRef: string)
    requires ValidDocument(manifest) && ValidEntry(target) && IsIdentifier(hypothesisRef)
    ensures var patch := BuildPatch(h, manifest, target, hypothesisRef);
      && patch.Ok? && patch.value.target == target && patch.value.baseHash == h.digest(ManifestJson(manifest))
      && var candidate := Applied(h, manifest, patch.value);
      && (candidate.Ok? <==> target in manifest.items && target !in manifest.quarantine)
      && (candidate.Ok? ==>
            && ValidDocument(candidate.value) && candidate.value.items == manifest.items
            && Elements(candidate.value.quarantine) == Elements(manifest.quarantine) + {target}
            && Reversed(candidate.value, target) == Ok(manifest))
  {
    BuiltPatchPasses(h, manifest, target, hypothesisRef);
    QuarantineOnValid(manifest, target);
  }

  lemma {:induction false} QuarantineOnValid(manifest: Manifest, target: Entry)
    requires ValidDocument(manifest)
    ensures var candidate := QuarantineEntry(manifest, target);
      && (candidate.Ok? <==> target in manifest.items && target !in manifest.quarantine)
      && (candidate.Ok? ==>
            && ValidDocument(candidate.value) && candidate.value.items == manifest.items
            && Elements(candidate.value.quarantine) == Elements(manifest.quarantine) + {target}
            && Reversed(candidate.value, target) == Ok(manifest))
  {
    AscendingIsListing(manifest.items);
    DistinctCounts(manifest.items);
    assert target in manifest.items <==> target in multiset(manifest.items);
    if QuarantineEntry(manifest, target).Ok? {
      EntryLessIsStrictTotal();
      DistinctSortedAscends(manifest.quarantine, EntryLess);
      SortedFixpoint(manifest.quarantine);
      ReversalOfQuarantine(manifest, target);
      QuarantineGrows(manifest, target);
    }
  }

  lemma {:induction false} QuarantineGrows(manifest: Manifest, target: Entry)
    requires ValidDocument(manifest) && target in manifest.items && target !in manifest.quarantine
    ensures var candidate := Manifest(manifest.items, Sort(manifest.quarantine + [target], EntryLess));
      ValidDocument(candidate) && Elements(candidate.quarantine) == Elements(manifest.quarantine) + {target}
  {
    var grown := manifest.quarantine + [target];
    assert Elements(grown) == Elements(manifest.quarantine) + {target};
    assert Sort(grown, EntryLess) == SortedEntries(Elements(grown)) by {
      AscendingIsListing(manifest.quarantine);
      SortIsListing(grown);
    }
    ListedWithin(Elements(grown), manifest.items);
  }
}
