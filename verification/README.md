# Verified model of the trajectory ledger

The trajectory ledger reads one bounded JSON trace of an agent run, projects it to typed
records, links the records into a hash chain, looks for four invariant violations, proposes at
most one memory quarantine, compares the memory document with and without it, and writes an
evidence packet. Its strongest output is the recommendation that a human may consider the
proposal; everything else is abstention. No part of this calls a model, so what the packet says
is a function of the trace, of what the sandboxed comparison process answers and of the
operator's attestation. This project models that function and the protocol that persists its
result, and proves what the two promise.

The parts, in the order of the pipeline:

- `Orders.dfy`: strict orders, `sorted` and sorted listings of sets.
- `Numerals.dfy`, `Json.dfy`: JSON values, the canonical encoder and a decoder (sections 2 to 7
  of RFC 8259), floating-point literals included.
- `Records.dfy`: payloads, envelopes, digests and the stored form of each.
- `Wording.dfy`: the search for prohibited terms in a rendered document.
- `Ledger.dfy`: newline framing, the chain verifier, the append loops, and what the chain does
  and does not establish.
- `Ingest.dfy`, `Fixtures.dfy`: the size limits, the typed allowlist with its redaction and the
  ingestion loop; and a fixture for every ledger that ingestion allows.
- `Lineage.dfy`, `Analysis.dfy`, `Violations.dfy`: the lineage projection, the one-pass taint
  and quarantine machine, and the four findings with what they say of the records.
- `Documents.dfy`, `Patching.dfy`, `Replay.dfy`: memory documents, the quarantine patch and its
  reversal, and the two independently written comparisons of child and parent.
- `Diagnostic.dfy`: resolved failure points, proposals, the assessment and the review gate.
- `Pipeline.dfy`, `Exactness.dfy`, `Cli.dfy`: the run of one fixture, as a function, its
  characterisation on the trace alone, and the run as the sequence of steps the source takes.
- `Reachable.dfy`: fixtures on which the recommendation is given, and on which a run raises.
- `Corpus.dfy`, `Signature.dfy`, `Disposition.dfy`: the corpus validator's normalized signature
  and its recomputation of the patch disposition.
- `Renaming.dfy`: the analysis under a renaming of identifiers.
- `Commit.dfy`: the commit of the packet, as a step machine over storage that may fail.

Conventions. `Runtime` holds what the model does not look into: the digest, any function from
values to 64 hexadecimal digits, and how Python reads a floating-point literal. Nothing is
assumed of either: a theorem that needs two values told apart by their digests either hands
out the collision or names it in its statement, and `Records.CollisionOfTexts` turns a
collision of the source's digest into one of the text hash it is built on. Errors of the source are values
of `Result`, one constructor for each error code modelled. A method stands for source code that
works by loops and updates; it is proved equal to a function, and the lemmas are about the
function. The comparison process is `Child`, any function from the request to an outcome, so
what is proved holds for every answer it may give.

What the proofs found:

- A run on an accepted trace with a known attestation fails in two cases only
  (`Exactness.ReviewExactness`). One is an identifier that the report renders and that contains
  `because` or `proves`, the only two of the eight prohibited terms that fit an identifier
  (`Exactness.RunNamesMeaning`, `Wording.WordedMeaning`); `Reachable.BecauseRaises` gives a
  fixture on which no run concludes. The check of the diagnostic never raises when that of the
  report did not. The other is a due comparison whose answer makes `replay` raise what
  `run_fixture` does not catch: a result nested too deeply to be decoded, or one in which the
  validation meets a lone surrogate before anything malformed (`Replay.EscapeMeaning`,
  `Replay.UnencodableResult`); `Reachable.SurrogateRaises` gives such a result and a fixture.
- With an honest comparison process the recommendation needs no assumption on the digest at
  all: the parent compares the documents themselves, so an accepted comparison already rules
  the collision out (`Exactness.HonestReviewExactness`).
- Fields outside the allowlist do influence ingestion: the size limits look at them before
  they are redacted. Fixtures with the same redacted view give the same outcome if and only if
  both or neither are within the limits (`Ingest.RedactionNonInterference`), and
  `Fixtures.LimitsSeeRedactedFields` gives two of equal lengths that are told apart.
- Reversal of a patch does not always give the manifest back: `apply_patch` accepts a
  quarantine list that is out of key order and sorts it. `Patching.ReversalExact` states when
  it does, `Patching.UnsortedQuarantineIsNotRestored` gives a manifest on which it does not.
  Every manifest a run collects is in order (`Exactness.ManifestIsValid`).
- The corpus validator's dispositions and the run's differ on traces whose cited evidence is
  ambiguous, and when a due comparison fails closed; `Disposition.DispositionsAgree` is the
  exact condition and `Disposition.DispositionsCanDiffer` gives a fixture.
- What the chain does not protect: truncation is accepted at every point, and the last record
  may be exchanged for exactly those records that pass the verifier's checks at its place
  (`Ledger.LastRecordIsUnanchored`), so for an envelope of any payload
  (`Ledger.LastPayloadIsFree`). What it does protect: two accepted ledgers that agree in one
  record agree in all before it, so without a collision they share a prefix and differ in
  every record after it (`Ledger.AcceptedLedgersFork`); a single edit before the last record is
  rejected or exhibits the collision (`Ledger.EditIsDetected`).
- `README.md:31` of the repository says that a SHA-256 of unknown fields is kept. The code
  keeps only key, classification, byte length and a redaction marker
  (`trajectory_ledger/core.py:118-124`), and the model follows the code.

`dafny verify dfyconfig.toml --resource-limit 2000000 --verification-time-limit 0` checks the
project.

## Model

| member | source | states |
|---|---|---|
| `Json.DecodeEncode` | `trajectory_ledger/core.py:42-43` | decoding undoes the canonical encoding, on every value |
| `Json.PrintInjective` | `trajectory_ledger/core.py:42-43` | two values have one canonical text if and only if they are equal up to key order |
| `Json.PrintPrintable` | `trajectory_ledger/core.py:42-43` | the encoder emits printable ASCII only, so never a character that ends a line |
| `Records.CollisionOfTexts` | `trajectory_ledger/core.py:46-47` | two values collide under the digest exactly when their texts are different and collide under the text hash |
| `Records.RecordIdIsIdentifier` | `trajectory_ledger/core.py:193` | record identifiers fit the identifier grammar, so a patch may refer to one |
| `Numerals.FloatBefore` | `trajectory_ledger/core.py:271` | a floating-point literal is read whole, whatever may legitimately follow it |
| `Wording.RenderedMentions` | `trajectory_ledger/report.py:50-51` | a term occurs in the printed and lower-cased value exactly when it occurs in one of its keys or strings: no term crosses the punctuation of JSON |
| `Wording.WordedMeaning` | `trajectory_ledger/report.py:10` | the check finds one of the eight terms in an identifier exactly when the identifier contains `because` or `proves` |
| `Wording.DocumentRaises` | `trajectory_ledger/report.py:50-52` | a document of identifiers and of fixed words free of the terms raises exactly when one of its identifiers is worded |
| `Records.ManifestJsonInjective` | `trajectory_ledger/replay.py:88-96` | memory documents are determined by their stored form, so comparing documents and comparing their texts agree |
| `Ledger.SplitFrame` | `trajectory_ledger/core.py:262-269` | splitting newline-framed one-line texts gives back the texts |
| `Ledger.DecodePrinted` | `trajectory_ledger/core.py:271` | reading what was printed gives back exactly the values whose floating-point texts are canonical |
| `Ledger.VerifyLedger` | `trajectory_ledger/core.py:266-282` | the verification loop returns the first failing check's verdict, and the valid one exactly when the text is ASCII, every line decodes and every record passes its checks against its position and predecessor; a sequence number may be an integer, a boolean or a floating-point number |
| `Ledger.VerifyLinesMeaning` | `trajectory_ledger/core.py:266-282` | the loop that carries `prev` accepts exactly the ledgers that are linked at every position |
| `Ledger.PrefixAccepted` | `trajectory_ledger/core.py:270-282` | every prefix of an accepted ledger is accepted |
| `Ledger.LastRecordDeterminesLedger` | `trajectory_ledger/core.py:266-282` | two accepted ledgers with the same last record are identical, length included, or two different values with one digest are returned |
| `Ledger.EditIsDetected` | `trajectory_ledger/core.py:266-282` | replacing any record but the last by a different one is rejected or the two records collide |
| `Ledger.AgreementReachesBack` | `trajectory_ledger/core.py:266-282` | two accepted ledgers that agree at a position agree on everything up to it, or collide |
| `Ledger.AcceptedLedgersFork` | `trajectory_ledger/core.py:266-282` | two accepted ledgers share a prefix and differ in every record after it, or collide |
| `Ledger.LastRecordIsUnanchored` | `trajectory_ledger/core.py:266-282` | truncation is accepted at every point, and a last record is accepted in place of another if and only if it passes the checks at that place, which it does when it agrees on seven fields |
| `Ledger.LastPayloadIsFree` | `trajectory_ledger/core.py:186-282` | an envelope of any payload, in any run, is accepted in place of the last record |
| `Ledger.MadeRecordPasses` | `trajectory_ledger/core.py:186-205` | an envelope passes the verifier's checks at its sequence and after its predecessor, whatever its payload |
| `Ledger.AppendAccepted` | `trajectory_ledger/core.py:186-205` | any accepted ledger extended by one envelope is accepted |
| `Ledger.AppendAllAccepted` | `trajectory_ledger/cli.py:89-95` | so is one extended by an append loop |
| `Ledger.AppendAll` | `trajectory_ledger/cli.py:89-95` | an append loop keeps the earlier records and adds the payloads in order, each at the sequence of its position, under one run identifier |
| `Ledger.WriteLedger` | `trajectory_ledger/core.py:256-263` | the written bytes are ASCII, and splitting and decoding them gives back exactly the records written |
| `Ledger.ReadBack` | `trajectory_ledger/core.py:256-271` | persisting and reading a ledger is the identity on its records |
| `Ledger.WrittenLedgerVerdict` | `trajectory_ledger/core.py:256-282` | a written ledger verifies if and only if its records are linked |
| `Ledger.ProducedLedgerVerifies` | `trajectory_ledger/core.py:247-253` | producer meets verifier, for any payloads in any order |
| `Ingest.RecordNonInterference` | `trajectory_ledger/core.py:118-183` | records that agree on their allowed fields, and whose other fields have the same names and canonical lengths, project alike or fail with the same error |
| `Ingest.RedactionExact` | `trajectory_ledger/core.py:145-183` | for accepted records that is also necessary: exactly this much of a source record reaches the ledger |
| `Ingest.Strictest` | `trajectory_ledger/core.py:50-54` | the classification is one of those present and none present ranks above it |
| `Ingest.IngestFixture` | `trajectory_ledger/core.py:208-253` | every decoded document is refused or ingested, and an ingested ledger is linked and its written form verifies |
| `Ingest.RedactionNonInterference` | `trajectory_ledger/core.py:208-253` | fixtures that look alike after redaction give the same ledger or the same error if and only if both or neither are within the size limits |
| `Fixtures.LimitsSeeRedactedFields` | `trajectory_ledger/core.py:63-84` | two fixtures that look alike after redaction, one refused for its depth and one ingested |
| `Fixtures.EveryTraceIsIngested` | `trajectory_ledger/core.py:208-253` | for all payloads that pass the checks, without redacted fields, some fixture is ingested to exactly their chain |
| `Ingest.IngestedIsTrace` | `trajectory_ledger/core.py:208-253` | an ingested ledger starts with its run record, holds at most 128 well-formed source records of one run and is numbered by position |
| `Lineage.IndexTargets` | `trajectory_ledger/core.py:301-303` | the index maps each source and kind to exactly the targets claimed for it |
| `Lineage.EdgeStates` | `trajectory_ledger/core.py:306-311` | the states appended to an edge, with more than one indexed target meaning that another edge contradicts it |
| `Lineage.DeriveParentClaims` | `trajectory_ledger/core.py:314-317` | the two loops append one derived claim for each entry of each parent array |
| `Lineage.BuildLineage` | `trajectory_ledger/core.py:298-320` | the whole projection, cut and truncation mark included |
| `Lineage.LineageMeaning` | `trajectory_ledger/core.py:298-320` | a represented edge conflicts exactly when some edge of the whole trace, the cut ones included, has its source and kind and another target, and is missing exactly when an endpoint names no source record; the length is the shown edges, all parent claims, and one mark if edges were cut |
| `Lineage.ParentClaimsMeaning` | `trajectory_ledger/core.py:314-317` | the derived entries are exactly the parent-array claims, never conflicting, and missing exactly when the parent names no source record |
| `Analysis.ReusedPass` | `trajectory_ledger/analysis.py:40-51` | the one pass with two sets collects exactly the reads with an earlier tainted operation other than a quarantine, and no earlier quarantine, of the same memory version, in order |
| `Analysis.ReusedIsPrefix` | `trajectory_ledger/analysis.py:43-51` | a longer trace only extends the list |
| `Analysis.OtherEntriesDoNotInterfere` | `trajectory_ledger/analysis.py:43-51` | the reuses of one memory version are those found in the trace of that version alone |
| `Analysis.QuarantineIsPermanent` | `trajectory_ledger/analysis.py:45-49` | after a quarantine no later operation adds a reuse of that version |
| `Analysis.RecordOrderIsIrrelevant` | `trajectory_ledger/analysis.py:43` | with distinct sequence numbers the order of the record list does not matter |
| `Analysis.ReusedIsRead` | `trajectory_ledger/analysis.py:48-49` | every reported identifier is the one of a read of the trace |
| `Analysis.TruncationMark` | `trajectory_ledger/analysis.py:35` | the findings carry the truncation limitation exactly when there are more than 16 edges |
| `Violations.FindingsMeaning` | `trajectory_ledger/analysis.py:17-58` | each finding is violated exactly when its list of references is not empty, points at the first and cites the first eight; the lists are, in this order, the starts of the represented parent edges that refer to what names no source record and the children of the parent claims that do, the starts of the represented parent edges that some parent edge of the trace contradicts, the reads labelled stale and, on a trace, the reads of a tainted version; when each is empty is said of the records as well |
| `Violations.FlaggedMeaning` | `trajectory_ledger/analysis.py:36-37` | the references collected from the lineage are, in its order, those read off the edges and parent arrays of the trace |
| `Violations.UncutFindingsMeaning` | `trajectory_ledger/analysis.py:33-58` | with at most 16 edges, the same of all edges |
| `Violations.ReusedMeaning` | `trajectory_ledger/analysis.py:38-51` | on a trace the reported reuses are, in order, the reads that an earlier record of the trace tainted and no earlier one quarantined |
| `Violations.Evaluate` | `trajectory_ledger/analysis.py:33-58` | the evaluation computes the four findings, and they say this of the records |
| `Renaming.EvaluationIsEquivariant` | `trajectory_ledger/analysis.py:33-58` | renaming the identifiers of a trace one-to-one renames the references in the four findings and changes nothing else; the word for no reference is kept |
| `Renaming.LineageCarried` | `trajectory_ledger/core.py:298-320` | the same of the lineage projection |
| `Documents.MemoryManifest` | `trajectory_ledger/cli.py:65-78` | the loop collects every memory version of the trace, and every version some operation quarantines, each once and in strict key order |
| `Documents.SortedFixpoint` | `trajectory_ledger/replay.py:43-45` | a collection equals its sorted form exactly when no later entry is below an earlier one |
| `Documents.ValidateCollection` | `trajectory_ledger/replay.py:32-45` | the loop's verdict on one collection, repetition and disorder told apart |
| `Documents.ValidateDocument` | `trajectory_ledger/replay.py:27-49` | accepts exactly the bounded, strictly ordered collections of well-formed entries with the quarantine within the items; otherwise the first error |
| `Patching.ApplyPatch` | `trajectory_ledger/patching.py:58-69` | the error of the first failing check, or the items unchanged and the quarantine sorted, with the target added once |
| `Patching.ReversePatch` | `trajectory_ledger/patching.py:72-79` | removes the one occurrence of the target and nothing else |
| `Patching.ReversalExact` | `trajectory_ledger/patching.py:58-79` | reversal restores an accepted manifest up to the order of its quarantine, and exactly if and only if that list was in key order |
| `Patching.UnsortedQuarantineIsNotRestored` | `trajectory_ledger/patching.py:58-79` | a manifest for which a patch is built and applies, and whose reversal is another manifest |
| `Patching.PatchRoundTrip` | `trajectory_ledger/patching.py:13-79` | on a valid document a patch is built, and applies exactly when its target is an item not yet quarantined; then the result is a valid document with the target the only change, and reversal restores the original |
| `Replay.DifferenceMeaning` | `trajectory_ledger/replay.py:52-64` | on an allowed transition nothing is removed, what is kept is the old quarantine, added and kept together list the new one, at most one entry is added, and none exactly when the documents are equal |
| `Replay.DifferenceIsListing` | `trajectory_ledger/replay_child.py:46-59` | what both sides read from their dictionaries in the order of sorted keys lists the difference and the intersection of the two quarantines |
| `Replay.ChildAndParentAgree` | `trajectory_ledger/replay_child.py:43-61` | the parent accepts the honest child's result exactly when the two documents do not collide |
| `Replay.AcceptedResultIsUnique` | `trajectory_ledger/replay.py:67-99` | whatever result the parent accepts is the honest one but for the equality flag, and without a collision it is the honest one |
| `Replay.ValidateItems` | `trajectory_ledger/replay.py:32-45` | the loop over a list as it is written reads exactly the written forms of valid collections, and raises the encoding error exactly when well-formed, distinct entries come before one whose first component that is no identifier holds a lone surrogate |
| `Replay.WrittenMeaning` | `trajectory_ledger/replay.py:67-99` | a written result passes exactly when it is the written form of a comparison that passes |
| `Replay.UnencodableResult` | `trajectory_ledger/replay.py:35-41` | validation raises the encoding error exactly on a well-labelled result in whose first list that is not read well-formed, distinct entries come before one whose first component that is no identifier holds a lone surrogate |
| `Replay.EscapeMeaning` | `trajectory_ledger/replay.py:208-226` | the error that leaves `replay` is none that the run catches exactly on an allowed request answered by such a result or by one too deep to decode |
| `Diagnostic.ResolveMeaning` | `trajectory_ledger/core.py:285-295` | a reference resolves exactly when one position of the ledger holds a source record with that identifier, and then to it |
| `Diagnostic.ResolutionIgnoresDerived` | `trajectory_ledger/core.py:289-294` | appended hypotheses, patches, comparisons and gate records do not affect resolution |
| `Diagnostic.CollectPoints` | `trajectory_ledger/diagnostic.py:114-159` | the loop's points, proposals and last expected entry, with the failed read of an entry |
| `Diagnostic.ReviewDecision` | `trajectory_ledger/diagnostic.py:68-107` | when the proposals answer the supported points, the points and the comparison alone decide the outcome: the recommendation is given exactly when nothing blocks it, and each of the six next steps exactly in its case |
| `Diagnostic.BuildDiagnostic` | `trajectory_ledger/diagnostic.py:110-180` | it raises exactly on the failed read of an entry or a worded identifier among those it renders; otherwise its proposals answer the supported points one to one and its decision fits the points |
| `Diagnostic.ProposalsAnswerPoints` | `trajectory_ledger/diagnostic.py:114-159` | proposals and supported points correspond one to one, in order, in operation, target and evidence |
| `Diagnostic.GateCoherent` | `trajectory_ledger/diagnostic.py:68-107` | for every findings list and every comparison outcome the recommendation is given exactly when nothing blocks it, and the last next step is reached exactly when there is no failure point |
| `Diagnostic.RecommendationMeaning` | `trajectory_ledger/diagnostic.py:90-107` | the recommendation is given exactly for one single point, supported, not limited, on the memory invariant, with a passed comparison |
| `Pipeline.ExtensionLeavesSources` | `trajectory_ledger/cli.py:89-158` | what the run appends changes neither the memory manifest nor any resolution |
| `Exactness.ManifestIsValid` | `trajectory_ledger/cli.py:65-78` | the manifest of every accepted trace is a valid document |
| `Exactness.CandidateTransition` | `trajectory_ledger/cli.py:125-129` | the quarantine candidate of a valid document is an allowed transition |
| `Exactness.PatchAndCompareShape` | `trajectory_ledger/cli.py:125-140` | for a target that is an unquarantined item, build, apply and reverse succeed, reversal gives the baseline back, and only the comparison can fail, or raise |
| `Exactness.AcceptedComparisonPasses` | `trajectory_ledger/diagnostic.py:41-65` | a comparison the parent accepted passes all eight criteria, or the two documents collide |
| `Exactness.AttemptShape` | `trajectory_ledger/cli.py:98-148` | the gating raises exactly when the answer to a due comparison makes it raise, and otherwise emits a patch exactly when something is cited, every cited identifier names one source record and the first reused version is quarantined nowhere |
| `Exactness.ReviewExactness` | `trajectory_ledger/cli.py:81-158` | a run on an accepted trace raises if and only if the answer to a due comparison makes it raise, and then with that error, or an identifier it renders is worded, and then with the wording error; otherwise it recommends human review if and only if no parent is missing or contradicted, no read is stale, some read reuses a tainted version, at most 16 edges exist, every cited identifier names exactly one source record, the first reused version is quarantined nowhere in the trace, the comparison returned, and the two documents do not collide |
| `Exactness.RunNamesMeaning` | `trajectory_ledger/report.py:31-50` | the rendered identifiers are the run's, those the findings name, as read off the records, and, when the comparison of a due patch returned, the components of the quarantined entries and of the target |
| `Exactness.FindingNamesMeaning` | `trajectory_ledger/analysis.py:17-58` | the findings name exactly the first eight of each of the four lists of references, and the word for none where a list is empty |
| `Exactness.FindingsNameSources` | `trajectory_ledger/analysis.py:33-51` | apart from that word, only source identifiers and starts of edges of the trace |
| `Exactness.UnwordedTraceConcludes` | `trajectory_ledger/cli.py:134-158` | a run on a trace without worded identifiers concludes if and only if no answer to a due comparison makes it raise |
| `Exactness.CitedMeaning` | `trajectory_ledger/analysis.py:23` | the cited identifiers are those of the first eight reuses of the trace |
| `Exactness.HonestReviewExactness` | `trajectory_ledger/cli.py:81-158` | with an honest child the condition on the two documents falls away |
| `Exactness.HonestChildFits` | `trajectory_ledger/cli.py:134-140` | an honest child never makes a run raise |
| `Exactness.ProposalsAreStable` | `trajectory_ledger/cli.py:96-158` | proposals, identifiers included, and failure points are the same in all concluding runs on a trace, for every comparison outcome and every attestation |
| `Exactness.RunLedgerVerifies` | `trajectory_ledger/cli.py:85-151` | the complete ledger of a run verifies in its written form |
| `Reachable.RecommendationIsReached` | `trajectory_ledger/cli.py:81-158` | a fixture with a tainted write and a later read of the same version is ingested, and with an honest child that answers its run concludes and does recommend review, unless the two documents collide |
| `Reachable.WordedRunRaises` | `trajectory_ledger/report.py:50-52` | under every worded run identifier the fixture without records is ingested, and no run on its trace concludes |
| `Reachable.BecauseRaises` | `trajectory_ledger/report.py:50-52` | one such input |
| `Reachable.SurrogateRaises` | `trajectory_ledger/cli.py:132-141` | a result with one lone surrogate makes the run on an ingested fixture raise the encoding error |
| `Cli.AppendPayloads` | `trajectory_ledger/cli.py:89-95` | the loop that carries `prev` appends each payload linked to the record before it |
| `Cli.PatchAndReplay` | `trajectory_ledger/cli.py:125-140` | on a valid document with an unquarantined item as target the patch applies, its reversal gives the document back, and the comparison is what the gate answers, unless its error escapes |
| `Cli.Conclude` | `trajectory_ledger/cli.py:96-158` | a concluding run keeps the records it was given, and its complete ledger verifies when they were linked |
| `Cli.RunFixture` | `trajectory_ledger/cli.py:81-158` | from a decoded document to the diagnostic: ingestion errors are passed on; an accepted document fails exactly when the answer to a due comparison makes it raise, on an unknown attestation or a worded identifier, and otherwise concludes with a ledger that verifies and the recommendation exactly when `ReviewDue` holds |
| `Corpus.Tokenizer.Token` | `trajectory_ledger/corpus.py:47-52` | the shared dictionary stays a one-to-one map onto id0 up to its size less one, and a name gets the token of its first occurrence |
| `Corpus.Tokenizer.TokeniseShape` | `trajectory_ledger/corpus.py:56-74` | the tokens of one record in the source's order of evaluation |
| `Corpus.NormalizedStructure` | `trajectory_ledger/corpus.py:54-74` | the loop gives every identifier the token of its first occurrence in the whole trace |
| `Corpus.NoteAllMeaning` | `trajectory_ledger/corpus.py:49-52` | the order of first occurrence lists every name once and only grows |
| `Corpus.RenamingKeepsStructure` | `trajectory_ledger/corpus.py:46-74` | a one-to-one renaming leaves the structure as it is |
| `Corpus.EqualStructureRenames` | `trajectory_ledger/corpus.py:46-74` | equal structures exhibit the one-to-one renaming between the traces |
| `Corpus.StructureIsCanonical` | `trajectory_ledger/corpus.py:46-74` | two structures are equal if and only if a one-to-one renaming carries one trace's tokenised projection onto the other's |
| `Signature.NormalizedSignature` | `trajectory_ledger/corpus.py:46-80` | the stored text of structure and expectations |
| `Signature.SignatureMeaning` | `trajectory_ledger/corpus.py:75-80` | two cases have one signature text if and only if a renaming relates their projections and both expect the same invariants, patch and replay |
| `Disposition.DispositionsAgree` | `trajectory_ledger/corpus.py:112-129` | the validator's patch disposition is the run's if and only if nothing is cited or every cited identifier names exactly one source record, and its replay disposition agrees as well if and only if, in addition, the comparison of a due patch returned |
| `Disposition.DispositionsCanDiffer` | `trajectory_ledger/corpus.py:115-126` | a fixture that is ingested, whose run concludes, and on which they differ |
| `Commit.StageFiles` | `trajectory_ledger/cli.py:200-202` | the writes, ledger first, each of an absent name; any may fail or be corrupted |
| `Commit.CompareFiles` | `trajectory_ledger/cli.py:36-39` | the byte comparison succeeds exactly on the expected files |
| `Commit.VerifyStaged` | `trajectory_ledger/cli.py:30-44` | names, bytes and ledger in this order, with the error of each and of an unreadable file |
| `Commit.SyncTree` | `trajectory_ledger/cli.py:47-62` | every file and then the directory made durable, stopping at the first failure |
| `Commit.CommitPacket` | `trajectory_ledger/cli.py:185-223` | the source's calls are a run of the step machine; the destination is complete after the return and after the durability error, and as it was found after every other error |
| `Commit.InspectMeaning` | `trajectory_ledger/cli.py:30-44` | which staged files lead to which error, and that none is raised exactly on the expected files with a verifying, readable ledger |
| `Commit.CommitIsSafe` | `trajectory_ledger/cli.py:185-223` | the same at every point of every run, with any call failing and any staged write corrupted; an occupied destination is never touched |
| `Commit.CrashIsSafe` | `trajectory_ledger/cli.py:195-222` | after a crash between any two steps the destination is as it was found or complete, and complete once the run has returned |
| `Commit.DurableExactly` | `trajectory_ledger/cli.py:47-62` | a crash can show a directory only as it is if and only if every file and the list of names were made durable |
| `Commit.EveryRunEnds` | `trajectory_ledger/cli.py:185-223` | every run ends within a number of storage calls fixed by the packet |
| `Commit.WorkingStorageReturns` | `trajectory_ledger/cli.py:185-223` | with working storage, a free destination and a verifying ledger the commit returns |
| `Commit.RunLedgerIsNotRefused` | `trajectory_ledger/cli.py:40-42` | the ledger of a run is never found invalid unless the file cannot be read |

## Left out

- The operating-system sandbox, its probes, the child process and its request file: `Child` is any function to an outcome. No result, one over 4096 bytes, one that is no JSON and one with other keys are one outcome; which nesting depth exhausts the interpreter's stack is not modelled, only that a result may.
- Reading the fixture file, path and link checks, file modes and ownership: the model starts from a decoded document.
- Ingest.IngestFixture: when several size limits are exceeded the source reports the one it meets first in the order of the text, and the model reports that some limit is exceeded. A fixture string with an escaped lone surrogate makes `_measure` raise `UnicodeEncodeError`; a Dafny string cannot hold it, so such fixtures are not among the documents. The 256-edge limit cannot be reached with at most 128 records.
- The internals of SHA-256, and the conversion between floating-point literals and numbers: both are any functions.
- Ledger.VerifyLedger: a line with an escaped lone surrogate, such as a record with `"run_id":"\ud800"`, is decoded by Python and can be accepted; a Dafny string cannot hold it and the model reports an invalid ledger. The interpreter's limits on nesting depth and on the digits of an integer are not modelled either.
- Wording.DocumentRaises: the fixed words of the report and the diagnostic are a parameter of the theorem; that none of these constants contains a term, and that they and the listed identifiers are all that the two documents hold, is finite data. The text report searches a part of the report's fields again, and that second search is not modelled.
- Diagnostic.BuildDiagnostic: searches the identifiers that the diagnostic renders, and not the rendered text, for the same reason; so does `Pipeline.Finished` for the report.
- The constant fields of findings, points and the diagnostic, the reports, the completion summary, argument parsing and exit codes: presentation.
- Commit.CommitPacket: the contents of the files other than the ledger are arbitrary, since they are presentation or restate modelled values; one writer is assumed, as in the source, and storage that changes staged bytes after they were read back is not considered.
- `_project_record` and `make_envelope` are functions, since the dictionaries they fill are never shared.
- Patches whose fields have other types or other keys than the source's, and type errors raised on such values.
- Violations.Evaluate: requires distinct sequence numbers, which ingestion provides; for equal ones the source falls back to comparing dictionaries, which raises.
- Fixtures.EveryTraceIsIngested: payloads with redacted fields are left out, since not every recorded length belongs to a value within the limits.
- The corpus validator's floors, category counts and finite case data: finite data.
