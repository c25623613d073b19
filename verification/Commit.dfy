/** The commit of a packet: stage, read back, make durable, rename, make the rename durable.
    Every storage call may fail, every staged write may be corrupted, and the machine may
    stop between any two steps. */
module Commit {
  import opened Orders
  import opened Records
  import opened Ledger
  import opened Pipeline
  import opened Exactness

  type Files = map<string, string>

  const LEDGER: string := "ledger.jsonl"

  /** A directory: its readable contents, the files whose contents are on stable storage, and
      whether its list of names is. */
  datatype Folder = Folder(files: Files, stable: set<string>, listed: bool)

  datatype Destination = Free | Foreign(contents: string) | Packet(folder: Folder)

  datatype CommitError =
    | OutputDirectoryUnavailable | LedgerAlreadyExists | FileSetMismatch | ReadbackMismatch | LedgerInvalid
    | Unreadable | PersistenceFailed | DurabilityUncertain

  datatype Outcome = Returned | Raised(error: CommitError)

  /** The next storage call. `done` counts the calls of the same kind already made. */
  datatype Phase =
    | Checking | Making | Writing(done: nat) | Reading | SyncingFiles(done: nat) | SyncingFolder | Renaming
    | SyncingParent
    | Ended(outcome: Outcome)

  /** `settled`: the parent's entry for the destination is on stable storage. */
  datatype State = State(phase: Phase, staging: Folder, output: Destination, settled: bool)

  /** What storage does at a call. A failed or corrupted write leaves any files whatever in
      the staging directory; `LedgerUnreadable` fails only the second reading of the ledger. */
  datatype Event = Works | Fails(left: Files) | Corrupts(left: Files) | LedgerUnreadable

  /** The expected bytes, the order in which the files are written, the ledger first, and the
      order, any, in which they are synchronised. */
  datatype Plan = Plan(expected: Files, writes: seq<string>, syncs: seq<string>)

  predicate WellPlanned(plan: Plan) {
    && plan.writes != [] && plan.writes[0] == LEDGER && Distinct(plan.writes)
        && Elements(plan.writes) == plan.expected.Keys
    && Elements(plan.syncs) == plan.expected.Keys
  }

  const EMPTY: Folder := Folder(map[], {}, false)

  function Start(output: Destination): State {
    State(Checking, EMPTY, output, true)
  }

  // ---------------------------------------------------------------- steps

  function Stop(s: State, error: CommitError): State {
    s.(phase := Ended(Raised(error)))
  }

  /** One exclusive creation: an existing name is refused. */
  function Write(plan: Plan, s: State, i: nat, e: Event): State
    requires i < |plan.writes| && WellPlanned(plan)
  {
    var name := plan.writes[i];
    assert name in Elements(plan.writes);
    var next := if i + 1 < |plan.writes| then Writing(i + 1) else Reading;
    if name in s.staging.files then Stop(s, if name == LEDGER then LedgerAlreadyExists else PersistenceFailed)
    else match e
      case Fails(left) => Stop(s.(staging := Folder(left, {}, false)), PersistenceFailed)
      case Corrupts(left) => s.(phase := next, staging := Folder(left, {}, false))
      case _ =>
        s.(phase := next,
            staging := Folder(s.staging.files[name := plan.expected[name]], s.staging.stable - {name}, false))
  }

  /** What the read-back of a staged directory raises. */
  function Inspect(h: Runtime, plan: Plan, files: Files, e: Event): Option<CommitError>
    requires WellPlanned(plan)
  {
    if e.Fails? then Some(Unreadable)
    else if files.Keys != plan.expected.Keys then Some(FileSetMismatch)
    else if exists name :: name in plan.expected && files[name] != plan.expected[name] then Some(ReadbackMismatch)
    else
      assert LEDGER in Elements(plan.writes);
      if e.LedgerUnreadable? || LedgerVerdict(h, files[LEDGER]) != ValidChain then Some(LedgerInvalid)
      else None
  }

  function SyncFile(plan: Plan, s: State, i: nat): State
    requires i < |plan.syncs|
  {
    var order := plan.syncs;
    s.(phase := if i + 1 < |order| then SyncingFiles(i + 1) else SyncingFolder,
       staging := s.staging.(stable := s.staging.stable + {order[i]}))
  }

  function Next(h: Runtime, plan: Plan, s: State, e: Event): State
    requires WellPlanned(plan)
  {
    match s.phase
    case Checking => if s.output.Free? then s.(phase := Making) else Stop(s, OutputDirectoryUnavailable)
    case Making => if e.Fails? then Stop(s, OutputDirectoryUnavailable) else s.(phase := Writing(0), staging := EMPTY)
    case Writing(i) => if i < |plan.writes| then Write(plan, s, i, e) else s
    case Reading =>
      (match Inspect(h, plan, s.staging.files, e)
       case Some(error) => Stop(s, error)
       case None => s.(phase := SyncingFiles(0)))
    case SyncingFiles(i) =>
      if e.Fails? then Stop(s, PersistenceFailed)
      else if i < |plan.syncs| then SyncFile(plan, s, i)
      else s
    case SyncingFolder =>
      if e.Fails? then Stop(s, PersistenceFailed) else s.(phase := Renaming, staging := s.staging.(listed := true))
    case Renaming =>
      if e.Fails? || !s.output.Free? then Stop(s, PersistenceFailed)
      else State(SyncingParent, EMPTY, Packet(s.staging), false)
    case SyncingParent =>
      if e.Fails? then Stop(s, DurabilityUncertain) else s.(phase := Ended(Returned), settled := true)
    case Ended(_) => s
  }

  /** The state after storage has behaved as `events` say, call by call. */
  function After(h: Runtime, plan: Plan, output: Destination, events: seq<Event>): State
    requires WellPlanned(plan)
  {
    if events == [] then Start(output)
    else Next(h, plan, After(h, plan, output, events[..|events| - 1]), events[|events| - 1])
  }

  // ---------------------------------------------------------------- safety

  /** Exactly the expected files, with a verifying ledger. */
  predicate Exact(h: Runtime, plan: Plan, files: Files) {
    files == plan.expected && LEDGER in plan.expected && LedgerVerdict(h, plan.expected[LEDGER]) == ValidChain
  }

  predicate Complete(h: Runtime, plan: Plan, d: Destination) {
    d.Packet? && Exact(h, plan, d.folder.files)
  }

  /** Contents and names are on stable storage. */
  predicate Durable(folder: Folder) {
    folder.listed && folder.files.Keys <= folder.stable
  }

  /** The rename has happened. */
  predicate Renamed(p: Phase) {
    p == SyncingParent || p == Ended(Returned) || p == Ended(Raised(DurabilityUncertain))
  }

  predicate SyncedTo(plan: Plan, folder: Folder, n: nat) {
    n <= |plan.syncs| && Elements(plan.syncs[..n]) <= folder.stable
  }

  predicate OutputKept(h: Runtime, plan: Plan, original: Destination, s: State) {
    if Renamed(s.phase) then original.Free? && Complete(h, plan, s.output) && Durable(s.output.folder)
    else s.output == original && s.settled
  }

  predicate StagingKept(h: Runtime, plan: Plan, s: State) {
    match s.phase
    case Writing(i) => i < |plan.writes| && (i == 0 ==> s.staging == EMPTY)
    case SyncingFiles(i) =>
      Exact(h, plan, s.staging.files) && i < |plan.syncs| && SyncedTo(plan, s.staging, i)
    case SyncingFolder => Exact(h, plan, s.staging.files) && plan.expected.Keys <= s.staging.stable
    case Renaming => Exact(h, plan, s.staging.files) && Durable(s.staging)
    case _ => true
  }

  predicate PhaseKept(original: Destination, s: State) {
    && (s.phase == Ended(Returned) ==> s.settled)
    && s.phase != Ended(Raised(LedgerAlreadyExists))
    && (s.phase.Checking? || s.phase == Ended(Raised(OutputDirectoryUnavailable)) || original.Free?)
  }

  /** What every step keeps. */
  predicate Kept(h: Runtime, plan: Plan, original: Destination, s: State) {
    OutputKept(h, plan, original, s) && StagingKept(h, plan, s) && PhaseKept(original, s)
  }

  /** What each error of the read-back says of the staged files, and when there is none. */
  lemma {:induction false} InspectMeaning(h: Runtime, plan: Plan, files: Files, e: Event)
    requires WellPlanned(plan)
    ensures var r := Inspect(h, plan, files, e);
      && (r.None? <==> !e.Fails? && !e.LedgerUnreadable? && Exact(h, plan, files))
      && (r == Some(LedgerInvalid) <==>
            !e.Fails? && files == plan.expected && (e.LedgerUnreadable? || !Exact(h, plan, files)))
      && (r == Some(ReadbackMismatch) <==> !e.Fails? && files.Keys == plan.expected.Keys && files != plan.expected)
      && (r == Some(FileSetMismatch) <==> !e.Fails? && files.Keys != plan.expected.Keys)
      && (r == Some(Unreadable) <==> e.Fails?)
  {
    assert LEDGER in Elements(plan.writes);
    if files.Keys == plan.expected.Keys
        && !(exists name :: name in plan.expected && files[name] != plan.expected[name]) {
      assert files == plan.expected;
    }
  }

  lemma {:induction false} SyncStep(plan: Plan, s: State, i: nat)
    requires WellPlanned(plan) && i < |plan.syncs| && SyncedTo(plan, s.staging, i)
    ensures SyncedTo(plan, SyncFile(plan, s, i).staging, i + 1)
    ensures SyncFile(plan, s, i).phase.SyncingFolder? ==> plan.expected.Keys <= SyncFile(plan, s, i).staging.stable
  {
    var order := plan.syncs;
    OneMore(order, i);
    assert order[..|order|] == order;
  }

  lemma {:induction false} WriteKeeps(h: Runtime, plan: Plan, original: Destination, s: State, i: nat, e: Event)
    requires WellPlanned(plan) && s.phase == Writing(i) && Kept(h, plan, original, s)
    ensures Kept(h, plan, original, Write(plan, s, i, e))
  {
    if plan.writes[i] == LEDGER {
      assert i == 0;
    }
  }

  lemma {:induction false} ReadingKeeps(h: Runtime, plan: Plan, original: Destination, s: State, e: Event)
    requires WellPlanned(plan) && s.phase == Reading && Kept(h, plan, original, s)
    ensures Kept(h, plan, original, Next(h, plan, s, e))
  {
    InspectMeaning(h, plan, s.staging.files, e);
    assert LEDGER in Elements(plan.writes);
    var order := plan.syncs;
    assert LEDGER in Elements(order);
  }

  lemma {:induction false} SyncingKeeps(h: Runtime, plan: Plan, original: Destination, s: State, i: nat, e: Event)
    requires WellPlanned(plan) && s.phase == SyncingFiles(i) && Kept(h, plan, original, s)
    ensures Kept(h, plan, original, Next(h, plan, s, e))
  {
    SyncStep(plan, s, i);
  }

  lemma {:induction false} EndKeeps(h: Runtime, plan: Plan, original: Destination, s: State, e: Event)
    requires WellPlanned(plan) && Kept(h, plan, original, s)
    requires s.phase.SyncingFolder? || s.phase.Renaming? || s.phase.SyncingParent?
    ensures Kept(h, plan, original, Next(h, plan, s, e))
  {}

  lemma {:induction false} StepKeeps(h: Runtime, plan: Plan, original: Destination, s: State, e: Event)
    requires WellPlanned(plan) && Kept(h, plan, original, s)
    ensures Kept(h, plan, original, Next(h, plan, s, e))
  {
    match s.phase
    case Writing(i) => WriteKeeps(h, plan, original, s, i, e);
    case Reading => ReadingKeeps(h, plan, original, s, e);
    case SyncingFiles(i) => SyncingKeeps(h, plan, original, s, i, e);
    case SyncingFolder => EndKeeps(h, plan, original, s, e);
    case Renaming => EndKeeps(h, plan, original, s, e);
    case SyncingParent => EndKeeps(h, plan, original, s, e);
    case _ =>
  }

  lemma {:induction false} AlwaysKept(h: Runtime, plan: Plan, original: Destination, events: seq<Event>)
    requires WellPlanned(plan)
    ensures Kept(h, plan, original, After(h, plan, original, events))
  {
    if events != [] {
      var n := |events| - 1;
      AlwaysKept(h, plan, original, events[..n]);
      StepKeeps(h, plan, original, After(h, plan, original, events[..n]), events[n]);
    }
  }

  /** Safety of the commit, at every point of every run: the destination is as it was found or
      holds exactly the expected files with a verifying ledger; it is as it was found after
      every error but the durability one, and complete after that one and after the return.
      An occupied destination is never touched. */
  lemma {:induction false} CommitIsSafe(h: Runtime, plan: Plan, original: Destination, events: seq<Event>)
    requires WellPlanned(plan)
    ensures var s := After(h, plan, original, events);
      && (s.output == original || (original.Free? && Complete(h, plan, s.output)))
      && (s.phase == Ended(Returned) || s.phase == Ended(Raised(DurabilityUncertain)) ==> Complete(h, plan, s.output))
      && (s.phase.Ended? && s.phase.outcome.Raised? && s.phase.outcome.error != DurabilityUncertain ==>
          s.output == original)
      && (!original.Free? ==> s.output == original && s.phase in {Checking, Ended(Raised(OutputDirectoryUnavailable))})
      && s.phase != Ended(Raised(LedgerAlreadyExists))
  {
    AlwaysKept(h, plan, original, events);
  }

  // ---------------------------------------------------------------- crashes

  /** What may be found of a directory after a crash: names not made durable may be missing,
      contents not made durable may be anything. */
  predicate FolderImage(folder: Folder, files: Files) {
    && files.Keys <= folder.files.Keys
    && (folder.listed ==> files.Keys == folder.files.Keys)
    && forall name :: name in files && name in folder.stable ==> files[name] == folder.files[name]
  }

  /** What may be found at the destination after a crash: a rename not made durable may be lost,
      but is never half done. */
  predicate CrashImage(s: State, d: Destination) {
    if s.output.Packet? then (!s.settled && d.Free?) || (d.Packet? && FolderImage(s.output.folder, d.folder.files))
    else d == s.output
  }

  /** Safety across a crash between any two steps, from a destination that was free or
      occupied by something else: nothing or the complete packet is found, and the complete
      packet once the run has returned. */
  lemma {:induction false} CrashIsSafe(h: Runtime, plan: Plan, original: Destination, events: seq<Event>,
      found: Destination)
    requires WellPlanned(plan) && !original.Packet?
    requires CrashImage(After(h, plan, original, events), found)
    ensures found == original || (original.Free? && Complete(h, plan, found))
    ensures After(h, plan, original, events).phase == Ended(Returned) ==> Complete(h, plan, found)
  {
    var s := After(h, plan, original, events);
    AlwaysKept(h, plan, original, events);
    if found.Packet? {
      DurableImage(s.output.folder, found.folder.files);
    }
  }

  lemma {:induction false} DurableImage(folder: Folder, files: Files)
    requires Durable(folder) && FolderImage(folder, files)
    ensures files == folder.files
  {}

  /** Both synchronisations are needed: a crash can only show a directory's exact contents if
      and only if every file and the list of names were made durable. */
  lemma {:induction false} DurableExactly(folder: Folder)
    requires folder.files != map[]
    ensures Durable(folder) <==> forall files: Files :: FolderImage(folder, files) ==> files == folder.files
  {
    if Durable(folder) {
      forall files: Files | FolderImage(folder, files) ensures files == folder.files { DurableImage(folder, files); }
    } else if !folder.listed {
      var none: Files := map[];
      assert FolderImage(folder, none);
    } else {
      var name :| name in folder.files && name !in folder.stable;
      var torn := folder.files[name := folder.files[name] + "x"];
      assert FolderImage(folder, torn) && torn[name] != folder.files[name];
    }
  }

  // ---------------------------------------------------------------- every run ends

  /** Storage calls left. */
  function CallsLeft(plan: Plan, p: Phase): nat {
    var writes, syncs := |plan.writes|, |plan.syncs|;
    match p
    case Checking => writes + syncs + 6
    case Making => writes + syncs + 5
    case Writing(i) => if i < writes then writes - i + syncs + 4 else 0
    case Reading => syncs + 4
    case SyncingFiles(i) => if i < syncs then syncs - i + 3 else 0
    case SyncingFolder => 3
    case Renaming => 2
    case SyncingParent => 1
    case Ended(_) => 0
  }

  lemma {:induction false} WriteForward(h: Runtime, plan: Plan, s: State, i: nat, e: Event)
    requires WellPlanned(plan) && s.phase == Writing(i) && i < |plan.writes|
    ensures CallsLeft(plan, Next(h, plan, s, e).phase) < CallsLeft(plan, s.phase)
  {}

  lemma {:induction false} ReadingForward(h: Runtime, plan: Plan, s: State, e: Event)
    requires WellPlanned(plan) && s.phase == Reading
    ensures CallsLeft(plan, Next(h, plan, s, e).phase) < CallsLeft(plan, s.phase)
  {
    AfterReading(h, plan, s, e);
  }

  lemma {:induction false} AfterReading(h: Runtime, plan: Plan, s: State, e: Event)
    requires WellPlanned(plan) && s.phase == Reading
    ensures var p := Next(h, plan, s, e).phase; p.Ended? || p == SyncingFiles(0)
  {}

  lemma {:induction false} OthersForward(h: Runtime, plan: Plan, s: State, e: Event)
    requires WellPlanned(plan) && !s.phase.Writing? && !s.phase.Reading? && !s.phase.Ended?
    requires s.phase.SyncingFiles? ==> s.phase.done < |plan.syncs|
    ensures CallsLeft(plan, Next(h, plan, s, e).phase) < CallsLeft(plan, s.phase)
  {}

  lemma {:induction false} StepsForward(h: Runtime, plan: Plan, s: State, e: Event)
    requires WellPlanned(plan) && StagingKept(h, plan, s) && !s.phase.Ended?
    ensures CallsLeft(plan, Next(h, plan, s, e).phase) < CallsLeft(plan, s.phase)
  {
    match s.phase
    case Writing(i) => WriteForward(h, plan, s, i, e);
    case Reading => ReadingForward(h, plan, s, e);
    case _ => OthersForward(h, plan, s, e);
  }

  /** Every run ends, whatever storage does. */
  lemma {:induction false} EveryRunEnds(h: Runtime, plan: Plan, original: Destination, events: seq<Event>)
    requires WellPlanned(plan)
    ensures var p := After(h, plan, original, events).phase;
      && (p.Ended? || |events| + CallsLeft(plan, p) <= CallsLeft(plan, Checking))
      && (|events| > CallsLeft(plan, Checking) ==> p.Ended?)
  {
    if events != [] {
      var n := |events| - 1;
      EveryRunEnds(h, plan, original, events[..n]);
      AlwaysKept(h, plan, original, events[..n]);
      var s := After(h, plan, original, events[..n]);
      if !s.phase.Ended? {
        StepsForward(h, plan, s, events[n]);
      }
    }
  }

  /** When storage works at every call, the staged files are those written so far. */
  predicate Undisturbed(plan: Plan, s: State) {
    match s.phase
    case Writing(i) =>
      && i < |plan.writes| && s.staging.files.Keys == Elements(plan.writes[..i])
      && forall name :: name in s.staging.files ==>
          name in plan.expected && s.staging.files[name] == plan.expected[name]
    case Reading => s.staging.files == plan.expected
    case Ended(outcome) => outcome.Returned?
    case _ => true
  }

  lemma {:induction false} UndisturbedWrite(plan: Plan, s: State, i: nat)
    requires WellPlanned(plan) && s.phase == Writing(i) && Undisturbed(plan, s)
    ensures Undisturbed(plan, Write(plan, s, i, Works))
  {
    var name := plan.writes[i];
    OneMore(plan.writes, i);
    assert name in Elements(plan.writes);
    assert name !in plan.writes[..i];
    if i + 1 == |plan.writes| {
      assert plan.writes[..|plan.writes|] == plan.writes;
      AllWritten(plan, s.staging.files[name := plan.expected[name]]);
    }
  }

  lemma {:induction false} AllWritten(plan: Plan, files: Files)
    requires files.Keys == plan.expected.Keys && forall name :: name in files ==> files[name] == plan.expected[name]
    ensures files == plan.expected
  {}

  lemma {:induction false} UndisturbedStep(h: Runtime, plan: Plan, original: Destination, s: State)
    requires WellPlanned(plan) && Kept(h, plan, original, s) && Undisturbed(plan, s) && original.Free?
    requires Exact(h, plan, plan.expected)
    ensures Undisturbed(plan, Next(h, plan, s, Works))
  {
    match s.phase
    case Writing(i) => UndisturbedWrite(plan, s, i);
    case Reading => InspectMeaning(h, plan, s.staging.files, Works);
    case _ =>
  }

  /** With working storage, a free destination and a verifying ledger the commit returns. */
  lemma {:induction false} WorkingStorageReturns(h: Runtime, plan: Plan, events: seq<Event>)
    requires WellPlanned(plan) && Exact(h, plan, plan.expected)
    requires forall e <- events :: e == Works
    ensures var p := After(h, plan, Free, events).phase;
      && (p.Ended? ==> p == Ended(Returned))
      && (|events| > CallsLeft(plan, Checking) ==> p == Ended(Returned))
  {
    StaysUndisturbed(h, plan, events);
    EveryRunEnds(h, plan, Free, events);
  }

  lemma {:induction false} StaysUndisturbed(h: Runtime, plan: Plan, events: seq<Event>)
    requires WellPlanned(plan) && Exact(h, plan, plan.expected)
    requires forall e <- events :: e == Works
    ensures Undisturbed(plan, After(h, plan, Free, events))
  {
    if events != [] {
      var n := |events| - 1;
      assert forall e <- events[..n] :: e in events;
      StaysUndisturbed(h, plan, events[..n]);
      AlwaysKept(h, plan, Free, events[..n]);
      assert events[n] in events;
      UndisturbedStep(h, plan, Free, After(h, plan, Free, events[..n]));
    }
  }

  // ---------------------------------------------------------------- the packet of a run

  /** The ledger of a run on an accepted trace is never found invalid: only an unreadable
      ledger file raises that error. */
  lemma {:induction false} RunLedgerIsNotRefused(h: Runtime, trace: seq<Record>, child: Child, attest: string,
      plan: Plan, original: Destination, events: seq<Event>)
    requires trace != [] && Accepts(h, Stored(trace)) && RunOf(h, trace, child, attest).Ok?
    requires WellPlanned(plan) && LEDGER in plan.expected
    requires plan.expected[LEDGER] == LedgerText(RunOf(h, trace, child, attest).value.records)
    requires LedgerUnreadable !in events
    ensures After(h, plan, original, events).phase != Ended(Raised(LedgerInvalid))
    ensures original.Free? && (forall e <- events :: e == Works) && |events| > CallsLeft(plan, Checking)
      ==> After(h, plan, original, events).phase == Ended(Returned)
  {
    RunLedgerVerifies(h, trace, child, attest);
    assert Exact(h, plan, plan.expected);
    NeverRefused(h, plan, original, events);
    if original.Free? && forall e <- events :: e == Works {
      WorkingStorageReturns(h, plan, events);
    }
  }

  lemma {:induction false} NeverRefused(h: Runtime, plan: Plan, original: Destination, events: seq<Event>)
    requires WellPlanned(plan) && Exact(h, plan, plan.expected) && LedgerUnreadable !in events
    ensures After(h, plan, original, events).phase != Ended(Raised(LedgerInvalid))
  {
    if events != [] {
      var n := |events| - 1;
      assert forall e <- events[..n] :: e in events;
      NeverRefused(h, plan, original, events[..n]);
      assert events[n] in events;
      NotRefusedStep(h, plan, After(h, plan, original, events[..n]), events[n]);
    }
  }

  lemma {:induction false} NotRefusedStep(h: Runtime, plan: Plan, s: State, e: Event)
    requires WellPlanned(plan) && Exact(h, plan, plan.expected) && !e.LedgerUnreadable?
    requires s.phase != Ended(Raised(LedgerInvalid))
    ensures Next(h, plan, s, e).phase != Ended(Raised(LedgerInvalid))
  {
    match s.phase
    case Reading =>
      InspectMeaning(h, plan, s.staging.files, e);
      assert s.staging.files == plan.expected ==> Exact(h, plan, s.staging.files);
    case Writing(i) =>
      if i < |plan.writes| { WriteDoesNotRefuse(plan, s, i, e); }
    case _ =>
  }

  lemma {:induction false} WriteDoesNotRefuse(plan: Plan, s: State, i: nat, e: Event)
    requires WellPlanned(plan) && i < |plan.writes|
    ensures Write(plan, s, i, e).phase != Ended(Raised(LedgerInvalid))
  {}

  // ---------------------------------------------------------------- the source's sequence of calls

  /** The storage the commit works on. `events` fixes how every call, past and to come, behaves. */
  class Disk {
    var staging: Folder
    var output: Destination
    var settled: bool
    var clock: nat
    const events: nat -> Event

    constructor (output: Destination, events: nat -> Event)
      ensures this.output == output && this.events == events && staging == EMPTY && settled && clock == 0
    {
      this.output, this.events, staging, settled, clock := output, events, EMPTY, true, 0;
    }

    ghost function At(phase: Phase): State
      reads this
    {
      State(phase, staging, output, settled)
    }

    ghost function Past(): seq<Event>
      reads this
    {
      seq(clock, (i: nat) => events(i))
    }

    /** How the next call behaves. */
    method Call() returns (e: Event)
      modifies this`clock
      ensures clock == old(clock) + 1
      ensures Past() == old(Past()) + [e]
    {
      e := events(clock);
      clock := clock + 1;
    }
  }

  /** The disk is where the steps of the protocol have brought it. */
  ghost predicate Reached(disk: Disk, h: Runtime, plan: Plan, original: Destination, phase: Phase)
    reads disk
    requires WellPlanned(plan)
  {
    disk.At(phase) == After(h, plan, original, disk.Past())
  }

  lemma {:induction false} AfterOneMore(h: Runtime, plan: Plan, original: Destination, events: seq<Event>, e: Event)
    requires WellPlanned(plan)
    ensures After(h, plan, original, events + [e]) == Next(h, plan, After(h, plan, original, events), e)
  {
    assert (events + [e])[..|events|] == events;
  }

  predicate WritePhase(plan: Plan, i: nat, phase: Phase) {
    phase == if i < |plan.writes| then Writing(i) else Reading
  }

  lemma {:induction false} NextWrite(h: Runtime, plan: Plan, s: State, i: nat, e: Event)
    requires WellPlanned(plan) && s.phase == Writing(i) && i < |plan.writes|
    ensures Next(h, plan, s, e) == Write(plan, s, i, e)
  {}

  /** One write, of a name that must be absent. */
  method WriteOne(disk: Disk, h: Runtime, plan: Plan, ghost original: Destination, i: nat, ghost next: Phase)
    returns (error: Option<CommitError>)
    requires WellPlanned(plan) && i < |plan.writes| && WritePhase(plan, i + 1, next)
    requires Reached(disk, h, plan, original, Writing(i))
    modifies disk
    ensures Reached(disk, h, plan, original, if error.Some? then Ended(Raised(error.value)) else next)
  {
    ghost var past, before := disk.Past(), disk.At(Writing(i));
    var e := disk.Call();
    AfterOneMore(h, plan, original, past, e);
    NextWrite(h, plan, before, i, e);
    var name := plan.writes[i];
    assert name in Elements(plan.writes);
    if name in disk.staging.files {
      return Some(if name == LEDGER then LedgerAlreadyExists else PersistenceFailed);
    }
    match e {
      case Fails(left) =>
        disk.staging := Folder(left, {}, false);
        return Some(PersistenceFailed);
      case Corrupts(left) =>
        disk.staging := Folder(left, {}, false);
      case _ =>
        disk.staging := Folder(disk.staging.files[name := plan.expected[name]], disk.staging.stable - {name}, false);
    }
    return None;
  }

  /** The loop that writes the files. */
  method StageFiles(disk: Disk, h: Runtime, plan: Plan,
      ghost original: Destination) returns (error: Option<CommitError>)
    requires WellPlanned(plan) && Reached(disk, h, plan, original, Writing(0))
    modifies disk
    ensures Reached(disk, h, plan, original, if error.Some? then Ended(Raised(error.value)) else Reading)
  {
    ghost var phase := Writing(0);
    for i := 0 to |plan.writes|
      invariant WritePhase(plan, i, phase) && Reached(disk, h, plan, original, phase)
    {
      phase := if i + 1 < |plan.writes| then Writing(i + 1) else Reading;
      error := WriteOne(disk, h, plan, original, i, phase);
      if error.Some? {
        return;
      }
    }
    return None;
  }

  /** The byte comparison of the read-back. */
  method CompareFiles(plan: Plan, files: Files) returns (same: bool)
    requires WellPlanned(plan) && files.Keys == plan.expected.Keys
    ensures same <==> files == plan.expected
  {
    for i := 0 to |plan.writes|
      invariant forall name <- plan.writes[..i] :: name in plan.expected && files[name] == plan.expected[name]
    {
      var name := plan.writes[i];
      assert name in Elements(plan.writes);
      if files[name] != plan.expected[name] {
        return false;
      }
      OneMore(plan.writes, i);
    }
    assert plan.writes[..|plan.writes|] == plan.writes && forall name :: name in plan.expected ==>
      name in Elements(plan.writes);
    return true;
  }

  /** `_verify_staged_packet`: names, then every file, then the ledger. */
  method VerifyStaged(disk: Disk, h: Runtime, plan: Plan,
      ghost original: Destination) returns (error: Option<CommitError>)
    requires WellPlanned(plan) && Reached(disk, h, plan, original, Reading)
    modifies disk`clock
    ensures Reached(disk, h, plan, original, if error.Some? then Ended(Raised(error.value)) else SyncingFiles(0))
  {
    ghost var past := disk.Past();
    var e := disk.Call();
    AfterOneMore(h, plan, original, past, e);
    var files := disk.staging.files;
    if e.Fails? {
      return Some(Unreadable);
    }
    if files.Keys != plan.expected.Keys {
      return Some(FileSetMismatch);
    }
    var same := CompareFiles(plan, files);
    if !same {
      return Some(ReadbackMismatch);
    }
    assert LEDGER in Elements(plan.writes);
    var verdict := VerifyLedger(h, files[LEDGER]);
    if e.LedgerUnreadable? || verdict != ValidChain {
      return Some(LedgerInvalid);
    }
    return None;
  }

  lemma {:induction false} NextSync(h: Runtime, plan: Plan, s: State, i: nat, e: Event)
    requires WellPlanned(plan) && s.phase == SyncingFiles(i) && i < |plan.syncs| && !e.Fails?
    ensures Next(h, plan, s, e) == SyncFile(plan, s, i)
  {}

  predicate SyncPhase(plan: Plan, i: nat, phase: Phase) {
    phase == if i < |plan.syncs| then SyncingFiles(i) else SyncingFolder
  }

  /** One `fsync` of a file. */
  method SyncOne(disk: Disk, h: Runtime, plan: Plan, ghost original: Destination, i: nat,
      ghost next: Phase) returns (synced: bool)
    requires WellPlanned(plan) && i < |plan.syncs| && SyncPhase(plan, i + 1, next)
      && Reached(disk, h, plan, original, SyncingFiles(i))
    modifies disk
    ensures Reached(disk, h, plan, original, if synced then next else Ended(Raised(PersistenceFailed)))
  {
    ghost var past, before := disk.Past(), disk.At(SyncingFiles(i));
    var e := disk.Call();
    AfterOneMore(h, plan, original, past, e);
    if e.Fails? {
      return false;
    }
    NextSync(h, plan, before, i, e);
    disk.staging := disk.staging.(stable := disk.staging.stable + {plan.syncs[i]});
    return true;
  }

  /** The file loop of `_sync_directory_tree`. */
  method SyncFiles(disk: Disk, h: Runtime, plan: Plan, ghost original: Destination) returns (synced: bool)
    requires WellPlanned(plan) && Reached(disk, h, plan, original, SyncingFiles(0))
    modifies disk
    ensures Reached(disk, h, plan, original, if synced then SyncingFolder else Ended(Raised(PersistenceFailed)))
  {
    assert LEDGER in Elements(plan.writes) && LEDGER in Elements(plan.syncs);
    ghost var phase := SyncingFiles(0);
    for i := 0 to |plan.syncs|
      invariant SyncPhase(plan, i, phase) && Reached(disk, h, plan, original, phase)
    {
      phase := if i + 1 < |plan.syncs| then SyncingFiles(i + 1) else SyncingFolder;
      synced := SyncOne(disk, h, plan, original, i, phase);
      if !synced {
        return;
      }
    }
    return true;
  }

  /** `_sync_directory_tree`: every file, then the directory. */
  method SyncTree(disk: Disk, h: Runtime, plan: Plan, ghost original: Destination) returns (synced: bool)
    requires WellPlanned(plan) && Reached(disk, h, plan, original, SyncingFiles(0))
    modifies disk
    ensures Reached(disk, h, plan, original, if synced then Renaming else Ended(Raised(PersistenceFailed)))
  {
    synced := SyncFiles(disk, h, plan, original);
    if synced {
      ghost var past := disk.Past();
      var e := disk.Call();
      AfterOneMore(h, plan, original, past, e);
      if e.Fails? {
        return false;
      }
      disk.staging := disk.staging.(listed := true);
    }
  }

  /** The tail of `run_fixture`: its calls are the steps of the protocol, so its outcome is safe. */
  method CommitPacket(disk: Disk, h: Runtime, plan: Plan) returns (outcome: Outcome)
    requires WellPlanned(plan) && disk.staging == EMPTY && disk.settled && disk.clock == 0
    modifies disk
    ensures Reached(disk, h, plan, old(disk.output), Ended(outcome))
    ensures outcome == Returned || outcome == Raised(DurabilityUncertain) ==> Complete(h, plan, disk.output)
    ensures outcome.Raised? && outcome.error != DurabilityUncertain ==> disk.output == old(disk.output)
  {
    ghost var original := disk.output;
    outcome := StageAndRename(disk, h, plan);
    if outcome == Returned {
      ghost var past := disk.Past();
      var e := disk.Call();
      AfterOneMore(h, plan, original, past, e);
      if e.Fails? {
        outcome := Raised(DurabilityUncertain);
      } else {
        disk.settled := true;
      }
    }
    CommitIsSafe(h, plan, original, disk.Past());
  }

  /** Up to the rename. */
  method StageAndRename(disk: Disk, h: Runtime, plan: Plan) returns (outcome: Outcome)
    requires WellPlanned(plan) && disk.staging == EMPTY && disk.settled && disk.clock == 0
    modifies disk
    ensures Reached(disk, h, plan, old(disk.output), if outcome == Returned then SyncingParent else Ended(outcome))
  {
    ghost var original := disk.output;
    var made := MakeStaging(disk, h, plan);
    if !made {
      return Raised(OutputDirectoryUnavailable);
    }
    var error := StageFiles(disk, h, plan, original);
    if error.Some? {
      return Raised(error.value);
    }
    error := VerifyStaged(disk, h, plan, original);
    if error.Some? {
      return Raised(error.value);
    }
    var synced := SyncTree(disk, h, plan, original);
    if !synced {
      return Raised(PersistenceFailed);
    }
    ghost var past := disk.Past();
    var e := disk.Call();
    AfterOneMore(h, plan, original, past, e);
    if e.Fails? || !disk.output.Free? {
      return Raised(PersistenceFailed);
    }
    disk.staging, disk.output, disk.settled := EMPTY, Packet(disk.staging), false;
    return Returned;
  }

  /** The refusal of an occupied destination, and `mkdtemp`. */
  method MakeStaging(disk: Disk, h: Runtime, plan: Plan) returns (made: bool)
    requires WellPlanned(plan) && disk.staging == EMPTY && disk.settled && disk.clock == 0
    modifies disk
    ensures Reached(disk, h, plan, old(disk.output), if made then Writing(0)
      else Ended(Raised(OutputDirectoryUnavailable)))
  {
    ghost var original := disk.output;
    assert Reached(disk, h, plan, original, Checking);
    ghost var past := disk.Past();
    var e := disk.Call();
    AfterOneMore(h, plan, original, past, e);
    if !disk.output.Free? {
      return false;
    }
    past := disk.Past();
    e := disk.Call();
    AfterOneMore(h, plan, original, past, e);
    if e.Fails? {
      return false;
    }
    disk.staging := EMPTY;
    return true;
  }
}
