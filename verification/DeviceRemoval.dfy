// Permanent removal of a revoked device (src/server/deviceRemovalService.ts): a durable journal with phases
// and generations, a ref delete by compare-and-swap, a discard grant that belongs to one request, staged
// cleanup and one completing commit. The protocol is a set of atomic durable steps; a crash is the end of
// any prefix of them.
module DeviceRemoval {
  import opened Common
  import opened DeviceRows

  const MAX_GENERATIONS_PER_RUN := 3

  datatype Phase = Intent | RefDeleting | Cleanup

  datatype Job = Job(
    phase: Phase,
    generation: int,
    expected: Option<string>,
    discard: bool,
    failed: bool,
    retryable: bool)

  datatype Device = Device(head: Option<string>)

  // The device as the metadata, Git and the transfer store hold it. `history` is what is reachable from the
  // main of the vault. The last three say what no store holds: the grant of the latest request, whether the
  // ref was proved absent since the generation began, and whether the device's work has drained.
  datatype World = World(
    id: string,
    device: Option<Device>,
    job: Option<Job>,
    ref: Option<string>,
    history: set<string>,
    staged: seq<string>,
    tables: Tables,
    latest: bool,
    absent: bool,
    drained: bool)

  datatype Step =
    | Request(grant: bool)
    | CommitIntent(oid: Option<string>)
    | MarkPending
    | Drain
    | SeeAbsent
    | OpenGeneration(oid: Option<string>)
    | AcceptAbsent
    | EnterDelete
    | DeleteRef
    | EnterCleanup
    | SweepRowsOf(sweep: Sweep)
    | EraseStaged
    | Complete
    | RecordFailure(retryable: bool)
    // What others may do meanwhile.
    | RefMoves(to: string)
    | MainAdvances(commits: set<string>)
    | Stages(commit: string)
    | Crash

  // Nothing staged would be lost, or its loss is granted.
  predicate StagedAccepted(w: World) {
    w.latest || forall c :: c in w.staged ==> c in w.history
  }

  predicate RefAccepted(w: World, oid: string) {
    w.latest || oid in w.history
  }

  predicate InPhase(w: World, phase: Phase) {
    w.job.Some? && w.job.value.phase == phase
  }

  predicate Expects(w: World, oid: Option<string>) {
    w.job.Some? && w.job.value.expected == oid
  }

  // When each step may be taken. Work of the device is barred once it has drained, and nobody but the
  // removal deletes its ref.
  predicate Enabled(w: World, s: Step) {
    match s
    case Request(grant) => w.device.Some?
    case CommitIntent(oid) => w.device.Some? && (w.job.None? && oid.None? && w.device.value.head.Some? ==> w.latest)
    case MarkPending => w.job.Some?
    case Drain => w.job.Some?
    case SeeAbsent => w.ref.None?
    case OpenGeneration(oid) => w.job.Some? && (oid.None? ==> w.absent)
    case AcceptAbsent => InPhase(w, Intent) && w.absent && w.latest
    case EnterDelete => InPhase(w, Intent) && !Expects(w, None)
    case DeleteRef =>
      && InPhase(w, RefDeleting) && w.drained && w.ref.Some? && Expects(w, w.ref)
      && RefAccepted(w, w.ref.value) && StagedAccepted(w)
    case EnterCleanup => w.absent && ((InPhase(w, Intent) && Expects(w, None)) || InPhase(w, RefDeleting))
    case SweepRowsOf(sweep) => InPhase(w, Cleanup)
    case EraseStaged => InPhase(w, Cleanup) && w.drained && StagedAccepted(w)
    case Complete => InPhase(w, Cleanup)
    case RecordFailure(retryable) => w.job.Some?
    case RefMoves(to) => w.device.Some?
    case MainAdvances(commits) => true
    case Stages(commit) => w.device.Some? && !w.drained
    case Crash => true
  }

  function WithJob(w: World, job: Job): World {
    w.(job := Some(job))
  }

  function Next(w: World, s: Step): World
    requires Enabled(w, s)
  {
    match s
    case Request(grant) =>
      w.(latest := grant, job := if w.job.Some? then Some(w.job.value.(discard := grant)) else None)
    case CommitIntent(oid) =>
      if w.job.None? then WithJob(w, Job(Intent, 1, oid, w.latest, false, true)).(absent := false)
      else WithJob(w, w.job.value.(discard := w.latest, failed := false, retryable := true))
    case MarkPending => WithJob(w, w.job.value.(failed := false, retryable := true))
    case Drain => w.(drained := true)
    case SeeAbsent => w.(absent := true)
    case OpenGeneration(oid) =>
      WithJob(w, w.job.value.(generation := w.job.value.generation + 1, expected := oid, phase := Intent)).(absent := oid.None?)
    case AcceptAbsent =>
      WithJob(w, w.job.value.(generation := w.job.value.generation + 1, expected := None, phase := Cleanup))
    case EnterDelete => WithJob(w, w.job.value.(phase := RefDeleting)).(absent := false)
    case DeleteRef => w.(ref := None, absent := true)
    case EnterCleanup => WithJob(w, w.job.value.(phase := Cleanup))
    case SweepRowsOf(sweep) => w.(tables := SweepRows(w.tables, w.id, sweep))
    case EraseStaged => w.(staged := [])
    case Complete => w.(device := None, job := None, tables := Cleared(w.tables, w.id))
    case RecordFailure(retryable) => WithJob(w, w.job.value.(failed := true, retryable := retryable))
    case RefMoves(to) => w.(ref := Some(to))
    case MainAdvances(commits) => w.(history := w.history + commits)
    case Stages(commit) => w.(staged := w.staged + [commit])
    case Crash => w.(drained := false)
  }

  // The grant in the journal is that of the latest request; a journal that is deleting knows what it
  // deletes; cleanup follows a proved absence; a recorded ref is missing only under a journal; and a removed
  // device leaves no journal and no row.
  predicate Inv(w: World) {
    && (w.job.Some? ==> w.device.Some? && w.job.value.discard == w.latest && w.job.value.generation >= 1)
    && (InPhase(w, RefDeleting) ==> !Expects(w, None))
    && (InPhase(w, Cleanup) ==> w.absent)
    && (w.device.Some? && w.device.value.head.Some? && w.ref.None? ==> w.job.Some?)
    && (w.device.None? ==> NamesNothing(w.tables, w.id))
  }

  lemma StepKeepsInv(w: World, s: Step)
    requires Inv(w) && Enabled(w, s)
    ensures Inv(Next(w, s))
  {
    hide Cleared, SweepRows, NamesNothing, StagedAccepted, RefAccepted;
    if s == Complete {
      ClearedExactly(w.tables, w.id);
    }
  }

  // ----- Runs -----

  predicate Runs(w: World, steps: seq<Step>)
    decreases |steps|
  {
    steps == [] || (Enabled(w, steps[0]) && Runs(Next(w, steps[0]), steps[1..]))
  }

  function RunOf(w: World, steps: seq<Step>): World
    requires Runs(w, steps)
    decreases |steps|
  {
    if steps == [] then w else RunOf(Next(w, steps[0]), steps[1..])
  }

  lemma {:induction false} RunKeepsInv(w: World, steps: seq<Step>)
    requires Inv(w) && Runs(w, steps)
    ensures Inv(RunOf(w, steps))
    decreases |steps|
  {
    hide Inv, Enabled, Next;
    if steps != [] {
      var s, rest := steps[0], steps[1..];
      StepKeepsInv(w, s);
      RunKeepsInv(Next(w, s), rest);
    }
  }

  lemma {:induction false} RunExtends(w: World, steps: seq<Step>, s: Step)
    requires Runs(w, steps) && Enabled(RunOf(w, steps), s)
    ensures Runs(w, steps + [s]) && RunOf(w, steps + [s]) == Next(RunOf(w, steps), s)
    decreases |steps|
  {
    hide Enabled, Next;
    if steps == [] {
      assert [s][1..] == [];
    } else {
      var first, rest := steps[0], steps[1..];
      RunExtends(Next(w, first), rest, s);
      assert (steps + [s])[1..] == rest + [s];
    }
  }

  // The prefix of a run is a run, and its next step was enabled.
  lemma {:induction false} RunSplits(w: World, steps: seq<Step>, i: int)
    requires Runs(w, steps) && 0 <= i < |steps|
    ensures Runs(w, steps[..i]) && Enabled(RunOf(w, steps[..i]), steps[i])
    decreases i
  {
    hide Enabled, Next;
    if i > 0 {
      var first, rest := steps[0], steps[1..];
      RunSplits(Next(w, first), rest, i - 1);
      assert steps[..i][1..] == rest[..i - 1];
    }
  }

  // Removal never deletes unaccepted work. In any run, crashes and restarts included, a ref delete hits
  // exactly the commit the journal holds for its generation, and that commit and every staged one are in the
  // history of main, unless the latest request granted the discard, and the journal says so.
  lemma DeletesAcceptedOnly(w: World, steps: seq<Step>, i: int)
    requires Inv(w) && Runs(w, steps) && 0 <= i < |steps| && steps[i] == DeleteRef
    ensures Runs(w, steps[..i])
    ensures var before := RunOf(w, steps[..i]);
      && before.job.Some? && before.ref.Some? && before.ref == before.job.value.expected
      && before.job.value.discard == before.latest && before.job.value.phase == RefDeleting && before.drained
      && (before.latest || (before.ref.value in before.history && forall c :: c in before.staged ==> c in before.history))
  {
    hide Next, NamesNothing;
    RunSplits(w, steps, i);
    RunKeepsInv(w, steps[..i]);
  }

  // Neither does the cleanup erase an unaccepted staged transfer, and it runs after a proved absence.
  lemma ErasesAcceptedOnly(w: World, steps: seq<Step>, i: int)
    requires Inv(w) && Runs(w, steps) && 0 <= i < |steps| && steps[i] == EraseStaged
    ensures Runs(w, steps[..i])
    ensures var before := RunOf(w, steps[..i]);
      && before.job.Some? && before.absent && before.job.value.discard == before.latest
      && before.job.value.phase == Cleanup && before.drained
      && (before.latest || forall c :: c in before.staged ==> c in before.history)
  {
    hide Next, NamesNothing;
    RunSplits(w, steps, i);
    RunKeepsInv(w, steps[..i]);
  }

  // The device row goes only in cleanup, with its ref proved absent; and a recorded commit whose ref is gone
  // is given up only by the grant of the latest request.
  lemma CompletesProvedOnly(w: World, steps: seq<Step>, i: int)
    requires Inv(w) && Runs(w, steps) && 0 <= i < |steps| && (steps[i] == Complete || steps[i] == AcceptAbsent)
    ensures Runs(w, steps[..i])
    ensures var before := RunOf(w, steps[..i]);
      && before.job.Some? && before.absent && before.job.value.discard == before.latest
      && (steps[i] == Complete ==> before.job.value.phase == Cleanup)
      && (steps[i] == AcceptAbsent ==> before.job.value.phase == Intent && before.latest)
  {
    hide Next, NamesNothing;
    RunSplits(w, steps, i);
    RunKeepsInv(w, steps[..i]);
  }

  // A step that proves the ref absent, and one that begins anew with a ref that may be there.
  predicate Proves(s: Step) {
    s == SeeAbsent || s == DeleteRef
  }

  predicate Begins(w: World, s: Step) {
    (s.CommitIntent? && w.job.None?) || (s.OpenGeneration? && s.oid.Some?) || s == EnterDelete
  }

  predicate NoneBegins(w: World, steps: seq<Step>, from: int)
    requires 0 <= from
  {
    forall j :: from <= j < |steps| ==> Runs(w, steps[..j]) && !Begins(RunOf(w, steps[..j]), steps[j])
  }

  predicate ProvedAt(w: World, steps: seq<Step>, i: int)
    requires 0 <= i < |steps|
  {
    Proves(steps[i]) && Runs(w, steps[..i + 1]) && RunOf(w, steps[..i + 1]).ref.None?
  }

  // Absence is what a read or the delete has proved, with the ref gone, since the delete was last begun.
  lemma {:induction false} AbsenceProved(w: World, steps: seq<Step>)
    requires Runs(w, steps) && !w.absent && RunOf(w, steps).absent
    ensures exists i :: 0 <= i < |steps| && ProvedAt(w, steps, i) && NoneBegins(w, steps, i + 1)
    decreases |steps|
  {
    hide Enabled, Next;
    if steps != [] {
      var n := |steps| - 1;
      var before, s := steps[..n], steps[n];
      RunSplits(w, steps, n);
      assert steps == before + [s];
      RunExtends(w, before, s);
      AbsentAfter(RunOf(w, before), s);
      assert steps[..n + 1] == steps;
      if Proves(s) {
        assert ProvedAt(w, steps, n);
      } else {
        AbsenceProved(w, before);
        var i :| 0 <= i < |before| && ProvedAt(w, before, i) && NoneBegins(w, before, i + 1);
        assert forall j :: 0 <= j <= n ==> before[..j] == steps[..j];
        assert ProvedAt(w, steps, i);
      }
    }
  }

  lemma AbsentAfter(w: World, s: Step)
    requires Enabled(w, s)
    ensures Next(w, s).absent <==> Proves(s) || (w.absent && !Begins(w, s))
    ensures Proves(s) ==> Next(w, s).ref.None?
  {
  }

  // A journal that is committed or taken up again is pending: a crash right after it is resumed at startup.
  lemma TakenUp(w: World, s: Step)
    requires Enabled(w, s) && (s.CommitIntent? || s == MarkPending)
    ensures var job := Next(w, s).job; job.Some? && !job.value.failed && job.value.retryable
    ensures s.CommitIntent? ==> Next(w, s).job.value.discard == w.latest
  {
  }

  // What others do is one change each, and a crash forgets only that the device had drained.
  lemma OthersExactly(w: World, s: Step)
    requires Enabled(w, s)
    ensures s.RefMoves? ==> Next(w, s) == w.(ref := Some(s.to))
    ensures s.MainAdvances? ==> Next(w, s) == w.(history := w.history + s.commits)
    ensures s.Stages? ==> Next(w, s) == w.(staged := w.staged + [s.commit]) && !w.drained
    ensures s == Crash ==> Next(w, s) == w.(drained := false)
  {
  }

  lemma StepBinds(w: World, s: Step)
    requires Inv(w) && Enabled(w, s)
    ensures w.device.None? ==> Next(w, s).device.None?
    ensures w.job.Some? && Next(w, s).device.Some? ==> Bound(w, Next(w, s))
  {
    hide Cleared, SweepRows, NamesNothing, StagedAccepted, RefAccepted;
  }

  // The journal is the same generation, expecting the same commit, or a later generation.
  predicate Bound(a: World, b: World) {
    && a.job.Some? && b.job.Some?
    && (b.job.value.generation == a.job.value.generation ==> b.job.value.expected == a.job.value.expected)
    && b.job.value.generation >= a.job.value.generation
  }

  // Within one generation the expected commit never changes, and generations never go back, for as long as
  // the device exists.
  lemma {:induction false} GenerationBindsOid(w: World, steps: seq<Step>)
    requires Inv(w) && Runs(w, steps) && w.job.Some?
    ensures RunOf(w, steps).device.Some? ==> Bound(w, RunOf(w, steps))
    decreases |steps|
  {
    hide Enabled, Next, NamesNothing;
    if steps != [] {
      var s, rest := steps[0], steps[1..];
      StepKeepsInv(w, s);
      StepBinds(w, s);
      if Next(w, s).device.Some? {
        GenerationBindsOid(Next(w, s), rest);
      } else {
        StaysRemoved(Next(w, s), rest);
      }
    }
  }

  // Once removed, a device stays removed and nothing names it.
  lemma {:induction false} StaysRemoved(w: World, steps: seq<Step>)
    requires Inv(w) && Runs(w, steps) && w.device.None?
    ensures RunOf(w, steps).device.None?
    decreases |steps|
  {
    hide Enabled, Next, NamesNothing;
    if steps != [] {
      var s, rest := steps[0], steps[1..];
      StepKeepsInv(w, s);
      StepBinds(w, s);
      StaysRemoved(Next(w, s), rest);
    }
  }

  function Opened(steps: seq<Step>): int {
    if steps == [] then 0 else Opened(steps[..|steps| - 1]) + (if steps[|steps| - 1].OpenGeneration? then 1 else 0)
  }

  lemma OpenedAppend(steps: seq<Step>, s: Step)
    ensures Opened(steps + [s]) == Opened(steps) + (if s.OpenGeneration? then 1 else 0)
  {
    assert (steps + [s])[..|steps|] == steps;
  }

  // ----- The service -----

  datatype Refusal = Unavailable | Draining | KeepsChanging | Incomplete | OpenWork | Unmerged | RefMissing | Mismatch | NotFound | NotRevoked

  // Server-side trouble may be retried blindly; the rest needs a decision of the owner.
  predicate Retryable(r: Refusal) {
    r == Unavailable || r == Draining || r == KeepsChanging || r == Incomplete
  }

  datatype Outcome = Done | Again | Refused(refusal: Refusal) | Interrupted | Waiting

  // What one attempt finds: which reads work, which commits cannot be traced, whether work of the device is
  // open, and what others do between the check and the compare-and-swap.
  datatype Attempt = Attempt(
    refReadable: bool,
    stagedReadable: bool,
    untraceable: set<string>,
    openWork: bool,
    moveTo: Option<string>,
    advances: set<string>,
    deleteFails: bool,
    syncFails: bool)

  datatype Verdict = Covered | Uncovered | Unknown

  function RefVerdict(a: Attempt, history: set<string>, oid: string, discard: bool): Verdict {
    if oid in a.untraceable then Unknown else if oid in history || discard then Covered else Uncovered
  }

  predicate StagedUnknown(a: Attempt, staged: seq<string>) {
    !a.stagedReadable || exists c :: c in staged && c in a.untraceable
  }

  // The gate on staged transfers: the first commit that cannot be traced or is not in main decides.
  method StagedVerdict(a: Attempt, history: set<string>, staged: seq<string>, discard: bool) returns (v: Verdict)
    ensures v == Covered <==> discard || (a.stagedReadable && forall c :: c in staged ==> c in history && c !in a.untraceable)
    ensures v == Uncovered ==> !discard && exists c :: c in staged && c !in history
    ensures v == Unknown ==> !discard && StagedUnknown(a, staged)
  {
    if discard {
      return Covered;
    }
    if !a.stagedReadable {
      return Unknown;
    }
    var i := 0;
    while i < |staged|
      invariant 0 <= i <= |staged|
      invariant forall j :: 0 <= j < i ==> staged[j] in history && staged[j] !in a.untraceable
    {
      if staged[i] in a.untraceable {
        return Unknown;
      }
      if staged[i] !in history {
        return Uncovered;
      }
      i := i + 1;
    }
    return Covered;
  }

  function RefusalOf(v: Verdict): Refusal {
    if v == Unknown then Unavailable else Unmerged
  }

  // An attempt in which every read works and nobody interferes.
  predicate Calm(a: Attempt) {
    && a.refReadable && a.stagedReadable && a.untraceable == {} && !a.openWork
    && a.moveTo.None? && !a.deleteFails && !a.syncFails
  }

  // The writes of a cleanup, in order: credentials first, the device row last.
  const CLEANUP: seq<Step> := [SweepRowsOf(Credentials), SweepRowsOf(Connections), EraseStaged, SweepRowsOf(Bookkeeping), Complete]

  class Removal {
    var w: World
    ghost var origin: World
    ghost var steps: seq<Step>

    // Everything durable came about by steps of the protocol.
    ghost predicate Valid()
      reads this
    {
      Inv(origin) && Inv(w) && Runs(origin, steps) && w == RunOf(origin, steps)
    }

    ghost predicate Gated()
      reads this
    {
      w.drained && w.job.Some? && StagedAccepted(w)
    }

    constructor (start: World)
      requires Inv(start)
      ensures Valid() && w == start && origin == start && steps == []
    {
      w, origin, steps := start, start, [];
    }

    method Write(s: Step)
      requires Valid() && Enabled(w, s)
      modifies this
      ensures Valid() && origin == old(origin)
      ensures w == Next(old(w), s) && steps == old(steps) + [s]
      ensures Opened(steps) == Opened(old(steps)) + (if s.OpenGeneration? then 1 else 0)
    {
      hide Inv, Enabled, Next;
      RunExtends(origin, steps, s);
      StepKeepsInv(w, s);
      OpenedAppend(steps, s);
      w := Next(w, s);
      steps := steps + [s];
    }

    // The compare-and-swap delete. It reports `Moved` only for a ref that holds another commit and `Absent`
    // only for one that does not exist; a delete whose sync fails is reported as a failure although the ref
    // is gone.
    method DeleteRefCas(a: Attempt, oid: string) returns (o: CasOutcome)
      requires Valid() && InPhase(w, RefDeleting) && Expects(w, Some(oid)) && Gated() && RefAccepted(w, oid)
      modifies this
      ensures Valid() && origin == old(origin) && w.latest == old(w.latest) && Opened(steps) == Opened(old(steps))
      ensures w.job == old(w.job) && w.device == old(w.device) && Gated() && w.history == old(w.history)
      ensures w.ref == old(w.ref) || (w.ref.None? && o != CasMoved)
      ensures o == CasMoved ==> w.ref.Some? && w.ref != Some(oid)
      ensures o == CasDeleted ==> old(w.ref) == Some(oid)
      ensures o == CasDeleted || o == CasAbsent ==> w.ref.None? && w.absent
      ensures var swapped := old(w.ref) == Some(oid) && !a.deleteFails;
        && w.ref == (if swapped then None else old(w.ref))
        && o == if swapped then (if a.syncFails then CasFailed else CasDeleted)
                else if !a.refReadable then CasFailed
                else if old(w.ref).None? then CasAbsent
                else if old(w.ref) == Some(oid) then CasFailed else CasMoved
      ensures Calm(a) && old(w.ref) == Some(oid) ==> o == CasDeleted
    {
      hide Inv, Runs, RunOf, Cleared, SweepRows;
      if w.ref == Some(oid) && !a.deleteFails {
        Write(DeleteRef);
        return if a.syncFails then CasFailed else CasDeleted;
      }
      if !a.refReadable {
        return CasFailed;
      }
      if w.ref.None? {
        Write(SeeAbsent);
        return CasAbsent;
      }
      return if w.ref != Some(oid) then CasMoved else CasFailed;
    }

    // What others do while the gate has passed and the delete has not happened.
    method Interference(a: Attempt)
      requires Valid() && Gated() && w.device.Some?
      modifies this
      ensures Valid() && origin == old(origin) && w.latest == old(w.latest) && Opened(steps) == Opened(old(steps))
      ensures w.job == old(w.job) && Gated() && w.device.Some?
      ensures forall oid :: RefAccepted(old(w), oid) ==> RefAccepted(w, oid)
      ensures w.ref == if a.moveTo.Some? then a.moveTo else old(w.ref)
      ensures w.history == old(w.history) + a.advances && w.staged == old(w.staged)
    {
      hide Inv, Runs, RunOf, Cleared, SweepRows;
      if a.moveTo.Some? {
        Write(RefMoves(a.moveTo.value));
      }
      Write(MainAdvances(a.advances));
    }

    // The gates of one attempt, with the grant in the journal.
    method Gate(a: Attempt, oid: Option<string>) returns (v: Verdict)
      requires Valid() && w.job.Some?
      ensures v == Covered ==> StagedAccepted(w) && (oid.Some? ==> RefAccepted(w, oid.value))
      ensures v == Unknown ==> (oid.Some? && oid.value in a.untraceable) || (!w.latest && StagedUnknown(a, w.staged))
      ensures v == Uncovered ==> !w.latest && ((oid.Some? && oid.value !in w.history) || exists c :: c in w.staged && c !in w.history)
      ensures oid.Some? && oid.value in a.untraceable ==> v == Unknown
      ensures Calm(a) && StagedAccepted(w) && (oid.Some? ==> RefAccepted(w, oid.value)) ==> v == Covered
    {
      hide Runs, RunOf, NamesNothing;
      var discard := w.job.value.discard;
      if oid.Some? {
        v := RefVerdict(a, w.history, oid.value, discard);
        if v != Covered {
          return;
        }
      }
      v := StagedVerdict(a, w.history, w.staged, discard);
    }

    // Opens a generation for the commit just read, at most three times in a run.
    method Rebind(current: Option<string>, moves: int) returns (next: int)
      requires Valid() && w.job.Some? && (current.None? ==> w.absent)
      modifies this
      ensures Valid() && origin == old(origin) && w.latest == old(w.latest)
      ensures moves >= MAX_GENERATIONS_PER_RUN ==> next == moves && w == old(w) && steps == old(steps)
      ensures moves < MAX_GENERATIONS_PER_RUN ==> next == moves + 1 && w == Next(old(w), OpenGeneration(current))
      ensures Opened(steps) == Opened(old(steps)) + next - moves
    {
      hide Inv, Runs, RunOf, Cleared, SweepRows;
      next := moves;
      if moves < MAX_GENERATIONS_PER_RUN {
        Write(OpenGeneration(current));
        next := moves + 1;
      }
    }

    // The ref is gone and the journal is past its intent: only the staged transfers are left to gate.
    method ResumeAbsent(a: Attempt) returns (o: Outcome)
      requires Valid() && w.drained && w.job.Some? && w.absent && !InPhase(w, Intent)
      modifies this
      ensures Valid() && origin == old(origin) && w.latest == old(w.latest) && Opened(steps) == Opened(old(steps))
      ensures w.job.Some? && w.drained && w.ref == old(w.ref)
      ensures o == Done ==> InPhase(w, Cleanup) && Gated()
      ensures o == Done || o == Refused(Unavailable) || o == Refused(Unmerged)
      ensures o == Refused(Unavailable) ==> !w.latest && StagedUnknown(a, w.staged)
      ensures o == Refused(Unmerged) ==> !w.latest && exists c :: c in w.staged && c !in w.history
      ensures Calm(a) && StagedAccepted(old(w)) ==> o == Done
    {
      hide Inv, Runs, RunOf, Cleared, SweepRows;
      var v := Gate(a, None);
      if v != Covered {
        return Refused(RefusalOf(v));
      }
      if InPhase(w, RefDeleting) {
        Write(EnterCleanup);
      }
      return Done;
    }

    // A recorded commit whose ref is gone, with only an intent journalled: the grant alone accepts that.
    method AcceptMissing(a: Attempt) returns (o: Outcome)
      requires Valid() && w.drained && InPhase(w, Intent) && w.absent
      modifies this
      ensures Valid() && origin == old(origin) && w.latest == old(w.latest) && Opened(steps) == Opened(old(steps))
      ensures w.job.Some? && w.drained && w.ref == old(w.ref)
      ensures o == Done ==> InPhase(w, Cleanup) && Gated() && old(w.job.value.discard)
      ensures o == Done ==> Expects(w, None) && w.job.value.generation == old(w.job.value.generation) + 1
      ensures o == if a.openWork then Refused(OpenWork) else if old(w.job.value.discard) then Done else Refused(RefMissing)
    {
      hide Runs, RunOf, NamesNothing, Cleared, SweepRows;
      if a.openWork {
        return Refused(OpenWork);
      }
      if !w.job.value.discard {
        return Refused(RefMissing);
      }
      Write(AcceptAbsent);
      return Done;
    }

    // Re-checks eligibility for the commit this generation expects and enters the delete. `Again` means the
    // delete may go on.
    method Enter(a: Attempt) returns (o: Outcome)
      requires Valid() && w.drained && w.job.Some? && !InPhase(w, Cleanup)
      requires InPhase(w, RefDeleting) ==> !Expects(w, None)
      requires Expects(w, None) ==> w.absent
      modifies this
      ensures Valid() && origin == old(origin) && w.latest == old(w.latest) && Opened(steps) == Opened(old(steps))
      ensures w.job.Some? && w.drained && w.ref == old(w.ref)
      ensures w.job.value.expected == old(w.job.value.expected)
      ensures o == Done ==> InPhase(w, Cleanup) && Gated()
      ensures o == Again ==> InPhase(w, RefDeleting) && !Expects(w, None) && Gated() && RefAccepted(w, w.job.value.expected.value)
      ensures o == Done || o == Again || o == Refused(OpenWork) || o == Refused(Unavailable) || o == Refused(Unmerged)
      ensures o == Refused(OpenWork) <==> InPhase(old(w), Intent) && a.openWork
      ensures o == Refused(Unavailable) ==> !Calm(a)
      ensures o == Refused(Unmerged) ==> !w.latest && (!StagedAccepted(old(w)) || (!Expects(old(w), None) && !RefAccepted(old(w), old(w.job.value.expected.value))))
      ensures o.Refused? ==> w == old(w)
      ensures Calm(a) && StagedAccepted(old(w)) && (Expects(old(w), None) || RefAccepted(old(w), old(w.job.value.expected.value))) ==>
        !o.Refused?
    {
      hide Inv, Runs, RunOf, Cleared, SweepRows;
      if InPhase(w, Intent) && a.openWork {
        return Refused(OpenWork);
      }
      var v := Gate(a, w.job.value.expected);
      if v != Covered {
        return Refused(RefusalOf(v));
      }
      if InPhase(w, RefDeleting) {
        return Again;
      }
      if Expects(w, None) {
        Write(EnterCleanup);
        return Done;
      }
      Write(EnterDelete);
      return Again;
    }

    // The end of an attempt: others may interfere, then the compare-and-swap decides.
    method Delete(a: Attempt) returns (o: Outcome)
      requires Valid() && InPhase(w, RefDeleting) && !Expects(w, None) && Gated()
      requires RefAccepted(w, w.job.value.expected.value) && w.device.Some?
      modifies this
      ensures Valid() && origin == old(origin) && w.latest == old(w.latest) && Opened(steps) == Opened(old(steps))
      ensures w.job.Some? && w.drained
      ensures o == Done ==> InPhase(w, Cleanup) && Gated()
      ensures o == Done || o == Again || o == Refused(Incomplete)
      ensures Calm(a) && old(w.ref) == old(w.job.value.expected) ==> o == Done
      ensures w.history == old(w.history) + a.advances
      ensures var ref := if a.moveTo.Some? then a.moveTo else old(w.ref);
        var swapped := ref == old(w.job.value.expected) && !a.deleteFails;
        && w.ref == (if swapped then None else ref)
        && o == if swapped then (if a.syncFails then Refused(Incomplete) else Done)
                else if !a.refReadable then Refused(Incomplete)
                else if ref.None? then Done
                else if ref == old(w.job.value.expected) then Refused(Incomplete) else Again
    {
      hide Inv, Runs, RunOf, Cleared, SweepRows;
      var oid := w.job.value.expected.value;
      Interference(a);
      var cas := DeleteRefCas(a, oid);
      if cas == CasMoved {
        return Again;
      }
      if cas == CasFailed {
        return Refused(Incomplete);
      }
      Write(EnterCleanup);
      return Done;
    }

    // One turn of the delete loop: a strict read, then either the delete of the commit this generation
    // expects or a new generation for the commit that was read.
    method TryDelete(a: Attempt, moves: int) returns (o: Outcome, next: int)
      requires Valid() && w.drained && w.job.Some?
      modifies this
      ensures Valid() && origin == old(origin) && w.latest == old(w.latest)
      ensures Opened(steps) == Opened(old(steps)) + next - moves
      ensures next == moves || next == moves + 1 <= MAX_GENERATIONS_PER_RUN
      ensures w.job.Some? && w.drained
      ensures o == Done ==> InPhase(w, Cleanup) && Gated()
      ensures o == Done || o == Again || o.Refused?
      ensures !a.refReadable ==> o == Refused(Unavailable) && w == old(w)
      ensures a.refReadable && old(w.ref).None? && InPhase(old(w), Intent) && !Expects(old(w), None) ==>
        o == if a.openWork then Refused(OpenWork) else if old(w.job.value.discard) then Done else Refused(RefMissing)
      ensures Calm(a) && moves < MAX_GENERATIONS_PER_RUN && Acceptable(old(w)) ==> o == Done
    {
      hide Runs, RunOf, NamesNothing, Cleared, SweepRows;
      next := moves;
      if !a.refReadable {
        o := Refused(Unavailable);
        return;
      }
      var current := w.ref;
      if current.None? {
        Write(SeeAbsent);
      }
      if current.None? && !InPhase(w, Intent) {
        o := ResumeAbsent(a);
        return;
      }
      if InPhase(w, Cleanup) || !Expects(w, current) {
        if current.None? {
          o := AcceptMissing(a);
          return;
        }
        next := Rebind(current, moves);
        if next == moves {
          o := Refused(KeepsChanging);
          return;
        }
      }
      o := Enter(a);
      if o == Again {
        o := Delete(a);
      }
    }

    // A run of the loop; others end it by running out of attempts, which stands for a crash. A run opens at
    // most three generations because the ref moved, and ends in cleanup only with the gates passed.
    method DeleteRefStep(script: seq<Attempt>) returns (o: Outcome)
      requires Valid() && w.drained && w.job.Some?
      modifies this
      ensures Valid() && origin == old(origin) && w.latest == old(w.latest)
      ensures Opened(steps) <= Opened(old(steps)) + MAX_GENERATIONS_PER_RUN
      ensures w.job.Some? && w.drained
      ensures o == Done ==> InPhase(w, Cleanup) && Gated()
      ensures o == Done || o.Refused? || o == Interrupted
      ensures |script| > 0 && Calm(script[0]) && Acceptable(old(w)) ==> o == Done
    {
      hide Inv, Runs, RunOf, InPhase, StagedAccepted, Opened, Acceptable, Calm;
      var moves, i := 0, 0;
      o := Again;
      while o == Again && i < |script|
        invariant 0 <= i <= |script|
        invariant 0 <= moves <= MAX_GENERATIONS_PER_RUN
        invariant Valid() && origin == old(origin) && w.latest == old(w.latest) && w.job.Some? && w.drained
        invariant Opened(steps) == Opened(old(steps)) + moves
        invariant o == Done ==> InPhase(w, Cleanup) && Gated()
        invariant o == Done || o == Again || o.Refused?
        invariant i == 0 ==> w == old(w) && moves == 0 && o == Again
        invariant i > 0 && Calm(script[0]) && Acceptable(old(w)) ==> o == Done
        decreases |script| - i
      {
        o, moves := TryDelete(script[i], moves);
        i := i + 1;
      }
      if o == Again {
        o := Interrupted;
      }
    }

    // One sweep: whatever it erases, the completing commit would have erased.
    method SweepOnce(sweep: Sweep)
      requires Valid() && InPhase(w, Cleanup)
      modifies this
      ensures Valid() && origin == old(origin) && Opened(steps) == Opened(old(steps))
      ensures w == old(w).(tables := SweepRows(old(w.tables), w.id, sweep)) && steps == old(steps) + [SweepRowsOf(sweep)]
      ensures Cleared(w.tables, w.id) == Cleared(old(w.tables), w.id)
    {
      hide Inv, Runs, RunOf, Cleared, SweepRows;
      SweepAbsorbed(w.tables, w.id, sweep);
      Write(SweepRowsOf(sweep));
    }

    // The staged sweeps and the completing commit. `stops` is how many durable writes happen before a crash.
    method CleanupAndComplete(stops: int) returns (o: Outcome)
      requires Valid() && InPhase(w, Cleanup) && Gated()
      modifies this
      ensures Valid() && origin == old(origin) && w.latest == old(w.latest) && Opened(steps) == Opened(old(steps))
      ensures o == if stops <= 4 then Interrupted else Done
      ensures o == Done ==> w.device.None? && w.job.None? && w.staged == [] && w.tables == Cleared(old(w.tables), w.id) && w.id == old(w.id)
      ensures o == Interrupted ==> InPhase(w, Cleanup) && Cleared(w.tables, w.id) == Cleared(old(w.tables), w.id)
      ensures steps == old(steps) + CLEANUP[..if stops <= 0 then 0 else if stops <= 4 then stops else 5]
    {
      hide Inv, Runs, RunOf, Cleared, SweepRows, Opened;
      ghost var before := steps;
      assert before + [] == before;
      if stops <= 0 {
        return Interrupted;
      }
      SweepOnce(Credentials);
      if stops <= 1 {
        return Interrupted;
      }
      SweepOnce(Connections);
      if stops <= 2 {
        return Interrupted;
      }
      Write(EraseStaged);
      if stops <= 3 {
        return Interrupted;
      }
      SweepOnce(Bookkeeping);
      if stops <= 4 {
        return Interrupted;
      }
      Write(Complete);
      return Done;
    }

    // Drives a journal to completion. A failure is recorded in the journal, which stays.
    method Drive(drains: bool, script: seq<Attempt>, stops: int) returns (o: Outcome)
      requires Valid() && w.job.Some?
      modifies this
      ensures Valid() && origin == old(origin) && w.latest == old(w.latest)
      ensures Opened(steps) <= Opened(old(steps)) + MAX_GENERATIONS_PER_RUN
      ensures o == Done ==> w.device.None? && w.job.None? && w.staged == []
      ensures o.Refused? ==> w.job.Some? && w.job.value.failed
      ensures o.Refused? ==> (w.job.value.retryable <==> o.refusal in {Unavailable, Draining, KeepsChanging, Incomplete})
      ensures o == Done || o.Refused? || o == Interrupted
      ensures !drains ==> o == Refused(Draining)
      ensures Undisturbed(drains, script, stops) && Acceptable(old(w)) ==> o == Done
    {
      hide Inv, Runs, RunOf, Cleared, SweepRows, StagedAccepted, Opened;
      Write(MarkPending);
      if !drains {
        o := Refused(Draining);
      } else {
        Write(Drain);
        StaysAcceptable(old(w));
        o := DeleteRefStep(script);
        if o == Done {
          o := CleanupAndComplete(stops);
        }
      }
      if o.Refused? {
        Write(RecordFailure(Retryable(o.refusal)));
      }
    }

    // Startup: a journal that waits for a decision of the owner is left alone; any other is driven again.
    method Resume(drains: bool, script: seq<Attempt>, stops: int) returns (o: Outcome)
      requires Valid() && w.job.Some?
      modifies this
      ensures Valid() && origin == old(origin) && w.latest == old(w.latest)
      ensures o == Waiting <==> old(w.job.value.failed && !w.job.value.retryable)
      ensures o == Waiting ==> w == old(w)
      ensures o == Done ==> w.device.None? && w.job.None? && w.staged == []
      ensures o != Waiting && Undisturbed(drains, script, stops) && Acceptable(old(w)) ==> o == Done
    {
      hide Inv, Runs, RunOf, Cleared, SweepRows, StagedAccepted, Opened;
      if w.job.value.failed && !w.job.value.retryable {
        return Waiting;
      }
      o := Drive(drains, script, stops);
    }

    // Eligibility of a request whose journal has not entered the delete: the commit the ref holds, if any.
    method VerifyForIntent(a: Attempt, discard: bool) returns (r: Result<Option<string>, Refusal>)
      requires Valid() && w.device.Some?
      ensures r.Success? ==> r.value == w.ref
      ensures !a.refReadable ==> r == Failure(Unavailable)
      ensures r.Success? && w.job.None? && w.ref.None? && w.device.value.head.Some? ==> discard
      ensures r.Success? ==> discard || ((w.ref.Some? ==> w.ref.value in w.history) && forall c :: c in w.staged ==> c in w.history)
      ensures Calm(a) ==> (r.Success? <==> Verifies(w, discard))
    {
      hide Inv, Runs, RunOf;
      if !a.refReadable {
        return Failure(Unavailable);
      }
      if w.ref.None? {
        if w.device.value.head.Some? && w.job.None? && !discard {
          return Failure(RefMissing);
        }
      } else {
        var v := RefVerdict(a, w.history, w.ref.value, discard);
        if v != Covered {
          return Failure(RefusalOf(v));
        }
      }
      var v := StagedVerdict(a, w.history, w.staged, discard);
      if v != Covered {
        return Failure(RefusalOf(v));
      }
      return Success(w.ref);
    }

    // A request of the owner. Its grant, or the lack of one, is durable before anything can refuse it, so an
    // earlier grant is never used by a later request.
    method Remove(revoked: bool, confirmed: bool, discard: bool, a: Attempt, drains: bool, script: seq<Attempt>, stops: int)
      returns (o: Outcome)
      requires Valid()
      modifies this
      ensures Valid() && origin == old(origin)
      ensures old(w.device).None? ==> o == Refused(NotFound) && w == old(w)
      ensures old(w.device).Some? && !revoked ==> o == Refused(NotRevoked) && w == old(w)
      ensures old(w.device).Some? && revoked && !confirmed ==> o == Refused(Mismatch) && w == Next(old(w), Request(false))
      ensures old(w.device).Some? && revoked && confirmed && a.openWork ==> o == Refused(OpenWork) && w == Next(old(w), Request(discard))
      ensures old(w.device).Some? && revoked ==> w.latest == (confirmed && discard)
      ensures o == Done ==> w.device.None? && w.job.None? && w.staged == []
      ensures o.Refused? && old(w.job).None? && w.job.None? ==> w == old(w).(latest := w.latest)
      ensures (old(w.device).Some? && revoked && confirmed && (Calm(a) || (PastIntent(old(w)) && !a.openWork))
               && Undisturbed(drains, script, stops) && MayGo(old(w), discard)) ==>
        o == Done
    {
      hide Inv, Runs, RunOf, Cleared, SweepRows, StagedAccepted, Opened, MayGo, Acceptable, Undisturbed, Verifies, Enabled, Next;
      ghost var start := w;
      if w.device.None? {
        return Refused(NotFound);
      }
      if !revoked {
        return Refused(NotRevoked);
      }
      Requested(w, confirmed && discard);
      Write(Request(confirmed && discard));
      if !confirmed {
        return Refused(Mismatch);
      }
      if a.openWork {
        return Refused(OpenWork);
      }
      var oid: Option<string> := None;
      if w.job.None? || InPhase(w, Intent) {
        var verified := VerifyForIntent(a, discard);
        VerifiesWhen(start, discard);
        if verified.Failure? {
          return Refused(verified.error);
        }
        oid := verified.value;
      }
      IntentAcceptable(start, discard, oid);
      Write(CommitIntent(oid));
      o := Drive(drains, script, stops);
    }
  }

  // The device drains, the first attempt finds nobody in the way, and no crash stops the cleanup.
  predicate Undisturbed(drains: bool, script: seq<Attempt>, stops: int) {
    drains && |script| > 0 && Calm(script[0]) && stops > 4
  }

  // A device whose removal an undisturbed request completes: with the grant always; without it when the
  // commit of its ref and every staged one are in the history of main, or it has no ref, staged commits are,
  // and the ref was never recorded, is being deleted, or was journalled as gone.
  predicate MayGo(w: World, discard: bool) {
    && w.device.Some?
    && (discard || (
      && (forall c :: c in w.staged ==> c in w.history)
      && (w.ref.Some? ==> w.ref.value in w.history)
      && (w.ref.None? ==>
        if w.job.None? then w.device.value.head.None?
        else w.job.value.phase != Intent || w.job.value.expected.None?)))
  }

  // A journal that has entered the delete is not verified again before it is driven.
  predicate PastIntent(w: World) {
    w.job.Some? && w.job.value.phase != Intent
  }

  // What lets a request pass that has to verify: its grant, or the commit of the ref and every staged one in
  // the history of main, and a missing ref only where none was recorded or a journal knows of it.
  predicate Verifies(w: World, discard: bool)
    requires w.device.Some?
  {
    discard || (
      && (forall c :: c in w.staged ==> c in w.history)
      && if w.ref.Some? then w.ref.value in w.history else w.device.value.head.None? || w.job.Some?)
  }

  // A request changes only the grant, in the journal as well.
  lemma Requested(w: World, grant: bool)
    requires w.device.Some?
    ensures Enabled(w, Request(grant))
    ensures var asked := Next(w, Request(grant));
      && asked == w.(latest := grant, job := asked.job) && (asked.job.None? <==> w.job.None?)
      && (InPhase(asked, Intent) <==> InPhase(w, Intent))
  {
  }

  lemma VerifiesWhen(w: World, discard: bool)
    requires w.device.Some?
    ensures MayGo(w, discard) ==> Verifies(Next(w, Request(discard)), discard)
  {
  }

  lemma IntentAcceptable(w: World, discard: bool, oid: Option<string>)
    requires Inv(w) && w.device.Some? && (w.job.None? || w.job.value.phase == Intent ==> oid == w.ref)
    requires w.job.None? && oid.None? && w.device.value.head.Some? ==> discard
    ensures var asked := Next(w, Request(discard));
      && Enabled(asked, CommitIntent(oid)) && Next(asked, CommitIntent(oid)).job.Some?
      && Next(asked, CommitIntent(oid)).latest == discard
      && (MayGo(w, discard) ==> Acceptable(Next(asked, CommitIntent(oid))))
  {
    hide NamesNothing;
  }

  lemma StaysAcceptable(w: World)
    requires w.job.Some?
    ensures Acceptable(w) ==> Acceptable(Next(Next(w, MarkPending), Drain))
  {
  }

  // What the owner has to see to before a removal can go through: nothing unaccepted would be lost, and a
  // ref that is gone was either being deleted, never recorded, or is given up by the grant.
  predicate Acceptable(w: World) {
    && StagedAccepted(w)
    && (w.ref.Some? ==> RefAccepted(w, w.ref.value))
    && (w.ref.None? && InPhase(w, Intent) ==> Expects(w, None) || w.latest)
  }

  datatype CasOutcome = CasDeleted | CasMoved | CasAbsent | CasFailed
}
