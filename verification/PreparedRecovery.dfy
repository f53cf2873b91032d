// Main-moving operations of one vault: a write-ahead row in the metadata, a compare-and-swap on the Git
// ref, a metadata commit, and the startup pass that finishes what a crash left (src/server/app.ts,
// src/server/syncService.ts).
// The vault lock lets one operation run at a time. Rows of other vaults touch nothing modelled here.
module PreparedRecovery {
  import opened Common

  const MAIN := "refs/heads/main"

  datatype Status = Started | Prepared | Committed | Aborted

  datatype Kind = ServerMerge | ConflictResolve | NoteRestore | NameRepair | VaultSettings | Maintenance

  type Refs = map<string, string>

  type Expected = map<string, Option<string>>

  // The move of main that a manifest decided on before its row was written.
  datatype Plan = Plan(previous: string, target: string)

  // `evidence` says whether the rest of the row's prepared manifest verifies.
  datatype Op = Op(
    id: string,
    kind: Kind,
    expected: Expected,
    targets: map<string, Option<string>>,
    manifestTargets: map<string, Option<string>>,
    targetCommit: Option<string>,
    plan: Option<Plan>,
    evidence: bool,
    status: Status,
    reconciled: bool)

  // A main_advanced event.
  datatype Event = Event(op: string, previous: Option<string>, main: string)

  // Durable state: the metadata of the vault and, in `refs`, its Git repository.
  datatype Vault = Vault(main: string, blocked: bool, rows: seq<Op>, events: seq<Event>, refs: Refs)

  predicate IsHex(c: char) {
    '0' <= c <= '9' || 'a' <= c <= 'f'
  }

  predicate IsCommit(s: string) {
    |s| == 40 && forall i :: 0 <= i < |s| ==> IsHex(s[i])
  }

  // A commit is named by forty lower-case hexadecimal digits.
  lemma CommitExactly(s: string)
    ensures IsCommit(s) <==> |s| == 40 && forall c :: c in s ==> c in "0123456789abcdef"
  {
    forall c: char
      ensures IsHex(c) <==> c in "0123456789abcdef"
    {
      HexExactly(c);
    }
    if forall c :: c in s ==> c in "0123456789abcdef" {
      forall i | 0 <= i < |s|
        ensures IsHex(s[i])
      {
        assert s[i] in s;
      }
    }
  }

  lemma HexExactly(c: char)
    ensures IsHex(c) <==> c in "0123456789abcdef"
  {
    var digits := "0123456789abcdef";
    if IsHex(c) {
      var i := if c <= '9' then c as int - '0' as int else c as int - 'a' as int + 10;
      assert digits[i] == c;
    }
  }

  predicate MovesMain(kind: Kind) {
    kind != Maintenance
  }

  // Name repairs and settings build their commit first, so their row names the target from the start.
  predicate Planned(kind: Kind) {
    kind == NameRepair || kind == VaultSettings
  }

  predicate Merges(kind: Kind) {
    kind == ServerMerge || kind == ConflictResolve
  }

  function RefOf(refs: Refs, ref: string): Option<string> {
    if ref in refs then Some(refs[ref]) else None
  }

  function Entry(m: map<string, Option<string>>, ref: string): Option<string> {
    if ref in m then m[ref] else None
  }

  predicate IsTarget(m: map<string, Option<string>>, ref: string) {
    Entry(m, ref).Some? && IsCommit(Entry(m, ref).value)
  }

  // The refs a prepared row says it moves, and where to: its own targets, overridden by its manifest's,
  // with the target commit as a fallback for main.
  function RecoverableTargets(op: Op): Refs {
    var own := map ref | ref in op.targets && IsTarget(op.targets, ref) :: op.targets[ref].value;
    var refs := own + (map ref | ref in op.manifestTargets && IsTarget(op.manifestTargets, ref) :: op.manifestTargets[ref].value);
    if MovesMain(op.kind) && !Planned(op.kind) && op.targetCommit.Some? && IsCommit(op.targetCommit.value) && MAIN !in refs
    then refs[MAIN := op.targetCommit.value] else refs
  }

  predicate ExpectedStillCurrent(refs: Refs, op: Op) {
    forall ref :: ref in op.expected ==> RefOf(refs, ref) == op.expected[ref]
  }

  function WithRow(v: Vault, i: int, op: Op): Vault
    requires 0 <= i < |v.rows|
  {
    v.(rows := v.rows[i := op])
  }

  // ----- The steps of a route -----

  // `others` are the refs expected beside main: a merge or a resolution expects its device's.
  function PreparedOp(id: string, kind: Kind, main: string, others: Expected): Op {
    Op(id, kind, others[MAIN := Some(main)], map[MAIN := None], map[], None, None, true, Prepared, false)
  }

  function PlannedOp(id: string, kind: Kind, main: string, commit: string): Op {
    var target := map[MAIN := Some(commit)];
    Op(id, kind, map[MAIN := Some(main)], target, target, Some(commit), Some(Plan(main, commit)), true, Prepared, false)
  }

  // Step 1: the write-ahead row.
  function Prepare(v: Vault, id: string, kind: Kind, others: Expected): Vault {
    v.(rows := v.rows + [PreparedOp(id, kind, v.main, others)])
  }

  // Steps 1 and 2 at once.
  function PrepareTarget(v: Vault, id: string, kind: Kind, commit: string): Vault {
    v.(rows := v.rows + [PlannedOp(id, kind, v.main, commit)])
  }

  // Step 2: the row learns the commit about to become main, a merge's manifest as well.
  function RecordTarget(v: Vault, commit: string): Vault
    requires v.rows != []
  {
    var op := v.rows[|v.rows| - 1];
    var targets := op.targets[MAIN := Some(commit)];
    var manifest := if Merges(op.kind) then map[MAIN := Some(commit)] else op.manifestTargets;
    WithRow(v, |v.rows| - 1, op.(targets := targets, manifestTargets := manifest, targetCommit := Some(commit)))
  }

  // Step 3: the compare-and-swap.
  function MoveMain(v: Vault, commit: string): Vault {
    v.(refs := v.refs[MAIN := commit])
  }

  // Step 4: the metadata commit.
  function CommitRoute(v: Vault, commit: string): Vault
    requires v.rows != []
  {
    var op := v.rows[|v.rows| - 1];
    WithRow(v, |v.rows| - 1, op.(status := Committed, targets := map[MAIN := Some(commit)], targetCommit := Some(commit)))
      .(main := commit, events := v.events + [Event(op.id, Some(v.main), commit)])
  }

  // What the route does when Git reports a failure.
  function AbortRoute(v: Vault): Vault
    requires v.rows != []
  {
    WithRow(v, |v.rows| - 1, v.rows[|v.rows| - 1].(status := Aborted))
  }

  // ----- Startup -----

  function AbortRow(v: Vault, i: int): Vault
    requires 0 <= i < |v.rows|
  {
    if v.rows[i].status == Committed then v else WithRow(v, i, v.rows[i].(status := Aborted))
  }

  // A planned row is committed only as it was decided, and on the main it was decided for.
  predicate PlanHolds(op: Op, main: string) {
    && op.plan.Some? && op.plan.value.previous == main && Entry(op.expected, MAIN) == Some(main)
    && Entry(op.targets, MAIN) == Some(op.plan.value.target) == op.targetCommit
  }

  function RollForward(v: Vault, i: int): Vault
    requires 0 <= i < |v.rows|
  {
    var op := v.rows[i];
    if !op.evidence && (Merges(op.kind) || Planned(op.kind)) then v.(blocked := true)
    else if !MovesMain(op.kind) then WithRow(v, i, op.(status := Aborted))
    else if Planned(op.kind) && !PlanHolds(op, v.main) then v.(blocked := true)
    else if Entry(op.targets, MAIN).None? then v.(blocked := true)
    else
      var target := Entry(op.targets, MAIN).value;
      WithRow(v, i, op.(status := Committed, targetCommit := Some(target), reconciled := true))
        .(main := target, events := v.events + [Event(op.id, Entry(op.expected, MAIN), target)])
  }

  predicate AllMoved(refs: Refs, targets: Refs) {
    forall ref :: ref in targets ==> RefOf(refs, ref) == Some(targets[ref])
  }

  predicate NoneMoved(refs: Refs, targets: Refs, op: Op) {
    forall ref :: ref in targets ==> RefOf(refs, ref) == Entry(op.expected, ref)
  }

  // A prepared row at startup: rolled forward if every target moved, aborted if none did, and otherwise the
  // vault is blocked.
  function RecoverRow(v: Vault, i: int): Vault
    requires 0 <= i < |v.rows|
  {
    var op := v.rows[i];
    if op.status != Prepared then v
    else
      var targets := RecoverableTargets(op);
      if targets == map[] then
        if ExpectedStillCurrent(v.refs, op) then AbortRow(v, i) else v.(blocked := true)
      else if AllMoved(v.refs, targets) then RollForward(v, i)
      else if NoneMoved(v.refs, targets, op) then AbortRow(v, i)
      else v.(blocked := true)
  }

  function AbortStarted(v: Vault, i: int): Vault
    requires 0 <= i < |v.rows|
  {
    if v.rows[i].status == Started then AbortRow(v, i) else v
  }

  // The first pass aborts the rows that never prepared, the second recovers those that did.
  function FirstPass(v: Vault, i: int): (r: Vault)
    requires 0 <= i <= |v.rows|
    decreases |v.rows| - i
  {
    if i == |v.rows| then v else FirstPass(AbortStarted(v, i), i + 1)
  }

  function SecondPass(v: Vault, i: int): Vault
    requires 0 <= i <= |v.rows|
    decreases |v.rows| - i
  {
    if i == |v.rows| then v else SecondPass(RecoverRow(v, i), i + 1)
  }

  function Reconcile(v: Vault): Vault {
    SecondPass(FirstPass(v, 0), 0)
  }

  // A prepared row excuses a main that has moved to its target; `live` says whether the row is recent
  // enough and its commit exists.
  predicate Excused(v: Vault, live: bool) {
    && live && RefOf(v.refs, MAIN).Some?
    && exists i :: 0 <= i < |v.rows| && Excuses(v.rows[i], v.main, RefOf(v.refs, MAIN))
  }

  predicate Excuses(op: Op, main: string, actual: Option<string>) {
    op.status == Prepared && Entry(op.expected, MAIN) == Some(main) && RefOf(RecoverableTargets(op), MAIN) == actual
  }

  // The integrity check that follows: a vault whose main disagrees with Git is blocked.
  function CheckMain(v: Vault, live: bool): Vault {
    if RefOf(v.refs, MAIN) == Some(v.main) || Excused(v, live) then v else v.(blocked := true)
  }

  function Startup(v: Vault, live: bool): Vault {
    CheckMain(Reconcile(v), live)
  }

  // ----- What a reachable vault looks like -----

  predicate Finished(op: Op) {
    op.status == Committed || op.status == Aborted
  }

  function CommittedIds(rows: seq<Op>): seq<string> {
    if rows == [] then []
    else CommittedIds(rows[..|rows| - 1]) + (if rows[|rows| - 1].status == Committed then [rows[|rows| - 1].id] else [])
  }

  function EventIds(events: seq<Event>): seq<string> {
    if events == [] then [] else EventIds(events[..|events| - 1]) + [events[|events| - 1].op]
  }

  // The events lead from the root to `main`, each starting where the one before it ended.
  predicate Path(root: string, events: seq<Event>, main: string) {
    if events == [] then main == root
    else
      var last := events[|events| - 1];
      last.main == main && last.previous.Some? && Path(root, events[..|events| - 1], last.previous.value)
  }

  predicate Unfinished(v: Vault) {
    v.rows != [] && !Finished(v.rows[|v.rows| - 1])
  }

  function Last(v: Vault): Op
    requires v.rows != []
  {
    v.rows[|v.rows| - 1]
  }

  predicate InFlight(op: Op, main: string) {
    && MovesMain(op.kind) && op.evidence && op.status == Prepared
    && Entry(op.expected, MAIN) == Some(main)
    && op.targets.Keys == {MAIN} && op.targetCommit == op.targets[MAIN]
    && (op.manifestTargets == map[] || (op.targetCommit.Some? && op.manifestTargets == op.targets))
    && (op.targetCommit.Some? ==> IsCommit(op.targetCommit.value) && op.targetCommit.value != main)
    && (Planned(op.kind) ==> op.targetCommit.Some? && PlanHolds(op, main))
  }

  // The refs beside main are where the row expects them.
  predicate OthersCurrent(refs: Refs, expected: Expected) {
    forall ref :: ref in expected && ref != MAIN ==> RefOf(refs, ref) == expected[ref]
  }

  // Committed rows and events match one for one, in order; only the last row may be unfinished, and Git's
  // main is the metadata's, or the target that row has recorded.
  predicate Consistent(root: string, v: Vault) {
    && !v.blocked
    && Path(root, v.events, v.main)
    && EventIds(v.events) == CommittedIds(v.rows)
    && (forall i :: 0 <= i < |v.rows| - 1 ==> Finished(v.rows[i]))
    && (Unfinished(v) ==> InFlight(Last(v), v.main) && OthersCurrent(v.refs, Last(v).expected))
    && (RefOf(v.refs, MAIN) == Some(v.main) || (Unfinished(v) && MovedTo(v)))
  }

  // Git's main has moved and the metadata does not know yet.
  predicate MovedTo(v: Vault)
    requires v.rows != []
  {
    Last(v).targetCommit.Some? && RefOf(v.refs, MAIN) == Last(v).targetCommit
  }

  // ----- Steps, crashes and runs -----

  datatype Step =
    | StepOther(ref: string, value: Option<string>)
    | StepPrepare(id: string, kind: Kind, others: Expected)
    | StepPlan(id: string, kind: Kind, commit: string)
    | StepRecord(commit: string)
    | StepMove(commit: string)
    | StepCommit(commit: string)
    | StepAbort
    | StepAbortStarted(row: int)
    | StepRecover(row: int)

  // A crash loses nothing durable: the next step of a crashed run is a startup step. Startup steps may
  // stop and begin again at any row. Between operations, pushes and removals change the other refs.
  predicate Enabled(v: Vault, s: Step) {
    match s
    case StepOther(ref, _) => !Unfinished(v) && ref != MAIN
    case StepPrepare(id, kind, others) => !Unfinished(v) && MovesMain(kind) && !Planned(kind) && OthersCurrent(v.refs, others)
    case StepPlan(id, kind, commit) => !Unfinished(v) && Planned(kind) && IsCommit(commit) && commit != v.main
    case StepRecord(commit) => Unfinished(v) && Last(v).targetCommit.None? && IsCommit(commit) && commit != v.main
    case StepMove(commit) => Unfinished(v) && Last(v).targetCommit == Some(commit) && RefOf(v.refs, MAIN) == Some(v.main)
    case StepCommit(commit) => Unfinished(v) && Last(v).targetCommit == Some(commit) && RefOf(v.refs, MAIN) == Some(commit)
    case StepAbort => Unfinished(v) && RefOf(v.refs, MAIN) == Some(v.main)
    case StepAbortStarted(i) => 0 <= i < |v.rows|
    case StepRecover(i) => 0 <= i < |v.rows|
  }

  function Next(v: Vault, s: Step): Vault
    requires Enabled(v, s)
  {
    match s
    case StepOther(ref, value) => v.(refs := if value.Some? then v.refs[ref := value.value] else v.refs - {ref})
    case StepPrepare(id, kind, others) => Prepare(v, id, kind, others)
    case StepPlan(id, kind, commit) => PrepareTarget(v, id, kind, commit)
    case StepRecord(commit) => RecordTarget(v, commit)
    case StepMove(commit) => MoveMain(v, commit)
    case StepCommit(commit) => CommitRoute(v, commit)
    case StepAbort => AbortRoute(v)
    case StepAbortStarted(i) => AbortStarted(v, i)
    case StepRecover(i) => RecoverRow(v, i)
  }

  // What an observer of Git alone sees: the path of main, where an operation takes effect at one instant.
  function Observed(v: Vault): seq<Event> {
    if Unfinished(v) && MovedTo(v) then v.events + [Event(Last(v).id, Some(v.main), Last(v).targetCommit.value)] else v.events
  }

  // What the row learns: the target for main, which a merge keeps in its manifest too; and nothing else of the
  // vault changes.
  lemma RecordsExactly(v: Vault, commit: string)
    requires v.rows != []
    ensures var op, after := Last(v), RecordTarget(v, commit);
      && |after.rows| == |v.rows| && after == v.(rows := after.rows) && after.rows[..|v.rows| - 1] == v.rows[..|v.rows| - 1]
      && Last(after) == op.(targets := op.targets[MAIN := Some(commit)], targetCommit := Some(commit), manifestTargets :=
           if op.kind == ServerMerge || op.kind == ConflictResolve then map[MAIN := Some(commit)] else op.manifestTargets)
  {
  }

  // What others do between operations: one ref other than main gets another value, or goes.
  lemma OthersExactly(v: Vault, ref: string, value: Option<string>, r: string)
    requires Enabled(v, StepOther(ref, value))
    ensures var after := Next(v, StepOther(ref, value));
      after == v.(refs := after.refs) && RefOf(after.refs, r) == if r == ref then value else RefOf(v.refs, r)
  {
  }

  lemma RowsAppend(rows: seq<Op>, op: Op)
    ensures CommittedIds(rows + [op]) == CommittedIds(rows) + (if op.status == Committed then [op.id] else [])
  {
    assert (rows + [op])[..|rows|] == rows;
  }

  lemma LastRewritten(rows: seq<Op>, op: Op)
    requires rows != []
    ensures rows[|rows| - 1 := op] == rows[..|rows| - 1] + [op]
    ensures CommittedIds(rows[|rows| - 1 := op]) == CommittedIds(rows[..|rows| - 1]) + (if op.status == Committed then [op.id] else [])
  {
    RowsAppend(rows[..|rows| - 1], op);
  }

  lemma EventsAppend(root: string, events: seq<Event>, e: Event, main: string)
    requires Path(root, events, main) && e.previous == Some(main)
    ensures Path(root, events + [e], e.main) && EventIds(events + [e]) == EventIds(events) + [e.op]
  {
    assert (events + [e])[..|events|] == events;
  }

  lemma InFlightTargets(op: Op, main: string)
    requires InFlight(op, main)
    ensures RecoverableTargets(op) == if op.targetCommit.Some? then map[MAIN := op.targetCommit.value] else map[]
  {
  }

  // Startup on the row in flight: the operation is completed if the ref moved and undone if it did not.
  lemma RecoverInFlight(root: string, v: Vault)
    requires Consistent(root, v) && Unfinished(v)
    ensures MovedTo(v) ==> RecoverRow(v, |v.rows| - 1) == RollForward(v, |v.rows| - 1)
    ensures !MovedTo(v) ==> RecoverRow(v, |v.rows| - 1) == AbortRoute(v)
  {
    InFlightTargets(Last(v), v.main);
  }

  // Rolling forward does what the interrupted route would have done, and marks the row as reconciled.
  lemma RollForwardCompletes(root: string, v: Vault)
    requires Consistent(root, v) && Unfinished(v) && MovedTo(v)
    ensures var done := CommitRoute(v, Last(v).targetCommit.value);
      RollForward(v, |v.rows| - 1) == done.(rows := done.rows[|v.rows| - 1 := Last(done).(reconciled := true)])
  {
    var op := Last(v);
    assert op.targets == map[MAIN := op.targetCommit];
  }

  lemma CommitConsistent(root: string, v: Vault, op: Op)
    requires Consistent(root, v) && Unfinished(v) && MovedTo(v)
    requires op.status == Committed && op.id == Last(v).id
    ensures Consistent(root, Vault(Last(v).targetCommit.value, false, v.rows[|v.rows| - 1 := op],
      v.events + [Event(op.id, Some(v.main), Last(v).targetCommit.value)], v.refs))
  {
    LastRewritten(v.rows, op);
    LastRewritten(v.rows, Last(v));
    EventsAppend(root, v.events, Event(op.id, Some(v.main), Last(v).targetCommit.value), v.main);
    assert v.rows[|v.rows| - 1 := Last(v)] == v.rows;
  }

  lemma AbortConsistent(root: string, v: Vault)
    requires Consistent(root, v) && Unfinished(v) && RefOf(v.refs, MAIN) == Some(v.main)
    ensures Consistent(root, AbortRoute(v))
  {
    hide Path, EventIds, CommittedIds, InFlight, MovedTo;
    LastRewritten(v.rows, Last(v).(status := Aborted));
    LastRewritten(v.rows, Last(v));
    assert v.rows[|v.rows| - 1 := Last(v)] == v.rows;
  }

  lemma RecordConsistent(root: string, v: Vault, commit: string)
    requires Consistent(root, v) && Enabled(v, StepRecord(commit))
    ensures Consistent(root, RecordTarget(v, commit))
  {
    var op := Last(RecordTarget(v, commit));
    assert op.targets == map[MAIN := Some(commit)];
    LastRewritten(v.rows, op);
    LastRewritten(v.rows, Last(v));
    assert v.rows[|v.rows| - 1 := Last(v)] == v.rows;
  }

  lemma RecoverLastKeeps(root: string, v: Vault)
    requires Consistent(root, v) && Unfinished(v)
    ensures var after := RecoverRow(v, |v.rows| - 1);
      Consistent(root, after) && !Unfinished(after) && |after.rows| == |v.rows| && Observed(after) == Observed(v)
  {
    hide RecoverRow, RecoverableTargets, Path;
    RecoverInFlight(root, v);
    if MovedTo(v) {
      RollForwardCompletes(root, v);
      CommitConsistent(root, v, Last(v).(status := Committed, targetCommit := Last(v).targetCommit, reconciled := true));
    } else {
      AbortConsistent(root, v);
    }
  }

  lemma RecoverRowKeeps(root: string, v: Vault, i: int)
    requires Consistent(root, v) && 0 <= i < |v.rows|
    ensures Consistent(root, RecoverRow(v, i)) && Observed(RecoverRow(v, i)) == Observed(v)
    ensures i == |v.rows| - 1 ==> !Unfinished(RecoverRow(v, i))
    ensures |RecoverRow(v, i).rows| == |v.rows|
  {
    hide Path, EventIds, CommittedIds, RecoverableTargets, Observed, MovedTo, InFlight;
    if i == |v.rows| - 1 && Unfinished(v) {
      RecoverLastKeeps(root, v);
    }
  }

  // Every step, crash and restart included, keeps the vault consistent.
  lemma StepKeepsConsistent(root: string, v: Vault, s: Step)
    requires Consistent(root, v) && Enabled(v, s)
    ensures Consistent(root, Next(v, s))
  {
    hide RecoverRow, RecoverableTargets, AbortStarted, Consistent, Unfinished;
    match s
    case StepOther(ref, value) => OtherConsistent(root, v, ref, value);
    case StepPrepare(id, kind, others) => PrepareConsistent(root, v, id, kind, others);
    case StepPlan(id, kind, commit) => PlanConsistent(root, v, id, kind, commit);
    case StepRecord(commit) => RecordConsistent(root, v, commit);
    case StepMove(commit) => MoveConsistent(root, v, commit);
    case StepCommit(commit) => CommitRouteConsistent(root, v, commit);
    case StepAbort => AbortConsistent(root, v);
    case StepAbortStarted(i) => AbortStartedConsistent(root, v, i);
    case StepRecover(i) => RecoverRowKeeps(root, v, i);
  }

  lemma OtherConsistent(root: string, v: Vault, ref: string, value: Option<string>)
    requires Consistent(root, v) && Enabled(v, StepOther(ref, value))
    ensures Consistent(root, Next(v, StepOther(ref, value)))
  {
    hide Path, EventIds, CommittedIds, InFlight;
  }

  lemma PrepareConsistent(root: string, v: Vault, id: string, kind: Kind, others: Expected)
    requires Consistent(root, v) && Enabled(v, StepPrepare(id, kind, others))
    ensures Consistent(root, Prepare(v, id, kind, others))
  {
    hide Path, EventIds, CommittedIds, IsCommit;
    RowsAppend(v.rows, PreparedOp(id, kind, v.main, others));
  }

  lemma PlanConsistent(root: string, v: Vault, id: string, kind: Kind, commit: string)
    requires Consistent(root, v) && Enabled(v, StepPlan(id, kind, commit))
    ensures Consistent(root, PrepareTarget(v, id, kind, commit))
  {
    hide Path, EventIds, CommittedIds, IsCommit;
    RowsAppend(v.rows, PlannedOp(id, kind, v.main, commit));
  }

  lemma MoveConsistent(root: string, v: Vault, commit: string)
    requires Consistent(root, v) && Enabled(v, StepMove(commit))
    ensures Consistent(root, MoveMain(v, commit))
  {
    hide Path, EventIds, CommittedIds, InFlight;
  }

  lemma CommitRouteConsistent(root: string, v: Vault, commit: string)
    requires Consistent(root, v) && Enabled(v, StepCommit(commit))
    ensures Consistent(root, CommitRoute(v, commit))
  {
    hide Path, EventIds, CommittedIds, InFlight;
    var done := Last(v).(status := Committed, targets := map[MAIN := Some(commit)], targetCommit := Some(commit));
    CommitConsistent(root, v, done);
  }

  // A row in flight has prepared, so aborting what never did changes nothing.
  lemma AbortStartedConsistent(root: string, v: Vault, i: int)
    requires Consistent(root, v) && 0 <= i < |v.rows|
    ensures AbortStarted(v, i) == v
  {
    hide Path, EventIds, CommittedIds;
  }

  // Crash refinement: only the compare-and-swap changes what is observed, and it adds exactly one event.
  lemma StepRefines(root: string, v: Vault, s: Step)
    requires Consistent(root, v) && Enabled(v, s)
    ensures Observed(Next(v, s)) ==
      if s.StepMove? then Observed(v) + [Event(Last(v).id, Some(v.main), s.commit)] else Observed(v)
  {
    match s
    case StepOther(ref, value) =>
    case StepPrepare(id, kind, others) =>
    case StepPlan(id, kind, commit) =>
    case StepRecord(commit) =>
    case StepMove(commit) =>
    case StepCommit(commit) =>
    case StepAbort =>
    case StepAbortStarted(i) =>
    case StepRecover(i) => RecoverRowKeeps(root, v, i);
  }

  lemma {:induction false} SecondPassKeeps(root: string, v: Vault, i: int)
    requires Consistent(root, v) && 0 <= i <= |v.rows|
    requires i == |v.rows| ==> !Unfinished(v)
    ensures Consistent(root, SecondPass(v, i)) && Observed(SecondPass(v, i)) == Observed(v)
    ensures !Unfinished(SecondPass(v, i))
    decreases |v.rows| - i
  {
    hide Consistent, Observed, RecoverRow;
    if i < |v.rows| {
      RecoverRowKeeps(root, v, i);
      SecondPassKeeps(root, RecoverRow(v, i), i + 1);
    }
  }

  lemma {:induction false} FirstPassIdle(v: Vault, i: int)
    requires 0 <= i <= |v.rows|
    requires forall j :: 0 <= j < |v.rows| ==> v.rows[j].status != Started
    ensures FirstPass(v, i) == v
    decreases |v.rows| - i
  {
    if i < |v.rows| {
      FirstPassIdle(v, i + 1);
    }
  }

  lemma {:induction false} SecondPassIdle(v: Vault, i: int)
    requires 0 <= i <= |v.rows|
    requires forall j :: 0 <= j < |v.rows| ==> v.rows[j].status != Prepared
    ensures SecondPass(v, i) == v
    decreases |v.rows| - i
  {
    if i < |v.rows| {
      SecondPassIdle(v, i + 1);
    }
  }

  lemma ReconcileKeeps(root: string, v: Vault)
    requires Consistent(root, v)
    ensures Consistent(root, Reconcile(v)) && Observed(Reconcile(v)) == Observed(v) && !Unfinished(Reconcile(v))
  {
    hide Observed, EventIds, CommittedIds, Path, RecoverRow;
    FirstPassIdle(v, 0);
    SecondPassKeeps(root, v, 0);
  }

  lemma ReconcileIdle(root: string, v: Vault)
    requires Consistent(root, v) && !Unfinished(v)
    ensures Reconcile(v) == v
  {
    hide Observed, EventIds, CommittedIds, Path, RecoverRow;
    FirstPassIdle(v, 0);
    SecondPassIdle(v, 0);
  }

  // After startup the vault is at rest: every operation is wholly there or wholly absent, the events are
  // what Git showed before, and metadata and Git agree on main. A second startup changes nothing.
  lemma StartupCompletes(root: string, v: Vault, live: bool)
    requires Consistent(root, v)
    ensures var end := Startup(v, live);
      && Consistent(root, end) && !Unfinished(end)
      && end.events == Observed(v) && RefOf(end.refs, MAIN) == Some(end.main)
      && end.refs == v.refs && Startup(end, live) == end
  {
    hide RecoverRow, EventIds, CommittedIds, Path, Excused;
    ReconcileKeeps(root, v);
    ReconcileKeepsRefs(v);
    ReconcileIdle(root, Reconcile(v));
  }

  lemma RecoverRowSettles(v: Vault, i: int)
    requires 0 <= i < |v.rows|
    ensures var next := RecoverRow(v, i);
      && next.refs == v.refs && |next.rows| == |v.rows| && next.rows == v.rows[i := next.rows[i]]
      && (v.blocked ==> next.blocked)
      && (next.blocked || next.rows[i].status != Prepared)
  {
    hide RecoverableTargets, AllMoved, NoneMoved, ExpectedStillCurrent;
  }

  lemma {:induction false} SecondPassFrame(v: Vault, i: int)
    requires 0 <= i <= |v.rows|
    ensures SecondPass(v, i).refs == v.refs && |SecondPass(v, i).rows| == |v.rows|
    ensures v.blocked ==> SecondPass(v, i).blocked
    ensures forall j :: 0 <= j < i ==> SecondPass(v, i).rows[j] == v.rows[j]
    decreases |v.rows| - i
  {
    hide RecoverRow;
    if i < |v.rows| {
      RecoverRowSettles(v, i);
      SecondPassFrame(RecoverRow(v, i), i + 1);
    }
  }

  lemma {:induction false} SecondPassSettles(v: Vault, i: int, j: int)
    requires 0 <= i <= j < |v.rows|
    ensures |SecondPass(v, i).rows| == |v.rows|
    ensures SecondPass(v, i).blocked || SecondPass(v, i).rows[j].status != Prepared
    decreases j - i
  {
    hide RecoverRow;
    RecoverRowSettles(v, i);
    SecondPassFrame(RecoverRow(v, i), i + 1);
    if i < j {
      SecondPassSettles(RecoverRow(v, i), i + 1, j);
    }
  }

  lemma {:induction false} FirstPassKeepsRefs(v: Vault, i: int)
    requires 0 <= i <= |v.rows|
    ensures FirstPass(v, i).refs == v.refs
    decreases |v.rows| - i
  {
    if i < |v.rows| {
      FirstPassKeepsRefs(AbortStarted(v, i), i + 1);
    }
  }

  lemma ReconcileKeepsRefs(v: Vault)
    ensures Reconcile(v).refs == v.refs
  {
    hide RecoverRow, AbortStarted;
    FirstPassKeepsRefs(v, 0);
    SecondPassFrame(FirstPass(v, 0), 0);
  }

  // Whatever the crash, the rows and the refs were: a vault that startup leaves unblocked has no prepared
  // row left to excuse a difference, so its main is Git's.
  lemma StartupAgreesOrBlocks(v: Vault, live: bool)
    ensures var end := Startup(v, live); end.blocked || RefOf(end.refs, MAIN) == Some(end.main)
  {
    hide RecoverRow, AbortStarted, RecoverableTargets;
    var first := FirstPass(v, 0);
    SecondPassFrame(first, 0);
    forall j | 0 <= j < |first.rows|
      ensures Reconcile(v).blocked || Reconcile(v).rows[j].status != Prepared
    {
      SecondPassSettles(first, 0, j);
    }
  }

  lemma {:induction false} FirstPassRows(v: Vault, i: int)
    requires 0 <= i <= |v.rows|
    ensures var after := FirstPass(v, i);
      && |after.rows| == |v.rows| && after == v.(rows := after.rows)
      && (forall j :: 0 <= j < i ==> after.rows[j] == v.rows[j])
      && forall j :: i <= j < |v.rows| ==>
        after.rows[j] == if v.rows[j].status == Started then v.rows[j].(status := Aborted) else v.rows[j]
    decreases |v.rows| - i
  {
    if i < |v.rows| {
      FirstPassRows(AbortStarted(v, i), i + 1);
    }
  }

  lemma {:induction false} SecondPassRow(v: Vault, i: int, j: int)
    requires 0 <= i <= |v.rows| && 0 <= j < |v.rows| && v.rows[j].status != Prepared
    ensures |SecondPass(v, i).rows| == |v.rows| && SecondPass(v, i).rows[j] == v.rows[j]
    decreases |v.rows| - i
  {
    if i < |v.rows| {
      RecoverRowSettles(v, i);
      hide RecoverableTargets, RollForward, ExpectedStillCurrent, AllMoved, NoneMoved;
      assert i == j ==> RecoverRow(v, i) == v;
      hide RecoverRow;
      SecondPassRow(RecoverRow(v, i), i + 1, j);
    }
  }

  // On any vault startup aborts every row that never prepared and leaves every finished row as it was.
  lemma StartupRows(v: Vault, live: bool, j: int)
    requires 0 <= j < |v.rows|
    ensures var end := Startup(v, live);
      && |end.rows| == |v.rows| && end.rows[j].status != Started
      && (v.rows[j].status == Started ==> end.rows[j] == v.rows[j].(status := Aborted))
      && (v.rows[j].status == Committed || v.rows[j].status == Aborted ==> end.rows[j] == v.rows[j])
  {
    hide FirstPass, SecondPass, Excused;
    FirstPassRows(v, 0);
    var first := FirstPass(v, 0);
    SecondPassFrame(first, 0);
    if v.rows[j].status != Prepared {
      SecondPassRow(first, 0, j);
    } else {
      SecondPassSettled(first, 0, j);
    }
  }

  lemma RollForwardStarts(v: Vault, i: int)
    requires 0 <= i < |v.rows| && v.rows[i].status != Started
    ensures |RollForward(v, i).rows| == |v.rows| && RollForward(v, i).rows[i].status != Started
  {
    hide PlanHolds, Entry;
  }

  lemma RecoverRowNotStarted(v: Vault, i: int)
    requires 0 <= i < |v.rows| && v.rows[i].status != Started
    ensures |RecoverRow(v, i).rows| == |v.rows| && RecoverRow(v, i).rows[i].status != Started
  {
    hide RecoverableTargets, AllMoved, NoneMoved, ExpectedStillCurrent, RollForward;
    RollForwardStarts(v, i);
  }

  lemma {:induction false} SecondPassSettled(v: Vault, i: int, j: int)
    requires 0 <= i <= |v.rows| && 0 <= j < |v.rows| && v.rows[j].status != Started
    ensures |SecondPass(v, i).rows| == |v.rows| && SecondPass(v, i).rows[j].status != Started
    decreases |v.rows| - i
  {
    hide RecoverRow;
    if i < |v.rows| {
      RecoverRowSettles(v, i);
      if i == j {
        RecoverRowNotStarted(v, i);
      }
      SecondPassSettled(RecoverRow(v, i), i + 1, j);
    }
  }

  // The commit a row names for a ref: its manifest's, else its own, else the target commit for main.
  lemma TargetsExactly(op: Op, ref: string)
    ensures RefOf(RecoverableTargets(op), ref) ==
      if ref in op.manifestTargets && op.manifestTargets[ref].Some? && IsCommit(op.manifestTargets[ref].value) then op.manifestTargets[ref]
      else if ref in op.targets && op.targets[ref].Some? && IsCommit(op.targets[ref].value) then op.targets[ref]
      else if ref == MAIN && op.targetCommit.Some? && IsCommit(op.targetCommit.value)
        && (op.kind == ServerMerge || op.kind == ConflictResolve || op.kind == NoteRestore) then op.targetCommit
      else None
  {
    hide IsCommit;
  }

  // What a row must hold to be committed by startup, once its refs have moved: evidence that verifies, save
  // for a restore, a target for main, and, decided beforehand, the very move it was decided for.
  predicate Committable(op: Op, main: string) {
    && op.kind != Maintenance && (op.evidence || op.kind == NoteRestore)
    && MAIN in op.targets && op.targets[MAIN].Some?
    && (op.kind == NameRepair || op.kind == VaultSettings ==>
          && op.plan == Some(Plan(main, op.targets[MAIN].value)) && op.targetCommit == op.targets[MAIN]
          && MAIN in op.expected && op.expected[MAIN] == Some(main))
  }

  predicate OtherRowsSame(before: Vault, after: Vault, i: int) {
    && after.refs == before.refs && |after.rows| == |before.rows|
    && forall j :: 0 <= j < |before.rows| && j != i ==> after.rows[j] == before.rows[j]
  }

  // What becomes of a prepared row, on any vault whatever. Its refs all moved, it is committed if it can be,
  // with one event; maintenance is aborted then; and anything else blocks the vault and changes nothing.
  lemma MovedRowExactly(v: Vault, i: int)
    requires 0 <= i < |v.rows| && v.rows[i].status == Prepared && RecoverableTargets(v.rows[i]) != map[]
    requires forall ref :: ref in RecoverableTargets(v.rows[i]) ==> RefOf(v.refs, ref) == Some(RecoverableTargets(v.rows[i])[ref])
    ensures var op, after := v.rows[i], RecoverRow(v, i);
      && OtherRowsSame(v, after, i)
      && (Committable(op, v.main) ==>
            && after.main == op.targets[MAIN].value && after.blocked == v.blocked
            && after.rows[i] == op.(status := Committed, targetCommit := op.targets[MAIN], reconciled := true)
            && after.events == v.events + [Event(op.id, Entry(op.expected, MAIN), after.main)])
      && (op.kind == Maintenance ==> after == v.(rows := v.rows[i := op.(status := Aborted)]))
      && (op.kind != Maintenance && !Committable(op, v.main) ==> after == v.(blocked := true))
  {
    hide RecoverableTargets;
  }

  // Not all moved, it is aborted if every ref it names, or else every ref it expects, is where it was; and
  // anything else blocks the vault.
  lemma UnmovedRowExactly(v: Vault, i: int)
    requires 0 <= i < |v.rows| && v.rows[i].status == Prepared
    requires RecoverableTargets(v.rows[i]) != map[] ==>
      exists ref :: ref in RecoverableTargets(v.rows[i]) && RefOf(v.refs, ref) != Some(RecoverableTargets(v.rows[i])[ref])
    ensures var op, targets := v.rows[i], RecoverableTargets(v.rows[i]);
      var waiting := if targets == map[] then op.expected.Keys else targets.Keys;
      RecoverRow(v, i) ==
        if forall ref :: ref in waiting ==> RefOf(v.refs, ref) == Entry(op.expected, ref)
        then v.(rows := v.rows[i := op.(status := Aborted)]) else v.(blocked := true)
  {
    hide RecoverableTargets, RollForward;
  }

  // While an operation runs, a check of main lets its move pass as long as the row is recent.
  lemma CheckDuring(root: string, v: Vault, live: bool)
    requires Consistent(root, v)
    ensures CheckMain(v, live) == if live || !(Unfinished(v) && MovedTo(v)) then v else v.(blocked := true)
  {
    hide Path, EventIds, CommittedIds;
    if Unfinished(v) {
      InFlightTargets(Last(v), v.main);
    }
    if Unfinished(v) && MovedTo(v) && live {
      assert Excuses(v.rows[|v.rows| - 1], v.main, RefOf(v.refs, MAIN));
    }
  }

  predicate PreparedFor(op: Op, main: string, actual: Option<string>) {
    op.status == Prepared && MAIN in op.expected && op.expected[MAIN] == Some(main) && RefOf(RecoverableTargets(op), MAIN) == actual
  }

  // No other difference passes: the row that excuses one is prepared, expects the metadata's main and names
  // the ref's.
  lemma ExcusedExactly(v: Vault, live: bool)
    requires !v.blocked
    ensures !CheckMain(v, live).blocked <==>
      || RefOf(v.refs, MAIN) == Some(v.main)
      || (live && RefOf(v.refs, MAIN).Some? && exists op :: op in v.rows && PreparedFor(op, v.main, RefOf(v.refs, MAIN)))
  {
    hide RecoverableTargets;
    if exists i :: 0 <= i < |v.rows| && Excuses(v.rows[i], v.main, RefOf(v.refs, MAIN)) {
      var i :| 0 <= i < |v.rows| && Excuses(v.rows[i], v.main, RefOf(v.refs, MAIN));
      assert v.rows[i] in v.rows;
    }
  }

  // ----- Whole runs -----

  predicate Runs(v: Vault, steps: seq<Step>)
    decreases |steps|
  {
    steps == [] || (Enabled(v, steps[0]) && Runs(Next(v, steps[0]), steps[1..]))
  }

  function RunOf(v: Vault, steps: seq<Step>): Vault
    requires Runs(v, steps)
    decreases |steps|
  {
    if steps == [] then v else RunOf(Next(v, steps[0]), steps[1..])
  }

  function Moves(steps: seq<Step>): seq<string> {
    if steps == [] then [] else (if steps[0].StepMove? then [steps[0].commit] else []) + Moves(steps[1..])
  }

  function Mains(events: seq<Event>): seq<string> {
    if events == [] then [] else Mains(events[..|events| - 1]) + [events[|events| - 1].main]
  }

  lemma MainsAppend(events: seq<Event>, e: Event)
    ensures Mains(events + [e]) == Mains(events) + [e.main]
  {
    assert (events + [e])[..|events|] == events;
  }

  lemma StepMains(root: string, v: Vault, s: Step)
    requires Consistent(root, v) && Enabled(v, s)
    ensures Mains(Observed(Next(v, s))) == Mains(Observed(v)) + (if s.StepMove? then [s.commit] else [])
  {
    StepRefines(root, v, s);
    if s.StepMove? {
      MainsAppend(Observed(v), Event(Last(v).id, Some(v.main), s.commit));
    }
  }

  lemma {:induction false} RunKeepsConsistent(root: string, v: Vault, steps: seq<Step>)
    requires Consistent(root, v) && Runs(v, steps)
    ensures Consistent(root, RunOf(v, steps))
    decreases |steps|
  {
    hide Consistent, Enabled, Next;
    if steps != [] {
      var s, rest := steps[0], steps[1..];
      StepKeepsConsistent(root, v, s);
      RunKeepsConsistent(root, Next(v, s), rest);
    }
  }

  lemma Regroup(a: seq<string>, b: seq<string>, c: seq<string>)
    ensures a + b + c == a + (b + c)
  {
  }

  lemma {:induction false} RunRefines(root: string, v: Vault, steps: seq<Step>)
    requires Consistent(root, v) && Runs(v, steps)
    ensures Mains(Observed(RunOf(v, steps))) == Mains(Observed(v)) + Moves(steps)
    decreases |steps|
  {
    hide Consistent, Observed, Enabled, Next, Mains;
    if steps != [] {
      var s, rest := steps[0], steps[1..];
      StepKeepsConsistent(root, v, s);
      StepMains(root, v, s);
      RunRefines(root, Next(v, s), rest);
      Regroup(Mains(Observed(v)), if s.StepMove? then [s.commit] else [], Moves(rest));
    }
  }

  // Over any run of operations, crashes and restarts, then a startup: the recorded events are exactly the
  // compare-and-swaps that succeeded, in order, and metadata main equals Git main.
  lemma RunThenStartup(root: string, v: Vault, steps: seq<Step>, live: bool)
    requires Consistent(root, v) && Runs(v, steps)
    ensures var end := Startup(RunOf(v, steps), live);
      && !end.blocked && RefOf(end.refs, MAIN) == Some(end.main)
      && Mains(end.events) == Mains(Observed(v)) + Moves(steps)
      && EventIds(end.events) == CommittedIds(end.rows)
  {
    hide Startup, Observed, Mains, EventIds, CommittedIds, Path, Enabled, Next;
    RunKeepsConsistent(root, v, steps);
    RunRefines(root, v, steps);
    StartupCompletes(root, RunOf(v, steps), live);
  }

  lemma {:induction false} RunExtends(v: Vault, steps: seq<Step>, s: Step)
    requires Runs(v, steps) && Enabled(RunOf(v, steps), s)
    ensures Runs(v, steps + [s]) && RunOf(v, steps + [s]) == Next(RunOf(v, steps), s)
    decreases |steps|
  {
    hide Enabled, Next;
    if steps == [] {
      assert [s][1..] == [];
    } else {
      RunExtends(Next(v, steps[0]), steps[1..], s);
      assert (steps + [s])[1..] == steps[1..] + [s];
    }
  }

  // ----- One operation, crashed anywhere -----

  // An operation as its caller asks for it; the target commit of a merge is made after the row.
  datatype Change = Change(id: string, kind: Kind, others: Expected, commit: string)

  predicate Ready(v: Vault, c: Change) {
    MovesMain(c.kind) && IsCommit(c.commit) && c.commit != v.main && OthersCurrent(v.refs, c.others)
  }

  function Route(c: Change): seq<Step> {
    (if Planned(c.kind) then [StepPlan(c.id, c.kind, c.commit)] else [StepPrepare(c.id, c.kind, c.others), StepRecord(c.commit)])
    + [StepMove(c.commit), StepCommit(c.commit)]
  }

  // The row is written and names its target.
  function Recorded(v: Vault, c: Change): Vault {
    if Planned(c.kind) then PrepareTarget(v, c.id, c.kind, c.commit) else RecordTarget(Prepare(v, c.id, c.kind, c.others), c.commit)
  }

  function AfterWrites(v: Vault, c: Change, k: int): Vault {
    var n := |Route(c)|;
    if k <= 0 then v
    else if k < n - 2 then Prepare(v, c.id, c.kind, c.others)
    else if k == n - 2 then Recorded(v, c)
    else if k == n - 1 then MoveMain(Recorded(v, c), c.commit)
    else CommitRoute(MoveMain(Recorded(v, c), c.commit), c.commit)
  }

  lemma RouteStep(root: string, v: Vault, c: Change, k: int)
    requires Consistent(root, v) && !Unfinished(v) && MovesMain(c.kind) && OthersCurrent(v.refs, c.others)
    requires 0 <= k < |Route(c)| && (k > 0 || Planned(c.kind) ==> Ready(v, c))
    ensures var here := AfterWrites(v, c, k);
      Enabled(here, Route(c)[k]) && Next(here, Route(c)[k]) == AfterWrites(v, c, k + 1)
  {
    hide Path, EventIds, CommittedIds, IsCommit, OthersCurrent;
  }

  predicate GaveUp(v: Vault, after: Vault) {
    after.main == v.main && after.events == v.events && after.refs == v.refs && !Unfinished(after)
  }

  // A route that has not moved the ref can give up, and then main, the events and the refs are as before.
  lemma GivesUp(root: string, v: Vault, c: Change, k: int)
    requires Consistent(root, v) && !Unfinished(v) && 1 <= k <= |Route(c)| - 2
    ensures var here := AfterWrites(v, c, k);
      Enabled(here, StepAbort) && GaveUp(v, Next(here, StepAbort))
  {
    hide Path, EventIds, CommittedIds;
  }

  lemma {:induction false} RouteRuns(root: string, v: Vault, c: Change, k: int)
    requires Consistent(root, v) && !Unfinished(v) && Ready(v, c)
    requires 0 <= k <= |Route(c)|
    ensures var steps := Route(c)[..k]; Runs(v, steps) && RunOf(v, steps) == AfterWrites(v, c, k)
    decreases k
  {
    hide Consistent, Enabled, Next, IsCommit, Unfinished, Route;
    if k > 0 {
      RouteRuns(root, v, c, k - 1);
      RouteStep(root, v, c, k - 1);
      var steps := Route(c);
      RunExtends(v, steps[..k - 1], steps[k - 1]);
      assert steps[..k] == steps[..k - 1] + [steps[k - 1]];
    }
  }

  // An operation of any kind that crashes after any number of its durable writes, followed by a startup:
  // before the ref moved it is as if the operation never ran; from then on as if it completed, with one event.
  lemma CrashAnywhere(root: string, v: Vault, c: Change, k: int, live: bool)
    requires Consistent(root, v) && !Unfinished(v) && Ready(v, c)
    requires 0 <= k <= |Route(c)|
    ensures var end, moved := Startup(AfterWrites(v, c, k), live), k >= |Route(c)| - 1;
      && !end.blocked && !Unfinished(end) && EventIds(end.events) == CommittedIds(end.rows)
      && end.main == (if moved then c.commit else v.main) && RefOf(end.refs, MAIN) == Some(end.main)
      && end.events == v.events + (if moved then [Event(c.id, Some(v.main), c.commit)] else [])
      && forall ref :: ref != MAIN ==> RefOf(end.refs, ref) == RefOf(v.refs, ref)
  {
    hide Startup, Path, EventIds, CommittedIds, IsCommit, Enabled, Next, Runs, RunOf, AfterWrites, Observed;
    RouteRuns(root, v, c, k);
    RunKeepsConsistent(root, v, Route(c)[..k]);
    ObservedAfter(root, v, c, k);
    StartupCompletes(root, AfterWrites(v, c, k), live);
  }

  // What Git shows after k writes.
  lemma ObservedAfter(root: string, v: Vault, c: Change, k: int)
    requires Consistent(root, v) && !Unfinished(v) && Ready(v, c)
    requires 0 <= k <= |Route(c)|
    ensures var here, moved := AfterWrites(v, c, k), k >= |Route(c)| - 1;
      && Observed(here) == v.events + (if moved then [Event(c.id, Some(v.main), c.commit)] else [])
      && RefOf(here.refs, MAIN) == Some(if moved then c.commit else v.main)
      && forall ref :: ref != MAIN ==> RefOf(here.refs, ref) == RefOf(v.refs, ref)
  {
    hide Path, EventIds, CommittedIds, IsCommit, OthersCurrent;
    assert v.events + [] == v.events;
  }

  // ----- A ref nobody expected -----

  // Whatever the refs hold, a row in flight is completed, undone, or the vault is blocked with the row, the
  // main and the events untouched. A row that names its target is blocked exactly when main holds neither
  // value the row names, a row that does not exactly when any ref is not where it expects it.
  lemma ForeignRefBlocks(v: Vault, op: Op)
    requires v.rows != [] && Last(v) == op && InFlight(op, v.main) && !v.blocked
    ensures var after, main := RecoverRow(v, |v.rows| - 1), RefOf(v.refs, MAIN);
      && (after.blocked <==>
        if op.targetCommit.Some? then main != Some(v.main) && main != op.targetCommit
        else main != Some(v.main) || !OthersCurrent(v.refs, op.expected))
      && (after.blocked ==> after == v.(blocked := true))
  {
    InFlightTargets(op, v.main);
  }

  // ----- A Git failure -----

  // A merge or a planned change asks where the ref is: moved, it goes on to commit; not moved, it gives up;
  // and anywhere else the vault is blocked. (A merge whose repository could not be synced leaves its row to
  // startup instead, as a crash would.)
  function SettleFailure(v: Vault): Vault
    requires v.rows != []
  {
    if Last(v).targetCommit.Some? && RefOf(v.refs, MAIN) == Last(v).targetCommit then CommitRoute(v, Last(v).targetCommit.value)
    else if RefOf(v.refs, MAIN) == Some(v.main) then AbortRoute(v)
    else v.(blocked := true)
  }

  // A ref that is at neither end blocks the vault, and nothing else changes.
  lemma FailureElsewhere(v: Vault)
    requires v.rows != [] && RefOf(v.refs, MAIN) != Some(v.main)
    requires Last(v).targetCommit.None? || RefOf(v.refs, MAIN) != Last(v).targetCommit
    ensures SettleFailure(v) == v.(blocked := true)
  {
  }

  // So a failure is settled at once as the next startup would settle it.
  lemma SettledAsStartup(root: string, v: Vault)
    requires Consistent(root, v) && Unfinished(v)
    ensures var end := SettleFailure(v);
      && Consistent(root, end) && !Unfinished(end) && end.events == Observed(v) && RefOf(end.refs, MAIN) == Some(end.main)
      && (MovedTo(v) ==> Enabled(v, StepCommit(Last(v).targetCommit.value)) && end == Next(v, StepCommit(Last(v).targetCommit.value)))
      && (!MovedTo(v) ==> Enabled(v, StepAbort) && end == Next(v, StepAbort))
  {
    hide Path, EventIds, CommittedIds;
    if MovedTo(v) {
      CommitRouteConsistent(root, v, Last(v).targetCommit.value);
    } else {
      AbortConsistent(root, v);
    }
  }

  // A restore or a resolution does not ask: a Git failure reported after the ref has in fact moved makes it
  // abort a moved operation.
  function AbortAfterMove(v: Vault, commit: string): Vault
    requires v.rows != []
  {
    AbortRoute(MoveMain(v, commit))
  }

  // That is the one way a route leaves Git and metadata apart with no row to repair it, and the
  // integrity check of the next startup blocks the vault.
  lemma AbortAfterMoveBlocks(root: string, v: Vault, commit: string, live: bool)
    requires Consistent(root, v) && Enabled(v, StepMove(commit))
    ensures !Consistent(root, AbortAfterMove(v, commit))
    ensures Startup(AbortAfterMove(v, commit), live) == AbortAfterMove(v, commit).(blocked := true)
  {
    var after := AbortAfterMove(v, commit);
    assert forall i :: 0 <= i < |after.rows| ==> Finished(after.rows[i]);
    FirstPassIdle(after, 0);
    SecondPassIdle(after, 0);
  }

  // ----- The server -----

  datatype Outcome = Applied | Stale | GitFailed | Crashed

  // A ref update may fail before the ref moves, or after, when the repository cannot be synced.
  datatype RefUpdate = Moves | Fails | MovesThenFails

  class VaultServer {
    var durable: Vault
    ghost var root: string
    ghost var origin: Vault
    ghost var steps: seq<Step>

    // Every durable state the vault has had is reached by the protocol from a consistent one.
    ghost predicate Valid()
      reads this
    {
      Consistent(root, origin) && Runs(origin, steps) && durable == RunOf(origin, steps)
    }

    constructor (v: Vault, path: string)
      requires Consistent(path, v)
      ensures Valid() && durable == v && steps == [] && root == path && origin == v
    {
      durable, root, origin, steps := v, path, v, [];
    }

    // One durable write: a metadata persist or a Git ref update.
    method Write(s: Step)
      requires Valid() && Enabled(durable, s)
      modifies this
      ensures Valid() && root == old(root) && origin == old(origin)
      ensures durable == Next(old(durable), s) && steps == old(steps) + [s]
    {
      hide Consistent, Enabled, Next;
      RunExtends(origin, steps, s);
      durable := Next(durable, s);
      steps := steps + [s];
    }

    // The history restore. `created` is the commit Git built, if it could; `update` is what became of the ref
    // update; `writes` is how many durable writes happen before a crash. An update that moved the ref and
    // then failed is aborted like any other, which leaves the protocol.
    method RestoreHistory(id: string, expectedMain: string, created: Option<string>, update: RefUpdate, writes: int)
      returns (outcome: Outcome)
      requires Valid() && Consistent(root, durable) && !Unfinished(durable)
      requires created.Some? ==> IsCommit(created.value) && created.value != durable.main
      modifies this
      ensures root == old(root) && origin == old(origin)
      ensures outcome != GitFailed || created.None? || update != MovesThenFails ==> Valid()
      ensures outcome == Stale <==> expectedMain != old(durable).main
      ensures outcome == Stale ==> durable == old(durable)
      ensures outcome == Applied ==> created.Some? && update == Moves && durable == Completed(old(durable), id, created.value)
      ensures outcome == GitFailed ==> created.None? || update != Moves
      ensures outcome == GitFailed && (created.None? || update == Fails) ==> GaveUp(old(durable), durable)
      ensures outcome == GitFailed && created.Some? && update == MovesThenFails ==>
        durable == AbortAfterMove(Recorded(old(durable), Restore(id, created.value)), created.value)
      ensures outcome == Crashed <==>
        expectedMain == old(durable).main && writes <= if created.None? then 1 else if update == Fails then 2 else 3
      ensures outcome == Crashed ==> durable == AfterWrites(old(durable), Restore(id, Value(created)), writes)
    {
      hide Consistent, Runs, RunOf, IsCommit, Enabled, Next, AfterWrites, Recorded, Unfinished, Completed, AbortRoute;
      ghost var v, c := durable, Restore(id, Value(created));
      if expectedMain != durable.main {
        return Stale;
      }
      RestoreWrites(root, v, id, Value(created), writes);
      if writes <= 0 {
        return Crashed;
      }
      Write(StepPrepare(id, NoteRestore, map[]));
      if writes <= 1 {
        return Crashed;
      }
      if created.None? {
        GivesUp(root, v, c, 1);
        Write(StepAbort);
        return GitFailed;
      }
      Write(StepRecord(created.value));
      if writes <= 2 {
        return Crashed;
      }
      if update == Fails {
        GivesUp(root, v, c, 2);
        Write(StepAbort);
        return GitFailed;
      }
      Write(StepMove(created.value));
      if writes <= 3 {
        return Crashed;
      }
      if update == MovesThenFails {
        durable := AbortRoute(durable);
        return GitFailed;
      }
      Write(StepCommit(created.value));
      return Applied;
    }

    // A name repair or a change of settings: the row names its target from the start, and a Git failure is
    // settled by asking where the ref is, so no outcome leaves the protocol.
    method ApplyPlanned(c: Change, expectedMain: string, update: RefUpdate, writes: int) returns (outcome: Outcome)
      requires Valid() && Consistent(root, durable) && !Unfinished(durable)
      requires Planned(c.kind) && Ready(durable, c)
      modifies this
      ensures Valid() && root == old(root) && origin == old(origin)
      ensures outcome == Stale <==> expectedMain != old(durable).main
      ensures outcome == Stale ==> durable == old(durable)
      ensures outcome == Applied ==> update != Fails && durable == AfterWrites(old(durable), c, 3)
      ensures outcome == GitFailed ==> update == Fails && GaveUp(old(durable), durable)
      ensures outcome == Crashed <==> expectedMain == old(durable).main && writes <= if update == Fails then 1 else 2
      ensures outcome == Crashed ==> durable == AfterWrites(old(durable), c, writes)
    {
      hide Consistent, Runs, RunOf, Enabled, Next, AfterWrites, Unfinished, SettleFailure, Ready;
      ghost var v := durable;
      if expectedMain != durable.main {
        return Stale;
      }
      PlannedWrites(root, v, c, writes);
      if writes <= 0 {
        return Crashed;
      }
      Write(StepPlan(c.id, c.kind, c.commit));
      if writes <= 1 {
        return Crashed;
      }
      if update != Fails {
        Write(StepMove(c.commit));
        if writes <= 2 {
          return Crashed;
        }
      }
      if update == Moves {
        Write(StepCommit(c.commit));
        return Applied;
      }
      FailureWrites(root, v, c, update == MovesThenFails);
      if RefOf(durable.refs, MAIN) == Some(c.commit) {
        Write(StepCommit(c.commit));
        return Applied;
      }
      Write(StepAbort);
      return GitFailed;
    }

    // One row of a startup pass. On a vault that followed the protocol it is a step of the protocol.
    method ReconcileRow(first: bool, i: int)
      requires 0 <= i < |durable.rows|
      modifies this
      ensures durable == if first then AbortStarted(old(durable), i) else RecoverRow(old(durable), i)
      ensures |durable.rows| == |old(durable).rows| && root == old(root) && origin == old(origin)
      ensures old(Valid()) ==> Valid()
    {
      hide Consistent, Runs, RunOf, AbortStarted, RecoverRow;
      var s := if first then StepAbortStarted(i) else StepRecover(i);
      if old(Valid()) {
        RunExtends(origin, steps, s);
      }
      PassLengths(durable, i);
      durable := if first then AbortStarted(durable, i) else RecoverRow(durable, i);
      steps := steps + [s];
    }

    // The two passes of startup, then the integrity check; this may run on any vault at all, and leaves one
    // that followed the protocol following it.
    method StartUp(live: bool)
      modifies this
      ensures durable == Startup(old(durable), live)
      ensures durable.blocked || RefOf(durable.refs, MAIN) == Some(durable.main)
      ensures forall j :: 0 <= j < |old(durable).rows| ==> RowAtRest(old(durable), durable, j)
      ensures old(Valid()) ==> Valid() && !Unfinished(durable)
    {
      hide AbortStarted, RecoverRow, CheckMain, Consistent, Unfinished, Runs, RunOf;
      ghost var before := durable;
      if Valid() {
        RunKeepsConsistent(root, origin, steps);
        CheckIdle(root, before, live);
      }
      var i := 0;
      while i < |durable.rows|
        invariant 0 <= i <= |durable.rows|
        invariant FirstPass(before, 0) == FirstPass(durable, i)
        invariant old(Valid()) ==> Valid()
        decreases |durable.rows| - i
      {
        PassLengths(durable, i);
        ReconcileRow(true, i);
        i := i + 1;
      }
      i := 0;
      while i < |durable.rows|
        invariant 0 <= i <= |durable.rows|
        invariant Reconcile(before) == SecondPass(durable, i)
        invariant old(Valid()) ==> Valid()
        decreases |durable.rows| - i
      {
        PassLengths(durable, i);
        ReconcileRow(false, i);
        i := i + 1;
      }
      durable := CheckMain(durable, live);
      StartupAgreesOrBlocks(before, live);
      forall j | 0 <= j < |before.rows|
        ensures RowAtRest(before, durable, j)
      {
        StartupRows(before, live, j);
        PreparedSettles(before, live, j);
      }
    }
  }

  // A row that never prepared is aborted, a finished one stays, and a prepared one is finished too unless the
  // vault is blocked.
  predicate RowAtRest(before: Vault, after: Vault, j: int)
    requires 0 <= j < |before.rows|
  {
    && |after.rows| == |before.rows|
    && (before.rows[j].status == Started ==> after.rows[j] == before.rows[j].(status := Aborted))
    && (before.rows[j].status == Committed || before.rows[j].status == Aborted ==> after.rows[j] == before.rows[j])
    && (before.rows[j].status == Prepared ==> after.blocked || after.rows[j].status == Committed || after.rows[j].status == Aborted)
  }

  lemma PreparedSettles(v: Vault, live: bool, j: int)
    requires 0 <= j < |v.rows|
    ensures |Startup(v, live).rows| == |v.rows|
    ensures Startup(v, live).blocked || Startup(v, live).rows[j].status != Prepared
  {
    hide FirstPass, SecondPass, Excused;
    FirstPassRows(v, 0);
    SecondPassSettles(FirstPass(v, 0), 0, j);
  }

  // On a vault that followed the protocol the integrity check has nothing to do.
  lemma CheckIdle(root: string, v: Vault, live: bool)
    requires Consistent(root, v)
    ensures CheckMain(Reconcile(v), live) == Reconcile(v) && !Unfinished(Reconcile(v))
  {
    hide Reconcile, Excused, Unfinished, Observed;
    ReconcileKeeps(root, v);
    AtRest(root, Reconcile(v));
  }

  lemma PassLengths(v: Vault, i: int)
    requires 0 <= i < |v.rows|
    ensures |AbortStarted(v, i).rows| == |v.rows| && |RecoverRow(v, i).rows| == |v.rows|
  {
  }

  function Restore(id: string, commit: string): Change {
    Change(id, NoteRestore, map[], commit)
  }

  function Value(o: Option<string>): string {
    if o.Some? then o.value else ""
  }

  // The writes of a restore, each enabled by the ones before it.
  lemma RestoreWrites(root: string, v: Vault, id: string, commit: string, writes: int)
    requires Consistent(root, v) && !Unfinished(v)
    ensures Enabled(v, StepPrepare(id, NoteRestore, map[]))
    ensures Next(v, StepPrepare(id, NoteRestore, map[])) == AfterWrites(v, Restore(id, commit), 1)
    ensures IsCommit(commit) && commit != v.main ==> RecordsAndMoves(v, id, commit)
    ensures writes <= 0 ==> AfterWrites(v, Restore(id, commit), writes) == v
  {
    hide Consistent, Enabled, Next, AfterWrites, IsCommit, Unfinished;
    var c := Restore(id, commit);
    NoWrites(v, c, 0);
    NoWrites(v, c, writes);
    RouteStep(root, v, c, 0);
    if IsCommit(commit) && commit != v.main {
      RouteStep(root, v, c, 1);
      RouteStep(root, v, c, 2);
      RouteStep(root, v, c, 3);
      CompletedAfter(v, id, commit);
    }
  }

  predicate RecordsAndMoves(v: Vault, id: string, commit: string) {
    var c := Restore(id, commit);
    var one, two, three := AfterWrites(v, c, 1), AfterWrites(v, c, 2), AfterWrites(v, c, 3);
    && Enabled(one, StepRecord(commit)) && Next(one, StepRecord(commit)) == two
    && Enabled(two, StepMove(commit)) && Next(two, StepMove(commit)) == three
    && two == Recorded(v, c) && two.rows != [] && three == MoveMain(two, commit)
    && Enabled(three, StepCommit(commit)) && Next(three, StepCommit(commit)) == Completed(v, id, commit)
  }

  lemma NoWrites(v: Vault, c: Change, k: int)
    ensures k <= 0 ==> AfterWrites(v, c, k) == v
  {
  }

  lemma CompletedAfter(v: Vault, id: string, commit: string)
    ensures var c := Restore(id, commit);
      && AfterWrites(v, c, 4) == Completed(v, id, commit)
      && AfterWrites(v, c, 3) == MoveMain(AfterWrites(v, c, 2), commit)
      && AfterWrites(v, c, 2) == Recorded(v, c) && Recorded(v, c).rows != []
  {
  }

  // The writes of a planned change, each enabled by the ones before it.
  lemma PlannedWrites(root: string, v: Vault, c: Change, writes: int)
    requires Consistent(root, v) && !Unfinished(v) && Planned(c.kind) && Ready(v, c)
    ensures var one, two := AfterWrites(v, c, 1), AfterWrites(v, c, 2);
      && Enabled(v, StepPlan(c.id, c.kind, c.commit)) && Next(v, StepPlan(c.id, c.kind, c.commit)) == one
      && Enabled(one, StepMove(c.commit)) && Next(one, StepMove(c.commit)) == two
      && Enabled(two, StepCommit(c.commit)) && Next(two, StepCommit(c.commit)) == AfterWrites(v, c, 3)
    ensures writes <= 0 ==> AfterWrites(v, c, writes) == v
  {
    hide Consistent, Enabled, Next, AfterWrites, IsCommit, Unfinished;
    NoWrites(v, c, 0);
    NoWrites(v, c, writes);
    RouteStep(root, v, c, 0);
    RouteStep(root, v, c, 1);
    RouteStep(root, v, c, 2);
  }

  // After a failure a planned change is settled by one more write.
  lemma FailureWrites(root: string, v: Vault, c: Change, moved: bool)
    requires Consistent(root, v) && !Unfinished(v) && Planned(c.kind) && Ready(v, c)
    ensures var here := AfterWrites(v, c, if moved then 2 else 1);
      && (RefOf(here.refs, MAIN) == Some(c.commit) <==> moved) && here.rows != []
      && (!moved ==> Enabled(here, StepAbort) && GaveUp(v, Next(here, StepAbort)))
      && SettleFailure(here) == if moved then AfterWrites(v, c, 3) else Next(here, StepAbort)
  {
    hide Path, EventIds, CommittedIds, IsCommit;
    GivesUp(root, v, c, 1);
  }

  lemma AtRest(root: string, v: Vault)
    requires Consistent(root, v) && !Unfinished(v)
    ensures RefOf(v.refs, MAIN) == Some(v.main)
  {
  }

  // What a restore that ends leaves: a committed row, main moved in both stores, one event.
  function Completed(v: Vault, id: string, commit: string): Vault {
    var op := Op(id, NoteRestore, map[MAIN := Some(v.main)], map[MAIN := Some(commit)], map[], Some(commit), None, true, Committed, false);
    Vault(commit, v.blocked, v.rows + [op], v.events + [Event(id, Some(v.main), commit)], v.refs[MAIN := commit])
  }
}
