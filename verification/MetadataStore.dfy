// The metadata store as an object: its durable file and ledgers, its in-memory copy, and the methods that
// open it, archive finished operations and report them (src/server/metadataStore.ts).
module MetadataStore {
  import opened Common
  import opened OperationLedger
  import opened HistoryHandoff
  import opened HistorySafety
  import opened HistoryLoad

  // Finished rows the archive may take; `held` keeps back pushes whose merge is still pending.
  function Eligible(hot: seq<Row>, held: Row -> bool): seq<Row> {
    if hot == [] then []
    else (if Terminal(hot[0]) && !held(hot[0]) then [hot[0]] else []) + Eligible(hot[1..], held)
  }

  function Picked(hot: seq<Row>, held: Row -> bool): seq<Row> {
    var rows := Eligible(hot, held);
    if |rows| <= MAX_BATCH_ROWS then rows else rows[..MAX_BATCH_ROWS]
  }

  function Entries(rows: seq<Row>): seq<Entry> {
    if rows == [] then [] else [Entry(rows[0].id, rows[0].sequence, rows[0])] + Entries(rows[1..])
  }

  lemma {:induction false} EligibleOrdered(hot: seq<Row>, held: Row -> bool)
    requires Ordered(hot)
    ensures Ordered(Eligible(hot, held))
    ensures forall r :: r in Eligible(hot, held) ==> r in hot && Terminal(r) && !held(r)
  {
    if hot != [] {
      EligibleOrdered(hot[1..], held);
      var rest := Eligible(hot[1..], held);
      forall i | 0 <= i < |rest| ensures hot[0].sequence < rest[i].sequence && hot[0].id != rest[i].id {
        assert rest[i] in hot[1..];
      }
    }
  }

  // What archiving is about: the finished rows that are not held back, and a vault whose rows may go.
  function Archivable(hot: seq<Row>, held: Row -> bool): set<Row> {
    set r | r in hot && (r.status == Committed || r.status == Aborted) && !held(r)
  }

  predicate Archives(m: Meta, v: string) {
    v in m.status && m.status[v] == Active && v in m.history
  }

  lemma {:induction false} EligibleExactly(hot: seq<Row>, held: Row -> bool)
    ensures forall r :: r in Eligible(hot, held) <==> r in Archivable(hot, held)
  {
    if hot != [] {
      EligibleExactly(hot[1..], held);
      assert hot == [hot[0]] + hot[1..];
    }
  }

  lemma PastPrefix(rows: seq<Row>, n: int, j: int)
    requires 0 <= n <= |rows| && 0 <= j < |rows| && rows[j] !in rows[..n]
    ensures n <= j
  {
  }

  function Members(rows: seq<Row>): set<Row> {
    set r | r in rows
  }

  lemma MembersCons(row: Row, rest: seq<Row>)
    ensures Members([row] + rest) == {row} + Members(rest)
  {
  }

  lemma {:induction false} OrderedSize(rows: seq<Row>)
    requires Ordered(rows)
    ensures |Members(rows)| == |rows|
  {
    hide Members;
    if rows == [] {
      assert Members([]) == {} by { NoMembers(); }
    } else {
      var row, rest := rows[0], rows[1..];
      assert rows == [row] + rest;
      OrderedSize(rest);
      MembersCons(row, rest);
      assert row !in Members(rest) by { OutsideMembers(row, rest); }
    }
  }

  lemma NoMembers()
    ensures Members([]) == {}
  {
  }

  lemma OutsideMembers(row: Row, rest: seq<Row>)
    requires forall i :: 0 <= i < |rest| ==> rest[i].id != row.id
    ensures row !in Members(rest)
  {
  }

  // What is picked is archivable, as many as there are up to 256, and all of it comes before what is left.
  lemma PickedExactly(hot: seq<Row>, held: Row -> bool)
    requires Ordered(hot)
    ensures var picked, all := Picked(hot, held), Archivable(hot, held);
      && |picked| == (if |all| <= 256 then |all| else 256)
      && (forall m :: m in picked ==> m in all)
      && (forall m, r :: m in picked && r in all && r !in picked ==> m.sequence < r.sequence)
  {
    var rows, picked, all := Eligible(hot, held), Picked(hot, held), Archivable(hot, held);
    EligibleOrdered(hot, held);
    EligibleExactly(hot, held);
    OrderedSize(rows);
    assert Members(rows) == all;
    forall m, r | m in picked && r in all && r !in picked
      ensures m.sequence < r.sequence
    {
      var i :| 0 <= i < |picked| && picked[i] == m;
      var j :| 0 <= j < |rows| && rows[j] == r;
      assert rows[i] == m;
      PastPrefix(rows, |picked|, j);
    }
  }

  lemma {:induction false} EntriesContents(rows: seq<Row>)
    ensures |Entries(rows)| == |rows|
    ensures forall i :: 0 <= i < |rows| ==> Entries(rows)[i] == Entry(rows[i].id, rows[i].sequence, rows[i])
  {
    if rows != [] {
      EntriesContents(rows[1..]);
    }
  }

  lemma {:induction false} EntriesCanonicals(rows: seq<Row>)
    ensures Canonicals(Entries(rows)) == rows
  {
    if rows != [] {
      EntriesCanonicals(rows[1..]);
    }
  }

  lemma PickedMatches(v: string, hot: seq<Row>, held: Row -> bool, generation: int, id: string)
    requires Ordered(hot) && Picked(hot, held) != []
    ensures BatchMatches(v, hot, generation, Batch(v, id, generation, generation + 1, Entries(Picked(hot, held))))
  {
    var rows := Picked(hot, held);
    EligibleOrdered(hot, held);
    EntriesContents(rows);
    forall i | 0 <= i < |rows| ensures EntryOf(hot, Entries(rows)[i]) {
      assert rows[i] in Eligible(hot, held);
    }
  }

  // One iteration of the opening loop.
  method OpenVault(s: LoadState, v: string) returns (r: Result<LoadState, LoadError>)
    ensures r == LoadVault(s, v)
  {
    var hs := Hist(s.candidate, v);
    if IsDeleting(s.candidate, v) {
      return Success(s);
    }
    if hs.initPending && (hs.generation != 0 || hs.pending.Some?) {
      return Failure(InconsistentState);
    }
    if hs.pending.Some? && !BatchMatches(v, Hot(s.candidate.rows, v), hs.generation, hs.pending.value) {
      return Failure(InconsistentState);
    }
    if v !in s.ledgers && !hs.initPending {
      return Failure(MissingLedger);
    }
    var ledgers := WithLedger(s.ledgers, v);
    var sound := VerifyTables(ledgers[v]);
    if ledgers[v].vault != v || !sound || !Distinct(ledgers[v].operations) || !ProofsUnique(ledgers[v].batches) {
      return Failure(UnsoundLedger);
    }
    if !OpenStateOk(ledgers[v], hs) {
      return Failure(InconsistentLedger);
    }
    if hs.pending.Some? {
      var history := new OperationHistoryStore(ledgers[v]);
      var committed := history.CommitBatch(hs.pending.value);
      if committed.Failure? {
        return Failure(MissingProof);
      }
      return Success(LoadState(s.candidate, Finished(s.candidate, v), ledgers[v := history.Contents()]));
    }
    if hs.initPending {
      var initialized := Acknowledged(s.db, v);
      return Success(LoadState(initialized, initialized, ledgers));
    }
    return Success(LoadState(s.candidate, s.db, ledgers));
  }

  class MetadataStore {
    // Durable: the metadata file and the ledger directory.
    var file: Meta
    var ledgers: map<string, Ledger>
    // The copy operations work on.
    var db: Meta
    // Every durable write so far; a crash leaves the state after some prefix of it.
    ghost var log: seq<Action>

    function Disk(): Durable
      reads this
    {
      Durable(file, ledgers)
    }

    ghost predicate Valid()
      reads this
    {
      Run(log) && After(log) == Disk() && db == file
    }

    // A process starting on whatever an earlier one left on disk.
    constructor (ghost written: seq<Action>, disk: Durable)
      requires Run(written) && After(written) == disk
      ensures Valid() && log == written && Disk() == disk
    {
      file, ledgers, db := disk.meta, disk.ledgers, disk.meta;
      log := written;
    }

    // Opens every vault's ledger and finishes what a crash interrupted. It never fails on a reachable state.
    method Initialize() returns (r: Result<(), LoadError>)
      requires Valid()
      modifies this
      ensures Valid() && old(log) <= log
      ensures r.Success? && Operational(db)
      ensures Load(old(Disk())) == Success(Disk())
    {
      hide Run, After, Inv, Load, Operational, MetadataConsistent;
      ReachableInv(log);
      LoadRecovers(Disk());
      InvConsistent(Disk());
      if !MetadataConsistent(db) {
        return Failure(InconsistentRows);
      }
      ghost var written;
      var s;
      s, written := OpenVaults(db, ledgers, log);
      file, ledgers, db := s.db, s.ledgers, s.db;
      log := written;
      return Success(());
    }

    // A metadata mutation, refused while anything is pending; new vaults then get their ledgers.
    method Mutate(edits: seq<Edit>) returns (accepted: bool)
      requires Valid() && EditsAllowed(db, ledgers, edits)
      modifies this
      ensures Valid() && old(log) <= log
      ensures accepted == Operational(old(db))
      ensures !accepted ==> Disk() == old(Disk())
      ensures accepted ==> Load(Durable(EditedAll(old(db), edits), old(ledgers))) == Success(Disk()) && Operational(db)
    {
      if !Operational(db) {
        return false;
      }
      MutateRuns(log, Disk(), edits);
      var s;
      ghost var written;
      s, written := OpenVaults(EditedAll(db, edits), ledgers, log + [Action.Mutate(edits)]);
      file, ledgers, db := s.db, s.ledgers, s.db;
      log := written;
      return true;
    }

    // Moves up to 256 finished rows of an active vault into its ledger; `newId` draws an unused batch id.
    method ArchiveEligible(v: string, held: Row -> bool, newId: seq<Proof> -> string) returns (n: int)
      requires Valid() && Operational(db)
      requires forall proofs :: PriorProof(proofs, newId(proofs)).None?
      modifies this
      ensures Valid() && old(log) <= log && Operational(db)
      ensures !Archives(old(db), v) ==> n == 0
      ensures var all := Archivable(Hot(old(db).rows, v), held);
        Archives(old(db), v) ==> n == if |all| <= 256 then |all| else 256
      ensures n == 0 ==> Disk() == old(Disk())
      ensures n > 0 ==> exists rows :: |rows| == n && Moved(old(Disk()), Disk(), v, rows) && TakesFirst(Hot(old(db).rows, v), held, rows)
    {
      hide Run, After, Enabled, Inv, Operational, Moved, Picked, Hot, Live, Entries, MetadataConsistent;
      if v !in db.status || db.status[v] != Active || v !in db.history {
        return 0;
      }
      ReachableInv(log);
      ActiveHasLedger(Disk(), v);
      PickedFirst(Disk(), v, held);
      var rows := Picked(Hot(db.rows, v), held);
      if rows == [] {
        return 0;
      }
      var batch := Batch(v, newId(ledgers[v].batches), Hist(db, v).generation, Hist(db, v).generation + 1, Entries(rows));
      PickedEnabled(Disk(), v, held, batch.id);
      var m, l;
      ghost var written;
      m, l, written := HandOver(db, ledgers, log, v, batch);
      HandedOver(Disk(), Durable(m, l), v, rows, batch);
      file, ledgers, db := m, l, m;
      log := written;
      return |rows|;
    }

    // Archives until nothing eligible is left: every batch removes hot rows, so the loop ends.
    method ArchiveStartup(v: string, held: Row -> bool, newId: seq<Proof> -> string)
      requires Valid() && Operational(db)
      requires forall proofs :: PriorProof(proofs, newId(proofs)).None?
      modifies this
      ensures Valid() && old(log) <= log && Operational(db)
      ensures !Archives(old(db), v) ==> Disk() == old(Disk())
      ensures Archives(old(db), v) ==> Archives(db, v) && AllArchived(old(Disk()), Disk(), v, held)
    {
      hide Inv, Archivable, Hot, Archived, Run, After, Operational, Picked;
      var n := 1;
      AllSides(Disk(), v, held);
      while n > 0
        invariant Valid() && old(log) <= log && Operational(db) && n >= 0
        invariant Archives(old(db), v) <==> Archives(db, v)
        invariant !Archives(db, v) ==> Disk() == old(Disk())
        invariant SomeArchived(old(Disk()), Disk(), v, held)
        invariant n == 0 && Archives(db, v) ==> Archivable(Hot(db.rows, v), held) == {}
        decreases |Hot(db.rows, v)| + (if n > 0 then 1 else 0)
      {
        ghost var before := Disk();
        ReachableInv(log);
        n := ArchiveEligible(v, held, newId);
        if n > 0 {
          ghost var rows :| |rows| == n && Moved(before, Disk(), v, rows) && TakesFirst(Hot(before.meta.rows, v), held, rows);
          HotOrdered(before, v);
          MovedOn(old(Disk()), before, Disk(), v, held, rows);
        }
      }
      if Archives(db, v) {
        NoneLeft(old(Disk()), Disk(), v, held);
      }
    }
  }

  // The opening loop. Its writes extend the log one by one.
  method OpenVaults(m: Meta, ledgers: map<string, Ledger>, ghost log: seq<Action>) returns (s: LoadState, ghost written: seq<Action>)
    requires Run(log) && After(log) == Durable(m, ledgers) && Inv(Durable(m, ledgers)) && MetadataConsistent(m)
    ensures Run(written) && log <= written && After(written) == Durable(s.db, s.ledgers)
    ensures Operational(s.db) && Load(Durable(m, ledgers)) == Success(Durable(s.db, s.ledgers))
  {
    s, written := LoadState(m, m, ledgers), log;
    var vaults := m.vaults;
    Starting(Durable(m, ledgers), s);
    hide Run, After, Between, LoadVault, LoadVaults, Inv, Load, Operational, MetadataConsistent, LoadWrites, VaultsKnown;
    for i := 0 to |vaults|
      invariant Run(written) && log <= written && After(written) == Durable(s.db, s.ledgers)
      invariant Between(s, vaults[i..]) && VaultsKnown(s.db, vaults)
      invariant Load(Durable(m, ledgers)) == Loaded(LoadVaults(s, vaults[i..]))
    {
      Iterate(written, s, vaults, i);
      written := written + LoadWrites(s, vaults[i]);
      var next := OpenVault(s, vaults[i]);
      s := next.value;
    }
    Ending(s, vaults);
  }

  predicate VaultsKnown(m: Meta, vaults: seq<string>) {
    Unique(vaults) && forall j :: 0 <= j < |vaults| ==> vaults[j] in m.history
  }

  ghost function Loaded(r: Result<LoadState, LoadError>): Result<Durable, LoadError> {
    match r
    case Failure(e) => Failure(e)
    case Success(s) => Success(Durable(s.db, s.ledgers))
  }

  lemma Starting(d: Durable, s: LoadState)
    requires Inv(d) && MetadataConsistent(d.meta) && s == LoadState(d.meta, d.meta, d.ledgers)
    ensures Between(s, d.meta.vaults[0..]) && VaultsKnown(d.meta, d.meta.vaults)
    ensures Load(d) == Loaded(LoadVaults(s, d.meta.vaults[0..]))
  {
    assert d.meta.vaults[0..] == d.meta.vaults;
  }

  lemma Iterate(log: seq<Action>, s: LoadState, vaults: seq<string>, i: int)
    requires 0 <= i < |vaults| && VaultsKnown(s.db, vaults) && Between(s, vaults[i..])
    requires Run(log) && After(log) == Durable(s.db, s.ledgers)
    ensures LoadVault(s, vaults[i]).Success?
    ensures var next := LoadVault(s, vaults[i]).value;
      && Run(log + LoadWrites(s, vaults[i])) && After(log + LoadWrites(s, vaults[i])) == Durable(next.db, next.ledgers)
      && Between(next, vaults[i + 1..]) && VaultsKnown(next.db, vaults)
      && LoadVaults(s, vaults[i..]) == LoadVaults(next, vaults[i + 1..])
  {
    var v, rest := vaults[i], vaults[i + 1..];
    assert vaults[i..] == [v] + rest && vaults[i..][1..] == rest && v !in rest;
    hide Run, After, Between, LoadVault;
    WritesEnabled(log, s, v, rest);
    LoadVaultKeeps(s, v, rest);
  }

  lemma Ending(s: LoadState, vaults: seq<string>)
    requires Between(s, vaults[|vaults|..])
    ensures Operational(s.db) && LoadVaults(s, vaults[|vaults|..]) == Success(s)
  {
    assert vaults[|vaults|..] == [];
    OperationalAtEnd(s);
  }

  lemma OperationalAtEnd(s: LoadState)
    requires Between(s, [])
    ensures Operational(s.db)
  {
    forall v | Live(s.db, v) ensures !Hist(s.db, v).initPending && Hist(s.db, v).pending.None? {
      assert Settled(s.db, v);
    }
  }

  lemma RunAppend(log: seq<Action>, a: Action)
    requires Run(log) && Enabled(After(log), a)
    ensures Run(log + [a]) && After(log + [a]) == Next(After(log), a)
  {
    assert (log + [a])[..|log + [a]| - 1] == log;
  }

  // The writes of one iteration continue the run, so a crash between any two of them is a crashed run too.
  lemma WritesEnabled(log: seq<Action>, s: LoadState, v: string, rest: seq<string>)
    requires Run(log) && After(log) == Durable(s.db, s.ledgers)
    requires Between(s, [v] + rest) && v in s.db.history && v !in rest
    ensures LoadVault(s, v).Success?
    ensures Run(log + LoadWrites(s, v))
    ensures After(log + LoadWrites(s, v)) == Durable(LoadVault(s, v).value.db, LoadVault(s, v).value.ledgers)
  {
    hide Run, After, Between, LoadVault, Enabled, Next, LoadWrites;
    if Settled(s.db, v) {
      LoadSettled(s, v, rest);
      assert log + [] == log;
    } else if Hist(s.db, v).pending.Some? {
      LoadPending(s, v, rest);
      RunTwo(log, CommitLedger(v), Finish(v));
    } else {
      UnacknowledgedWrites(log, s, v, rest);
    }
  }

  lemma RunTwo(log: seq<Action>, a: Action, b: Action)
    requires Run(log) && Enabled(After(log), a) && Enabled(Next(After(log), a), b)
    ensures Run(log + [a, b]) && After(log + [a, b]) == Next(Next(After(log), a), b)
  {
    hide Run, After, Enabled, Next;
    RunAppend(log, a);
    RunAppend(log + [a], b);
    assert log + [a, b] == log + [a] + [b];
  }

  lemma UnacknowledgedWrites(log: seq<Action>, s: LoadState, v: string, rest: seq<string>)
    requires Run(log) && After(log) == Durable(s.db, s.ledgers)
    requires Between(s, [v] + rest) && Live(s.db, v) && Hist(s.db, v).initPending
    ensures LoadVault(s, v).Success?
    ensures Run(log + LoadWrites(s, v))
    ensures After(log + LoadWrites(s, v)) == Durable(LoadVault(s, v).value.db, LoadVault(s, v).value.ledgers)
  {
    hide Run, After, Between, LoadVault, Enabled, LoadWrites;
    InvOfBetween(s, [v] + rest);
    LoadUnacknowledged(s, v, rest);
    CreateMissing(s, v);
    if v in s.ledgers {
      RunAppend(log, Acknowledge(v));
      assert [] + [Acknowledge(v)] == [Acknowledge(v)];
    } else {
      RunTwo(log, CreateLedger(v), Acknowledge(v));
      assert [CreateLedger(v)] + [Acknowledge(v)] == [CreateLedger(v), Acknowledge(v)];
    }
  }

  lemma InvOfBetween(s: LoadState, rest: seq<string>)
    requires Between(s, rest)
    ensures Inv(Durable(s.db, s.ledgers))
  {
  }

  // One hand-over: the rows left the hot side and joined the ledger, in order; nothing else changed.
  predicate Moved(before: Durable, after: Durable, v: string, rows: seq<Row>) {
    && Hot(after.meta.rows, v) == Without(Hot(before.meta.rows, v), Entries(rows))
    && |Hot(after.meta.rows, v)| == |Hot(before.meta.rows, v)| - |rows|
    && Archived(after, v) == Archived(before, v) + rows
    && after.meta.status == before.meta.status && after.meta.vaults == before.meta.vaults
    && after.meta.history == before.meta.history[v := Hist(before.meta, v).(generation := Hist(before.meta, v).generation + 1)]
  }

  // `rows` are archivable, and come before every archivable row that is not among them.
  predicate TakesFirst(hot: seq<Row>, held: Row -> bool, rows: seq<Row>) {
    var all := Archivable(hot, held);
    (forall m :: m in rows ==> m in all) && forall m, r :: m in rows && r in all && r !in rows ==> m.sequence < r.sequence
  }

  lemma HotOrdered(d: Durable, v: string)
    requires Inv(d) && Operational(d.meta) && Archives(d.meta, v)
    ensures Ordered(Hot(d.meta.rows, v))
  {
    ActiveHasLedger(d, v);
    assert VaultOk(d, v);
  }

  lemma PickedFirst(d: Durable, v: string, held: Row -> bool)
    requires Inv(d) && Live(d.meta, v)
    ensures var hot := Hot(d.meta.rows, v);
      var all := Archivable(hot, held);
      |Picked(hot, held)| == (if |all| <= 256 then |all| else 256) && TakesFirst(hot, held, Picked(hot, held))
  {
    assert VaultOk(d, v);
    PickedExactly(Hot(d.meta.rows, v), held);
  }

  // Rows went from the hot side to the ledger, all of them archivable, and none got lost or changed.
  ghost predicate SomeArchived(before: Durable, after: Durable, v: string, held: Row -> bool) {
    var hot, archived := Hot(before.meta.rows, v), Archived(before, v);
    && (forall r :: r in Hot(after.meta.rows, v) ==> r in hot)
    && (forall r :: r in hot && r !in Archivable(hot, held) ==> r in Hot(after.meta.rows, v))
    && (forall r :: r in Archived(after, v) ==> r in archived || r in Archivable(hot, held))
    && (forall r :: r in archived || (r in hot && r !in Hot(after.meta.rows, v)) ==> r in Archived(after, v))
  }

  // All archivable rows, and no others, went from the hot side to the ledger.
  ghost predicate AllArchived(before: Durable, after: Durable, v: string, held: Row -> bool) {
    var hot, archived := Hot(before.meta.rows, v), Archived(before, v);
    && (forall r :: r in Hot(after.meta.rows, v) <==> r in hot && r !in Archivable(hot, held))
    && (forall r :: r in Archived(after, v) <==> r in archived || r in Archivable(hot, held))
  }

  lemma NoneLeft(before: Durable, after: Durable, v: string, held: Row -> bool)
    requires SomeArchived(before, after, v, held) && Archivable(Hot(after.meta.rows, v), held) == {}
    ensures AllArchived(before, after, v, held)
  {
    hide Hot, Archived;
    forall r | r in Hot(after.meta.rows, v)
      ensures r !in Archivable(Hot(before.meta.rows, v), held)
    {
      assert r !in Archivable(Hot(after.meta.rows, v), held);
    }
  }

  lemma AllSides(d: Durable, v: string, held: Row -> bool)
    ensures SomeArchived(d, d, v, held)
  {
  }

  lemma MovedOn(first: Durable, before: Durable, after: Durable, v: string, held: Row -> bool, rows: seq<Row>)
    requires SomeArchived(first, before, v, held) && Ordered(Hot(before.meta.rows, v))
    requires Moved(before, after, v, rows) && TakesFirst(Hot(before.meta.rows, v), held, rows)
    ensures SomeArchived(first, after, v, held)
  {
    hide Hot, Archived;
    var hot := Hot(before.meta.rows, v);
    WithoutSubset(hot, Entries(rows));
    EntriesContents(rows);
    forall r | r in hot
      ensures InBatch(Entries(rows), r.id) <==> r in rows
    {
      if InBatch(Entries(rows), r.id) {
        var i :| 0 <= i < |rows| && Entries(rows)[i].id == r.id;
        assert rows[i] in Archivable(hot, held);
      }
      if r in rows {
        var i :| 0 <= i < |rows| && rows[i] == r;
        assert Entries(rows)[i].id == r.id;
      }
    }
  }

  lemma MutateRuns(log: seq<Action>, d: Durable, edits: seq<Edit>)
    requires Run(log) && After(log) == d && Operational(d.meta) && EditsAllowed(d.meta, d.ledgers, edits)
    ensures Run(log + [Mutate(edits)]) && After(log + [Mutate(edits)]) == Next(d, Mutate(edits))
    ensures Inv(Next(d, Mutate(edits))) && MetadataConsistent(EditedAll(d.meta, edits))
  {
    RunAppend(log, Mutate(edits));
    ReachableInv(log + [Mutate(edits)]);
    InvConsistent(Next(d, Mutate(edits)));
  }

  lemma InvConsistent(d: Durable)
    requires Inv(d)
    ensures MetadataConsistent(d.meta)
  {
  }

  lemma ActiveHasLedger(d: Durable, v: string)
    requires Inv(d) && Operational(d.meta) && v in d.meta.history && v in d.meta.status && d.meta.status[v] == Active
    ensures v in d.ledgers && Live(d.meta, v)
  {
    assert VaultOk(d, v);
  }

  lemma PickedEnabled(d: Durable, v: string, held: Row -> bool, id: string)
    requires Inv(d) && Operational(d.meta) && Live(d.meta, v) && v in d.ledgers
    requires PriorProof(d.ledgers[v].batches, id).None? && Picked(Hot(d.meta.rows, v), held) != []
    ensures var g := Hist(d.meta, v).generation;
      Enabled(d, Publish(v, Batch(v, id, g, g + 1, Entries(Picked(Hot(d.meta.rows, v), held)))))
  {
    assert VaultOk(d, v);
    PickedMatches(v, Hot(d.meta.rows, v), held, Hist(d.meta, v).generation, id);
  }

  // The three durable writes of a hand-over follow one another.
  lemma HandOverRuns(log: seq<Action>, d: Durable, v: string, batch: Batch)
    requires Run(log) && After(log) == d && Enabled(d, Publish(v, batch))
    ensures v in d.ledgers && Accepts(d.ledgers[v], batch)
    ensures var pending := WithHistory(d.meta, v, Hist(d.meta, v).(pending := Some(batch)));
      var writes := log + [Publish(v, batch)] + [CommitLedger(v)] + [Finish(v)];
      Run(writes) && After(writes) == Durable(Finished(pending, v), d.ledgers[v := AfterCommit(d.ledgers[v], batch)])
  {
    ReachableInv(log);
    hide Inv, Run, After, Accepts, AfterCommit, Operational, BatchMatches;
    RunAppend(log, Publish(v, batch));
    PublishKeeps(d, v, batch);
    var published := Next(d, Publish(v, batch));
    assert Hist(published.meta, v).pending == Some(batch) && Live(published.meta, v);
    RecoverVault(published, v);
    RunAppend(log + [Publish(v, batch)], CommitLedger(v));
    RunAppend(log + [Publish(v, batch)] + [CommitLedger(v)], Finish(v));
  }

  method HandOver(m: Meta, ledgers: map<string, Ledger>, ghost log: seq<Action>, v: string, batch: Batch)
    returns (m': Meta, ledgers': map<string, Ledger>, ghost written: seq<Action>)
    requires Run(log) && After(log) == Durable(m, ledgers) && Enabled(Durable(m, ledgers), Publish(v, batch))
    ensures Run(written) && log <= written && After(written) == Durable(m', ledgers')
    ensures m' == Finished(WithHistory(m, v, Hist(m, v).(pending := Some(batch))), v)
    ensures v in ledgers && ledgers' == ledgers[v := AfterCommit(ledgers[v], batch)]
  {
    HandOverRuns(log, Durable(m, ledgers), v, batch);
    hide Run, After, Enabled, Accepts, AfterCommit;
    var pending := WithHistory(m, v, Hist(m, v).(pending := Some(batch)));
    var history := new OperationHistoryStore(ledgers[v]);
    var committed := history.CommitBatch(batch);
    ledgers' := ledgers[v := history.Contents()];
    m' := Finished(pending, v);
    written := log + [Publish(v, batch)] + [CommitLedger(v)] + [Finish(v)];
  }

  lemma ArchivedRows(l: Ledger, batch: Batch, rows: seq<Row>)
    requires batch.rows == Entries(rows) && PriorProof(l.batches, batch.id).None?
    ensures AfterCommit(l, batch).operations == l.operations + rows
  {
    EntriesCanonicals(rows);
    InsertedOperations(Tables(l.operations, l.counts), batch.rows);
  }

  lemma LeftRows(d: Durable, v: string, rows: seq<Row>, batch: Batch)
    requires Inv(d) && Enabled(d, Publish(v, batch)) && batch.rows == Entries(rows)
    ensures |Without(Hot(d.meta.rows, v), batch.rows)| == |Hot(d.meta.rows, v)| - |rows|
    ensures Hist(d.meta, v).pending.None? && batch.target == Hist(d.meta, v).generation + 1
  {
    assert VaultOk(d, v);
    WithoutCount(Hot(d.meta.rows, v), batch.rows);
    EntriesContents(rows);
  }

  lemma HandedOver(before: Durable, after: Durable, v: string, rows: seq<Row>, batch: Batch)
    requires Inv(before) && Enabled(before, Publish(v, batch)) && batch.rows == Entries(rows)
    requires after.meta == Finished(WithHistory(before.meta, v, Hist(before.meta, v).(pending := Some(batch))), v)
    requires after.ledgers == before.ledgers[v := AfterCommit(before.ledgers[v], batch)]
    ensures Moved(before, after, v, rows) && Operational(after.meta)
  {
    hide Hot, Without, DropBatch, Entries, AfterCommit, VaultOk, BatchMatches, Known, Numbered;
    HotDrop(before.meta.rows, v, batch.rows, v);
    ArchivedRows(before.ledgers[v], batch, rows);
    LeftRows(before, v, rows, batch);
    var hs := Hist(before.meta, v);
    assert after.meta.history == before.meta.history[v := hs.(generation := hs.generation + 1)];
    forall w | w in after.meta.history && Live(after.meta, w) ensures !Hist(after.meta, w).initPending && Hist(after.meta, w).pending.None? {
      assert Live(before.meta, w);
    }
  }

  // ----- Reports -----

  predicate CopiesIdentical(rows: seq<Row>) {
    forall i, j :: 0 <= i < j < |rows| && rows[i].id == rows[j].id ==> rows[i] == rows[j]
  }

  // Merging archived and hot rows by identity: refused when two copies of one operation differ.
  method MergeCopies(rows: seq<Row>) returns (r: Option<map<string, Row>>)
    ensures r.Some? <==> CopiesIdentical(rows)
    ensures r.Some? ==> forall id, row :: id in r.value && r.value[id] == row <==> row in rows && row.id == id
  {
    var merged := map[];
    for i := 0 to |rows|
      invariant forall j :: 0 <= j < i ==> rows[j].id in merged && merged[rows[j].id] == rows[j]
      invariant forall id :: id in merged ==> exists j :: 0 <= j < i && rows[j].id == id && rows[j] == merged[id]
    {
      var row := rows[i];
      if row.id in merged && merged[row.id] != row {
        return None;
      }
      merged := merged[row.id := row];
    }
    return Some(merged);
  }

  // The rows an export reads: the whole ledger, then the hot rows.
  function ExportedRows(d: Durable, v: string): seq<Row> {
    Archived(d, v) + Hot(d.meta.rows, v)
  }

  // An export never meets conflicting copies, and names each operation of the vault once:
  // its rows are exactly the ones counted by Accounted.
  lemma ExportComplete(d: Durable, v: string)
    requires Inv(d) && Live(d.meta, v)
    ensures CopiesIdentical(ExportedRows(d, v))
    ensures forall row :: row in ExportedRows(d, v) <==> row in Remaining(d, v) + Archived(d, v)
  {
    var hot, archived, all := Hot(d.meta.rows, v), Archived(d, v), ExportedRows(d, v);
    RemainingAccounted(d, v);
    forall i, j | 0 <= i < j < |all| && all[i].id == all[j].id ensures all[i] == all[j] {
      PairAgrees(d, v, i, j);
    }
    if Hist(d.meta, v).pending.Some? {
      PendingProven(d, v);
      var b := Hist(d.meta, v).pending.value;
      WithoutSubset(hot, b.rows);
      forall row | row in hot && InBatch(b.rows, row.id) && d.ledgers[v].generation == b.target ensures row in archived {
        BatchRowStored(hot, d.ledgers[v], b, row);
      }
    }
  }

  lemma PairAgrees(d: Durable, v: string, i: int, j: int)
    requires Inv(d) && Live(d.meta, v)
    requires 0 <= i < j < |ExportedRows(d, v)| && ExportedRows(d, v)[i].id == ExportedRows(d, v)[j].id
    ensures ExportedRows(d, v)[i] == ExportedRows(d, v)[j]
  {
    var archived, hot := Archived(d, v), Hot(d.meta.rows, v);
    SidesDistinct(d, v);
    TwoCopies(archived, hot, i, j);
    hide Inv, Hot, Archived;
    CopiesAgree(d, v, hot[j - |archived|], archived[i]);
  }

  // Rows of one identity are one of each side.
  lemma TwoCopies(archived: seq<Row>, hot: seq<Row>, i: int, j: int)
    requires Distinct(archived) && Ordered(hot)
    requires 0 <= i < j < |archived + hot| && (archived + hot)[i].id == (archived + hot)[j].id
    ensures i < |archived| <= j
  {
  }

  lemma SidesDistinct(d: Durable, v: string)
    requires Inv(d) && Live(d.meta, v)
    ensures Distinct(Archived(d, v)) && Ordered(Hot(d.meta.rows, v))
  {
    RemainingAccounted(d, v);
    assert VaultOk(d, v);
  }

  // The count reported for a type and status: hot rows one by one, plus the ledger's table of counts.
  function ReportedCount(d: Durable, v: string, key: TypeStatus): int {
    Tally(Hot(d.meta.rows, v), key) + (if v in d.ledgers then CountOf(d.ledgers[v].counts, key) else 0)
  }

  // In an operational store it is the number of the vault's operations with that type and status.
  lemma CountsComplete(d: Durable, v: string, key: TypeStatus)
    requires Inv(d) && Operational(d.meta) && Live(d.meta, v)
    ensures ReportedCount(d, v, key) == Tally(Remaining(d, v) + Archived(d, v), key)
  {
    assert VaultOk(d, v);
    TallyAppend(Remaining(d, v), Archived(d, v), key);
    assert CountOf(d.ledgers[v].counts, key) == Tally(d.ledgers[v].operations, key);
  }
}
