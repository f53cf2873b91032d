// Opening the store after a stop or a crash, vault by vault (MetadataStore.initializeOperationHistory).
module HistoryLoad {
  import opened Common
  import opened OperationLedger
  import opened HistoryHandoff
  import opened HistorySafety

  datatype LoadError = InconsistentRows | InconsistentState | MissingLedger | UnsoundLedger | InconsistentLedger | MissingProof

  // The loop's own copy of the metadata, the metadata last persisted, and the ledgers. Recovering a batch
  // persists a change of the copy but leaves the copy itself stale.
  datatype LoadState = LoadState(candidate: Meta, db: Meta, ledgers: map<string, Ledger>)

  predicate MetadataConsistent(m: Meta) {
    && (forall i :: 0 <= i < |m.rows| ==> m.rows[i].vault in m.history)
    && (forall i :: 0 <= i < |m.vaults| ==> m.vaults[i] in m.history && Numbered(m, m.vaults[i]))
  }

  predicate EntriesUnused(operations: seq<Row>, entries: seq<Entry>) {
    forall i, j :: 0 <= i < |entries| && 0 <= j < |operations| ==>
      operations[j].id != entries[i].id && operations[j].sequence != entries[i].sequence
  }

  // The generation check of an opening ledger against the metadata.
  predicate OpenStateOk(l: Ledger, hs: HistoryState) {
    && l.maxSequence < hs.nextSequence
    && match hs.pending
       case None => l.generation == hs.generation
       case Some(b) =>
         && b.vault == l.vault && b.parent == hs.generation && b.target == hs.generation + 1
         && (l.generation == b.parent || (l.generation == b.target && HasBatch(l, b)))
         && (l.generation == b.parent ==> PriorProof(l.batches, b.id).None? && EntriesUnused(l.operations, b.rows))
  }

  function WithLedger(ledgers: map<string, Ledger>, v: string): map<string, Ledger> {
    if v in ledgers then ledgers else ledgers[v := EmptyLedger(v)]
  }

  function Acknowledged(m: Meta, v: string): Meta {
    WithHistory(m, v, Hist(m, v).(initPending := false))
  }

  ghost function LoadVault(s: LoadState, v: string): Result<LoadState, LoadError> {
    var hs := Hist(s.candidate, v);
    if IsDeleting(s.candidate, v) then Success(s)
    else if hs.initPending && (hs.generation != 0 || hs.pending.Some?) then Failure(InconsistentState)
    else if hs.pending.Some? && !BatchMatches(v, Hot(s.candidate.rows, v), hs.generation, hs.pending.value) then Failure(InconsistentState)
    else if v !in s.ledgers && !hs.initPending then Failure(MissingLedger)
    else
      var ledgers := WithLedger(s.ledgers, v);
      var l := ledgers[v];
      if l.vault != v || !Sound(l) then Failure(UnsoundLedger)
      else if !OpenStateOk(l, hs) then Failure(InconsistentLedger)
      else if hs.pending.Some? then
        if !Accepts(l, hs.pending.value) then Failure(MissingProof)
        else Success(LoadState(s.candidate, Finished(s.candidate, v), ledgers[v := AfterCommit(l, hs.pending.value)]))
      else if hs.initPending then
        Success(LoadState(Acknowledged(s.db, v), Acknowledged(s.db, v), ledgers))
      else Success(LoadState(s.candidate, s.db, ledgers))
  }

  ghost function LoadVaults(s: LoadState, vaults: seq<string>): Result<LoadState, LoadError>
    decreases |vaults|
  {
    if vaults == [] then Success(s)
    else
      match LoadVault(s, vaults[0])
      case Failure(e) => Failure(e)
      case Success(next) => LoadVaults(next, vaults[1..])
  }

  ghost function Load(d: Durable): Result<Durable, LoadError> {
    if !MetadataConsistent(d.meta) then Failure(InconsistentRows)
    else
      match LoadVaults(LoadState(d.meta, d.meta, d.ledgers), d.meta.vaults)
      case Failure(e) => Failure(e)
      case Success(s) => Success(Durable(s.db, s.ledgers))
  }

  // The durable writes of one iteration, in order.
  function LoadWrites(s: LoadState, v: string): seq<Action> {
    var hs := Hist(s.candidate, v);
    if IsDeleting(s.candidate, v) then []
    else
      (if v in s.ledgers then [] else [CreateLedger(v)]) +
      (if hs.pending.Some? then [CommitLedger(v), Finish(v)] else []) +
      (if hs.initPending then [Acknowledge(v)] else [])
  }

  // ----- What opening refuses -----

  // A batch that may be handed over: of this vault and the next generation, 1 to 256 finished hot rows, each
  // once and in the order of their numbers.
  predicate Offered(v: string, hot: seq<Row>, generation: int, b: Batch) {
    && b.vault == v && b.parent == generation && b.target == generation + 1 && 0 < |b.rows| <= 256
    && (forall e :: e in b.rows ==> e.canonical in hot && e.id == e.canonical.id && e.sequence == e.canonical.sequence)
    && (forall e :: e in b.rows ==> e.canonical.status == Committed || e.canonical.status == Aborted)
    && (forall i, j :: 0 <= i < j < |b.rows| ==> b.rows[i].sequence < b.rows[j].sequence && b.rows[i].id != b.rows[j].id)
  }

  // The ledger has not begun the batch, or has it whole.
  predicate Underway(l: Ledger, b: Batch) {
    || (l.generation == b.parent && (forall p :: p in l.batches ==> p.id != b.id)
        && forall e, r :: e in b.rows && r in l.operations ==> r.id != e.id && r.sequence != e.sequence)
    || (l.generation == b.target && Proof(b.id, b.parent, b.target, |b.rows|) in l.batches
        && forall e :: e in b.rows ==> e.canonical in l.operations)
  }

  lemma OfferedExactly(v: string, hot: seq<Row>, generation: int, b: Batch)
    ensures Offered(v, hot, generation, b) <==> BatchMatches(v, hot, generation, b)
  {
  }

  lemma UnusedMeans(l: Ledger, b: Batch)
    ensures EntriesUnused(l.operations, b.rows) <==>
      forall e, r :: e in b.rows && r in l.operations ==> r.id != e.id && r.sequence != e.sequence
  {
    if EntriesUnused(l.operations, b.rows) {
      forall e, r | e in b.rows && r in l.operations
        ensures r.id != e.id && r.sequence != e.sequence
      {
        var i :| 0 <= i < |b.rows| && b.rows[i] == e;
        var j :| 0 <= j < |l.operations| && l.operations[j] == r;
      }
    }
  }

  lemma {:induction false} ProofFound(batches: seq<Proof>, p: Proof)
    requires ProofsUnique(batches) && p in batches
    ensures PriorProof(batches, p.id) == Some(p)
  {
    if batches[0] != p {
      assert batches == [batches[0]] + batches[1..];
      assert batches[0].id != p.id by {
        var i :| 0 <= i < |batches| && batches[i] == p;
      }
      ProofFound(batches[1..], p);
    }
  }

  lemma UnderwayExactly(v: string, hot: seq<Row>, hs: HistoryState, l: Ledger)
    requires hs.pending.Some? && Offered(v, hot, hs.generation, hs.pending.value) && l.vault == v && Sound(l)
    ensures l.maxSequence < hs.nextSequence ==> (OpenStateOk(l, hs) <==> Underway(l, hs.pending.value))
  {
    hide Distinct, RowsDecode, CountsExact, Chained;
    var b := hs.pending.value;
    UnusedMeans(l, b);
    var p := Proof(b.id, b.parent, b.target, |b.rows|);
    if p in l.batches {
      ProofFound(l.batches, p);
    }
    assert AllStored(l.operations, b.rows) <==> forall e :: e in b.rows ==> e.canonical in l.operations by {
      assert forall i :: 0 <= i < |b.rows| ==> b.rows[i] in b.rows;
    }
  }

  // Opening refuses drift, exactly: a vault is opened when its ledger is there or still to be made, is sound
  // and below the next number, and stands at the recorded generation, or at either end of an offered batch.
  lemma OpensExactly(s: LoadState, v: string)
    requires !IsDeleting(s.candidate, v)
    ensures var hs, hot, l := Hist(s.candidate, v), Hot(s.candidate.rows, v), WithLedger(s.ledgers, v)[v];
      LoadVault(s, v).Success? ==>
        && (hs.initPending ==> hs.generation == 0 && hs.pending.None?)
        && (v in s.ledgers || hs.initPending) && l.vault == v && Sound(l) && l.maxSequence < hs.nextSequence
        && (hs.pending.None? ==> l.generation == hs.generation)
        && (hs.pending.Some? ==> Offered(v, hot, hs.generation, hs.pending.value) && Underway(l, hs.pending.value))
    ensures var hs, hot, l := Hist(s.candidate, v), Hot(s.candidate.rows, v), WithLedger(s.ledgers, v)[v];
      (hs.pending.None? && (hs.initPending ==> hs.generation == 0) && (v in s.ledgers || hs.initPending)
       && l.vault == v && Sound(l) && l.maxSequence < hs.nextSequence && l.generation == hs.generation) ==> LoadVault(s, v).Success?
  {
    hide Sound, Offered, BatchMatches, Underway, Hot, Accepts, AfterCommit, Finished, OpenStateOk;
    var hs, hot, l := Hist(s.candidate, v), Hot(s.candidate.rows, v), WithLedger(s.ledgers, v)[v];
    if hs.pending.Some? {
      OfferedExactly(v, hot, hs.generation, hs.pending.value);
      if Offered(v, hot, hs.generation, hs.pending.value) && l.vault == v && Sound(l) {
        UnderwayExactly(v, hot, hs, l);
      }
    }
    OpenStateBelow(l, hs);
  }

  lemma OpenStateBelow(l: Ledger, hs: HistoryState)
    ensures OpenStateOk(l, hs) ==> l.maxSequence < hs.nextSequence
    ensures hs.pending.None? ==> (OpenStateOk(l, hs) <==> l.maxSequence < hs.nextSequence && l.generation == hs.generation)
  {
  }

  // And rows of an unknown vault, or rows that do not ascend below the next number of their vault, are refused
  // before any ledger is touched.
  lemma RowsRefusedExactly(d: Durable)
    ensures Load(d) == Failure(InconsistentRows) || forall row :: row in d.meta.rows ==> row.vault in d.meta.history
    ensures Load(d) == Failure(InconsistentRows) || forall v :: v in d.meta.vaults ==> v in d.meta.history && AscendsBelow(d.meta, v)
    ensures ((forall row :: row in d.meta.rows ==> row.vault in d.meta.history)
             && forall v :: v in d.meta.vaults ==> v in d.meta.history && AscendsBelow(d.meta, v)) ==> MetadataConsistent(d.meta)
  {
    hide Hot;
  }

  predicate AscendsBelow(m: Meta, v: string) {
    var hot, next := Hot(m.rows, v), Hist(m, v).nextSequence;
    && next > 0
    && (forall i :: 0 <= i < |hot| ==> 0 < hot[i].sequence < next)
    && (forall i, j :: 0 <= i < j < |hot| ==> hot[i].sequence < hot[j].sequence)
  }

  // ----- What holds between two iterations on a reachable state -----

  ghost predicate Settled(m: Meta, v: string) {
    Live(m, v) ==> !Hist(m, v).initPending && Hist(m, v).pending.None?
  }

  predicate SameVault(a: Meta, b: Meta, v: string) {
    Hist(a, v) == Hist(b, v) && Hot(a.rows, v) == Hot(b.rows, v)
  }

  // The copy is current, or the one pending batch has been finished and nothing is left to write.
  ghost predicate Between(s: LoadState, rest: seq<string>) {
    && Inv(Durable(s.db, s.ledgers))
    && s.candidate.status == s.db.status && s.candidate.history.Keys == s.db.history.Keys
    && (forall v :: v in s.db.history && v !in rest ==> Settled(s.db, v))
    && (s.candidate == s.db || (Operational(s.db) && forall v :: v in rest ==> SameVault(s.candidate, s.db, v)))
  }

  lemma OpenStateHolds(d: Durable, v: string)
    requires Inv(d) && Live(d.meta, v) && v in d.ledgers
    ensures d.ledgers[v].vault == v && Sound(d.ledgers[v]) && OpenStateOk(d.ledgers[v], Hist(d.meta, v))
  {
    var l, hs := d.ledgers[v], Hist(d.meta, v);
    RemainingAccounted(d, v);
    assert VaultOk(d, v);
    HighestBelow(l.operations, hs.nextSequence);
    assert Accounted(Remaining(d, v), l.operations, hs.nextSequence);
    if hs.pending.Some? && l.generation == hs.pending.value.parent {
      BatchUnused(Hot(d.meta.rows, v), l.operations, hs.pending.value.rows);
    }
  }

  lemma BatchUnused(hot: seq<Row>, operations: seq<Row>, entries: seq<Entry>)
    requires Apart(hot, operations) && AllOf(hot, entries)
    ensures EntriesUnused(operations, entries)
  {
    forall i, j | 0 <= i < |entries| && 0 <= j < |operations|
      ensures operations[j].id != entries[i].id && operations[j].sequence != entries[i].sequence
    {
      assert EntryOf(hot, entries[i]);
      ApartRows(hot, operations, entries[i].canonical, operations[j]);
    }
  }

  lemma PendingAccepts(d: Durable, v: string)
    requires Inv(d) && Live(d.meta, v) && Hist(d.meta, v).pending.Some?
    ensures v in d.ledgers && Enabled(d, CommitLedger(v))
    ensures BatchMatches(v, Hot(d.meta.rows, v), Hist(d.meta, v).generation, Hist(d.meta, v).pending.value)
  {
    assert VaultOk(d, v);
    var l, hs := d.ledgers[v], Hist(d.meta, v);
    if l.generation == hs.pending.value.parent {
      PendingAccepted(d.meta.rows, v, hs.generation, hs.pending.value, l, hs.nextSequence);
    }
  }

  // Recovering a vault with a pending batch: two enabled writes, whatever the crash left of the first.
  lemma RecoverVault(d: Durable, v: string)
    requires Inv(d) && Live(d.meta, v) && Hist(d.meta, v).pending.Some?
    ensures v in d.ledgers && Enabled(d, CommitLedger(v)) && Enabled(Next(d, CommitLedger(v)), Finish(v))
    ensures Next(Next(d, CommitLedger(v)), Finish(v)) ==
      Durable(Finished(d.meta, v), d.ledgers[v := AfterCommit(d.ledgers[v], Hist(d.meta, v).pending.value)])
    ensures Inv(Next(Next(d, CommitLedger(v)), Finish(v)))
  {
    PendingAccepts(d, v);
    CommitKeeps(d, v);
    CommitIdempotent(d.ledgers[v], Hist(d.meta, v).pending.value);
    FinishKeeps(Next(d, CommitLedger(v)), v);
  }

  lemma FinishedOthers(m: Meta, v: string, w: string)
    requires w != v
    ensures SameVault(m, Finished(m, v), w)
  {
    if Hist(m, v).pending.Some? {
      HotDrop(m.rows, v, Hist(m, v).pending.value.rows, w);
    }
  }

  lemma LoadPending(s: LoadState, v: string, rest: seq<string>)
    requires Between(s, [v] + rest) && Live(s.db, v) && v !in rest
    requires Hist(s.db, v).pending.Some?
    ensures LoadVault(s, v).Success? && Between(LoadVault(s, v).value, rest)
    ensures LoadWrites(s, v) == [CommitLedger(v), Finish(v)]
    ensures var d := Durable(s.db, s.ledgers);
      Enabled(d, CommitLedger(v)) && Enabled(Next(d, CommitLedger(v)), Finish(v)) &&
      Next(Next(d, CommitLedger(v)), Finish(v)) == Durable(LoadVault(s, v).value.db, LoadVault(s, v).value.ledgers)
  {
    hide VaultOk, Numbered, BatchMatches, OpenStateOk, Sound, Accepts, HasBatch, Known, Hot, DropBatch;
    var d := Durable(s.db, s.ledgers);
    assert s.candidate == s.db;
    RecoverVault(d, v);
    PendingAccepts(d, v);
    OpenStateHolds(d, v);
    var next := LoadVault(s, v).value;
    assert next.db == Finished(s.db, v);
    forall w | Live(s.db, w) ensures Settled(next.db, w) {
    }
    forall w | w in rest ensures SameVault(next.candidate, next.db, w) {
      FinishedOthers(s.db, v, w);
    }
  }

  lemma CreateMissing(s: LoadState, v: string)
    requires Inv(Durable(s.db, s.ledgers)) && Live(s.db, v)
    ensures Hist(s.db, v).initPending || v in s.ledgers
    ensures v !in s.ledgers ==> Enabled(Durable(s.db, s.ledgers), CreateLedger(v))
    ensures Inv(Durable(s.db, WithLedger(s.ledgers, v)))
  {
    var d := Durable(s.db, s.ledgers);
    assert VaultOk(d, v);
    if v !in s.ledgers {
      CreateKeeps(d, v);
    }
  }

  lemma LoadUnacknowledged(s: LoadState, v: string, rest: seq<string>)
    requires Between(s, [v] + rest) && Live(s.db, v)
    requires Hist(s.db, v).initPending
    ensures LoadVault(s, v).Success? && Between(LoadVault(s, v).value, rest)
    ensures LoadWrites(s, v) == (if v in s.ledgers then [] else [CreateLedger(v)]) + [Acknowledge(v)]
    ensures var d := Durable(s.db, WithLedger(s.ledgers, v));
      Enabled(d, Acknowledge(v)) && Next(d, Acknowledge(v)) == Durable(LoadVault(s, v).value.db, LoadVault(s, v).value.ledgers)
  {
    var d := Durable(s.db, WithLedger(s.ledgers, v));
    assert s.candidate == s.db;
    CreateMissing(s, v);
    OpenStateHolds(d, v);
    assert VaultOk(d, v);
    AcknowledgeKeeps(d, v);
    var next := LoadVault(s, v).value;
    forall w | w in next.db.history && w !in rest ensures Settled(next.db, w) {
      if w != v {
        assert w !in [v] + rest;
        assert Settled(s.db, w);
      }
    }
  }

  lemma LoadSettled(s: LoadState, v: string, rest: seq<string>)
    requires Between(s, [v] + rest) && v in s.db.history
    requires Settled(s.db, v)
    ensures LoadVault(s, v) == Success(s) && Between(s, rest) && LoadWrites(s, v) == []
  {
    var d := Durable(s.db, s.ledgers);
    if Live(s.db, v) {
      assert VaultOk(d, v);
      assert v in [v] + rest;
      OpenStateHolds(d, v);
    }
    forall w | w in s.db.history && w !in rest ensures Settled(s.db, w) {
      if w != v {
        assert w !in [v] + rest;
      }
    }
  }

  lemma {:induction false} LoadVaultsSucceed(s: LoadState, vaults: seq<string>)
    requires Between(s, vaults) && Unique(vaults)
    requires forall i :: 0 <= i < |vaults| ==> vaults[i] in s.db.history
    ensures LoadVaults(s, vaults).Success? && Between(LoadVaults(s, vaults).value, [])
    decreases |vaults|
  {
    hide Between, LoadVault;
    if vaults != [] {
      var v, rest := vaults[0], vaults[1..];
      assert vaults == [v] + rest;
      LoadVaultKeeps(s, v, rest);
      LoadVaultsSucceed(LoadVault(s, v).value, rest);
    }
  }

  lemma LoadVaultKeeps(s: LoadState, v: string, rest: seq<string>)
    requires Between(s, [v] + rest) && v in s.db.history && v !in rest
    ensures LoadVault(s, v).Success? && Between(LoadVault(s, v).value, rest)
    ensures LoadVault(s, v).value.db.history.Keys == s.db.history.Keys
  {
    if Settled(s.db, v) {
      LoadSettled(s, v, rest);
    } else if Hist(s.db, v).pending.Some? {
      LoadPending(s, v, rest);
    } else {
      LoadUnacknowledged(s, v, rest);
    }
  }

  // Recovery never fails on a state the invariant describes, and leaves an operational store.
  lemma LoadRecovers(d: Durable)
    requires Inv(d)
    ensures Load(d).Success? && Inv(Load(d).value) && Operational(Load(d).value.meta)
  {
    var s := LoadState(d.meta, d.meta, d.ledgers);
    assert Between(s, d.meta.vaults);
    LoadVaultsSucceed(s, d.meta.vaults);
    var m := Load(d).value.meta;
    forall v | Live(m, v) ensures !Hist(m, v).initPending && Hist(m, v).pending.None? {
      assert Settled(m, v);
    }
  }

  // ----- The operations stay -----

  predicate Recovers(a: Action) {
    a.CreateLedger? || a.CommitLedger? || a.Finish? || a.Acknowledge?
  }

  // The ledger transaction adds only rows that are hot.
  lemma CommitAddsNothing(d: Durable, w: string, v: string, id: string, sequence: int)
    requires Inv(d) && Enabled(d, CommitLedger(w)) && Live(d.meta, v) && Holds(Next(d, CommitLedger(w)), v, id, sequence)
    ensures Holds(d, v, id, sequence)
  {
    hide Inv, Accepts, Sound, BatchMatches;
    if v == w && !Listed(Hot(d.meta.rows, v), id, sequence) {
      var b, l := Hist(d.meta, v).pending.value, d.ledgers[v];
      PendingProven(d, v);
      InsertedOperations(Tables(l.operations, l.counts), b.rows);
      CanonicalsAreHot(Hot(d.meta.rows, v), b.rows, id, sequence);
      if Archived(Next(d, CommitLedger(w)), v) != l.operations {
        assert Archived(Next(d, CommitLedger(w)), v) == l.operations + Canonicals(b.rows);
        ListedEither(l.operations, Canonicals(b.rows), id, sequence);
      }
    }
  }

  lemma ListedEither(a: seq<Row>, b: seq<Row>, id: string, sequence: int)
    requires Listed(a + b, id, sequence)
    ensures Listed(a, id, sequence) || Listed(b, id, sequence)
  {
    var i :| 0 <= i < |a + b| && (a + b)[i].id == id && (a + b)[i].sequence == sequence;
    if i < |a| {
      assert a[i].id == id;
    } else {
      assert b[i - |a|].id == id;
    }
  }

  lemma {:induction false} CanonicalsAreHot(hot: seq<Row>, entries: seq<Entry>, id: string, sequence: int)
    requires AllOf(hot, entries)
    ensures Listed(Canonicals(entries), id, sequence) ==> Listed(hot, id, sequence)
    decreases |entries|
  {
    if entries != [] && Listed(Canonicals(entries), id, sequence) {
      var first, rest := entries[0], entries[1..];
      assert AllOf(hot, rest) by { AllOfTail(hot, entries); }
      CanonicalsAreHot(hot, rest, id, sequence);
      assert Canonicals(entries) == [first.canonical] + Canonicals(rest);
      ListedEither([first.canonical], Canonicals(rest), id, sequence);
      if Listed([first.canonical], id, sequence) {
        assert EntryOf(hot, first);
      }
    }
  }

  lemma AllOfTail(hot: seq<Row>, entries: seq<Entry>)
    requires AllOf(hot, entries) && entries != []
    ensures AllOf(hot, entries[1..])
  {
    hide EntryOf;
  }

  // Dropping the batch only drops hot rows.
  lemma FinishAddsNothing(d: Durable, w: string, v: string, id: string, sequence: int)
    requires Enabled(d, Finish(w)) && Holds(Next(d, Finish(w)), v, id, sequence)
    ensures Holds(d, v, id, sequence)
  {
    hide Inv, Accepts, Sound, BatchMatches, HasBatch;
    var rows := Hist(d.meta, w).pending.value.rows;
    HotDrop(d.meta.rows, w, rows, v);
    if Listed(Hot(Next(d, Finish(w)).meta.rows, v), id, sequence) {
      WithoutListed(Hot(d.meta.rows, v), rows, id, sequence);
    }
  }

  lemma WithoutListed(hot: seq<Row>, entries: seq<Entry>, id: string, sequence: int)
    ensures Listed(Without(hot, entries), id, sequence) ==> Listed(hot, id, sequence)
  {
    WithoutSubset(hot, entries);
    if i :| 0 <= i < |Without(hot, entries)| && Without(hot, entries)[i].id == id && Without(hot, entries)[i].sequence == sequence {
      var row := Without(hot, entries)[i];
      assert row in Without(hot, entries) && row in hot;
    }
  }

  // A write of the opening loop neither loses an operation of a live vault nor adds one.
  lemma RecoveryHolds(d: Durable, a: Action, v: string, id: string, sequence: int)
    requires Inv(d) && Enabled(d, a) && Recovers(a) && Live(d.meta, v)
    ensures Live(Next(d, a).meta, v) && (Holds(Next(d, a), v, id, sequence) <==> Holds(d, v, id, sequence))
  {
    hide Inv, Holds, Accepts, Sound, BatchMatches, HasBatch;
    if Holds(d, v, id, sequence) {
      StepHolds(d, a, v, id, sequence);
    }
    if Holds(Next(d, a), v, id, sequence) {
      match a
      case CommitLedger(w) => CommitAddsNothing(d, w, v, id, sequence);
      case Finish(w) => FinishAddsNothing(d, w, v, id, sequence);
      case CreateLedger(w) => CreateAddsNothing(d, w, v, id, sequence);
      case Acknowledge(w) => AcknowledgeAddsNothing(d, w, v, id, sequence);
      case _ =>
    }
  }

  lemma CreateAddsNothing(d: Durable, w: string, v: string, id: string, sequence: int)
    requires Enabled(d, CreateLedger(w)) && Holds(Next(d, CreateLedger(w)), v, id, sequence)
    ensures Holds(d, v, id, sequence)
  {
    hide Inv;
  }

  lemma AcknowledgeAddsNothing(d: Durable, w: string, v: string, id: string, sequence: int)
    requires Enabled(d, Acknowledge(w)) && Holds(Next(d, Acknowledge(w)), v, id, sequence)
    ensures Holds(d, v, id, sequence)
  {
    hide Inv;
  }

  function Written(s: LoadState): Durable {
    Durable(s.db, s.ledgers)
  }

  lemma LoadVaultHolds(s: LoadState, w: string, rest: seq<string>, v: string, id: string, sequence: int)
    requires Between(s, [w] + rest) && w in s.db.history && w !in rest && Live(s.db, v)
    ensures LoadVault(s, w).Success? && Live(LoadVault(s, w).value.db, v)
    ensures Holds(Written(LoadVault(s, w).value), v, id, sequence) <==> Holds(Written(s), v, id, sequence)
  {
    hide Holds, LoadVault, VaultOk, Next, Enabled;
    var d := Written(s);
    if Settled(s.db, w) {
      LoadSettled(s, w, rest);
    } else if Hist(s.db, w).pending.Some? {
      LoadPending(s, w, rest);
      RecoverVault(d, w);
      CommitKeeps(d, w);
      RecoveryHolds(d, CommitLedger(w), v, id, sequence);
      RecoveryHolds(Next(d, CommitLedger(w)), Finish(w), v, id, sequence);
    } else {
      LoadUnacknowledged(s, w, rest);
      CreateMissing(s, w);
      if w !in s.ledgers {
        RecoveryHolds(d, CreateLedger(w), v, id, sequence);
        assert Next(d, CreateLedger(w)) == Durable(s.db, WithLedger(s.ledgers, w)) by { CreateWrites(s, w); }
      }
      RecoveryHolds(Durable(s.db, WithLedger(s.ledgers, w)), Acknowledge(w), v, id, sequence);
    }
  }

  lemma CreateWrites(s: LoadState, w: string)
    requires w !in s.ledgers
    ensures Next(Durable(s.db, s.ledgers), CreateLedger(w)) == Durable(s.db, WithLedger(s.ledgers, w))
  {
  }

  lemma {:induction false} LoadVaultsHold(s: LoadState, vaults: seq<string>, v: string, id: string, sequence: int)
    requires Between(s, vaults) && Unique(vaults) && Live(s.db, v)
    requires forall i :: 0 <= i < |vaults| ==> vaults[i] in s.db.history
    ensures LoadVaults(s, vaults).Success? && Live(LoadVaults(s, vaults).value.db, v)
    ensures Holds(Written(LoadVaults(s, vaults).value), v, id, sequence) <==> Holds(Written(s), v, id, sequence)
    decreases |vaults|
  {
    hide Between, LoadVault, Holds, Live;
    if vaults != [] {
      var w, rest := vaults[0], vaults[1..];
      assert vaults == [w] + rest;
      LoadVaultKeeps(s, w, rest);
      LoadVaultHolds(s, w, rest, v, id, sequence);
      LoadVaultsHold(LoadVault(s, w).value, rest, v, id, sequence);
    }
  }

  // Opening the store changes no vault's operations: a live vault stays live and holds exactly what it held.
  lemma LoadKeepsOperations(d: Durable, v: string, id: string, sequence: int)
    requires Inv(d) && Live(d.meta, v)
    ensures Load(d).Success? && Live(Load(d).value.meta, v)
    ensures Holds(Load(d).value, v, id, sequence) <==> Holds(d, v, id, sequence)
  {
    hide Holds, LoadVaults, VaultOk;
    LoadRecovers(d);
    var s := LoadState(d.meta, d.meta, d.ledgers);
    LoadVaultsHold(s, d.meta.vaults, v, id, sequence);
  }

  // ----- Recovering twice, and recovering two vaults -----

  lemma {:induction false} LoadVaultsQuiet(s: LoadState, vaults: seq<string>)
    requires s.candidate == s.db && Inv(Durable(s.db, s.ledgers)) && Operational(s.db)
    requires forall i :: 0 <= i < |vaults| ==> vaults[i] in s.db.history
    ensures LoadVaults(s, vaults) == Success(s)
    decreases |vaults|
  {
    if vaults != [] {
      hide Inv;
      LoadQuiet(s, vaults[0]);
      LoadVaultsQuiet(s, vaults[1..]);
    }
  }

  lemma LoadQuiet(s: LoadState, v: string)
    requires s.candidate == s.db && Inv(Durable(s.db, s.ledgers)) && Operational(s.db) && v in s.db.history
    ensures LoadVault(s, v) == Success(s)
  {
    if Live(s.db, v) {
      CreateMissing(s, v);
      OpenStateHolds(Durable(s.db, s.ledgers), v);
    }
  }

  // Opening an operational store writes nothing, so recovering twice is recovering once.
  lemma LoadIdempotent(d: Durable)
    requires Inv(d)
    ensures Load(d).Success? && Load(Load(d).value) == Load(d)
  {
    LoadRecovers(d);
    var after := Load(d).value;
    LoadVaultsQuiet(LoadState(after.meta, after.meta, after.ledgers), after.meta.vaults);
  }

  // The state of two vaults whose recovery never started: everything else as in a reachable state.
  ghost predicate InvButPending(d: Durable) {
    && Known(d.meta)
    && (forall v :: v in d.meta.history ==> Numbered(d.meta, v))
    && (forall v :: Live(d.meta, v) ==> VaultOk(d, v) && !Hist(d.meta, v).initPending)
  }

  ghost predicate Pending(m: Meta, v: string) {
    Live(m, v) && Hist(m, v).pending.Some?
  }

  // With no vault being initialised the copy stays the file as first read, and each recovered vault
  // overwrites the file with that copy finished for it alone.
  ghost predicate Overwritten(first: Meta, s: LoadState, rest: seq<string>) {
    && s.candidate == first
    && (s.db == first || exists v :: Pending(first, v) && v !in rest && s.db == Finished(first, v))
    && ((exists v :: Pending(first, v) && v !in rest) ==> s.db != first)
    && (forall v :: v in rest && Live(first, v) ==> v in s.ledgers && VaultOk(Durable(first, s.ledgers), v))
  }

  lemma OverwriteStep(first: Meta, s: LoadState, v: string, rest: seq<string>)
    requires Overwritten(first, s, [v] + rest) && v !in rest && v in first.history
    requires forall w :: Live(first, w) ==> !Hist(first, w).initPending
    ensures LoadVault(s, v).Success? && Overwritten(first, LoadVault(s, v).value, rest)
  {
    hide VaultOk, Known, Numbered;
    assert v in [v] + rest;
    if Live(first, v) {
      AloneOpens(Durable(first, s.ledgers), v);
      var next := LoadVault(s, v).value;
      forall w | w in rest && Live(first, w) ensures VaultOk(Durable(first, next.ledgers), w) && w in next.ledgers {
        assert w in [v] + rest;
        LedgerFrame(first, s.ledgers, next.ledgers, w);
      }
      OverwriteDb(first, s, next, v, rest);
    } else {
      OverwriteDb(first, s, s, v, rest);
      forall w | w in rest && Live(first, w) ensures VaultOk(Durable(first, s.ledgers), w) && w in s.ledgers {
        assert w in [v] + rest;
      }
    }
  }

  lemma OverwriteDb(first: Meta, s: LoadState, next: LoadState, v: string, rest: seq<string>)
    requires v !in rest
    requires s.db == first || exists w :: Pending(first, w) && w !in [v] + rest && s.db == Finished(first, w)
    requires (exists w :: Pending(first, w) && w !in [v] + rest) ==> s.db != first
    requires next.db == if Pending(first, v) then Finished(first, v) else s.db
    ensures next.db == first || exists w :: Pending(first, w) && w !in rest && next.db == Finished(first, w)
    ensures (exists w :: Pending(first, w) && w !in rest) ==> next.db != first
  {
    if Pending(first, v) {
      assert Finished(first, v).history[v].pending.None?;
    } else {
      if w :| Pending(first, w) && w !in [v] + rest && s.db == Finished(first, w) {
        assert w !in rest;
      }
      if w :| Pending(first, w) && w !in rest {
        assert w !in [v] + rest;
      }
    }
  }

  lemma LedgerFrame(m: Meta, before: map<string, Ledger>, after: map<string, Ledger>, w: string)
    requires w in before && w in after && before[w] == after[w]
    requires VaultOk(Durable(m, before), w)
    ensures VaultOk(Durable(m, after), w)
  {
  }

  // Opening one live vault needs only that vault's part of the invariant.
  lemma AloneOpens(d: Durable, v: string)
    requires Live(d.meta, v) && v in d.ledgers && VaultOk(d, v) && !Hist(d.meta, v).initPending
    ensures LoadVault(LoadState(d.meta, d.meta, d.ledgers), v).Success?
    ensures forall db :: LoadVault(LoadState(d.meta, db, d.ledgers), v).Success?
  {
    var hs, l := Hist(d.meta, v), d.ledgers[v];
    var one := Alone(d, v);
    AloneInv(d, v);
    OpenStateHolds(one, v);
    if hs.pending.Some? {
      PendingAccepts(one, v);
    }
  }

  // The same vault as the only one of its store.
  function Alone(d: Durable, v: string): Durable {
    Durable(Meta([v], map[v := Active], Hot(d.meta.rows, v), map[v := Hist(d.meta, v)]), d.ledgers)
  }

  lemma {:induction false} HotHot(rows: seq<Row>, v: string)
    ensures Hot(Hot(rows, v), v) == Hot(rows, v)
  {
    if rows != [] {
      var rest := Hot(rows[1..], v);
      HotHot(rows[1..], v);
      HotCons(rows[0], rest, v);
      assert [] + rest == rest;
    }
  }

  lemma AloneInv(d: Durable, v: string)
    requires Live(d.meta, v) && VaultOk(d, v)
    ensures Inv(Alone(d, v)) && Hot(Alone(d, v).meta.rows, v) == Hot(d.meta.rows, v)
  {
    var one := Alone(d, v);
    HotHot(d.meta.rows, v);
    HotVault(d.meta.rows, v);
    hide Hot;
    assert VaultOk(one, v) && Numbered(one.meta, v) by {
      RemainingPositive(d, v);
    }
    hide VaultInv, Numbered;
    assert Known(one.meta);
  }

  lemma RemainingPositive(d: Durable, v: string)
    requires VaultOk(d, v)
    ensures Hist(d.meta, v).nextSequence > 0
  {
  }

  lemma {:induction false} OverwriteAll(first: Meta, s: LoadState, vaults: seq<string>)
    requires Overwritten(first, s, vaults) && Unique(vaults)
    requires forall i :: 0 <= i < |vaults| ==> vaults[i] in first.history
    requires forall w :: Live(first, w) ==> !Hist(first, w).initPending
    ensures LoadVaults(s, vaults).Success? && Overwritten(first, LoadVaults(s, vaults).value, [])
    decreases |vaults|
  {
    hide Overwritten, LoadVault;
    if vaults != [] {
      assert vaults == [vaults[0]] + vaults[1..];
      OverwriteStep(first, s, vaults[0], vaults[1..]);
      OverwriteAll(first, LoadVault(s, vaults[0]).value, vaults[1..]);
    }
  }

  // The recovery loop always succeeds, but it leaves an operational store exactly when at most one vault had
  // a batch pending: with two, finishing the second puts the first one's descriptor back.
  lemma LoadOperationalIff(d: Durable)
    requires InvButPending(d)
    ensures Load(d).Success?
    ensures Operational(Load(d).value.meta) <==> forall v, w :: Pending(d.meta, v) && Pending(d.meta, w) ==> v == w
  {
    var s := LoadState(d.meta, d.meta, d.ledgers);
    forall v | v in d.meta.vaults && Live(d.meta, v) ensures v in d.ledgers && VaultOk(d, v) {
      assert VaultOk(d, v);
    }
    assert forall v :: Pending(d.meta, v) ==> v in d.meta.vaults;
    OverwriteAll(d.meta, s, d.meta.vaults);
    FinalOperational(d.meta, LoadVaults(s, d.meta.vaults).value.db);
  }

  lemma FinalOperational(first: Meta, db: Meta)
    requires forall w :: Live(first, w) ==> !Hist(first, w).initPending
    requires db == first || exists v :: Pending(first, v) && db == Finished(first, v)
    requires (exists v :: Pending(first, v)) ==> db != first
    ensures Operational(db) <==> forall v, w :: Pending(first, v) && Pending(first, w) ==> v == w
  {
    if db == first {
      forall v | Live(first, v) ensures Hist(first, v).pending.None? {
        assert !Pending(first, v);
      }
    } else {
      var v :| Pending(first, v) && db == Finished(first, v);
      forall w | w != v ensures Live(db, w) == Live(first, w) && Hist(db, w) == Hist(first, w) {
      }
      if Operational(db) {
        forall w | Pending(first, w) ensures w == v {
          assert Live(db, w);
        }
      }
      if forall u, w :: Pending(first, u) && Pending(first, w) ==> u == w {
        forall w | Live(db, w) ensures !Hist(db, w).initPending && Hist(db, w).pending.None? {
          if w != v {
            assert !Pending(first, w);
          }
        }
      }
    }
  }

  // ----- Two vaults pending at once -----

  function WaitingRow(v: string): Row {
    Row("op", v, 1, "device_push", Committed, "")
  }

  function WaitingBatch(v: string): Batch {
    Batch(v, "batch", 0, 1, [Entry("op", 1, WaitingRow(v))])
  }

  function WaitingHistory(v: string): HistoryState {
    HistoryState(0, 2, false, Some(WaitingBatch(v)))
  }

  const TWO_WAITING := Durable(
    Meta(["a", "b"], map["a" := Active, "b" := Active], [WaitingRow("a"), WaitingRow("b")],
         map["a" := WaitingHistory("a"), "b" := WaitingHistory("b")]),
    map["a" := EmptyLedger("a"), "b" := EmptyLedger("b")])

  lemma WaitingInv(v: string)
    ensures VaultInv(v, [WaitingRow(v)], WaitingHistory(v), Some(EmptyLedger(v)))
  {
    assert EntryOf([WaitingRow(v)], WaitingBatch(v).rows[0]);
  }

  lemma WaitingHot()
    ensures "a" != "b"
    ensures Hot(TWO_WAITING.meta.rows, "a") == [WaitingRow("a")] && Hot(TWO_WAITING.meta.rows, "b") == [WaitingRow("b")]
  {
    assert "a"[0] != "b"[0];
    HotCons(WaitingRow("a"), [WaitingRow("b")], "a");
    HotCons(WaitingRow("a"), [WaitingRow("b")], "b");
    HotCons(WaitingRow("b"), [], "a");
    HotCons(WaitingRow("b"), [], "b");
    assert TWO_WAITING.meta.rows == [WaitingRow("a")] + [WaitingRow("b")];
    assert [WaitingRow("b")] == [WaitingRow("b")] + [];
  }

  lemma WaitingVaults()
    ensures InvButPending(TWO_WAITING)
  {
    WaitingHot();
    WaitingInv("a");
    WaitingInv("b");
    hide Hot, VaultInv;
    assert VaultOk(TWO_WAITING, "a") && VaultOk(TWO_WAITING, "b");
    hide VaultOk;
    assert Known(TWO_WAITING.meta);
  }

  // Opening a store in that state succeeds and leaves it refusing every operation.
  lemma TwoPendingBlocks()
    ensures InvButPending(TWO_WAITING) && Load(TWO_WAITING).Success? && !Operational(Load(TWO_WAITING).value.meta)
  {
    WaitingHot();
    WaitingVaults();
    hide InvButPending, Load, Operational;
    assert Pending(TWO_WAITING.meta, "a") && Pending(TWO_WAITING.meta, "b");
    LoadOperationalIff(TWO_WAITING);
  }
}
