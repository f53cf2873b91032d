// Every reachable state of the hand-off keeps each started operation exactly once and stays recoverable.
module HistorySafety {
  import opened Common
  import opened OperationLedger
  import opened HistoryHandoff

  // Nothing is being handed over.
  ghost predicate Quiet(d: Durable) {
    && Settles(d)
    && (forall v :: v in d.meta.history ==> Numbered(d.meta, v))
  }

  ghost predicate Settles(d: Durable) {
    && Known(d.meta)
    && (forall v :: Live(d.meta, v) ==> VaultOk(d, v) && Hist(d.meta, v).pending.None?)
  }

  lemma QuietInv(d: Durable)
    requires Quiet(d)
    ensures Inv(d)
  {
  }

  // ----- Edits -----

  lemma NumbersExtend(rows: seq<Row>, row: Row)
    requires NumbersAscend(rows) && InRange(rows, row.sequence) && row.sequence > 0
    ensures NumbersAscend(rows + [row]) && InRange(rows + [row], row.sequence + 1)
  {
  }

  lemma StartNumbered(m: Meta, v: string, id: string, kind: string, body: string, w: string)
    requires Numbered(m, w)
    ensures Numbered(Edited(m, StartOperation(v, id, kind, body)), w)
  {
    var hot, row := Hot(m.rows, w), Row(id, v, Hist(m, v).nextSequence, kind, Started, body);
    HotAppend(m.rows, row, w);
    hide Hot;
    if v == w {
      NumbersExtend(hot, row);
    } else {
      assert hot + [] == hot;
    }
  }

  lemma EditNumbered(m: Meta, ledgers: map<string, Ledger>, e: Edit, w: string)
    requires Known(m) && EditAllowed(m, ledgers, e)
    requires w in m.history ==> Numbered(m, w)
    requires w in Edited(m, e).history
    ensures Numbered(Edited(m, e), w)
  {
    match e
    case AddVault(v) => if w == v { HotUnknown(m.rows, v); }
    case StartOperation(v, id, kind, body) => StartNumbered(m, v, id, kind, body, w);
    case RewriteOperation(v, id, status, body) => HotRewritten(m.rows, v, id, status, body, w);
    case SetStatus(v, to) =>
    case ForgetVault(v) => HotOthers(m.rows, v, w);
  }

  lemma AddVaultOk(d: Durable, v: string)
    requires Known(d.meta) && EditAllowed(d.meta, d.ledgers, AddVault(v))
    ensures VaultOk(d.(meta := Edited(d.meta, AddVault(v))), v)
  {
    HotUnknown(d.meta.rows, v);
  }

  lemma AddVaultKeeps(d: Durable, v: string)
    requires Quiet(d) && EditAllowed(d.meta, d.ledgers, AddVault(v))
    ensures Settles(d.(meta := Edited(d.meta, AddVault(v))))
  {
    hide Numbered, Hot, VaultInv;
    var after := d.(meta := Edited(d.meta, AddVault(v)));
    AddVaultOk(d, v);
    forall w | Live(after.meta, w) ensures VaultOk(after, w) && Hist(after.meta, w).pending.None? {
      if w != v {
        assert Live(d.meta, w);
      }
    }
    assert v in after.meta.vaults;
  }

  lemma StartVaultOk(d: Durable, v: string, id: string, kind: string, body: string, w: string)
    requires Quiet(d) && EditAllowed(d.meta, d.ledgers, StartOperation(v, id, kind, body)) && Live(d.meta, w)
    ensures var after := d.(meta := Edited(d.meta, StartOperation(v, id, kind, body)));
      VaultOk(after, w) && Hist(after.meta, w).pending.None?
  {
    var hs := Hist(d.meta, v);
    var row := Row(id, v, hs.nextSequence, kind, Started, body);
    HotAppend(d.meta.rows, row, w);
    assert VaultOk(d, w);
    if w == v {
      var archived := if v in d.ledgers then d.ledgers[v].operations else [];
      AccountedStart(Hot(d.meta.rows, v), archived, hs.nextSequence, row);
    } else {
      assert Hot(d.meta.rows, w) + [] == Hot(d.meta.rows, w);
    }
  }

  lemma StartKeeps(d: Durable, v: string, id: string, kind: string, body: string)
    requires Quiet(d) && EditAllowed(d.meta, d.ledgers, StartOperation(v, id, kind, body))
    ensures Settles(d.(meta := Edited(d.meta, StartOperation(v, id, kind, body))))
  {
    var after := d.(meta := Edited(d.meta, StartOperation(v, id, kind, body)));
    forall w | Live(after.meta, w) ensures VaultOk(after, w) && Hist(after.meta, w).pending.None? {
      StartVaultOk(d, v, id, kind, body, w);
    }
  }

  lemma {:induction false} RewrittenVaults(rows: seq<Row>, v: string, id: string, status: Status, body: string)
    ensures |Rewritten(rows, v, id, status, body)| == |rows|
    ensures forall i :: 0 <= i < |rows| ==> Rewritten(rows, v, id, status, body)[i].vault == rows[i].vault
  {
    if rows != [] {
      RewrittenVaults(rows[1..], v, id, status, body);
    }
  }

  lemma RewriteKeeps(d: Durable, v: string, id: string, status: Status, body: string)
    requires Quiet(d)
    ensures Settles(d.(meta := Edited(d.meta, RewriteOperation(v, id, status, body))))
  {
    hide Numbered, Hot, Rewritten;
    var after := d.(meta := Edited(d.meta, RewriteOperation(v, id, status, body)));
    RewrittenVaults(d.meta.rows, v, id, status, body);
    forall w | Live(after.meta, w) ensures VaultOk(after, w) && Hist(after.meta, w).pending.None? {
      HotRewritten(d.meta.rows, v, id, status, body, w);
      var archived := if w in d.ledgers then d.ledgers[w].operations else [];
      assert Live(d.meta, w) && VaultOk(d, w);
      AccountedSame(Hot(d.meta.rows, w), Hot(after.meta.rows, w), archived, Hist(d.meta, w).nextSequence);
    }
  }

  lemma SetStatusKeeps(d: Durable, v: string, to: VaultStatus)
    requires Quiet(d) && EditAllowed(d.meta, d.ledgers, SetStatus(v, to))
    ensures Settles(d.(meta := Edited(d.meta, SetStatus(v, to))))
  {
    var after := d.(meta := Edited(d.meta, SetStatus(v, to)));
    forall w | Live(after.meta, w) ensures VaultOk(after, w) && Hist(after.meta, w).pending.None? {
      assert Live(d.meta, w);
      assert VaultOk(d, w);
    }
  }

  lemma {:induction false} RemovedContents(vaults: seq<string>, v: string)
    ensures forall w :: w in Removed(vaults, v) <==> w in vaults && w != v
  {
    if vaults != [] {
      RemovedContents(vaults[1..], v);
      forall w ensures w in Removed(vaults, v) <==> w in vaults && w != v {
        assert w in vaults <==> w == vaults[0] || w in vaults[1..];
      }
    }
  }

  lemma {:induction false} RemovedUnique(vaults: seq<string>, v: string)
    requires Unique(vaults)
    ensures Unique(Removed(vaults, v))
  {
    if vaults != [] {
      RemovedUnique(vaults[1..], v);
      RemovedContents(vaults[1..], v);
      var rest := Removed(vaults[1..], v);
      forall i | 0 <= i < |rest| ensures rest[i] != vaults[0] {
        assert rest[i] in vaults[1..];
      }
    }
  }

  lemma {:induction false} OtherRowsContents(rows: seq<Row>, v: string)
    ensures forall i :: 0 <= i < |OtherRows(rows, v)| ==> OtherRows(rows, v)[i] in rows && OtherRows(rows, v)[i].vault != v
  {
    if rows != [] {
      OtherRowsContents(rows[1..], v);
    }
  }

  lemma ForgetKeeps(d: Durable, v: string)
    requires Quiet(d) && EditAllowed(d.meta, d.ledgers, ForgetVault(v))
    ensures Settles(d.(meta := Edited(d.meta, ForgetVault(v))))
  {
    hide Numbered, VaultInv, Hot, OtherRows, Removed;
    var after := d.(meta := Edited(d.meta, ForgetVault(v)));
    RemovedContents(d.meta.vaults, v);
    RemovedUnique(d.meta.vaults, v);
    OtherRowsContents(d.meta.rows, v);
    forall i | 0 <= i < |after.meta.vaults| ensures after.meta.vaults[i] in after.meta.history {
      assert after.meta.vaults[i] in d.meta.vaults;
    }
    forall w | Live(after.meta, w) ensures VaultOk(after, w) && Hist(after.meta, w).pending.None? {
      HotOthers(d.meta.rows, v, w);
      assert Live(d.meta, w) && VaultOk(d, w);
    }
  }

  lemma EditKeeps(d: Durable, e: Edit)
    requires Quiet(d) && EditAllowed(d.meta, d.ledgers, e)
    ensures Quiet(d.(meta := Edited(d.meta, e)))
  {
    forall w | w in Edited(d.meta, e).history ensures Numbered(Edited(d.meta, e), w) {
      EditNumbered(d.meta, d.ledgers, e, w);
    }
    EditSettles(d, e);
  }

  lemma EditSettles(d: Durable, e: Edit)
    requires Quiet(d) && EditAllowed(d.meta, d.ledgers, e)
    ensures Settles(d.(meta := Edited(d.meta, e)))
  {
    match e
    case AddVault(v) => AddVaultKeeps(d, v);
    case StartOperation(v, id, kind, body) => StartKeeps(d, v, id, kind, body);
    case RewriteOperation(v, id, status, body) => RewriteKeeps(d, v, id, status, body);
    case SetStatus(v, to) => SetStatusKeeps(d, v, to);
    case ForgetVault(v) => ForgetKeeps(d, v);
  }

  lemma {:induction false} EditsKeep(d: Durable, edits: seq<Edit>)
    requires Quiet(d) && EditsAllowed(d.meta, d.ledgers, edits)
    ensures Quiet(d.(meta := EditedAll(d.meta, edits)))
    decreases |edits|
  {
    if edits != [] {
      EditKeeps(d, edits[0]);
      EditsKeep(d.(meta := Edited(d.meta, edits[0])), edits[1..]);
    }
  }

  // ----- The other durable writes -----

  // A write to one vault's history state or ledger leaves every other vault as it was.
  lemma OthersOk(d: Durable, after: Durable, v: string)
    requires Inv(d)
    requires after.meta.status == d.meta.status && after.meta.vaults == d.meta.vaults && after.meta.history.Keys == d.meta.history.Keys
    requires forall w :: w != v ==>
      Hot(after.meta.rows, w) == Hot(d.meta.rows, w) && Hist(after.meta, w) == Hist(d.meta, w) && LedgerOf(after.ledgers, w) == LedgerOf(d.ledgers, w)
    requires forall i :: 0 <= i < |after.meta.rows| ==> after.meta.rows[i].vault in d.meta.history
    requires Live(d.meta, v) ==> VaultOk(after, v)
    requires v in d.meta.history ==> Numbered(after.meta, v)
    ensures Known(after.meta) && (forall w :: Live(after.meta, w) ==> VaultOk(after, w))
    ensures forall w :: w in after.meta.history ==> Numbered(after.meta, w)
  {
    forall w | w in after.meta.history ensures Numbered(after.meta, w) {
      assert w in d.meta.history;
      if w != v {
        assert Numbered(d.meta, w);
      }
    }
    forall w | Live(after.meta, w) ensures VaultOk(after, w) {
      assert Live(d.meta, w);
      if w != v {
        assert VaultOk(d, w);
      }
    }
  }

  lemma CreateKeeps(d: Durable, v: string)
    requires Inv(d) && Enabled(d, CreateLedger(v))
    ensures Inv(Next(d, CreateLedger(v)))
  {
    assert VaultOk(d, v) && Numbered(d.meta, v);
    OthersOk(d, Next(d, CreateLedger(v)), v);
  }

  lemma AcknowledgeVaultOk(d: Durable, v: string)
    requires VaultOk(d, v) && Numbered(d.meta, v) && Enabled(d, Acknowledge(v))
    ensures VaultOk(Next(d, Acknowledge(v)), v) && Numbered(Next(d, Acknowledge(v)).meta, v)
  {
    hide Sound, Accounted, Ordered, InRange, Hot, NumbersAscend;
  }

  lemma AcknowledgeKeeps(d: Durable, v: string)
    requires Inv(d) && Enabled(d, Acknowledge(v))
    ensures Inv(Next(d, Acknowledge(v)))
  {
    hide VaultInv, Numbered, Hot;
    assert VaultOk(d, v) && Numbered(d.meta, v);
    AcknowledgeVaultOk(d, v);
    OthersOk(d, Next(d, Acknowledge(v)), v);
  }

  lemma PublishVaultOk(d: Durable, v: string, batch: Batch)
    requires VaultOk(d, v) && Numbered(d.meta, v) && Enabled(d, Publish(v, batch))
    ensures VaultOk(Next(d, Publish(v, batch)), v) && Numbered(Next(d, Publish(v, batch)).meta, v)
  {
    hide Sound, Accounted, Ordered, InRange, Hot, NumbersAscend, EntryOf, EntriesOrdered;
  }

  lemma PublishKeeps(d: Durable, v: string, batch: Batch)
    requires Inv(d) && Enabled(d, Publish(v, batch))
    ensures Inv(Next(d, Publish(v, batch)))
  {
    hide VaultInv, Numbered, Hot, BatchMatches;
    assert VaultOk(d, v) && Numbered(d.meta, v);
    PublishVaultOk(d, v, batch);
    OthersOk(d, Next(d, Publish(v, batch)), v);
  }

  lemma CommitVaultOk(d: Durable, v: string)
    requires Inv(d) && Enabled(d, CommitLedger(v))
    ensures VaultOk(Next(d, CommitLedger(v)), v)
    ensures Next(d, CommitLedger(v)).ledgers[v].generation == Hist(d.meta, v).pending.value.target
  {
    assert VaultOk(d, v);
    var l, hs, hot := d.ledgers[v], Hist(d.meta, v), Hot(d.meta.rows, v);
    var b := hs.pending.value;
    CommitIdempotent(l, b);
    if PriorProof(l.batches, b.id).None? {
      forall i | 0 <= i < |b.rows| ensures b.rows[i].sequence > 0 {
        assert EntryOf(hot, b.rows[i]);
      }
      CommitKeepsSound(l, b);
      InsertedOperations(Tables(l.operations, l.counts), b.rows);
      AccountedMove(hot, l.operations, hs.nextSequence, b.rows);
    }
  }

  lemma CommitKeeps(d: Durable, v: string)
    requires Inv(d) && Enabled(d, CommitLedger(v))
    ensures Inv(Next(d, CommitLedger(v)))
  {
    CommitVaultOk(d, v);
    assert Numbered(d.meta, v);
    OthersOk(d, Next(d, CommitLedger(v)), v);
  }

  lemma {:induction false} DropBatchSubset(rows: seq<Row>, v: string, entries: seq<Entry>)
    ensures forall i :: 0 <= i < |DropBatch(rows, v, entries)| ==> DropBatch(rows, v, entries)[i] in rows
  {
    if rows != [] {
      DropBatchSubset(rows[1..], v, entries);
    }
  }

  lemma FinishVaultOk(d: Durable, v: string)
    requires Inv(d) && Enabled(d, Finish(v))
    ensures VaultOk(Next(d, Finish(v)), v) && Numbered(Next(d, Finish(v)).meta, v)
  {
    assert VaultOk(d, v) && Numbered(d.meta, v);
    HotDrop(d.meta.rows, v, Hist(d.meta, v).pending.value.rows, v);
  }

  lemma FinishKeeps(d: Durable, v: string)
    requires Inv(d) && Enabled(d, Finish(v))
    ensures Inv(Next(d, Finish(v)))
  {
    hide Numbered, VaultInv;
    var after, b := Next(d, Finish(v)), Hist(d.meta, v).pending.value;
    FinishVaultOk(d, v);
    DropBatchSubset(d.meta.rows, v, b.rows);
    forall w | w != v ensures Hot(after.meta.rows, w) == Hot(d.meta.rows, w) {
      HotDrop(d.meta.rows, v, b.rows, w);
    }
    forall i | 0 <= i < |after.meta.rows| ensures after.meta.rows[i].vault in d.meta.history {
      assert after.meta.rows[i] in d.meta.rows;
    }
    OthersOk(d, after, v);
  }

  lemma EraseKeeps(d: Durable, v: string)
    requires Inv(d) && Enabled(d, EraseLedger(v))
    ensures Inv(Next(d, EraseLedger(v)))
  {
    OthersOk(d, Next(d, EraseLedger(v)), v);
  }

  // Every durable write keeps the invariant: the generations agree, or a pending batch explains why not.
  lemma StepKeepsInv(d: Durable, a: Action)
    requires Inv(d) && Enabled(d, a)
    ensures Inv(Next(d, a))
  {
    match a
    case Mutate(edits) =>
      EditsKeep(d, edits);
      QuietInv(Next(d, a));
    case CreateLedger(v) => CreateKeeps(d, v);
    case Acknowledge(v) => AcknowledgeKeeps(d, v);
    case Publish(v, batch) => PublishKeeps(d, v, batch);
    case CommitLedger(v) => CommitKeeps(d, v);
    case Finish(v) => FinishKeeps(d, v);
    case EraseLedger(v) => EraseKeeps(d, v);
  }

  // ----- Runs -----

  const EMPTY_STORE := Durable(Meta([], map[], [], map[]), map[])

  function After(log: seq<Action>): Durable {
    if log == [] then EMPTY_STORE else Next(After(log[..|log| - 1]), log[|log| - 1])
  }

  // A sequence of durable writes the server can make, starting from an empty store.
  ghost predicate Run(log: seq<Action>) {
    log == [] || (Run(log[..|log| - 1]) && Enabled(After(log[..|log| - 1]), log[|log| - 1]))
  }

  // Archive safety: the invariant holds in every reachable state, crashed or not.
  lemma {:induction false} ReachableInv(log: seq<Action>)
    requires Run(log)
    ensures Inv(After(log))
  {
    if log != [] {
      ReachableInv(log[..|log| - 1]);
      StepKeepsInv(After(log[..|log| - 1]), log[|log| - 1]);
    }
  }

  // ----- Conservation -----

  predicate Listed(rows: seq<Row>, id: string, sequence: int) {
    exists i :: 0 <= i < |rows| && rows[i].id == id && rows[i].sequence == sequence
  }

  function Archived(d: Durable, v: string): seq<Row> {
    if v in d.ledgers then d.ledgers[v].operations else []
  }

  // Vault v holds operation `id` under number `sequence`, hot or archived.
  predicate Holds(d: Durable, v: string, id: string, sequence: int) {
    Listed(Hot(d.meta.rows, v), id, sequence) || Listed(Archived(d, v), id, sequence)
  }

  lemma ListedSame(rows: seq<Row>, after: seq<Row>, id: string, sequence: int)
    requires Listed(rows, id, sequence)
    requires |rows| <= |after| && forall i :: 0 <= i < |rows| ==> rows[i].id == after[i].id && rows[i].sequence == after[i].sequence
    ensures Listed(after, id, sequence)
  {
    var i :| 0 <= i < |rows| && rows[i].id == id && rows[i].sequence == sequence;
    assert after[i].id == id;
  }

  lemma EditHolds(d: Durable, e: Edit, v: string, id: string, sequence: int)
    requires EditAllowed(d.meta, d.ledgers, e) && Holds(d, v, id, sequence)
    requires Live(d.meta, v) && Live(Edited(d.meta, e), v)
    ensures Holds(d.(meta := Edited(d.meta, e)), v, id, sequence)
  {
    var hot, after := Hot(d.meta.rows, v), Hot(Edited(d.meta, e).rows, v);
    match e
    case AddVault(w) =>
    case StartOperation(w, n, kind, body) =>
      HotAppend(d.meta.rows, Row(n, w, Hist(d.meta, w).nextSequence, kind, Started, body), v);
      if Listed(hot, id, sequence) {
        ListedSame(hot, after, id, sequence);
      }
    case RewriteOperation(w, n, status, body) =>
      HotRewritten(d.meta.rows, w, n, status, body, v);
      if Listed(hot, id, sequence) {
        ListedSame(hot, after, id, sequence);
      }
    case SetStatus(w, to) =>
    case ForgetVault(w) =>
      HotOthers(d.meta.rows, w, v);
  }

  // A vault live before and after a mutation was live throughout, or was added by it.
  lemma {:induction false} EditsHold(d: Durable, edits: seq<Edit>, v: string, id: string, sequence: int)
    requires EditsAllowed(d.meta, d.ledgers, edits) && Holds(d, v, id, sequence)
    requires LiveThrough(d.meta, edits, v)
    ensures Holds(d.(meta := EditedAll(d.meta, edits)), v, id, sequence)
    decreases |edits|
  {
    if edits != [] {
      EditHolds(d, edits[0], v, id, sequence);
      EditsHold(d.(meta := Edited(d.meta, edits[0])), edits[1..], v, id, sequence);
    }
  }

  // The vault is live before, between and after the edits.
  predicate LiveThrough(m: Meta, edits: seq<Edit>, v: string)
    decreases |edits|
  {
    Live(m, v) && (edits != [] ==> LiveThrough(Edited(m, edits[0]), edits[1..], v))
  }

  predicate StaysLive(d: Durable, a: Action, v: string) {
    Live(d.meta, v) && (a.Mutate? ==> LiveThrough(d.meta, a.edits, v))
  }

  lemma CommitHolds(d: Durable, w: string, v: string, id: string, sequence: int)
    requires Enabled(d, CommitLedger(w)) && Holds(d, v, id, sequence)
    ensures Holds(Next(d, CommitLedger(w)), v, id, sequence)
  {
    var after := Next(d, CommitLedger(w));
    if v == w && Listed(Archived(d, v), id, sequence) {
      var l := d.ledgers[v];
      InsertedOperations(Tables(l.operations, l.counts), Hist(d.meta, v).pending.value.rows);
      ListedSame(l.operations, Archived(after, v), id, sequence);
    }
  }

  // A hot row of a proven batch is in the ledger; any other hot row stays hot.
  lemma WithoutHolds(hot: seq<Row>, l: Ledger, b: Batch, id: string, sequence: int)
    requires Ordered(hot) && AllOf(hot, b.rows) && HasBatch(l, b)
    requires Listed(hot, id, sequence)
    ensures Listed(Without(hot, b.rows), id, sequence) || Listed(l.operations, id, sequence)
  {
    var i :| 0 <= i < |hot| && hot[i].id == id && hot[i].sequence == sequence;
    if InBatch(b.rows, id) {
      var n :| 0 <= n < |b.rows| && b.rows[n].id == id;
      EntryNamesRow(hot, b.rows[n], i);
      assert EntryStored(l.operations, b.rows[n]);
    } else {
      WithoutSubset(hot, b.rows);
      assert hot[i] in Without(hot, b.rows);
    }
  }

  lemma PendingProven(d: Durable, v: string)
    requires Inv(d) && Live(d.meta, v) && Hist(d.meta, v).pending.Some?
    ensures v in d.ledgers && Ordered(Hot(d.meta.rows, v)) && AllOf(Hot(d.meta.rows, v), Hist(d.meta, v).pending.value.rows)
    ensures d.ledgers[v].generation == Hist(d.meta, v).pending.value.target ==> HasBatch(d.ledgers[v], Hist(d.meta, v).pending.value)
  {
    assert VaultOk(d, v);
  }

  lemma FinishHolds(d: Durable, w: string, v: string, id: string, sequence: int)
    requires Inv(d) && Enabled(d, Finish(w)) && Holds(d, v, id, sequence)
    ensures Holds(Next(d, Finish(w)), v, id, sequence)
  {
    var b := Hist(d.meta, w).pending.value;
    HotDrop(d.meta.rows, w, b.rows, v);
    if v == w && Listed(Hot(d.meta.rows, v), id, sequence) {
      PendingProven(d, v);
      WithoutHolds(Hot(d.meta.rows, v), d.ledgers[v], b, id, sequence);
    }
  }

  lemma EntryNamesRow(hot: seq<Row>, entry: Entry, i: int)
    requires Ordered(hot) && EntryOf(hot, entry)
    requires 0 <= i < |hot| && hot[i].id == entry.id
    ensures entry.canonical == hot[i]
  {
    var k :| 0 <= k < |hot| && hot[k] == entry.canonical;
    assert k == i;
  }

  // No durable write loses an operation of a vault that stays live.
  lemma StepHolds(d: Durable, a: Action, v: string, id: string, sequence: int)
    requires Inv(d) && Enabled(d, a) && StaysLive(d, a, v) && Holds(d, v, id, sequence)
    ensures Holds(Next(d, a), v, id, sequence)
  {
    match a
    case Mutate(edits) => EditsHold(d, edits, v, id, sequence);
    case CreateLedger(w) =>
    case Acknowledge(w) =>
    case Publish(w, batch) =>
    case CommitLedger(w) => CommitHolds(d, w, v, id, sequence);
    case Finish(w) => FinishHolds(d, w, v, id, sequence);
    case EraseLedger(w) =>
  }

  // Conservation over whole runs: whatever a live vault ever held it still holds at the end of any longer run.
  lemma {:induction false} ReachableHolds(log: seq<Action>, k: int, v: string, id: string, sequence: int)
    requires Run(log) && 0 <= k <= |log|
    requires Holds(After(log[..k]), v, id, sequence)
    requires forall j :: k <= j < |log| ==> StaysLive(After(log[..j]), log[j], v)
    ensures Holds(After(log), v, id, sequence)
  {
    if k == |log| {
      assert log[..k] == log;
    } else {
      var n := |log| - 1;
      var before := log[..n];
      PrefixesSame(log, n);
      assert StaysLive(After(log[..n]), log[n], v);
      ReachableHolds(before, k, v, id, sequence);
      ReachableInv(before);
      StepHolds(After(before), log[n], v, id, sequence);
    }
  }

  lemma PrefixesSame<T>(log: seq<T>, n: int)
    requires 0 <= n <= |log|
    ensures forall j :: 0 <= j <= n ==> log[..n][..j] == log[..j]
  {
  }

  // ----- Exactly once -----

  // The hot rows of a vault that its ledger does not hold already.
  function Remaining(d: Durable, v: string): seq<Row> {
    var hot, hs := Hot(d.meta.rows, v), Hist(d.meta, v);
    if hs.pending.Some? && v in d.ledgers && d.ledgers[v].generation == hs.pending.value.target
    then Without(hot, hs.pending.value.rows) else hot
  }

  lemma ApartRows(a: seq<Row>, b: seq<Row>, x: Row, y: Row)
    requires Apart(a, b) && x in a && y in b
    ensures Differ(x, y)
  {
    var i, j :| 0 <= i < |a| && a[i] == x && 0 <= j < |b| && b[j] == y;
  }

  lemma DistinctRows(rows: seq<Row>, x: Row, y: Row)
    requires Distinct(rows) && x in rows && y in rows && !Differ(x, y)
    ensures x == y
  {
    var i, j :| 0 <= i < |rows| && rows[i] == x && 0 <= j < |rows| && rows[j] == y;
  }

  // A row of a proven batch is in the ledger, unchanged.
  lemma BatchRowStored(hot: seq<Row>, l: Ledger, b: Batch, row: Row)
    requires Ordered(hot) && AllOf(hot, b.rows) && HasBatch(l, b)
    requires row in hot && InBatch(b.rows, row.id)
    ensures row in l.operations
  {
    var i :| 0 <= i < |hot| && hot[i] == row;
    var n :| 0 <= n < |b.rows| && b.rows[n].id == row.id;
    EntryNamesRow(hot, b.rows[n], i);
    assert EntryStored(l.operations, b.rows[n]);
  }

  // Rows in both places are copies of one row, and only a pending batch has such rows.
  lemma CopiesAgree(d: Durable, v: string, hot: Row, archived: Row)
    requires Inv(d) && Live(d.meta, v)
    requires hot in Hot(d.meta.rows, v) && archived in Archived(d, v)
    requires hot.id == archived.id || hot.sequence == archived.sequence
    ensures hot == archived
    ensures Hist(d.meta, v).pending.Some? && InBatch(Hist(d.meta, v).pending.value.rows, hot.id)
  {
    var rows, l := Hot(d.meta.rows, v), d.ledgers[v];
    RemainingAccounted(d, v);
    WithoutSubset(rows, if Hist(d.meta, v).pending.Some? then Hist(d.meta, v).pending.value.rows else []);
    if hot in Remaining(d, v) {
      ApartRows(Remaining(d, v), l.operations, hot, archived);
    }
    PendingProven(d, v);
    BatchRowStored(rows, l, Hist(d.meta, v).pending.value, hot);
    DistinctRows(l.operations, hot, archived);
  }

  lemma RemainingAccounted(d: Durable, v: string)
    requires Inv(d) && Live(d.meta, v)
    ensures Accounted(Remaining(d, v), Archived(d, v), Hist(d.meta, v).nextSequence)
  {
    assert VaultOk(d, v);
  }

  function Numbers(rows: seq<Row>): set<int> {
    set i | 0 <= i < |rows| :: rows[i].sequence
  }

  lemma NumbersCons(row: Row, rest: seq<Row>)
    ensures Numbers([row] + rest) == {row.sequence} + Numbers(rest)
  {
    var all := [row] + rest;
    forall k | k in Numbers(rest) ensures k in Numbers(all) {
      var i :| 0 <= i < |rest| && rest[i].sequence == k;
      assert all[i + 1] == rest[i];
    }
    assert all[0] == row;
  }

  lemma {:induction false} NumbersSize(rows: seq<Row>)
    requires Distinct(rows)
    ensures |Numbers(rows)| == |rows|
  {
    if rows == [] {
      assert Numbers(rows) == {};
    } else {
      var row, rest := rows[0], rows[1..];
      assert rows == [row] + rest;
      NumbersSize(rest);
      NumbersCons(row, rest);
      assert row.sequence !in Numbers(rest);
    }
  }

  // Hot and archived rows of a live vault carry every number handed out, and each number once.
  lemma ExactlyOnce(d: Durable, v: string, k: int)
    requires Inv(d) && Live(d.meta, v)
    requires 1 <= k < Hist(d.meta, v).nextSequence
    ensures exists i :: 0 <= i < |Remaining(d, v) + Archived(d, v)| && (Remaining(d, v) + Archived(d, v))[i].sequence == k
    ensures Distinct(Remaining(d, v) + Archived(d, v))
  {
    var all, n := Remaining(d, v) + Archived(d, v), Hist(d.meta, v).nextSequence - 1;
    RemainingAccounted(d, v);
    assert Distinct(all);
    NumbersSize(all);
    UpToSize(n);
    assert Numbers(all) <= UpTo(n);
    SubsetFull(Numbers(all), UpTo(n));
    assert k in Numbers(all);
  }
}
