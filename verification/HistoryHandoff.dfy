// The hand-off of finished operations from the hot metadata file to the ledgers, as a system of durable
// writes (src/server/metadataStore.ts). One metadata persist and one ledger transaction are atomic; a crash
// may fall between any two of them and loses nothing durable, so every prefix of a run is a crashed run.
module HistoryHandoff {
  import opened Common
  import opened OperationLedger

  datatype VaultStatus = Active | Blocked | Deleting

  datatype HistoryState = HistoryState(generation: int, nextSequence: int, initPending: bool, pending: Option<Batch>)

  datatype Meta = Meta(vaults: seq<string>, status: map<string, VaultStatus>, rows: seq<Row>, history: map<string, HistoryState>)

  datatype Durable = Durable(meta: Meta, ledgers: map<string, Ledger>)

  const NEW_HISTORY := HistoryState(0, 1, true, None)

  function Hist(m: Meta, v: string): HistoryState {
    if v in m.history then m.history[v] else NEW_HISTORY
  }

  function LedgerOf(ledgers: map<string, Ledger>, v: string): Option<Ledger> {
    if v in ledgers then Some(ledgers[v]) else None
  }

  predicate IsDeleting(m: Meta, v: string) {
    v in m.status && m.status[v] == Deleting
  }

  // A vault whose history the store answers for: known, and not being deleted.
  predicate Live(m: Meta, v: string) {
    v in m.history && !IsDeleting(m, v)
  }

  // The hot rows of one vault, in file order.
  function Hot(rows: seq<Row>, v: string): seq<Row> {
    if rows == [] then []
    else (if rows[0].vault == v then [rows[0]] else []) + Hot(rows[1..], v)
  }

  predicate InBatch(entries: seq<Entry>, id: string) {
    exists i :: 0 <= i < |entries| && entries[i].id == id
  }

  function Without(rows: seq<Row>, entries: seq<Entry>): seq<Row> {
    if rows == [] then []
    else (if InBatch(entries, rows[0].id) then [] else [rows[0]]) + Without(rows[1..], entries)
  }

  // The metadata rows left once vault v's batch is dropped.
  function DropBatch(rows: seq<Row>, v: string, entries: seq<Entry>): seq<Row> {
    if rows == [] then []
    else (if rows[0].vault == v && InBatch(entries, rows[0].id) then [] else [rows[0]]) + DropBatch(rows[1..], v, entries)
  }

  function Rewritten(rows: seq<Row>, v: string, id: string, status: Status, body: string): seq<Row> {
    if rows == [] then []
    else [if rows[0].vault == v && rows[0].id == id then rows[0].(status := status, body := body) else rows[0]]
         + Rewritten(rows[1..], v, id, status, body)
  }

  // ----- The durable writes -----

  // What a metadata mutation may change about operations and vaults.
  datatype Edit =
    | AddVault(vault: string)
    | StartOperation(vault: string, id: string, kind: string, body: string)
    | RewriteOperation(vault: string, id: string, status: Status, body: string)
    | SetStatus(vault: string, to: VaultStatus)
    | ForgetVault(vault: string)

  datatype Action =
    | Mutate(edits: seq<Edit>)
    | CreateLedger(vault: string)
    | Acknowledge(vault: string)
    | Publish(vault: string, batch: Batch)
    | CommitLedger(vault: string)
    | Finish(vault: string)
    | EraseLedger(vault: string)

  function WithHistory(m: Meta, v: string, hs: HistoryState): Meta {
    m.(history := m.history[v := hs])
  }

  function Edited(m: Meta, e: Edit): Meta {
    match e
    case AddVault(v) =>
      Meta(m.vaults + [v], m.status[v := Active], m.rows, m.history[v := NEW_HISTORY])
    case StartOperation(v, id, kind, body) =>
      var hs := Hist(m, v);
      Meta(m.vaults, m.status, m.rows + [Row(id, v, hs.nextSequence, kind, Started, body)],
           m.history[v := hs.(nextSequence := hs.nextSequence + 1)])
    case RewriteOperation(v, id, status, body) =>
      m.(rows := Rewritten(m.rows, v, id, status, body))
    case SetStatus(v, to) =>
      m.(status := m.status[v := to])
    case ForgetVault(v) =>
      Meta(Removed(m.vaults, v), m.status - {v}, OtherRows(m.rows, v), m.history - {v})
  }

  function Removed(vaults: seq<string>, v: string): seq<string> {
    if vaults == [] then [] else (if vaults[0] == v then [] else [vaults[0]]) + Removed(vaults[1..], v)
  }

  function OtherRows(rows: seq<Row>, v: string): seq<Row> {
    if rows == [] then [] else (if rows[0].vault == v then [] else [rows[0]]) + OtherRows(rows[1..], v)
  }

  predicate FreshId(rows: seq<Row>, id: string) {
    forall i :: 0 <= i < |rows| ==> rows[i].id != id
  }

  // Identities are drawn fresh; deletion is never taken back; a vault is forgotten only once deleting.
  predicate EditAllowed(m: Meta, ledgers: map<string, Ledger>, e: Edit) {
    match e
    case AddVault(v) => v !in m.history && v !in m.status && v !in ledgers
    case StartOperation(v, id, _, _) =>
      && v in m.history
      && FreshId(Hot(m.rows, v), id)
      && (v in ledgers ==> FreshId(ledgers[v].operations, id))
    case RewriteOperation(v, id, status, body) => true
    case SetStatus(v, to) => v in m.history && (IsDeleting(m, v) ==> to == Deleting)
    case ForgetVault(v) => IsDeleting(m, v)
  }

  function EditedAll(m: Meta, edits: seq<Edit>): Meta
    decreases |edits|
  {
    if edits == [] then m else EditedAll(Edited(m, edits[0]), edits[1..])
  }

  predicate EditsAllowed(m: Meta, ledgers: map<string, Ledger>, edits: seq<Edit>)
    decreases |edits|
  {
    edits == [] || (EditAllowed(m, ledgers, edits[0]) && EditsAllowed(Edited(m, edits[0]), ledgers, edits[1..]))
  }

  // The gate every mutation, export and archive passes first.
  predicate Operational(m: Meta) {
    forall v :: v in m.history ==> Live(m, v) ==> !Hist(m, v).initPending && Hist(m, v).pending.None?
  }

  function Next(d: Durable, a: Action): Durable {
    match a
    case Mutate(edits) => d.(meta := EditedAll(d.meta, edits))
    case CreateLedger(v) => d.(ledgers := d.ledgers[v := EmptyLedger(v)])
    case Acknowledge(v) => d.(meta := WithHistory(d.meta, v, Hist(d.meta, v).(initPending := false)))
    case Publish(v, batch) => d.(meta := WithHistory(d.meta, v, Hist(d.meta, v).(pending := Some(batch))))
    case CommitLedger(v) =>
      if v in d.ledgers && Hist(d.meta, v).pending.Some?
      then d.(ledgers := d.ledgers[v := AfterCommit(d.ledgers[v], Hist(d.meta, v).pending.value)])
      else d
    case Finish(v) => d.(meta := Finished(d.meta, v))
    case EraseLedger(v) => d.(ledgers := d.ledgers - {v})
  }

  function Finished(m: Meta, v: string): Meta {
    var hs := Hist(m, v);
    if hs.pending.None? then m
    else
      var batch := hs.pending.value;
      Meta(m.vaults, m.status, DropBatch(m.rows, v, batch.rows),
           m.history[v := hs.(generation := batch.target, pending := None)])
  }

  ghost predicate Enabled(d: Durable, a: Action) {
    match a
    case Mutate(edits) => Operational(d.meta) && EditsAllowed(d.meta, d.ledgers, edits)
    case CreateLedger(v) => Live(d.meta, v) && Hist(d.meta, v).initPending && v !in d.ledgers
    case Acknowledge(v) => Live(d.meta, v) && Hist(d.meta, v).initPending && v in d.ledgers
    case Publish(v, batch) =>
      && Operational(d.meta) && Live(d.meta, v) && v in d.ledgers
      && PriorProof(d.ledgers[v].batches, batch.id).None?
      && BatchMatches(v, Hot(d.meta.rows, v), Hist(d.meta, v).generation, batch)
    case CommitLedger(v) =>
      && Live(d.meta, v) && v in d.ledgers && Hist(d.meta, v).pending.Some?
      && Accepts(d.ledgers[v], Hist(d.meta, v).pending.value)
    case Finish(v) =>
      && Live(d.meta, v) && v in d.ledgers && Hist(d.meta, v).pending.Some?
      && HasBatch(d.ledgers[v], Hist(d.meta, v).pending.value)
      && d.ledgers[v].generation == Hist(d.meta, v).pending.value.target
    case EraseLedger(v) => IsDeleting(d.meta, v)
  }

  // ----- The invariant, vault by vault -----

  predicate Ordered(rows: seq<Row>) {
    forall i, j :: 0 <= i < j < |rows| ==> rows[i].sequence < rows[j].sequence && rows[i].id != rows[j].id
  }

  predicate Apart(a: seq<Row>, b: seq<Row>) {
    forall i, j :: 0 <= i < |a| && 0 <= j < |b| ==> Differ(a[i], b[j])
  }

  predicate InRange(rows: seq<Row>, next: int) {
    forall i :: 0 <= i < |rows| ==> 0 < rows[i].sequence < next
  }

  // Hot and archived rows together are the operations numbered 1 to next-1, each once.
  predicate Accounted(hot: seq<Row>, archived: seq<Row>, next: int) {
    && Ordered(hot) && Distinct(archived) && Apart(hot, archived)
    && InRange(hot, next) && InRange(archived, next)
    && |hot| + |archived| == next - 1
  }

  predicate NumbersAscend(rows: seq<Row>) {
    forall i, j :: 0 <= i < j < |rows| ==> rows[i].sequence < rows[j].sequence
  }

  // A vault's hot rows ascend below its next number, whether or not the vault is being deleted.
  predicate Numbered(m: Meta, v: string) {
    NumbersAscend(Hot(m.rows, v)) && InRange(Hot(m.rows, v), Hist(m, v).nextSequence) && Hist(m, v).nextSequence > 0
  }

  predicate EntryOf(hot: seq<Row>, entry: Entry) {
    entry.canonical in hot && entry.canonical.id == entry.id && entry.canonical.sequence == entry.sequence && Terminal(entry.canonical)
  }

  predicate EntriesOrdered(rows: seq<Entry>) {
    forall i, j :: 0 <= i < j < |rows| ==> rows[i].sequence < rows[j].sequence && rows[i].id != rows[j].id
  }

  // The check of a hand-off descriptor against the hot rows it names.
  predicate BatchMatches(v: string, hot: seq<Row>, generation: int, b: Batch) {
    && b.vault == v && b.parent == generation && b.target == generation + 1
    && 0 < |b.rows| <= MAX_BATCH_ROWS
    && (forall i :: 0 <= i < |b.rows| ==> EntryOf(hot, b.rows[i]))
    && EntriesOrdered(b.rows)
  }

  // Before the ledger transaction the ledger is at the parent generation and knows nothing of the batch;
  // after it, at the target generation, with the batch proven and its rows held twice.
  ghost predicate PendingInv(hot: seq<Row>, hs: HistoryState, l: Ledger, b: Batch) {
    || (l.generation == b.parent && PriorProof(l.batches, b.id).None? && Accounted(hot, l.operations, hs.nextSequence))
    || (l.generation == b.target && HasBatch(l, b) && Accounted(Without(hot, b.rows), l.operations, hs.nextSequence))
  }

  ghost predicate VaultInv(v: string, hot: seq<Row>, hs: HistoryState, ledger: Option<Ledger>) {
    && Ordered(hot) && InRange(hot, hs.nextSequence)
    && (hs.initPending ==> hs.generation == 0 && hs.pending.None? && (ledger.Some? ==> ledger.value == EmptyLedger(v)))
    && match ledger
       case None => hs.initPending && Accounted(hot, [], hs.nextSequence)
       case Some(l) =>
         && l.vault == v && Sound(l)
         && match hs.pending
            case None => l.generation == hs.generation && Accounted(hot, l.operations, hs.nextSequence)
            case Some(b) => BatchMatches(v, hot, hs.generation, b) && PendingInv(hot, hs, l, b)
  }

  ghost predicate VaultOk(d: Durable, v: string) {
    VaultInv(v, Hot(d.meta.rows, v), Hist(d.meta, v), LedgerOf(d.ledgers, v))
  }

  predicate Unique(vaults: seq<string>) {
    forall i, j :: 0 <= i < j < |vaults| ==> vaults[i] != vaults[j]
  }

  predicate Known(m: Meta) {
    && Unique(m.vaults)
    && (forall i :: 0 <= i < |m.rows| ==> m.rows[i].vault in m.history)
    && (forall i :: 0 <= i < |m.vaults| ==> m.vaults[i] in m.history)
    && (forall v :: v in m.history ==> v in m.vaults && v in m.status)
  }

  // At most one vault hands a batch over, and while it does no vault is being initialised.
  ghost predicate OnePending(m: Meta) {
    forall v, w :: Live(m, v) && Live(m, w) && Hist(m, v).pending.Some? ==>
      !Hist(m, w).initPending && (v != w ==> Hist(m, w).pending.None?)
  }

  ghost predicate Inv(d: Durable) {
    && Known(d.meta)
    && (forall v :: v in d.meta.history ==> Numbered(d.meta, v))
    && OnePending(d.meta)
    && (forall v :: Live(d.meta, v) ==> VaultOk(d, v))
  }

  // ----- Rows of one vault under each edit -----

  lemma {:induction false} HotAppend(rows: seq<Row>, row: Row, v: string)
    ensures Hot(rows + [row], v) == Hot(rows, v) + (if row.vault == v then [row] else [])
  {
    if rows == [] {
      assert rows + [row] == [row];
    } else {
      assert (rows + [row])[1..] == rows[1..] + [row];
      HotAppend(rows[1..], row, v);
    }
  }

  lemma HotCons(row: Row, rows: seq<Row>, v: string)
    ensures Hot([row] + rows, v) == (if row.vault == v then [row] else []) + Hot(rows, v)
  {
    assert ([row] + rows)[1..] == rows;
  }

  lemma WithoutCons(row: Row, rows: seq<Row>, entries: seq<Entry>)
    ensures Without([row] + rows, entries) == (if InBatch(entries, row.id) then [] else [row]) + Without(rows, entries)
  {
    assert ([row] + rows)[1..] == rows;
  }

  lemma {:induction false} HotDrop(rows: seq<Row>, v: string, entries: seq<Entry>, w: string)
    ensures Hot(DropBatch(rows, v, entries), w) == if w == v then Without(Hot(rows, v), entries) else Hot(rows, w)
  {
    if rows != [] {
      HotDrop(rows[1..], v, entries, w);
      var row, rest := rows[0], DropBatch(rows[1..], v, entries);
      HotCons(row, rest, w);
      WithoutCons(row, Hot(rows[1..], v), entries);
      assert [] + rest == rest;
      if row.vault != w {
        assert Hot(rows, w) == Hot(rows[1..], w);
      }
    }
  }

  lemma {:induction false} HotRewritten(rows: seq<Row>, v: string, id: string, status: Status, body: string, w: string)
    ensures |Hot(Rewritten(rows, v, id, status, body), w)| == |Hot(rows, w)|
    ensures forall i :: 0 <= i < |Hot(rows, w)| ==>
      var old', new' := Hot(rows, w)[i], Hot(Rewritten(rows, v, id, status, body), w)[i];
      old'.id == new'.id && old'.sequence == new'.sequence
  {
    hide Hot, Rewritten;
    if rows == [] {
      NothingRewritten(v, id, status, body);
    } else {
      var row, rest := rows[0], rows[1..];
      assert rows == [row] + rest;
      HotRewritten(rest, v, id, status, body, w);
      RewrittenCons(row, rest, v, id, status, body);
      var x := if row.vault == v && row.id == id then row.(status := status, body := body) else row;
      HotCons(row, rest, w);
      HotCons(x, Rewritten(rest, v, id, status, body), w);
    }
  }

  lemma NothingRewritten(v: string, id: string, status: Status, body: string)
    ensures Rewritten([], v, id, status, body) == []
  {
  }

  lemma RewrittenCons(row: Row, rest: seq<Row>, v: string, id: string, status: Status, body: string)
    ensures Rewritten([row] + rest, v, id, status, body) ==
      [if row.vault == v && row.id == id then row.(status := status, body := body) else row] + Rewritten(rest, v, id, status, body)
  {
    assert ([row] + rest)[1..] == rest;
  }

  // A rewrite changes the named row of its vault, its status and body, and nothing else.
  lemma {:induction false} RewrittenExactly(rows: seq<Row>, v: string, id: string, status: Status, body: string)
    ensures var after := Rewritten(rows, v, id, status, body);
      && |after| == |rows|
      && forall i :: 0 <= i < |rows| ==>
        after[i] == if rows[i].vault == v && rows[i].id == id then rows[i].(status := status, body := body) else rows[i]
  {
    if rows != [] {
      RewrittenExactly(rows[1..], v, id, status, body);
    }
  }

  // What each edit does to the rows and the numbers of every vault: a started operation is one new row, not
  // yet prepared, with the next number; a forgotten vault takes its rows along; and nothing else changes them.
  lemma EditedExactly(m: Meta, e: Edit, w: string)
    ensures var after := Edited(m, e);
      match e
      case AddVault(v) =>
        && after.rows == m.rows && after.vaults == m.vaults + [v] && after.status == m.status[v := Active]
        && Hist(after, w) == (if w == v then HistoryState(0, 1, true, None) else Hist(m, w))
      case StartOperation(v, id, kind, body) =>
        && Hot(after.rows, w) == Hot(m.rows, w)
          + (if w == v then [Row(id, v, Hist(m, v).nextSequence, kind, Started, body)] else [])
        && Hist(after, w) == (if w == v then Hist(m, v).(nextSequence := Hist(m, v).nextSequence + 1) else Hist(m, w))
        && after.vaults == m.vaults && after.status == m.status
      case RewriteOperation(v, id, status, body) =>
        && after == m.(rows := after.rows) && |after.rows| == |m.rows|
        && (forall i :: 0 <= i < |m.rows| ==>
              after.rows[i] == if m.rows[i].vault == v && m.rows[i].id == id then m.rows[i].(status := status, body := body) else m.rows[i])
      case SetStatus(v, to) =>
        && after == m.(status := after.status) && v in after.status && after.status[v] == to
        && (w != v ==> (w in after.status <==> w in m.status) && (w in m.status ==> after.status[w] == m.status[w]))
      case ForgetVault(v) =>
        && Hot(after.rows, w) == (if w == v then [] else Hot(m.rows, w)) && v !in after.history && v !in after.status
        && (w in after.vaults <==> w != v && w in m.vaults) && (w != v ==> Hist(after, w) == Hist(m, w))
  {
    match e
    case AddVault(v) =>
    case StartOperation(v, id, kind, body) => HotAppend(m.rows, Row(id, v, Hist(m, v).nextSequence, kind, Started, body), w);
    case RewriteOperation(v, id, status, body) => RewrittenExactly(m.rows, v, id, status, body);
    case SetStatus(v, to) =>
    case ForgetVault(v) =>
      HotOthers(m.rows, v, w);
      NoneOfIt(m.rows, v);
      RemovedExactly(m.vaults, v, w);
  }

  lemma {:induction false} RemovedExactly(vaults: seq<string>, v: string, w: string)
    ensures w in Removed(vaults, v) <==> w != v && w in vaults
  {
    if vaults != [] {
      RemovedExactly(vaults[1..], v, w);
      assert vaults == [vaults[0]] + vaults[1..];
    }
  }

  // A mutation makes its edits one after the other, and each of them.
  lemma {:induction false} EditedLast(m: Meta, edits: seq<Edit>, e: Edit)
    ensures EditedAll(m, edits + [e]) == Edited(EditedAll(m, edits), e)
    decreases |edits|
  {
    hide Edited;
    if edits == [] {
      assert [] + [e] == [e] && [e][1..] == [];
    } else {
      assert (edits + [e])[1..] == edits[1..] + [e];
      EditedLast(Edited(m, edits[0]), edits[1..], e);
    }
  }

  // A vault whose ledger is erased and which is then forgotten leaves nothing behind, and nothing else goes.
  lemma ForgottenExactly(d: Durable, v: string, w: string)
    requires Operational(d.meta) && IsDeleting(d.meta, v)
    ensures var erased := Next(d, EraseLedger(v));
      Enabled(d, EraseLedger(v)) && Enabled(erased, Mutate([ForgetVault(v)]))
    ensures var after := Next(Next(d, EraseLedger(v)), Mutate([ForgetVault(v)]));
      && v !in after.ledgers && v !in after.meta.history && v !in after.meta.status && v !in after.meta.vaults
      && Hot(after.meta.rows, v) == []
      && (w != v ==> Hot(after.meta.rows, w) == Hot(d.meta.rows, w) && Hist(after.meta, w) == Hist(d.meta, w)
                     && (w in after.ledgers <==> w in d.ledgers) && (w in d.ledgers ==> after.ledgers[w] == d.ledgers[w]))
  {
    hide Edited, Hot, Operational;
    EditedExactly(d.meta, ForgetVault(v), v);
    EditedExactly(d.meta, ForgetVault(v), w);
    assert [ForgetVault(v)][1..] == [];
    assert EditAllowed(d.meta, d.ledgers - {v}, ForgetVault(v));
    assert EditsAllowed(Edited(d.meta, ForgetVault(v)), d.ledgers - {v}, []);
    assert EditedAll(d.meta, [ForgetVault(v)]) == Edited(d.meta, ForgetVault(v));
  }

  lemma {:induction false} NoneOfIt(rows: seq<Row>, v: string)
    ensures Hot(OtherRows(rows, v), v) == []
  {
    if rows != [] {
      NoneOfIt(rows[1..], v);
      var rest := OtherRows(rows[1..], v);
      assert [] + rest == rest && ([rows[0]] + rest)[1..] == rest;
    }
  }

  lemma {:induction false} HotOthers(rows: seq<Row>, v: string, w: string)
    ensures w != v ==> Hot(OtherRows(rows, v), w) == Hot(rows, w)
  {
    if rows != [] {
      HotOthers(rows[1..], v, w);
      var rest := OtherRows(rows[1..], v);
      assert [] + rest == rest && ([rows[0]] + rest)[1..] == rest;
    }
  }

  lemma {:induction false} HotUnknown(rows: seq<Row>, v: string)
    requires forall i :: 0 <= i < |rows| ==> rows[i].vault != v
    ensures Hot(rows, v) == []
  {
    if rows != [] {
      HotUnknown(rows[1..], v);
    }
  }

  lemma AccountedStart(hot: seq<Row>, archived: seq<Row>, next: int, row: Row)
    requires Accounted(hot, archived, next)
    requires row.sequence == next && FreshId(hot, row.id) && FreshId(archived, row.id)
    ensures Accounted(hot + [row], archived, next + 1)
  {
  }

  lemma AccountedSame(hot: seq<Row>, new': seq<Row>, archived: seq<Row>, next: int)
    requires Accounted(hot, archived, next)
    requires |hot| == |new'| && forall i :: 0 <= i < |hot| ==> hot[i].id == new'[i].id && hot[i].sequence == new'[i].sequence
    ensures Accounted(new', archived, next)
  {
  }

  // ----- A batch moves from hot to archived -----

  lemma {:induction false} WithoutSubset(rows: seq<Row>, entries: seq<Entry>)
    ensures forall r :: r in Without(rows, entries) <==> r in rows && !InBatch(entries, r.id)
  {
    if rows != [] {
      WithoutSubset(rows[1..], entries);
      forall r ensures r in Without(rows, entries) <==> r in rows && !InBatch(entries, r.id) {
        assert r in rows <==> r == rows[0] || r in rows[1..];
      }
    }
  }

  lemma {:induction false} WithoutOrdered(rows: seq<Row>, entries: seq<Entry>)
    requires Ordered(rows)
    ensures Ordered(Without(rows, entries))
  {
    if rows != [] {
      WithoutOrdered(rows[1..], entries);
      WithoutSubset(rows[1..], entries);
      var rest := Without(rows[1..], entries);
      forall i | 0 <= i < |rest| ensures rows[0].sequence < rest[i].sequence && rows[0].id != rest[i].id {
        assert rest[i] in rows[1..];
      }
    }
  }

  lemma {:induction false} WithoutNone(rows: seq<Row>, entries: seq<Entry>)
    requires forall i :: 0 <= i < |rows| ==> !InBatch(entries, rows[i].id)
    ensures Without(rows, entries) == rows
  {
    if rows != [] {
      WithoutNone(rows[1..], entries);
    }
  }

  lemma {:induction false} WithoutSame(rows: seq<Row>, a: seq<Entry>, b: seq<Entry>)
    requires forall i :: 0 <= i < |rows| ==> (InBatch(a, rows[i].id) <==> InBatch(b, rows[i].id))
    ensures Without(rows, a) == Without(rows, b)
  {
    if rows != [] {
      WithoutSame(rows[1..], a, b);
    }
  }

  predicate AllOf(hot: seq<Row>, entries: seq<Entry>) {
    forall i :: 0 <= i < |entries| ==> EntryOf(hot, entries[i])
  }

  lemma InBatchTail(entries: seq<Entry>, id: string)
    requires entries != [] && entries[0].id != id
    ensures InBatch(entries, id) <==> InBatch(entries[1..], id)
  {
    if i :| 0 <= i < |entries| && entries[i].id == id {
      assert entries[1..][i - 1].id == id;
    }
  }

  // The first hot row is the batch's first entry, or no entry at all.
  lemma HeadOrAbsent(hot: seq<Row>, entries: seq<Entry>)
    requires hot != [] && Ordered(hot) && AllOf(hot, entries) && EntriesOrdered(entries)
    ensures entries != [] && entries[0].canonical == hot[0] ==> AllOf(hot[1..], entries[1..])
    ensures entries == [] || entries[0].canonical != hot[0] ==> AllOf(hot[1..], entries) && !InBatch(entries, hot[0].id)
  {
    forall i | 0 <= i < |entries| && (i > 0 || entries[0].canonical != hot[0])
      ensures EntryOf(hot[1..], entries[i]) && entries[i].id != hot[0].id
    {
      assert EntryOf(hot, entries[0]) && EntryOf(hot, entries[i]);
      assert i > 0 ==> entries[0].sequence < entries[i].sequence;
      var k, n :| 0 <= k < |hot| && hot[k] == entries[0].canonical && 0 <= n < |hot| && hot[n] == entries[i].canonical;
      assert n > 0 && hot[1..][n - 1] == hot[n];
    }
  }

  lemma {:induction false} WithoutCount(hot: seq<Row>, entries: seq<Entry>)
    requires Ordered(hot) && AllOf(hot, entries) && EntriesOrdered(entries)
    ensures |Without(hot, entries)| + |entries| == |hot|
    decreases |hot|
  {
    if entries == [] {
      WithoutNone(hot, entries);
    } else {
      assert EntryOf(hot, entries[0]);
      HeadOrAbsent(hot, entries);
      if entries[0].canonical == hot[0] {
        assert InBatch(entries, hot[0].id);
        WithoutCount(hot[1..], entries[1..]);
        forall i | 0 <= i < |hot[1..]| ensures InBatch(entries, hot[1..][i].id) <==> InBatch(entries[1..], hot[1..][i].id) {
          InBatchTail(entries, hot[1..][i].id);
        }
        WithoutSame(hot[1..], entries, entries[1..]);
      } else {
        WithoutCount(hot[1..], entries);
      }
    }
  }

  lemma EntriesAreRows(hot: seq<Row>, entries: seq<Entry>)
    requires AllOf(hot, entries) && EntriesOrdered(entries)
    ensures Ordered(Canonicals(entries))
    ensures forall i :: 0 <= i < |Canonicals(entries)| ==> Canonicals(entries)[i] in hot && InBatch(entries, Canonicals(entries)[i].id)
  {
    CanonicalsLength(entries);
    forall i | 0 <= i < |entries| ensures EntryOf(hot, entries[i]) && InBatch(entries, entries[i].canonical.id) {
    }
  }

  lemma ApartFromHot(hot: seq<Row>, archived: seq<Row>, picked: seq<Row>)
    requires Apart(hot, archived) && forall i :: 0 <= i < |picked| ==> picked[i] in hot
    ensures Apart(archived, picked)
  {
    forall i, j | 0 <= i < |archived| && 0 <= j < |picked| ensures Differ(archived[i], picked[j]) {
      var k :| 0 <= k < |hot| && hot[k] == picked[j];
      assert Differ(hot[k], archived[i]);
    }
  }

  lemma {:induction false} FreshInsertable(v: string, tables: Tables, entries: seq<Entry>)
    requires forall i :: 0 <= i < |entries| ==> EntryWellFormed(v, entries[i])
    requires EntriesOrdered(entries)
    requires forall i :: 0 <= i < |entries| ==> Free(tables.operations, entries[i].canonical)
    ensures Insertable(v, tables, entries)
    decreases |entries|
  {
    if entries != [] {
      var next := Inserted(tables, entries[0].canonical);
      forall i | 0 <= i < |entries[1..]| ensures Free(next.operations, entries[1..][i].canonical) {
        assert Free(tables.operations, entries[i + 1].canonical);
        assert EntryWellFormed(v, entries[0]) && EntryWellFormed(v, entries[i + 1]);
        assert entries[0].sequence < entries[i + 1].sequence && entries[0].id != entries[i + 1].id;
      }
      FreshInsertable(v, next, entries[1..]);
    }
  }

  lemma {:induction false} HotVault(rows: seq<Row>, v: string)
    ensures forall i :: 0 <= i < |Hot(rows, v)| ==> Hot(rows, v)[i].vault == v
  {
    if rows != [] {
      HotVault(rows[1..], v);
    }
  }

  // The ledger accepts the pending batch when it stands at the parent generation.
  lemma PendingAccepted(rows: seq<Row>, v: string, generation: int, b: Batch, l: Ledger, next: int)
    requires BatchMatches(v, Hot(rows, v), generation, b) && l.vault == v
    requires l.generation == b.parent && PriorProof(l.batches, b.id).None?
    requires Accounted(Hot(rows, v), l.operations, next)
    ensures Accepts(l, b)
  {
    var hot := Hot(rows, v);
    HotVault(rows, v);
    forall i | 0 <= i < |b.rows| ensures EntryWellFormed(v, b.rows[i]) && Free(l.operations, b.rows[i].canonical) {
      assert EntryOf(hot, b.rows[i]);
      var k :| 0 <= k < |hot| && hot[k] == b.rows[i].canonical;
      forall j | 0 <= j < |l.operations| ensures Differ(l.operations[j], b.rows[i].canonical) {
        assert Differ(hot[k], l.operations[j]);
      }
    }
    FreshInsertable(v, Tables(l.operations, l.counts), b.rows);
  }

  lemma DistinctConcat(a: seq<Row>, b: seq<Row>)
    requires Distinct(a) && Ordered(b) && Apart(a, b)
    ensures Distinct(a + b)
  {
  }

  // The batch's rows leave the hot side and join the archived side: nothing lost, nothing doubled.
  lemma AccountedMove(hot: seq<Row>, archived: seq<Row>, next: int, entries: seq<Entry>)
    requires Accounted(hot, archived, next) && AllOf(hot, entries) && EntriesOrdered(entries)
    ensures Accounted(Without(hot, entries), archived + Canonicals(entries), next)
  {
    var left, picked := Without(hot, entries), Canonicals(entries);
    WithoutOrdered(hot, entries);
    WithoutSubset(hot, entries);
    WithoutCount(hot, entries);
    EntriesAreRows(hot, entries);
    CanonicalsLength(entries);
    ApartFromHot(hot, archived, picked);
    DistinctConcat(archived, picked);
    assert InRange(left, next) by {
      forall i | 0 <= i < |left| ensures 0 < left[i].sequence < next {
        assert left[i] in hot;
      }
    }
    assert InRange(archived + picked, next) by {
      forall i | 0 <= i < |picked| ensures 0 < picked[i].sequence < next {
        assert picked[i] in hot;
      }
    }
    LeftApart(hot, archived, entries);
  }

  lemma LeftApart(hot: seq<Row>, archived: seq<Row>, entries: seq<Entry>)
    requires Ordered(hot) && Apart(hot, archived) && AllOf(hot, entries) && EntriesOrdered(entries)
    ensures Apart(Without(hot, entries), archived + Canonicals(entries))
  {
    var left, picked := Without(hot, entries), Canonicals(entries);
    WithoutSubset(hot, entries);
    EntriesAreRows(hot, entries);
    forall i, j | 0 <= i < |left| && 0 <= j < |archived + picked| ensures Differ(left[i], (archived + picked)[j]) {
      assert left[i] in hot;
      var k :| 0 <= k < |hot| && hot[k] == left[i];
      if j < |archived| {
        assert Differ(hot[k], archived[j]);
      } else {
        var row := picked[j - |archived|];
        var n :| 0 <= n < |hot| && hot[n] == row;
        assert n != k;
      }
    }
  }
}
