// The SQLite ledger of finished operations of one vault (src/server/operationHistoryStore.ts).
// A row's canonical JSON text stands for the row itself, and its hash is taken to be injective,
// so comparing text and hash is comparing rows. A table is the list of its rows in insertion order,
// and a transaction is one atomic change.
module OperationLedger {
  import opened Common

  const MAX_BATCH_ROWS := 256

  datatype Status = Started | Prepared | Committed | Aborted

  datatype Row = Row(id: string, vault: string, sequence: int, kind: string, status: Status, body: string)

  predicate Terminal(row: Row) {
    row.status == Committed || row.status == Aborted
  }

  datatype Entry = Entry(id: string, sequence: int, canonical: Row)

  datatype Batch = Batch(vault: string, id: string, parent: int, target: int, rows: seq<Entry>)

  datatype Proof = Proof(id: string, parent: int, target: int, count: int)

  type TypeStatus = (string, Status)

  function KeyOf(row: Row): TypeStatus {
    (row.kind, row.status)
  }

  type Counts = map<TypeStatus, int>

  datatype Ledger = Ledger(
    vault: string,
    generation: int,
    maxSequence: int,
    operations: seq<Row>,
    counts: Counts,
    batches: seq<Proof>)

  datatype LedgerError = InvalidIdentity | ProofMismatch | ContentsMismatch | GenerationMismatch | InvalidRow

  function EmptyLedger(vault: string): Ledger {
    Ledger(vault, 0, 0, [], map[], [])
  }

  // ----- Tables -----

  predicate Differ(a: Row, b: Row) {
    a.id != b.id && a.sequence != b.sequence
  }

  // The primary key and the unique sequence of a table of operations.
  predicate Distinct(rows: seq<Row>) {
    forall i, j :: 0 <= i < j < |rows| ==> Differ(rows[i], rows[j])
  }

  predicate Free(operations: seq<Row>, row: Row) {
    forall i :: 0 <= i < |operations| ==> Differ(operations[i], row)
  }

  // How many rows have a given type and status.
  function Tally(rows: seq<Row>, key: TypeStatus): (n: int)
    ensures n >= 0
  {
    if rows == [] then 0 else (if KeyOf(rows[0]) == key then 1 else 0) + Tally(rows[1..], key)
  }

  function CountOf(counts: Counts, key: TypeStatus): int {
    if key in counts then counts[key] else 0
  }

  function Highest(rows: seq<Row>): (h: int)
    ensures h >= 0
  {
    if rows == [] then 0
    else if rows[0].sequence < Highest(rows[1..]) then Highest(rows[1..]) else rows[0].sequence
  }

  function ProvenRows(batches: seq<Proof>): int {
    if batches == [] then 0 else batches[0].count + ProvenRows(batches[1..])
  }

  lemma {:induction false} TallyAppend(a: seq<Row>, b: seq<Row>, key: TypeStatus)
    ensures Tally(a + b, key) == Tally(a, key) + Tally(b, key)
  {
    if a == [] {
      assert a + b == b;
    } else {
      assert (a + b)[1..] == a[1..] + b;
      TallyAppend(a[1..], b, key);
    }
  }

  lemma {:induction false} HighestBelow(rows: seq<Row>, bound: int)
    ensures Highest(rows) < bound <==> 0 < bound && forall i :: 0 <= i < |rows| ==> rows[i].sequence < bound
    decreases |rows|
  {
    if rows != [] {
      HighestBelow(rows[1..], bound);
      if Highest(rows) < bound {
        assert forall i :: 0 < i < |rows| ==> rows[i] == rows[1..][i - 1];
      }
    }
  }

  lemma {:induction false} ProvenRowsAppend(batches: seq<Proof>, proof: Proof)
    ensures ProvenRows(batches + [proof]) == ProvenRows(batches) + proof.count
  {
    if batches != [] {
      assert (batches + [proof])[1..] == batches[1..] + [proof];
      ProvenRowsAppend(batches[1..], proof);
    }
  }

  // ----- The audit made when a ledger is opened -----

  predicate RowsDecode(vault: string, rows: seq<Row>) {
    forall i :: 0 <= i < |rows| ==> rows[i].vault == vault && rows[i].sequence > 0 && Terminal(rows[i])
  }

  predicate Chained(batches: seq<Proof>) {
    forall i :: 0 <= i < |batches| ==>
      batches[i].parent == i && batches[i].target == i + 1 && 0 < batches[i].count <= MAX_BATCH_ROWS
  }

  ghost predicate CountsExact(rows: seq<Row>, counts: Counts) {
    && (forall key :: CountOf(counts, key) == Tally(rows, key))
    && (forall key :: key in counts ==> counts[key] > 0)
  }

  // The two-way comparison the audit makes: no recorded count is wrong and no counted pair is missing.
  predicate CountsAgree(rows: seq<Row>, counts: Counts) {
    && (forall key :: key in counts ==> counts[key] > 0 && counts[key] == Tally(rows, key))
    && (forall i :: 0 <= i < |rows| ==> KeyOf(rows[i]) in counts)
  }

  lemma {:induction false} TallyZero(rows: seq<Row>, key: TypeStatus)
    ensures Tally(rows, key) == 0 <==> forall i :: 0 <= i < |rows| ==> KeyOf(rows[i]) != key
  {
    if rows != [] {
      TallyZero(rows[1..], key);
      assert forall i :: 0 < i < |rows| ==> rows[i] == rows[1..][i - 1];
      assert forall i :: 0 <= i < |rows[1..]| ==> rows[1..][i] == rows[i + 1];
    }
  }

  lemma CountsAgreeIsExact(rows: seq<Row>, counts: Counts)
    ensures CountsAgree(rows, counts) <==> CountsExact(rows, counts)
  {
    forall key ensures Tally(rows, key) == 0 <==> forall i :: 0 <= i < |rows| ==> KeyOf(rows[i]) != key {
      TallyZero(rows, key);
    }
    if CountsExact(rows, counts) {
      forall i | 0 <= i < |rows| ensures KeyOf(rows[i]) in counts {
        assert CountOf(counts, KeyOf(rows[i])) == Tally(rows, KeyOf(rows[i]));
      }
      forall key | key in counts ensures counts[key] == Tally(rows, key) {
        assert CountOf(counts, key) == Tally(rows, key);
      }
    }
    if CountsAgree(rows, counts) {
      forall key ensures CountOf(counts, key) == Tally(rows, key) {
      }
    }
  }

  predicate ProofsUnique(batches: seq<Proof>) {
    forall i, j :: 0 <= i < j < |batches| ==> batches[i].id != batches[j].id
  }

  ghost predicate Sound(l: Ledger) {
    && Distinct(l.operations)
    && RowsDecode(l.vault, l.operations)
    && CountsExact(l.operations, l.counts)
    && Chained(l.batches)
    && ProofsUnique(l.batches)
    && l.generation == |l.batches|
    && l.maxSequence == Highest(l.operations)
    && ProvenRows(l.batches) == |l.operations|
  }

  // ----- Committing a batch -----

  function PriorProof(batches: seq<Proof>, id: string): (r: Option<Proof>)
    ensures r.Some? ==> r.value in batches && r.value.id == id
    ensures r.None? <==> forall i :: 0 <= i < |batches| ==> batches[i].id != id
  {
    if batches == [] then None
    else if batches[0].id == id then Some(batches[0])
    else PriorProof(batches[1..], id)
  }

  predicate EntryStored(operations: seq<Row>, entry: Entry) {
    entry.canonical in operations && entry.canonical.id == entry.id && entry.canonical.sequence == entry.sequence
  }

  predicate AllStored(operations: seq<Row>, rows: seq<Entry>) {
    forall i :: 0 <= i < |rows| ==> EntryStored(operations, rows[i])
  }

  predicate HasBatch(l: Ledger, b: Batch) {
    && PriorProof(l.batches, b.id) == Some(Proof(b.id, b.parent, b.target, |b.rows|))
    && AllStored(l.operations, b.rows)
  }

  predicate EntryWellFormed(vault: string, entry: Entry) {
    && entry.canonical.id == entry.id
    && entry.canonical.sequence == entry.sequence
    && entry.canonical.vault == vault
    && Terminal(entry.canonical)
  }

  function Canonicals(rows: seq<Entry>): seq<Row> {
    if rows == [] then [] else [rows[0].canonical] + Canonicals(rows[1..])
  }

  // The operations table, the counts its insert trigger keeps, and the running maximum.
  datatype Tables = Tables(operations: seq<Row>, counts: Counts)

  function Inserted(tables: Tables, row: Row): Tables {
    Tables(tables.operations + [row], tables.counts[KeyOf(row) := CountOf(tables.counts, KeyOf(row)) + 1])
  }

  function InsertedAll(tables: Tables, rows: seq<Entry>): Tables
    decreases |rows|
  {
    if rows == [] then tables else InsertedAll(Inserted(tables, rows[0].canonical), rows[1..])
  }

  // Every row decodes, and meets no row stored before or inserted earlier by this batch.
  predicate Insertable(vault: string, tables: Tables, rows: seq<Entry>)
    decreases |rows|
  {
    rows == [] ||
    (EntryWellFormed(vault, rows[0]) && Free(tables.operations, rows[0].canonical) &&
     Insertable(vault, Inserted(tables, rows[0].canonical), rows[1..]))
  }

  predicate Accepts(l: Ledger, b: Batch) {
    && b.vault == l.vault && b.target == b.parent + 1
    && if PriorProof(l.batches, b.id).Some?
       then HasBatch(l, b) && l.generation == b.target
       else l.generation == b.parent && Insertable(l.vault, Tables(l.operations, l.counts), b.rows)
  }

  function Appended(l: Ledger, b: Batch): Ledger {
    var tables := InsertedAll(Tables(l.operations, l.counts), b.rows);
    var high := Highest(Canonicals(b.rows));
    Ledger(l.vault, b.target, if l.maxSequence < high then high else l.maxSequence,
           tables.operations, tables.counts, l.batches + [Proof(b.id, b.parent, b.target, |b.rows|)])
  }

  // The ledger after a batch it accepts: a proven batch changes nothing, a new one is appended.
  function AfterCommit(l: Ledger, b: Batch): Ledger {
    if PriorProof(l.batches, b.id).Some? then l else Appended(l, b)
  }

  // The checking loop of a replay.
  method CheckStored(operations: seq<Row>, rows: seq<Entry>) returns (stored: bool)
    ensures stored <==> AllStored(operations, rows)
    ensures stored <==> forall e :: e in rows ==> e.canonical in operations && e.id == e.canonical.id && e.sequence == e.canonical.sequence
  {
    for i := 0 to |rows|
      invariant forall j :: 0 <= j < i ==> EntryStored(operations, rows[j])
    {
      if !EntryStored(operations, rows[i]) {
        return false;
      }
    }
    return true;
  }

  // The inserting loop of a transaction, on staged tables.
  method StageRows(vault: string, before: Tables, rows: seq<Entry>) returns (r: Result<Tables, LedgerError>)
    ensures r.Success? <==> Insertable(vault, before, rows)
    ensures r.Success? ==> r.value == InsertedAll(before, rows)
  {
    var tables := before;
    for i := 0 to |rows|
      invariant Insertable(vault, before, rows) == Insertable(vault, tables, rows[i..])
      invariant InsertedAll(before, rows) == InsertedAll(tables, rows[i..])
    {
      assert rows[i..][1..] == rows[i + 1..];
      if !Free(tables.operations, rows[i].canonical) || !EntryWellFormed(vault, rows[i]) {
        return Failure(InvalidRow);
      }
      tables := Inserted(tables, rows[i].canonical);
    }
    return Success(tables);
  }

  // The audit of the tables as values: one pass over the rows, one over the batch proofs.
  method VerifyTables(l: Ledger) returns (ok: bool)
    ensures ok <==>
      && RowsDecode(l.vault, l.operations) && CountsExact(l.operations, l.counts) && Chained(l.batches)
      && l.generation == |l.batches| && l.maxSequence == Highest(l.operations)
      && ProvenRows(l.batches) == |l.operations|
  {
    CountsAgreeIsExact(l.operations, l.counts);
    var maxSequence := 0;
    for i := 0 to |l.operations|
      invariant forall j :: 0 <= j < i ==>
        l.operations[j].vault == l.vault && l.operations[j].sequence > 0 && Terminal(l.operations[j])
      invariant maxSequence >= 0
      invariant Highest(l.operations) == if maxSequence < Highest(l.operations[i..]) then Highest(l.operations[i..]) else maxSequence
    {
      var row := l.operations[i];
      if row.vault != l.vault || row.sequence <= 0 || !Terminal(row) {
        return false;
      }
      assert l.operations[i..][1..] == l.operations[i + 1..];
      maxSequence := if maxSequence < row.sequence then row.sequence else maxSequence;
    }
    var generation, provenRows := 0, 0;
    for i := 0 to |l.batches|
      invariant generation == i && provenRows + ProvenRows(l.batches[i..]) == ProvenRows(l.batches)
      invariant forall j :: 0 <= j < i ==>
        l.batches[j].parent == j && l.batches[j].target == j + 1 && 0 < l.batches[j].count <= MAX_BATCH_ROWS
    {
      var batch := l.batches[i];
      if batch.parent != generation || batch.target != generation + 1 || batch.count <= 0 || batch.count > MAX_BATCH_ROWS {
        return false;
      }
      assert l.batches[i..][1..] == l.batches[i + 1..];
      generation := generation + 1;
      provenRows := provenRows + batch.count;
    }
    assert l.operations[|l.operations|..] == [] && l.batches[|l.batches|..] == [];
    return l.generation == generation && l.maxSequence == maxSequence && CountsAgree(l.operations, l.counts) && provenRows == |l.operations|;
  }

  class OperationHistoryStore {
    const vault: string
    var generation: int
    var maxSequence: int
    var operations: seq<Row>
    var counts: Counts
    var batches: seq<Proof>

    function Contents(): Ledger
      reads this
    {
      Ledger(vault, generation, maxSequence, operations, counts, batches)
    }

    constructor (tables: Ledger)
      ensures Contents() == tables
    {
      vault := tables.vault;
      generation := tables.generation;
      maxSequence := tables.maxSequence;
      operations := tables.operations;
      counts := tables.counts;
      batches := tables.batches;
    }

    // One transaction: a refusal leaves every table as it was.
    method CommitBatch(batch: Batch) returns (r: Result<(), LedgerError>)
      modifies this
      ensures r.Success? <==> Accepts(old(Contents()), batch)
      ensures Contents() == if r.Success? then AfterCommit(old(Contents()), batch) else old(Contents())
    {
      if batch.vault != vault || batch.target != batch.parent + 1 {
        return Failure(InvalidIdentity);
      }
      var prior := PriorProof(batches, batch.id);
      if prior.Some? {
        if prior.value != Proof(batch.id, batch.parent, batch.target, |batch.rows|) || generation != batch.target {
          return Failure(ProofMismatch);
        }
        var stored := CheckStored(operations, batch.rows);
        return if stored then Success(()) else Failure(ContentsMismatch);
      }
      if generation != batch.parent {
        return Failure(GenerationMismatch);
      }
      var staged := StageRows(vault, Tables(operations, counts), batch.rows);
      if staged.Failure? {
        return Failure(staged.error);
      }
      operations, counts := staged.value.operations, staged.value.counts;
      batches := batches + [Proof(batch.id, batch.parent, batch.target, |batch.rows|)];
      generation := batch.target;
      var high := Highest(Canonicals(batch.rows));
      maxSequence := if maxSequence < high then high else maxSequence;
      return Success(());
    }
  }

  // ----- What a commit does to a sound ledger -----

  lemma {:induction false} InsertedOperations(tables: Tables, rows: seq<Entry>)
    ensures InsertedAll(tables, rows).operations == tables.operations + Canonicals(rows)
    decreases |rows|
  {
    if rows == [] {
      assert tables.operations + [] == tables.operations;
    } else {
      var row, rest := rows[0].canonical, rows[1..];
      InsertedOperations(Inserted(tables, row), rest);
      assert tables.operations + [row] + Canonicals(rest) == tables.operations + ([row] + Canonicals(rest));
    }
  }

  lemma {:induction false} InsertedDistinct(vault: string, tables: Tables, rows: seq<Entry>)
    requires Insertable(vault, tables, rows) && Distinct(tables.operations)
    ensures Distinct(InsertedAll(tables, rows).operations)
    decreases |rows|
  {
    if rows != [] {
      InsertedDistinct(vault, Inserted(tables, rows[0].canonical), rows[1..]);
    }
  }

  lemma {:induction false} InsertedDecodes(vault: string, tables: Tables, rows: seq<Entry>)
    requires Insertable(vault, tables, rows) && RowsDecode(vault, tables.operations)
    requires forall i :: 0 <= i < |rows| ==> rows[i].sequence > 0
    ensures RowsDecode(vault, InsertedAll(tables, rows).operations)
    decreases |rows|
  {
    if rows != [] {
      InsertedDecodes(vault, Inserted(tables, rows[0].canonical), rows[1..]);
    }
  }

  lemma InsertedCountsOne(tables: Tables, row: Row)
    requires CountsExact(tables.operations, tables.counts)
    ensures CountsExact(tables.operations + [row], Inserted(tables, row).counts)
  {
    assert CountOf(tables.counts, KeyOf(row)) == Tally(tables.operations, KeyOf(row));
    forall key ensures CountOf(Inserted(tables, row).counts, key) == Tally(tables.operations + [row], key) {
      TallyAppend(tables.operations, [row], key);
    }
  }

  lemma {:induction false} InsertedCounts(tables: Tables, rows: seq<Entry>)
    requires CountsExact(tables.operations, tables.counts)
    ensures CountsExact(InsertedAll(tables, rows).operations, InsertedAll(tables, rows).counts)
    decreases |rows|
  {
    if rows != [] {
      InsertedCountsOne(tables, rows[0].canonical);
      InsertedCounts(Inserted(tables, rows[0].canonical), rows[1..]);
    }
  }

  lemma {:induction false} HighestAppend(a: seq<Row>, b: seq<Row>)
    ensures Highest(a + b) == if Highest(a) < Highest(b) then Highest(b) else Highest(a)
  {
    HighestBelow(a, Highest(a) + 1);
    if a == [] {
      assert a + b == b;
      HighestBelow(b, 0);
    } else {
      assert (a + b)[1..] == a[1..] + b;
      HighestAppend(a[1..], b);
    }
  }

  lemma CommitKeepsSound(l: Ledger, b: Batch)
    requires Sound(l) && Accepts(l, b)
    requires 0 < |b.rows| <= MAX_BATCH_ROWS
    requires forall i :: 0 <= i < |b.rows| ==> b.rows[i].sequence > 0
    ensures Sound(AfterCommit(l, b))
  {
    if PriorProof(l.batches, b.id).None? {
      var tables := Tables(l.operations, l.counts);
      InsertedOperations(tables, b.rows);
      InsertedDistinct(l.vault, tables, b.rows);
      InsertedDecodes(l.vault, tables, b.rows);
      InsertedCounts(tables, b.rows);
      HighestAppend(l.operations, Canonicals(b.rows));
      CanonicalsLength(b.rows);
      ProvenRowsAppend(l.batches, Proof(b.id, b.parent, b.target, |b.rows|));
    }
  }

  lemma {:induction false} CanonicalsLength(rows: seq<Entry>)
    ensures |Canonicals(rows)| == |rows|
    ensures forall i :: 0 <= i < |rows| ==> Canonicals(rows)[i] == rows[i].canonical
  {
    if rows != [] {
      CanonicalsLength(rows[1..]);
    }
  }

  lemma {:induction false} InsertedStored(vault: string, tables: Tables, rows: seq<Entry>)
    requires Insertable(vault, tables, rows)
    ensures AllStored(InsertedAll(tables, rows).operations, rows)
    decreases |rows|
  {
    if rows != [] {
      var next := Inserted(tables, rows[0].canonical);
      InsertedStored(vault, next, rows[1..]);
      InsertedOperations(next, rows[1..]);
      assert rows[0].canonical == (next.operations + Canonicals(rows[1..]))[|tables.operations|];
    }
  }

  lemma {:induction false} PriorProofAppend(batches: seq<Proof>, proof: Proof)
    requires PriorProof(batches, proof.id).None?
    ensures PriorProof(batches + [proof], proof.id) == Some(proof)
  {
    if batches != [] {
      assert (batches + [proof])[1..] == batches[1..] + [proof];
      PriorProofAppend(batches[1..], proof);
    }
  }

  // Replaying a committed batch is accepted and changes nothing.
  lemma CommitIdempotent(l: Ledger, b: Batch)
    requires Accepts(l, b)
    ensures HasBatch(AfterCommit(l, b), b) && AfterCommit(l, b).generation == b.target
    ensures Accepts(AfterCommit(l, b), b) && AfterCommit(AfterCommit(l, b), b) == AfterCommit(l, b)
  {
    if PriorProof(l.batches, b.id).None? {
      InsertedStored(l.vault, Tables(l.operations, l.counts), b.rows);
      PriorProofAppend(l.batches, Proof(b.id, b.parent, b.target, |b.rows|));
    }
  }
}
