// The persisted record of a chunked push and its transitions (src/server/chunkTransferService.ts), against
// the parser that reads it back after a restart. Manifests, identifiers and digests are fixed at creation
// and left out; a time is a number of milliseconds.
module TransferSessions {
  import opened Common

  const MAX_SAFE_INTEGER := 9_007_199_254_740_991
  const MAX_BYTES := 8_589_934_592
  const MAX_PROCESSING_ATTEMPTS := 64

  datatype Receipt = Receipt(index: int, bytes: int, digest: string)

  datatype Status = Open | Processing | Completed | Rejected | Aborted

  // A result that rejects, or one of the three that accept. `code` is that of a rejection.
  datatype PushResult = Accepted | Refused(code: string)

  const GIT_REFUSED := Refused("git_error")

  datatype ErrorCode = ServerGitError | ServerProcessingError

  datatype Session = Session(
    chunks: int,
    receipts: seq<Receipt>,
    total: int,
    status: Status,
    result: Option<PushResult>,
    attempts: int,
    error: Option<ErrorCode>,
    retryAt: Option<int>,
    created: int,
    updated: int)

  // ----- The parser -----

  function Sum(receipts: seq<Receipt>): int {
    if receipts == [] then 0 else receipts[0].bytes + Sum(receipts[1..])
  }

  predicate GoodReceipts(receipts: seq<Receipt>, chunks: int) {
    && |receipts| <= chunks
    && (forall i :: 0 <= i < |receipts| ==> 0 <= receipts[i].index < chunks && 0 <= receipts[i].bytes <= MAX_BYTES)
    && (forall i, j :: 0 <= i < j < |receipts| ==> receipts[i].index != receipts[j].index)
  }

  predicate ResultFits(status: Status, result: Option<PushResult>) {
    match status
    case Completed => result.Some? && result.value.Accepted?
    case Rejected => result.Some? && result.value.Refused?
    case _ => result.None?
  }

  predicate RetryFits(status: Status, error: Option<ErrorCode>, retryAt: Option<int>) {
    if status == Completed || status == Rejected || status == Aborted then error.None? && retryAt.None?
    else error.Some? <==> retryAt.Some?
  }

  predicate Accepts(s: Session) {
    && 0 <= s.chunks <= MAX_SAFE_INTEGER && 0 <= s.total <= MAX_BYTES
    && s.created <= s.updated
    && GoodReceipts(s.receipts, s.chunks) && Sum(s.receipts) == s.total
    && ResultFits(s.status, s.result)
    && 0 <= s.attempts <= MAX_PROCESSING_ATTEMPTS
    && RetryFits(s.status, s.error, s.retryAt)
    && (s.status == Processing ==> |s.receipts| == s.chunks)
  }

  // ----- Transitions -----

  function Created(chunks: int, now: int): Session {
    Session(chunks, [], 0, Open, None, 0, None, None, now, now)
  }

  datatype PutOutcome = Stored | Same | Closed | BadIndex | TooLarge | Conflict | TransferTooLarge

  function ReceiptAt(receipts: seq<Receipt>, index: int): Option<Receipt> {
    if receipts == [] then None
    else if receipts[0].index == index then Some(receipts[0])
    else ReceiptAt(receipts[1..], index)
  }

  // The receipts stay sorted by chunk.
  function Inserted(receipts: seq<Receipt>, r: Receipt): seq<Receipt> {
    if receipts == [] then [r]
    else if r.index < receipts[0].index then [r] + receipts
    else [receipts[0]] + Inserted(receipts[1..], r)
  }

  function PutVerdict(s: Session, r: Receipt, chunkLimit: int, transferLimit: int): PutOutcome {
    if s.status != Open then Closed
    else if r.index < 0 || r.index >= s.chunks then BadIndex
    else if r.bytes <= 0 || r.bytes > chunkLimit then TooLarge
    else
      var existing := ReceiptAt(s.receipts, r.index);
      if existing.Some? then
        if existing.value.digest != r.digest || existing.value.bytes != r.bytes then Conflict else Same
      else if s.total + r.bytes > transferLimit then TransferTooLarge
      else Stored
  }

  function WithChunk(s: Session, r: Receipt, now: int): Session {
    s.(receipts := Inserted(s.receipts, r), total := s.total + r.bytes, updated := now)
  }

  predicate Complete(s: Session) {
    |s.receipts| == s.chunks
  }

  predicate Terminal(s: Session) {
    s.status == Completed || s.status == Rejected || s.status == Aborted
  }

  function BeginFinalize(s: Session, now: int): Session {
    s.(status := Processing, updated := now)
  }

  // The finalization that answers at once.
  function Finalized(s: Session, r: PushResult, now: int): Session {
    if r.Refused? then s.(result := None, status := Open, updated := now)
    else s.(result := Some(r), status := Completed, updated := now)
  }

  // The end of detached processing.
  function Processed(s: Session, r: PushResult, now: int): Session {
    s.(result := Some(r), status := if r.Refused? then Rejected else Completed, error := None, retryAt := None, updated := now)
  }

  function Pow2(n: int): int {
    if n <= 0 then 1 else 2 * Pow2(n - 1)
  }

  function Min(a: int, b: int): int {
    if a < b then a else b
  }

  // The delay doubles with each attempt, up to a minute.
  function RetryDelay(attempts: int): int {
    Min(60_000, 1_000 * Pow2(Min(attempts - 1, 6)))
  }

  function Retried(s: Session, e: ErrorCode, now: int): Session {
    s.(result := None, attempts := s.attempts + 1, error := Some(e), retryAt := Some(now + RetryDelay(s.attempts + 1)), updated := now)
  }

  function AbortedAt(s: Session, now: int): Session {
    s.(status := Aborted, result := None, error := None, retryAt := None, updated := now)
  }

  // At startup a push that Git refused is opened again.
  function Reopened(s: Session, now: int): Session {
    s.(status := Open, result := None, attempts := 0, error := Some(ServerGitError), retryAt := Some(now), updated := now)
  }

  // The record a step writes; every step is taken under the session's lock, at a time `now`.
  datatype Step =
    | Put(receipt: Receipt, chunkLimit: int, transferLimit: int)
    | Begin
    | Poll
    | Finalize(result: PushResult)
    | Finish(result: PushResult)
    | Retry(code: ErrorCode)
    | Drain
    | Reopen

  // When the service takes the step. `transferLimit` is at most the configured maximum. A detached push that
  // Git refused is retried, not finished.
  predicate Enabled(s: Session, step: Step) {
    match step
    case Put(r, chunkLimit, transferLimit) => PutVerdict(s, r, chunkLimit, transferLimit) == Stored && transferLimit <= MAX_BYTES
    case Begin => !Terminal(s) && Complete(s)
    case Poll => s.status == Open && s.error.Some? && Complete(s)
    case Finalize(result) => s.status == Open && Complete(s)
    case Finish(result) => s.status == Processing && result != GIT_REFUSED
    case Retry(code) => s.status == Processing
    case Drain => s.status == Processing || s.status == Open
    case Reopen => s.status == Rejected && s.result == Some(GIT_REFUSED)
  }

  function Next(s: Session, step: Step, now: int): Session {
    match step
    case Put(r, _, _) => WithChunk(s, r, now)
    case Begin => BeginFinalize(s, now)
    case Poll => BeginFinalize(s, now)
    case Finalize(result) => Finalized(s, result, now)
    case Finish(result) => Processed(s, result, now)
    case Retry(code) => Retried(s, code, now)
    case Drain => AbortedAt(s, now)
    case Reopen => Reopened(s, now)
  }

  // The verdict on a chunk, by what the session holds: refused while it is not open, out of range, or out of
  // size; compared with the receipt of its index if there is one; and stored if the total allows it.
  lemma VerdictExactly(s: Session, r: Receipt, chunkLimit: int, transferLimit: int)
    requires DistinctIndexes(s.receipts)
    ensures var v := PutVerdict(s, r, chunkLimit, transferLimit);
      var fits := s.status == Open && 0 <= r.index < s.chunks && 0 < r.bytes <= chunkLimit;
      && (v == Closed <==> s.status != Open)
      && (v == BadIndex <==> s.status == Open && !(0 <= r.index < s.chunks))
      && (v == TooLarge <==> s.status == Open && 0 <= r.index < s.chunks && !(0 < r.bytes <= chunkLimit))
      && (v == Same <==> fits && r in s.receipts)
      && (v == Conflict <==> fits && r !in s.receipts && exists x :: x in s.receipts && x.index == r.index)
      && (v == Stored <==> fits && s.total + r.bytes <= transferLimit && forall x :: x in s.receipts ==> x.index != r.index)
  {
    NoReceiptAt(s.receipts, r.index);
    if r in s.receipts {
      var i :| 0 <= i < |s.receipts| && s.receipts[i] == r;
      var x := ReceiptAt(s.receipts, r.index).value;
      var j :| 0 <= j < |s.receipts| && s.receipts[j] == x;
      assert i == j;
    }
  }

  // A chunk stored and sent again is the same; with another digest or size, a conflict; and neither changes
  // what is stored.
  lemma SentAgain(s: Session, r: Receipt, again: Receipt, chunkLimit: int, transferLimit: int, now: int)
    requires DistinctIndexes(s.receipts) && PutVerdict(s, r, chunkLimit, transferLimit) == Stored
    requires again.index == r.index && 0 < again.bytes <= chunkLimit
    ensures PutVerdict(WithChunk(s, r, now), again, chunkLimit, transferLimit) ==
      if again.digest == r.digest && again.bytes == r.bytes then Same else Conflict
  {
    var after := WithChunk(s, r, now);
    VerdictExactly(s, r, chunkLimit, transferLimit);
    InsertedMembers(s.receipts, r);
    InsertedDistinct(s.receipts, r);
    VerdictExactly(after, again, chunkLimit, transferLimit);
    assert again in after.receipts <==> again == r;
  }

  // ----- What is written can be read back -----

  lemma {:induction false} InsertedSum(receipts: seq<Receipt>, r: Receipt)
    ensures Sum(Inserted(receipts, r)) == Sum(receipts) + r.bytes && |Inserted(receipts, r)| == |receipts| + 1
  {
    if receipts != [] {
      var first, rest := receipts[0], receipts[1..];
      if r.index < first.index {
        assert ([r] + receipts)[1..] == receipts;
      } else {
        InsertedSum(rest, r);
        assert ([first] + Inserted(rest, r))[1..] == Inserted(rest, r);
      }
    }
  }

  lemma {:induction false} InsertedMembers(receipts: seq<Receipt>, r: Receipt)
    ensures forall x :: x in Inserted(receipts, r) <==> x in receipts || x == r
  {
    if receipts != [] {
      assert receipts == [receipts[0]] + receipts[1..];
      InsertedMembers(receipts[1..], r);
    }
  }

  predicate DistinctIndexes(receipts: seq<Receipt>) {
    forall i, j :: 0 <= i < j < |receipts| ==> receipts[i].index != receipts[j].index
  }

  lemma {:induction false} InsertedDistinct(receipts: seq<Receipt>, r: Receipt)
    requires DistinctIndexes(receipts) && forall x :: x in receipts ==> x.index != r.index
    ensures DistinctIndexes(Inserted(receipts, r))
  {
    if receipts != [] && r.index >= receipts[0].index {
      var first, rest := receipts[0], receipts[1..];
      assert receipts == [first] + rest;
      InsertedDistinct(rest, r);
      InsertedMembers(rest, r);
      assert forall x :: x in rest ==> x.index != first.index;
      assert forall x :: x in Inserted(rest, r) ==> x.index != first.index;
    }
  }

  lemma {:induction false} NoReceiptAt(receipts: seq<Receipt>, index: int)
    ensures ReceiptAt(receipts, index).None? <==> forall x :: x in receipts ==> x.index != index
    ensures ReceiptAt(receipts, index).Some? ==> ReceiptAt(receipts, index).value in receipts && ReceiptAt(receipts, index).value.index == index
  {
    if receipts != [] {
      assert receipts == [receipts[0]] + receipts[1..];
      NoReceiptAt(receipts[1..], index);
    }
  }

  // The chunks received, counted from one.
  function Chunks(receipts: seq<Receipt>): set<int> {
    if receipts == [] then {} else {receipts[0].index + 1} + Chunks(receipts[1..])
  }

  lemma {:induction false} ChunksWithin(receipts: seq<Receipt>, chunks: int)
    requires forall x :: x in receipts ==> 0 <= x.index < chunks
    ensures forall k :: k in Chunks(receipts) ==> 1 <= k <= chunks
  {
    if receipts != [] {
      assert receipts == [receipts[0]] + receipts[1..];
      ChunksWithin(receipts[1..], chunks);
    }
  }

  lemma {:induction false} NotAmongChunks(receipts: seq<Receipt>, index: int)
    requires forall x :: x in receipts ==> x.index != index
    ensures index + 1 !in Chunks(receipts)
  {
    if receipts != [] {
      assert receipts == [receipts[0]] + receipts[1..];
      NotAmongChunks(receipts[1..], index);
    }
  }

  lemma {:induction false} ChunksSize(receipts: seq<Receipt>)
    requires DistinctIndexes(receipts)
    ensures |Chunks(receipts)| == |receipts|
  {
    if receipts != [] {
      var first, rest := receipts[0], receipts[1..];
      ChunksSize(rest);
      NotAmongChunks(rest, first.index);
    }
  }

  // Distinct chunk indexes below the count: there cannot be more of them than chunks.
  lemma NoMoreThanChunks(receipts: seq<Receipt>, chunks: int)
    requires DistinctIndexes(receipts) && chunks >= 0 && forall x :: x in receipts ==> 0 <= x.index < chunks
    ensures |receipts| <= chunks
  {
    ChunksSize(receipts);
    ChunksWithin(receipts, chunks);
    UpToSize(chunks);
    forall k | k in Chunks(receipts)
      ensures k in UpTo(chunks)
    {
    }
    SubsetSize(Chunks(receipts), UpTo(chunks));
  }

  lemma ChunkAccepted(s: Session, r: Receipt, chunkLimit: int, transferLimit: int, now: int)
    requires Accepts(s) && Enabled(s, Put(r, chunkLimit, transferLimit)) && now >= s.created
    ensures Accepts(WithChunk(s, r, now))
  {
    hide Inserted, Sum, ReceiptAt;
    var next := Inserted(s.receipts, r);
    NoReceiptAt(s.receipts, r.index);
    InsertedSum(s.receipts, r);
    InsertedMembers(s.receipts, r);
    assert DistinctIndexes(s.receipts);
    InsertedDistinct(s.receipts, r);
    assert forall x :: x in s.receipts ==> 0 <= x.index < s.chunks && 0 <= x.bytes <= MAX_BYTES;
    assert forall x :: x in next ==> 0 <= x.index < s.chunks;
    forall i | 0 <= i < |next|
      ensures 0 <= next[i].bytes <= MAX_BYTES
    {
      assert next[i] in next;
    }
    SumNonNegative(s.receipts);
    NoMoreThanChunks(next, s.chunks);
    assert forall i :: 0 <= i < |next| ==> next[i] in next;
  }

  lemma {:induction false} SumNonNegative(receipts: seq<Receipt>)
    requires forall x :: x in receipts ==> x.bytes >= 0
    ensures Sum(receipts) >= 0
  {
    if receipts != [] {
      SumNonNegative(receipts[1..]);
    }
  }

  // What the service must see to before a step, for its record to be readable: a clock not behind the
  // session's creation, no retry fields at an immediate finalization that accepts, and an attempt left.
  predicate Readable(s: Session, step: Step, now: int) {
    && now >= s.created
    && (step.Finalize? && step.result.Accepted? ==> s.error.None?)
    && (step.Retry? ==> s.attempts < MAX_PROCESSING_ATTEMPTS)
  }

  // A record the service writes is accepted by its own parser exactly then.
  lemma WritesReadable(s: Session, step: Step, now: int)
    requires Accepts(s) && Enabled(s, step)
    ensures Accepts(Next(s, step, now)) <==> Readable(s, step, now)
  {
    hide Inserted, Sum, GoodReceipts, ReceiptAt, RetryDelay;
    if step.Put? && now >= s.created {
      ChunkAccepted(s, step.receipt, step.chunkLimit, step.transferLimit, now);
    }
  }

  // A record that is read back has a result exactly when it is finished by one, and fewer receipts than
  // chunks at most while it is open or aborted.
  lemma AcceptedMeans(s: Session)
    requires Accepts(s)
    ensures s.status == Completed <==> s.result == Some(Accepted)
    ensures s.status == Rejected <==> s.result.Some? && s.result.value.Refused?
    ensures s.status == Processing ==> |s.receipts| == s.chunks
    ensures s.chunks >= 0 && s.total <= MAX_BYTES && s.chunks <= MAX_SAFE_INTEGER
    ensures DistinctIndexes(s.receipts) && forall x :: x in s.receipts ==> 0 <= x.index < s.chunks && 0 <= x.bytes <= MAX_BYTES
  {
  }

  lemma CreatedReadable(chunks: int, now: int)
    requires 0 <= chunks <= MAX_SAFE_INTEGER
    ensures Accepts(Created(chunks, now))
  {
  }

  // ----- Runs -----

  datatype Move = Move(step: Step, now: int)

  predicate Runs(s: Session, moves: seq<Move>)
    decreases |moves|
  {
    moves == [] || (
      var m := moves[0];
      Enabled(s, m.step) && Readable(s, m.step, m.now) && Runs(Next(s, m.step, m.now), moves[1..]))
  }

  function RunOf(s: Session, moves: seq<Move>): Session
    decreases |moves|
  {
    if moves == [] then s else RunOf(Next(s, moves[0].step, moves[0].now), moves[1..])
  }

  lemma {:induction false} RunReadable(s: Session, moves: seq<Move>)
    requires Accepts(s) && Runs(s, moves)
    ensures Accepts(RunOf(s, moves))
    decreases |moves|
  {
    hide Accepts, Enabled, Readable, Next;
    if moves != [] {
      var m, rest := moves[0], moves[1..];
      WritesReadable(s, m.step, m.now);
      RunReadable(Next(s, m.step, m.now), rest);
    }
  }

  predicate Ascending(receipts: seq<Receipt>) {
    forall i, j :: 0 <= i < j < |receipts| ==> receipts[i].index < receipts[j].index
  }

  lemma {:induction false} InsertedAscends(receipts: seq<Receipt>, r: Receipt)
    requires Ascending(receipts) && forall x :: x in receipts ==> x.index != r.index
    ensures Ascending(Inserted(receipts, r))
  {
    if receipts != [] {
      var first, rest := receipts[0], receipts[1..];
      assert receipts == [first] + rest;
      if r.index < first.index {
        assert forall i :: 0 <= i < |receipts| ==> first.index <= receipts[i].index;
      } else {
        InsertedAscends(rest, r);
        InsertedMembers(rest, r);
        assert forall x :: x in rest ==> first.index < x.index;
        assert forall x :: x in Inserted(rest, r) ==> first.index < x.index;
      }
    }
  }

  // The receipts stand in the order of their chunks, and work starts or ends only with all of them there.
  predicate Whole(s: Session) {
    Ascending(s.receipts) && (s.status == Processing || s.status == Completed || s.status == Rejected ==> Complete(s))
  }

  lemma StepWhole(s: Session, step: Step, now: int)
    requires Whole(s) && Enabled(s, step)
    ensures Whole(Next(s, step, now))
  {
    hide Ascending, Inserted, ReceiptAt, RetryDelay;
    if step.Put? {
      NoReceiptAt(s.receipts, step.receipt.index);
      InsertedAscends(s.receipts, step.receipt);
    }
  }

  lemma {:induction false} RunWhole(s: Session, moves: seq<Move>)
    requires Whole(s) && Runs(s, moves)
    ensures Whole(RunOf(s, moves))
    decreases |moves|
  {
    hide Whole, Enabled, Readable, Next;
    if moves != [] {
      StepWhole(s, moves[0].step, moves[0].now);
      RunWhole(Next(s, moves[0].step, moves[0].now), moves[1..]);
    }
  }

  // Any session that is not final can be aborted, and nothing is left of its result and retry then; a push
  // that Git refused can be opened again, at once and with all its attempts.
  lemma AbortedExactly(s: Session, now: int)
    ensures Accepts(s) ==> (Enabled(s, Drain) <==> !Terminal(s))
    ensures Next(s, Drain, now) == Session(s.chunks, s.receipts, s.total, Aborted, None, s.attempts, None, None, s.created, now)
    ensures Next(s, Reopen, now) ==
      Session(s.chunks, s.receipts, s.total, Open, None, 0, Some(ServerGitError), Some(now), s.created, now)
  {
  }

  // Processing goes one way: a result finishes it, for good or bad, and clears the retry; a failure counts
  // one attempt and waits. A finalization that is refused at once leaves the session open.
  lemma OutcomeExactly(s: Session, r: PushResult, e: ErrorCode, now: int)
    ensures Next(s, Finish(r), now) == Session(s.chunks, s.receipts, s.total, if r == Accepted then Completed else Rejected,
                                               Some(r), s.attempts, None, None, s.created, now)
    ensures s.result.None? && s.status == Open ==>
      Next(s, Finalize(r), now) == if r == Accepted then s.(status := Completed, result := Some(r), updated := now) else s.(updated := now)
    ensures s.result.None? ==>
      Next(s, Retry(e), now) ==
      s.(attempts := s.attempts + 1, error := Some(e), retryAt := Some(now + RetryDelay(s.attempts + 1)), updated := now)
    ensures Next(s, Begin, now) == s.(status := Processing, updated := now) && Next(s, Poll, now) == Next(s, Begin, now)
  {
  }

  // ----- Records that cannot be read back -----

  function OneChunk(): Step {
    Put(Receipt(0, 1, "digest"), 1, MAX_BYTES)
  }

  // The one chunk of a session stored, and processing begun.
  function Begun(t: int): Session {
    Session(1, [Receipt(0, 1, "digest")], 1, Processing, None, 0, None, None, t, t)
  }

  lemma TwoMoves(s: Session, a: Move, b: Move)
    requires Enabled(s, a.step) && Readable(s, a.step, a.now)
    requires Enabled(Next(s, a.step, a.now), b.step) && Readable(Next(s, a.step, a.now), b.step, b.now)
    ensures Runs(s, [a, b]) && RunOf(s, [a, b]) == Next(Next(s, a.step, a.now), b.step, b.now)
  {
    hide Enabled, Readable, Next;
    var t := Next(s, a.step, a.now);
    assert [a, b][1..] == [b] && [b][1..] == [];
    assert Runs(t, [b]) && RunOf(t, [b]) == Next(t, b.step, b.now);
  }

  lemma BeginsProcessing(t: int)
    ensures Runs(Created(1, t), [Move(OneChunk(), t), Move(Begin, t)])
    ensures RunOf(Created(1, t), [Move(OneChunk(), t), Move(Begin, t)]) == Begun(t) && Accepts(Begun(t))
  {
    hide Runs, RunOf;
    assert Sum([Receipt(0, 1, "digest")]) == 1;
    TwoMoves(Created(1, t), Move(OneChunk(), t), Move(Begin, t));
  }

  // A push left as refused by Git, which only an earlier release stored, is opened again at startup with its
  // retry fields set; a client that then finalizes it at once, and succeeds, leaves a record that the parser
  // rejects.
  lemma ReopenedFinalizeUnreadable(t: int)
    ensures var stored := Session(1, [Receipt(0, 1, "digest")], 1, Rejected, Some(GIT_REFUSED), 0, None, None, t, t);
      var s := Next(stored, Reopen, t);
      && Accepts(stored) && Enabled(stored, Reopen) && Readable(stored, Reopen, t) && Accepts(s)
      && Enabled(s, Finalize(Accepted)) && !Accepts(Next(s, Finalize(Accepted), t))
  {
    assert Sum([Receipt(0, 1, "digest")]) == 1;
  }

  // No push stands refused by Git, and none is open with retry fields.
  predicate NeverReopened(s: Session) {
    s.result != Some(GIT_REFUSED) && (s.status == Open ==> s.error.None? && s.retryAt.None?)
  }

  lemma {:induction false} RunNeverReopens(s: Session, moves: seq<Move>)
    requires NeverReopened(s) && Runs(s, moves)
    ensures NeverReopened(RunOf(s, moves))
    decreases |moves|
  {
    hide Readable, RetryDelay, PutVerdict, Inserted;
    if moves != [] {
      RunNeverReopens(Next(s, moves[0].step, moves[0].now), moves[1..]);
    }
  }

  // Sessions of this release never get there: in a run from a new session no step reopens one, and what the
  // service must see to before a step is only the clock and the number of attempts.
  lemma OwnWritesReadable(chunks: int, now: int, moves: seq<Move>, step: Step, t: int)
    requires Runs(Created(chunks, now), moves) && Enabled(RunOf(Created(chunks, now), moves), step)
    ensures !step.Reopen? && !step.Poll?
    ensures var s := RunOf(Created(chunks, now), moves);
      Readable(s, step, t) <==> t >= s.created && (step.Retry? ==> s.attempts < MAX_PROCESSING_ATTEMPTS)
  {
    hide Runs, RunOf;
    RunNeverReopens(Created(chunks, now), moves);
  }

  function Retries(n: int, t: int): seq<Move> {
    if n <= 0 then [] else [Move(Retry(ServerGitError), t)] + Retries(n - 1, t)
  }

  lemma {:induction false} RetriesCount(s: Session, n: int, t: int)
    requires s.status == Processing && 0 <= n && s.attempts + n <= MAX_PROCESSING_ATTEMPTS && t >= s.created
    ensures Runs(s, Retries(n, t))
    ensures var r := RunOf(s, Retries(n, t)); r.status == Processing && r.attempts == s.attempts + n && r.created == s.created
    decreases n
  {
    hide RetryDelay;
    if n > 0 {
      var m := Move(Retry(ServerGitError), t);
      assert Retries(n, t)[0] == m && Retries(n, t)[1..] == Retries(n - 1, t);
      RetriesCount(Next(s, m.step, t), n - 1, t);
    }
  }

  // Nothing stops the processor at its sixty-fourth failure: the record of the next one is rejected.
  lemma SixtyFifthRetryUnreadable(t: int)
    ensures var s := RunOf(Begun(t), Retries(MAX_PROCESSING_ATTEMPTS, t));
      && Runs(Begun(t), Retries(MAX_PROCESSING_ATTEMPTS, t)) && Accepts(s)
      && Enabled(s, Retry(ServerGitError)) && !Accepts(Next(s, Retry(ServerGitError), t))
  {
    hide Sum, RunOf, Runs, Retries, RetryDelay;
    BeginsProcessing(t);
    RetriesCount(Begun(t), MAX_PROCESSING_ATTEMPTS, t);
    RunReadable(Begun(t), Retries(MAX_PROCESSING_ATTEMPTS, t));
  }

  // A completed or aborted transfer never changes again: no step applies to it.
  lemma FinalStays(s: Session, step: Step)
    requires Accepts(s) && (s.status == Completed || s.status == Aborted)
    ensures !Enabled(s, step)
  {
    hide GoodReceipts, Sum, ReceiptAt;
  }

  // Every record of a run that began with a new session has its receipts in order, each once, a total that is
  // their sum, and is processing, completed or rejected only with all of them there.
  lemma RunsFromNew(chunks: int, now: int, moves: seq<Move>)
    requires 0 <= chunks <= MAX_SAFE_INTEGER && Runs(Created(chunks, now), moves)
    ensures var s := RunOf(Created(chunks, now), moves);
      && DistinctIndexes(s.receipts) && s.total == Sum(s.receipts) <= MAX_BYTES
      && (s.status == Processing ==> |s.receipts| == s.chunks)
      && (Terminal(s) ==> s.error.None? && s.retryAt.None?)
      && Ascending(s.receipts) && (s.status == Completed || s.status == Rejected ==> |s.receipts| == s.chunks)
  {
    hide Enabled, Readable, Next, Runs, RunOf, Sum;
    CreatedReadable(chunks, now);
    RunWhole(Created(chunks, now), moves);
    RunReadable(Created(chunks, now), moves);
  }

  lemma {:induction false} Pow2Grows(n: int, m: int)
    requires n <= m
    ensures 1 <= Pow2(n) <= Pow2(m)
    decreases if m <= 0 then 0 else m
  {
    if m > 0 {
      Pow2Grows(Min(n, m - 1), m - 1);
      if n == m {
        Pow2Grows(n - 1, m - 1);
      }
    }
  }

  // The delay never shrinks, is at least a second and at most a minute.
  lemma RetryDelayGrows(a: int, b: int)
    requires 1 <= a <= b
    ensures 1_000 <= RetryDelay(a) <= RetryDelay(b) <= 60_000
  {
    Pow2Grows(Min(a - 1, 6), Min(b - 1, 6));
  }

  // It starts with a second and doubles, up to a minute.
  lemma RetryDelayDoubles(a: int)
    requires a >= 1
    ensures RetryDelay(1) == 1_000
    ensures RetryDelay(a + 1) == if 2 * RetryDelay(a) < 60_000 then 2 * RetryDelay(a) else 60_000
  {
    assert Pow2(0) == 1;
    if a >= 7 {
      assert Pow2(6) == 64 by { SixtyFour(); }
    } else {
      SixtyFour();
    }
  }

  lemma SixtyFour()
    ensures Pow2(1) == 2 && Pow2(2) == 4 && Pow2(3) == 8 && Pow2(4) == 16 && Pow2(5) == 32 && Pow2(6) == 64
  {
    assert Pow2(2) == 4;
    assert Pow2(3) == 8;
    assert Pow2(4) == 16;
    assert Pow2(5) == 32;
  }

  // ----- The service -----

  class TransferService {
    var sessions: map<string, Session>
    const transferLimit: int
    const chunkLimit: int

    predicate Valid()
      reads this
    {
      transferLimit <= MAX_BYTES && forall id :: id in sessions ==> Accepts(sessions[id])
    }

    constructor (transferLimit: int, chunkLimit: int)
      requires transferLimit <= MAX_BYTES
      ensures Valid() && sessions == map[]
    {
      this.transferLimit, this.chunkLimit, sessions := transferLimit, chunkLimit, map[];
    }

    method PutChunk(id: string, r: Receipt, now: int) returns (o: PutOutcome)
      requires Valid() && id in sessions && now >= sessions[id].created
      modifies this`sessions
      ensures Valid() && o == PutVerdict(old(sessions)[id], r, chunkLimit, transferLimit)
      ensures sessions == if o == Stored then old(sessions)[id := WithChunk(old(sessions)[id], r, now)] else old(sessions)
    {
      hide Accepts, PutVerdict, WithChunk;
      o := PutVerdict(sessions[id], r, chunkLimit, transferLimit);
      if o == Stored {
        ChunkAccepted(sessions[id], r, chunkLimit, transferLimit, now);
        sessions := sessions[id := WithChunk(sessions[id], r, now)];
      }
    }

    // Any other transition, under the session's lock: it is refused if it does not apply.
    method Transition(id: string, step: Step, now: int) returns (applied: bool)
      requires Valid() && id in sessions && !step.Put?
      requires Enabled(sessions[id], step) ==> Readable(sessions[id], step, now)
      modifies this`sessions
      ensures Valid() && (applied <==> Enabled(old(sessions)[id], step))
      ensures sessions == if applied then old(sessions)[id := Next(old(sessions)[id], step, now)] else old(sessions)
      ensures old(sessions)[id].status == Completed || old(sessions)[id].status == Aborted ==> !applied
    {
      hide Accepts, Enabled, Next, Readable;
      applied := Enabled(sessions[id], step);
      if old(sessions)[id].status == Completed || old(sessions)[id].status == Aborted {
        FinalStays(sessions[id], step);
      }
      if applied {
        WritesReadable(sessions[id], step, now);
        sessions := sessions[id := Next(sessions[id], step, now)];
      }
    }
  }
}
