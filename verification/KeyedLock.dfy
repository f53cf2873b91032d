// The keyed promise lock of src/server/chunkTransferService.ts: each call waits for the tail it found under
// its key, stores its own, and removes it when it finishes as the last.
module KeyedLock {
  import opened Common

  datatype State = Waiting | Running | Finished

  // A call waits for the call whose tail it found, if any.
  datatype Call = Call(prior: Option<int>, state: State)

  // The calls made under one key, in order, and the call whose tail the map holds.
  datatype Queue = Queue(calls: seq<Call>, entry: Option<int>)

  const EMPTY := Queue([], None)

  datatype Step = Enter | Start(call: int) | Finish(call: int)

  predicate FinishedAt(q: Queue, k: int) {
    0 <= k < |q.calls| && q.calls[k].state == Finished
  }

  // A tail is resolved once its call has finished.
  predicate Ready(q: Queue, k: int)
    requires 0 <= k < |q.calls|
  {
    q.calls[k].prior.None? || FinishedAt(q, q.calls[k].prior.value)
  }

  predicate Enabled(q: Queue, s: Step) {
    match s
    case Enter => true
    case Start(k) => 0 <= k < |q.calls| && q.calls[k].state == Waiting && Ready(q, k)
    case Finish(k) => 0 <= k < |q.calls| && q.calls[k].state == Running
  }

  function Next(q: Queue, s: Step): Queue
    requires Enabled(q, s)
  {
    match s
    case Enter => Queue(q.calls + [Call(q.entry, Waiting)], Some(|q.calls|))
    case Start(k) => q.(calls := q.calls[k := q.calls[k].(state := Running)])
    case Finish(k) => Queue(q.calls[k := q.calls[k].(state := Finished)], if q.entry == Some(k) then None else q.entry)
  }

  predicate AllBefore(q: Queue, k: int) {
    forall j :: 0 <= j < k ==> FinishedAt(q, j)
  }

  // The map holds the tail of the last call, not finished, or nothing and every call has finished; a call waits for the
  // one before it, or for nothing and all before it have finished; none starts before those before it end.
  predicate Inv(q: Queue) {
    && ((|q.calls| > 0 && q.entry == Some(|q.calls| - 1) && !FinishedAt(q, |q.calls| - 1)) || (q.entry.None? && AllBefore(q, |q.calls|)))
    && (forall k :: 0 <= k < |q.calls| ==> PriorFits(q, k))
    && (forall k :: 0 <= k < |q.calls| && q.calls[k].state != Waiting ==> AllBefore(q, k))
  }

  predicate PriorFits(q: Queue, k: int)
    requires 0 <= k < |q.calls|
  {
    (q.calls[k].prior == Some(k - 1) && k > 0) || (q.calls[k].prior.None? && AllBefore(q, k))
  }

  lemma EnterKeepsInv(q: Queue)
    requires Inv(q)
    ensures Inv(Next(q, Enter))
  {
    var r := Next(q, Enter);
    assert forall j :: 0 <= j < |q.calls| ==> r.calls[j] == q.calls[j];
    assert forall j :: FinishedAt(q, j) ==> FinishedAt(r, j);
    forall k | 0 <= k < |r.calls|
      ensures PriorFits(r, k)
    {
      assert AllBefore(q, k) ==> AllBefore(r, k);
      assert k < |q.calls| ==> PriorFits(q, k);
    }
  }

  // A ready call has nothing unfinished before it.
  lemma ReadyIsFirst(q: Queue, k: int)
    requires Inv(q) && 0 <= k < |q.calls| && Ready(q, k)
    ensures AllBefore(q, k)
  {
    assert PriorFits(q, k);
    assert k > 0 && FinishedAt(q, k - 1) ==> AllBefore(q, k - 1);
  }

  lemma StateChange(q: Queue, r: Queue, k: int)
    requires Inv(q) && 0 <= k < |q.calls| && |r.calls| == |q.calls|
    requires forall j :: 0 <= j < |q.calls| && j != k ==> r.calls[j] == q.calls[j]
    requires r.calls[k].prior == q.calls[k].prior && (q.calls[k].state == Finished ==> r.calls[k].state == Finished)
    ensures forall j :: FinishedAt(q, j) ==> FinishedAt(r, j)
    ensures forall m :: 0 <= m < |r.calls| ==> PriorFits(r, m)
    ensures forall m :: AllBefore(q, m) ==> AllBefore(r, m)
  {
    forall j
      ensures FinishedAt(q, j) ==> FinishedAt(r, j)
    {
    }
    forall m
      ensures AllBefore(q, m) ==> AllBefore(r, m)
    {
      assert AllBefore(q, m) ==> forall j :: 0 <= j < m ==> FinishedAt(q, j) && FinishedAt(r, j);
    }
    forall m | 0 <= m < |r.calls|
      ensures PriorFits(r, m)
    {
      assert PriorFits(q, m);
      assert AllBefore(q, m) ==> AllBefore(r, m);
    }
  }

  lemma StartKeepsInv(q: Queue, k: int)
    requires Inv(q) && Enabled(q, Start(k))
    ensures Inv(Next(q, Start(k)))
  {
    hide PriorFits;
    ReadyIsFirst(q, k);
    StateChange(q, Next(q, Start(k)), k);
  }

  lemma FinishKeepsInv(q: Queue, k: int)
    requires Inv(q) && Enabled(q, Finish(k))
    ensures Inv(Next(q, Finish(k)))
  {
    hide PriorFits;
    StateChange(q, Next(q, Finish(k)), k);
  }

  lemma StepKeepsInv(q: Queue, s: Step)
    requires Inv(q) && Enabled(q, s)
    ensures Inv(Next(q, s))
  {
    hide Inv, Next, Enabled;
    match s
    case Enter => EnterKeepsInv(q);
    case Start(k) => StartKeepsInv(q, k);
    case Finish(k) => FinishKeepsInv(q, k);
  }

  predicate Runs(q: Queue, steps: seq<Step>)
    decreases |steps|
  {
    steps == [] || (Enabled(q, steps[0]) && Runs(Next(q, steps[0]), steps[1..]))
  }

  function RunOf(q: Queue, steps: seq<Step>): Queue
    requires Runs(q, steps)
    decreases |steps|
  {
    if steps == [] then q else RunOf(Next(q, steps[0]), steps[1..])
  }

  lemma {:induction false} RunKeepsInv(q: Queue, steps: seq<Step>)
    requires Inv(q) && Runs(q, steps)
    ensures Inv(RunOf(q, steps))
    decreases |steps|
  {
    hide Inv, Enabled, Next;
    if steps != [] {
      StepKeepsInv(q, steps[0]);
      RunKeepsInv(Next(q, steps[0]), steps[1..]);
    }
  }

  // In any run, removals of the entry included: while a call runs, all before it have finished and all
  // after it wait, so calls exclude each other and run in the order they were made.
  lemma ExclusiveInOrder(steps: seq<Step>, k: int)
    requires Runs(EMPTY, steps) && 0 <= k < |RunOf(EMPTY, steps).calls|
    ensures var calls := RunOf(EMPTY, steps).calls;
      calls[k].state == Running ==>
        (forall j :: 0 <= j < k ==> calls[j].state == Finished) && (forall j :: k < j < |calls| ==> calls[j].state == Waiting)
  {
    hide Enabled, Next;
    RunKeepsInv(EMPTY, steps);
    var q := RunOf(EMPTY, steps);
    if q.calls[k].state == Running {
      assert AllBefore(q, k);
      forall j | k < j < |q.calls|
        ensures q.calls[j].state == Waiting
      {
        assert AllBefore(q, j) ==> FinishedAt(q, k);
      }
      forall j | 0 <= j < k
        ensures q.calls[j].state == Finished
      {
        assert FinishedAt(q, j);
      }
    }
  }

  // No call waits for ever: with none running, the first waiting call can start.
  lemma NoneStranded(steps: seq<Step>, k: int)
    requires Runs(EMPTY, steps) && 0 <= k < |RunOf(EMPTY, steps).calls|
    requires RunOf(EMPTY, steps).calls[k].state == Waiting && forall j :: 0 <= j < k ==> FinishedAt(RunOf(EMPTY, steps), j)
    ensures Enabled(RunOf(EMPTY, steps), Start(k))
  {
    hide Next;
    RunKeepsInv(EMPTY, steps);
    assert PriorFits(RunOf(EMPTY, steps), k);
  }

  // A running call can always finish, and has finished then; and once all have, the map holds nothing.
  lemma NothingKept(steps: seq<Step>, k: int)
    requires Runs(EMPTY, steps)
    ensures var q := RunOf(EMPTY, steps);
      && (q.entry.None? <==> AllBefore(q, |q.calls|))
      && (0 <= k < |q.calls| && q.calls[k].state == Running ==> Enabled(q, Finish(k)) && FinishedAt(Next(q, Finish(k)), k))
  {
    RunKeepsInv(EMPTY, steps);
    var q := RunOf(EMPTY, steps);
    assert AllBefore(q, |q.calls|) && |q.calls| > 0 ==> FinishedAt(q, |q.calls| - 1);
  }

  // The lock of a service: one queue a key; the map keeps a key only while its last tail is unresolved.
  class Locks {
    var queues: map<string, Queue>

    predicate Valid()
      reads this
    {
      forall key :: key in queues ==> Inv(queues[key])
    }

    constructor ()
      ensures Valid() && queues == map[]
    {
      queues := map[];
    }

    function QueueOf(key: string): Queue
      reads this
    {
      if key in queues then queues[key] else EMPTY
    }

    // A call arrives: it finds the tail under its key and leaves its own.
    method Arrive(key: string) returns (call: int)
      requires Valid()
      modifies this
      ensures Valid() && call == |old(QueueOf(key)).calls|
      ensures queues == old(queues)[key := Next(old(QueueOf(key)), Enter)]
      ensures queues[key].calls ==
        if key in old(queues) then old(queues)[key].calls + [Call(old(queues)[key].entry, Waiting)] else [Call(None, Waiting)]
    {
      hide Inv;
      assert Inv(QueueOf(key)) by { EmptyInv(); }
      var q := QueueOf(key);
      call := |q.calls|;
      StepKeepsInv(q, Enter);
      queues := queues[key := Next(q, Enter)];
    }

    method Begin(key: string, call: int)
      requires Valid() && key in queues && Enabled(queues[key], Start(call))
      modifies this
      ensures Valid() && queues == old(queues)[key := Next(old(queues)[key], Start(call))]
      ensures AllBefore(queues[key], call)
    {
      hide PriorFits;
      StepKeepsInv(queues[key], Start(call));
      queues := queues[key := Next(queues[key], Start(call))];
    }

    // The call releases its promise and, if its tail is still the last, removes the entry.
    method Leave(key: string, call: int)
      requires Valid() && key in queues && Enabled(queues[key], Finish(call))
      modifies this
      ensures Valid() && queues == old(queues)[key := Next(old(queues)[key], Finish(call))]
      ensures queues[key].entry.None? <==> AllBefore(queues[key], |queues[key].calls|)
    {
      hide PriorFits;
      StepKeepsInv(queues[key], Finish(call));
      queues := queues[key := Next(queues[key], Finish(call))];
      assert AllBefore(queues[key], |queues[key].calls|) ==> FinishedAt(queues[key], |queues[key].calls| - 1);
    }
  }

  lemma EmptyInv()
    ensures Inv(EMPTY)
  {
  }
}
