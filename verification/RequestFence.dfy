// The fence of one request (src/server/app.ts): a device lease and a vault admission, released once the
// request is over and its handler is not running, in whatever order its events arrive.
module RequestFence {
  import opened Common

  datatype Handler = Pending | Running | Done

  datatype Kind = Lease | Admission

  // `acquired` and `releases` record what the lifecycle service has seen; `bodies` counts handler bodies
  // started.
  datatype Fence = Fence(
    lease: Option<int>,
    admission: Option<int>,
    ended: bool,
    aborted: bool,
    handler: Handler,
    pipelineClosed: bool,
    released: bool,
    hijacked: bool,
    acquired: set<int>,
    releases: multiset<int>,
    bodies: int)

  datatype Event =
    | Acquire(kind: Kind, id: int)
    | End(closed: bool, abort: bool)
    | Start(rawAborted: bool)
    | Hijack
    | Settle

  const FRESH := Fence(None, None, false, false, Pending, false, false, false, {}, multiset{}, 0)

  function IdsOf(o: Option<int>): multiset<int> {
    if o.Some? then multiset{o.value} else multiset{}
  }

  // The request is over: it ended, and no handler is running or can still start.
  predicate Over(f: Fence) {
    f.ended && f.handler != Running && (f.handler == Done || f.pipelineClosed || f.aborted)
  }

  function ReleaseIfSettled(f: Fence): Fence {
    if f.released || !Over(f) then f
    else f.(released := true, lease := None, admission := None, releases := f.releases + IdsOf(f.lease) + IdsOf(f.admission))
  }

  function Held(f: Fence, kind: Kind): Option<int> {
    if kind == Lease then f.lease else f.admission
  }

  // What is acquired too late, twice, or by a streaming request is given back at once.
  function Hold(f: Fence, kind: Kind, id: int): Fence {
    var seen := f.(acquired := f.acquired + {id});
    if f.hijacked || f.released || Held(f, kind).Some? then seen.(releases := f.releases + multiset{id})
    else if kind == Lease then seen.(lease := Some(id))
    else seen.(admission := Some(id))
  }

  function EndLifecycle(f: Fence, closed: bool, abort: bool): Fence {
    ReleaseIfSettled(f.(ended := true, pipelineClosed := f.pipelineClosed || closed, aborted := f.aborted || abort))
  }

  function SettleHandler(f: Fence): Fence {
    ReleaseIfSettled(f.(handler := Done))
  }

  // The wrapper around a handler: it refuses to run the body of a request that is already over.
  function StartHandler(f: Fence, rawAborted: bool): Fence {
    var g := if rawAborted then EndLifecycle(f, false, true) else f;
    if g.released || g.aborted then SettleHandler(g) else g.(handler := Running, bodies := g.bodies + 1)
  }

  // Admissions are new objects; the framework calls a handler once; only a running handler settles, or
  // hijacks its reply, which throws if anything is held.
  predicate Enabled(f: Fence, e: Event) {
    match e
    case Acquire(kind, id) => id !in f.acquired
    case End(closed, abort) => true
    case Start(rawAborted) => f.handler == Pending
    case Hijack => f.handler == Running
    case Settle => f.handler == Running
  }

  function Next(f: Fence, e: Event): Fence
    requires Enabled(f, e)
  {
    match e
    case Acquire(kind, id) => Hold(f, kind, id)
    case End(closed, abort) => EndLifecycle(f, closed, abort)
    case Start(rawAborted) => StartHandler(f, rawAborted)
    case Hijack => if f.lease.Some? || f.admission.Some? then f else f.(hijacked := true)
    case Settle => SettleHandler(f)
  }

  // What is held and what was released.
  function Total(f: Fence): multiset<int> {
    f.releases + IdsOf(f.lease) + IdsOf(f.admission)
  }

  // Everything acquired is held or was released, once; the fence is released exactly when the request is
  // over; and one body at most has run, never over a released fence.
  predicate Inv(f: Fence) {
    && Total(f) == multiset(f.acquired)
    && (f.released <==> Over(f))
    && (f.released || f.hijacked ==> f.lease.None? && f.admission.None?)
    && (f.handler == Pending ==> f.bodies == 0) && f.bodies <= 1
  }

  lemma StepKeepsInv(f: Fence, e: Event)
    requires Inv(f) && Enabled(f, e)
    ensures Inv(Next(f, e))
  {
    match e
    case Acquire(kind, id) => HoldKeepsInv(f, kind, id);
    case End(closed, abort) => EndKeepsInv(f, closed, abort);
    case Start(rawAborted) => StartKeepsInv(f, rawAborted);
    case Hijack =>
    case Settle => SettleKeepsInv(f);
  }

  lemma HoldTotal(f: Fence, kind: Kind, id: int)
    ensures Total(Hold(f, kind, id)) == Total(f) + multiset{id}
  {
  }

  lemma AcquiredOnce(acquired: set<int>, id: int)
    requires id !in acquired
    ensures multiset(acquired + {id}) == multiset(acquired) + multiset{id}
  {
  }

  lemma HoldKeepsInv(f: Fence, kind: Kind, id: int)
    requires Inv(f) && id !in f.acquired
    ensures Inv(Hold(f, kind, id))
  {
    hide Total;
    HoldTotal(f, kind, id);
    AcquiredOnce(f.acquired, id);
  }

  lemma EndKeepsInv(f: Fence, closed: bool, abort: bool)
    requires Inv(f)
    ensures Inv(EndLifecycle(f, closed, abort))
  {
    var g := EndLifecycle(f, closed, abort);
    assert Total(g) == Total(f);
  }

  lemma SettleKeepsInv(f: Fence)
    requires Inv(f)
    ensures Inv(SettleHandler(f))
  {
    var g := SettleHandler(f);
    assert Total(g) == Total(f);
  }

  lemma StartKeepsInv(f: Fence, rawAborted: bool)
    requires Inv(f) && f.handler == Pending
    ensures Inv(StartHandler(f, rawAborted))
  {
    hide Inv;
    if rawAborted {
      EndKeepsInv(f, false, true);
      SettleKeepsInv(EndLifecycle(f, false, true));
    } else {
      SettleKeepsInv(f);
      if !f.released && !f.aborted {
        StartBody(f);
      }
    }
  }

  lemma StartBody(f: Fence)
    requires Inv(f) && f.handler == Pending && !f.released
    ensures Inv(f.(handler := Running, bodies := f.bodies + 1))
  {
  }

  // The body of a request that is neither aborted nor over runs, and no other; of a body that runs nothing
  // that was held is given back.
  lemma StartsExactly(f: Fence, rawAborted: bool)
    requires f.handler == Pending
    ensures var g := StartHandler(f, rawAborted);
      && (g.handler == Running <==> !rawAborted && !f.released && !f.aborted)
      && (g.handler == Running ==> g == f.(handler := Running, bodies := f.bodies + 1))
      && (g.handler != Running ==> g.handler == Done && g.bodies == f.bodies)
      && (rawAborted ==> g.aborted && g.ended)
  {
  }

  // What is acquired is kept for the request, in the place of its kind, exactly while the place is free, the
  // fence is not released and the reply does not stream.
  lemma HoldExactly(f: Fence, kind: Kind, id: int)
    ensures var g := Hold(f, kind, id);
      && g.acquired == f.acquired + {id}
      && (if !f.hijacked && !f.released && (if kind == Lease then f.lease else f.admission).None?
          then g.releases == f.releases && g.lease == (if kind == Lease then Some(id) else f.lease)
            && g.admission == (if kind == Admission then Some(id) else f.admission)
          else g.releases == f.releases + multiset{id} && g.lease == f.lease && g.admission == f.admission)
  {
  }

  // A running handler hijacks its reply only while nothing is held, and then nothing is held any more.
  lemma HijackExactly(f: Fence, kind: Kind, id: int)
    requires Inv(f) && f.handler == Running && id !in f.acquired
    ensures var g := Next(f, Hijack);
      && (g.hijacked <==> f.hijacked || (f.lease.None? && f.admission.None?))
      && g == f.(hijacked := g.hijacked)
      && (g.hijacked ==> Next(g, Acquire(kind, id)).lease.None? && Next(g, Acquire(kind, id)).admission.None?
                         && id in Next(g, Acquire(kind, id)).releases)
  {
  }

  // ----- Any interleaving -----

  predicate Runs(f: Fence, events: seq<Event>)
    decreases |events|
  {
    events == [] || (Enabled(f, events[0]) && Runs(Next(f, events[0]), events[1..]))
  }

  function RunOf(f: Fence, events: seq<Event>): Fence
    requires Runs(f, events)
    decreases |events|
  {
    if events == [] then f else RunOf(Next(f, events[0]), events[1..])
  }

  lemma {:induction false} RunKeepsInv(f: Fence, events: seq<Event>)
    requires Inv(f) && Runs(f, events)
    ensures Inv(RunOf(f, events))
    decreases |events|
  {
    hide Inv, Enabled, Next;
    if events != [] {
      StepKeepsInv(f, events[0]);
      RunKeepsInv(Next(f, events[0]), events[1..]);
    }
  }

  // However the events of a request interleave: nothing it acquired is released twice; while its handler
  // runs, what it holds is not released; and once it is over, everything is released, exactly once.
  lemma ReleasedExactlyOnce(events: seq<Event>)
    requires Runs(FRESH, events)
    ensures var f := RunOf(FRESH, events);
      && (forall id :: f.releases[id] <= 1)
      && (f.handler == Running ==> !f.released)
      && (forall id :: f.handler == Running && (f.lease == Some(id) || f.admission == Some(id)) ==> f.releases[id] == 0)
      && (Over(f) ==> forall id :: id in f.acquired ==> f.releases[id] == 1)
      && f.bodies <= 1
  {
    hide Next, Enabled, Runs, RunOf;
    RunKeepsInv(FRESH, events);
    var f := RunOf(FRESH, events);
    forall id
      ensures f.releases[id] + IdsOf(f.lease)[id] + IdsOf(f.admission)[id] == if id in f.acquired then 1 else 0
    {
      assert Total(f)[id] == multiset(f.acquired)[id];
    }
  }

  // No event takes away what a handler holds while it runs on, and no event starts a body once the fence
  // is released.
  lemma RunningKeepsFence(f: Fence, e: Event)
    requires Inv(f) && Enabled(f, e)
    ensures f.handler == Running && Next(f, e).handler == Running ==>
      && (f.lease.Some? ==> Next(f, e).lease == f.lease)
      && (f.admission.Some? ==> Next(f, e).admission == f.admission)
    ensures f.released ==> Next(f, e).released && Next(f, e).handler != Running && Next(f, e).bodies == f.bodies
  {
  }

  // A request whose handler settled, and which ended, is over; so is one that was aborted or answered
  // before its handler started.
  lemma EndsOver(f: Fence, closed: bool, abort: bool)
    requires Inv(f)
    ensures f.handler == Done || (f.handler == Pending && (closed || abort)) ==> Next(f, End(closed, abort)).released
    ensures f.handler == Running && f.ended ==> Next(f, Settle).released
  {
  }

  // ----- The object -----

  class RequestFence {
    var fence: Fence

    constructor ()
      ensures fence == FRESH && Inv(fence)
    {
      fence := FRESH;
    }

    method ReleaseFenceIfSettled()
      modifies this
      ensures fence == ReleaseIfSettled(old(fence))
    {
      if fence.released || !fence.ended {
        return;
      }
      if fence.handler == Running || (fence.handler == Pending && !fence.pipelineClosed && !fence.aborted) {
        return;
      }
      var held := IdsOf(fence.lease) + IdsOf(fence.admission);
      fence := fence.(released := true, lease := None, admission := None, releases := fence.releases + held);
      assert old(fence).releases + held == old(fence).releases + IdsOf(old(fence).lease) + IdsOf(old(fence).admission);
    }

    method HoldForRequest(kind: Kind, id: int)
      requires Inv(fence) && id !in fence.acquired
      modifies this
      ensures fence == Next(old(fence), Acquire(kind, id)) && Inv(fence)
    {
      HoldKeepsInv(fence, kind, id);
      var refused := fence.hijacked || fence.released || Held(fence, kind).Some?;
      fence := fence.(acquired := fence.acquired + {id});
      if refused {
        fence := fence.(releases := fence.releases + multiset{id});
      } else if kind == Lease {
        fence := fence.(lease := Some(id));
      } else {
        fence := fence.(admission := Some(id));
      }
    }

    method EndRequestLifecycle(closed: bool, abort: bool)
      requires Inv(fence)
      modifies this
      ensures fence == Next(old(fence), End(closed, abort)) && Inv(fence)
    {
      EndKeepsInv(fence, closed, abort);
      fence := fence.(ended := true);
      if closed {
        fence := fence.(pipelineClosed := true);
      }
      if abort {
        fence := fence.(aborted := true);
      }
      ReleaseFenceIfSettled();
    }

    method SettleFence()
      requires Inv(fence)
      modifies this
      ensures fence == SettleHandler(old(fence)) && Inv(fence)
    {
      SettleKeepsInv(fence);
      fence := fence.(handler := Done);
      ReleaseFenceIfSettled();
    }

    // The wrapper up to the call of the handler body: whether the body may run.
    method FencedHandler(rawAborted: bool) returns (run: bool)
      requires Inv(fence) && fence.handler == Pending
      modifies this
      ensures fence == Next(old(fence), Start(rawAborted)) && Inv(fence)
      ensures run <==> fence.handler == Running
      ensures run ==> !fence.released
      ensures run <==> !rawAborted && !old(fence).released && !old(fence).aborted
    {
      hide Inv, EndLifecycle, SettleHandler;
      StartKeepsInv(fence, rawAborted);
      StartsExactly(fence, rawAborted);
      if rawAborted {
        EndRequestLifecycle(false, true);
      }
      if fence.released || fence.aborted {
        SettleFence();
        SettledNotRunning(old(fence), rawAborted);
        return false;
      }
      fence := fence.(handler := Running, bodies := fence.bodies + 1);
      return true;
    }
  }

  lemma SettledNotRunning(f: Fence, rawAborted: bool)
    ensures var g := if rawAborted then EndLifecycle(f, false, true) else f; SettleHandler(g).handler == Done
  {
  }
}
