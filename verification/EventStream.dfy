// One dashboard event stream (src/server/dashboardEvents.ts): invalidations are marked, coalesced by a
// timer, published after a fresh authorization, and held back while the reader does not drain.
module EventStream {
  import opened Common

  const MAX_VAULT_IDS_PER_MESSAGE := 32

  // `timer` and `stall` say that a timer is set, `listening` that a drain listener is. What a reader is
  // still owed is recorded apart, in the last two.
  datatype Stream = Stream(
    closed: bool,
    blocked: bool,
    flushing: bool,
    account: bool,
    vaults: set<string>,
    timer: bool,
    stall: bool,
    listening: bool,
    owedAccount: bool,
    owed: set<string>)

  datatype Message = Message(account: bool, vaultIds: set<string>)

  // What a write to the sink does.
  datatype Sink = Gone | Taken | Full

  datatype Event =
    | Mark(wholeAccount: bool, ids: seq<string>)
    | TimerFires
    | Authorized(sink: Sink)
    | Unauthorized
    | Heartbeat(sink: Sink)
    | Drained
    | StallFires
    | SinkCloses

  const OPEN := Stream(false, false, false, false, {}, false, false, false, false, {})

  predicate Pending(s: Stream) {
    s.account || s.vaults != {}
  }

  function Schedule(s: Stream): Stream {
    if s.closed || s.blocked then s else s.(timer := true)
  }

  function Close(s: Stream): Stream {
    if s.closed then s
    else s.(closed := true, timer := false, stall := false, account := false, vaults := {}, listening := false)
  }

  // A full sink blocks the stream, takes its timer, and waits for a drain, but not for ever.
  function Written(s: Stream, sink: Sink): Stream {
    if s.closed then s
    else match sink
      case Gone => Close(s)
      case Taken => s
      case Full => s.(blocked := true, timer := false, stall := true, listening := true)
  }

  // Vaults are added one by one; one too many turns the mark into one of the whole account.
  function AddVaults(s: Stream, ids: seq<string>): Stream
    decreases |ids|
  {
    if ids == [] then s
    else
      var t := s.(vaults := s.vaults + {ids[0]});
      if |t.vaults| > MAX_VAULT_IDS_PER_MESSAGE then t.(account := true) else AddVaults(t, ids[1..])
  }

  function MarkStream(s: Stream, wholeAccount: bool, ids: seq<string>): Stream {
    if s.closed then s
    else
      var a := if wholeAccount then s.(account := true) else s;
      var b := if a.account then a else AddVaults(a, ids);
      var c := if b.account then b.(vaults := {}) else b;
      var d := c.(owedAccount := s.owedAccount || wholeAccount, owed := s.owed + Named(ids));
      if Pending(d) then Schedule(d) else d
  }

  // The timer fires: a flush begins, unless one is under way or there is nothing to do.
  function BeginFlush(s: Stream): Stream {
    var t := s.(timer := false);
    if t.closed || t.blocked || t.flushing || !Pending(t) then t else t.(flushing := true)
  }

  // What a flush publishes once it is authorized.
  function Publication(s: Stream): Option<Message> {
    if s.closed || s.blocked || !Pending(s) then None
    else Some(Message(s.account, if s.account then {} else s.vaults))
  }

  predicate Covers(m: Message, id: string) {
    m.account || id in m.vaultIds
  }

  function Sent(s: Stream, m: Message): Stream {
    s.(account := false, vaults := {},
       owedAccount := s.owedAccount && !m.account,
       owed := set id | id in s.owed && !Covers(m, id))
  }

  // The rest of a flush: publish, then schedule again if more was marked.
  function EndFlush(s: Stream, sink: Sink): Stream {
    var m := Publication(s);
    if m.None? then s.(flushing := false)
    else
      var t := Written(Sent(s, m.value), sink).(flushing := false);
      if !t.closed && Pending(t) then Schedule(t) else t
  }

  function Drain(s: Stream): Stream {
    if s.closed then s
    else
      var t := s.(stall := false, blocked := false, listening := false);
      if Pending(t) then Schedule(t) else t
  }

  predicate Enabled(s: Stream, e: Event) {
    match e
    case TimerFires => s.timer
    case Authorized(sink) => s.flushing
    case Drained => s.listening
    case StallFires => s.stall
    case _ => true
  }

  function Next(s: Stream, e: Event): Stream
    requires Enabled(s, e)
  {
    match e
    case Mark(wholeAccount, ids) => MarkStream(s, wholeAccount, ids)
    case TimerFires => BeginFlush(s)
    case Authorized(sink) => EndFlush(s, sink)
    case Unauthorized => Close(s).(flushing := false)
    case Heartbeat(sink) => if s.blocked then s else Written(s, sink)
    case Drained => Drain(s)
    case StallFires => Close(s)
    case SinkCloses => Close(s)
  }

  // An open stream waits for a timer, a flush, or a drain whenever something is pending; a blocked one has
  // its stall timer and its listener; and all it owes is pending.
  predicate Inv(s: Stream) {
    if s.closed then !s.timer && !s.stall && !s.listening && !Pending(s)
    else
      && (s.blocked <==> s.stall) && (s.stall <==> s.listening)
      && (s.timer ==> !s.blocked)
      && (Pending(s) && !s.blocked ==> s.timer || s.flushing)
      && (s.account ==> s.vaults == {}) && |s.vaults| <= MAX_VAULT_IDS_PER_MESSAGE
      && (s.owedAccount ==> s.account) && (s.account || s.owed <= s.vaults)
      && s.vaults <= s.owed && (s.account ==> s.owedAccount || |s.owed| > MAX_VAULT_IDS_PER_MESSAGE)
  }

  lemma {:induction false} AddVaultsFrame(s: Stream, ids: seq<string>)
    ensures var t := AddVaults(s, ids); t == s.(account := t.account, vaults := t.vaults)
    decreases |ids|
  {
    if ids != [] {
      AddVaultsFrame(s.(vaults := s.vaults + {ids[0]}), ids[1..]);
    }
  }

  function Named(ids: seq<string>): set<string> {
    set id | id in ids
  }

  lemma NamedCons(ids: seq<string>)
    requires ids != []
    ensures Named(ids) == {ids[0]} + Named(ids[1..])
  {
    assert ids == [ids[0]] + ids[1..];
  }

  lemma {:induction false} AddVaultsKeeps(s: Stream, ids: seq<string>)
    requires !s.account && |s.vaults| <= MAX_VAULT_IDS_PER_MESSAGE
    ensures var t := AddVaults(s, ids);
      && t.vaults <= s.vaults + Named(ids)
      && (t.account <==> |t.vaults| > MAX_VAULT_IDS_PER_MESSAGE)
      && (!t.account ==> t.vaults == s.vaults + Named(ids))
    decreases |ids|
  {
    hide Named;
    if ids == [] {
      assert Named(ids) == {} by { NamedNone(); }
    } else {
      NamedCons(ids);
      var t := s.(vaults := s.vaults + {ids[0]});
      if |t.vaults| <= MAX_VAULT_IDS_PER_MESSAGE {
        AddVaultsKeeps(t, ids[1..]);
      }
    }
  }

  lemma NamedNone()
    ensures Named([]) == {}
  {
  }

  lemma MarkKeepsInv(s: Stream, wholeAccount: bool, ids: seq<string>)
    requires Inv(s)
    ensures Inv(MarkStream(s, wholeAccount, ids))
  {
    hide AddVaults, Named;
    var more := s.owed + Named(ids);
    SubsetSize(s.owed, more);
    if !s.closed && !wholeAccount && !s.account {
      AddVaultsFrame(s, ids);
      AddVaultsKeeps(s, ids);
      var t := AddVaults(s, ids);
      if t.account {
        SubsetSize(t.vaults, more);
      }
    }
  }

  // A message invalidates the whole account only if that was marked, or more than 32 vaults are owed; else
  // it names exactly the vaults owed.
  lemma MessageIsExact(s: Stream)
    requires Inv(s) && Publication(s).Some?
    ensures var m := Publication(s).value;
      if m.account then s.owedAccount || |s.owed| > MAX_VAULT_IDS_PER_MESSAGE else m.vaultIds == s.owed
  {
  }

  // A flush that comes back authorized publishes exactly when something is owed and the reader drains.
  lemma PublishesExactly(s: Stream)
    requires Inv(s)
    ensures Publication(s).Some? <==> !s.closed && !s.blocked && (s.owedAccount || s.owed != {})
  {
    if s.owed == {} {
      assert |s.owed| == 0;
    }
  }

  // A heartbeat finds a reader gone and closes, or full and blocks, and says nothing to a blocked one.
  lemma HeartbeatExactly(s: Stream, sink: Sink)
    requires Inv(s)
    ensures var t := Next(s, Heartbeat(sink));
      if s.closed || s.blocked || sink == Taken then t == s
      else if sink == Gone then t.closed && t.owed == s.owed && t.owedAccount == s.owedAccount
      else t == s.(blocked := true, stall := true, listening := true, timer := false)
  {
  }

  lemma FlushKeepsInv(s: Stream, sink: Sink)
    requires Inv(s) && s.flushing
    ensures Inv(EndFlush(s, sink))
  {
  }

  lemma StepKeepsInv(s: Stream, e: Event)
    requires Inv(s) && Enabled(s, e)
    ensures Inv(Next(s, e))
  {
    hide MarkStream, EndFlush;
    match e
    case Mark(wholeAccount, ids) => MarkKeepsInv(s, wholeAccount, ids);
    case Authorized(sink) => FlushKeepsInv(s, sink);
    case _ =>
  }

  predicate Runs(s: Stream, events: seq<Event>)
    decreases |events|
  {
    events == [] || (Enabled(s, events[0]) && Runs(Next(s, events[0]), events[1..]))
  }

  function RunOf(s: Stream, events: seq<Event>): Stream
    requires Runs(s, events)
    decreases |events|
  {
    if events == [] then s else RunOf(Next(s, events[0]), events[1..])
  }

  lemma {:induction false} RunKeepsInv(s: Stream, events: seq<Event>)
    requires Inv(s) && Runs(s, events)
    ensures Inv(RunOf(s, events))
    decreases |events|
  {
    hide Inv, Enabled, Next;
    if events != [] {
      var e, rest := events[0], events[1..];
      StepKeepsInv(s, e);
      RunKeepsInv(Next(s, e), rest);
    }
  }

  // In any run, what an open stream still owes is on its way: it waits for a timer or is being flushed, or
  // the stream waits for its reader with a stall timer running.
  lemma NothingLost(events: seq<Event>)
    requires Runs(OPEN, events)
    ensures var s := RunOf(OPEN, events);
      !s.closed && (s.owedAccount || s.owed != {}) ==>
        && Pending(s) && (s.account || s.owed <= s.vaults)
        && (if s.blocked then s.stall && s.listening else s.timer || s.flushing)
  {
    hide Enabled, Next;
    RunKeepsInv(OPEN, events);
  }

  // What is owed shrinks only by a message that covers it; a message names at most 32 vaults.
  lemma OnlyCoveredIsCleared(s: Stream, e: Event, id: string)
    requires Inv(s) && Enabled(s, e) && id in s.owed && !Next(s, e).closed && id !in Next(s, e).owed
    ensures e.Authorized? && Publication(s).Some? && Covers(Publication(s).value, id)
    ensures |Publication(s).value.vaultIds| <= MAX_VAULT_IDS_PER_MESSAGE
  {
    hide AddVaults;
  }

  // An authorized flush that the sink takes pays everything owed at that moment.
  lemma FlushPaysAll(s: Stream)
    requires Inv(s) && s.flushing && !s.closed && !s.blocked && Pending(s)
    ensures var t := Next(s, Authorized(Taken));
      !t.owedAccount && t.owed == {} && !Pending(t) && !t.closed && !t.flushing && t.timer == s.timer
  {
  }

  // However its authorization comes out, a flush is over then.
  lemma FlushEnds(s: Stream, e: Event)
    requires Enabled(s, e) && (e.Authorized? || e.Unauthorized?)
    ensures !Next(s, e).flushing && (e.Unauthorized? ==> Next(s, e).closed)
  {
  }

  // A drain sets the timer again exactly when something is pending.
  lemma DrainResumes(s: Stream)
    requires Inv(s) && s.listening
    ensures var t := Next(s, Drained); (t.timer <==> Pending(s)) && !t.blocked && !t.stall && !t.listening && (Pending(t) <==> Pending(s))
  {
  }

  // ----- The object -----

  class DashboardStream {
    var stream: Stream

    constructor ()
      ensures stream == OPEN && Inv(stream)
    {
      stream := OPEN;
    }

    method MarkAll(wholeAccount: bool, ids: seq<string>)
      requires Inv(stream)
      modifies this
      ensures stream == Next(old(stream), Mark(wholeAccount, ids)) && Inv(stream)
    {
      hide Inv;
      MarkKeepsInv(stream, wholeAccount, ids);
      if stream.closed {
        return;
      }
      var s := stream;
      if wholeAccount {
        s := s.(account := true);
      }
      if !s.account {
        s := AddEach(s, ids);
      }
      if s.account {
        s := s.(vaults := {});
      }
      s := s.(owedAccount := stream.owedAccount || wholeAccount, owed := stream.owed + Named(ids));
      stream := if Pending(s) then Schedule(s) else s;
    }

    method Fire()
      requires Inv(stream) && stream.timer
      modifies this
      ensures stream == Next(old(stream), TimerFires) && Inv(stream)
    {
      StepKeepsInv(stream, TimerFires);
      stream := stream.(timer := false);
      if stream.closed || stream.blocked || stream.flushing || !Pending(stream) {
        return;
      }
      stream := stream.(flushing := true);
    }

    // The flush after its authorization came back; `sent` is what it published, if anything.
    method Publish(ok: bool, sink: Sink) returns (sent: Option<Message>)
      requires Inv(stream) && stream.flushing
      modifies this
      ensures stream == Next(old(stream), if ok then Authorized(sink) else Unauthorized) && Inv(stream)
      ensures sent == if ok then Publication(old(stream)) else None
      ensures sent.Some? ==> |sent.value.vaultIds| <= MAX_VAULT_IDS_PER_MESSAGE
      ensures sent.Some? ==> forall id :: id in old(stream).owed ==> Covers(sent.value, id)
    {
      StepKeepsInv(stream, if ok then Authorized(sink) else Unauthorized);
      if !ok {
        stream := Close(stream).(flushing := false);
        return None;
      }
      sent := Publication(stream);
      stream := EndFlush(stream, sink);
    }

    method OnDrain()
      requires Inv(stream) && stream.listening
      modifies this
      ensures stream == Next(old(stream), Drained) && Inv(stream)
    {
      StepKeepsInv(stream, Drained);
      stream := Drain(stream);
    }

    method CloseStream()
      requires Inv(stream)
      modifies this
      ensures stream == Next(old(stream), SinkCloses) && Inv(stream) && stream.closed
    {
      StepKeepsInv(stream, SinkCloses);
      stream := Close(stream);
    }
  }

  method AddEach(s: Stream, ids: seq<string>) returns (t: Stream)
    ensures t == AddVaults(s, ids)
  {
    t := s;
    var i := 0;
    while i < |ids|
      invariant 0 <= i <= |ids|
      invariant AddVaults(s, ids) == AddVaults(t, ids[i..])
    {
      t := t.(vaults := t.vaults + {ids[i]});
      if |t.vaults| > MAX_VAULT_IDS_PER_MESSAGE {
        t := t.(account := true);
        return;
      }
      assert ids[i..][1..] == ids[i + 1..];
      i := i + 1;
    }
  }
}
