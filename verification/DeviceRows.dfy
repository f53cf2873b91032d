// The metadata rows that name a device, and the staged sweeps that erase them when the device is removed
// for good (src/server/deviceRemovalService.ts).
module DeviceRows {
  import opened Common

  datatype Token = Token(id: string, device: string)

  datatype Connection = Connection(id: string, creator: Option<string>)

  datatype Diagnostic = Diagnostic(id: string, device: Option<string>, connection: Option<string>)

  datatype Proposal = Proposal(id: string, device: string)

  datatype Tables = Tables(
    tokens: seq<Token>,
    connections: seq<Connection>,
    diagnostics: seq<Diagnostic>,
    proposals: seq<Proposal>)

  function Keep<T>(rows: seq<T>, p: T -> bool): seq<T> {
    if rows == [] then [] else (if p(rows[0]) then [rows[0]] else []) + Keep(rows[1..], p)
  }

  // The connections a device created.
  function Owned(connections: seq<Connection>, device: string): set<string> {
    set c | c in connections && c.creator == Some(device) :: c.id
  }

  predicate OnOwned(d: Diagnostic, owned: set<string>) {
    d.connection.Some? && d.connection.value in owned
  }

  datatype Sweep = Credentials | Connections | Bookkeeping

  function SweepRows(t: Tables, device: string, sweep: Sweep): Tables {
    match sweep
    case Credentials => t.(tokens := Keep(t.tokens, (x: Token) => x.device != device))
    case Connections =>
      var owned := Owned(t.connections, device);
      t.(connections := Keep(t.connections, (c: Connection) => c.id !in owned),
         diagnostics := Keep(t.diagnostics, (d: Diagnostic) => !OnOwned(d, owned)))
    case Bookkeeping =>
      t.(diagnostics := Keep(t.diagnostics, (d: Diagnostic) => d.device != Some(device)),
         proposals := Keep(t.proposals, (p: Proposal) => p.device != device))
  }

  // The rows part of the completing commit: everything again, at once.
  function Cleared(t: Tables, device: string): Tables {
    var owned := Owned(t.connections, device);
    Tables(
      Keep(t.tokens, (x: Token) => x.device != device),
      Keep(t.connections, (c: Connection) => c.id !in owned),
      Keep(t.diagnostics, (d: Diagnostic) => d.device != Some(device) && !OnOwned(d, owned)),
      Keep(t.proposals, (p: Proposal) => p.device != device))
  }

  lemma {:induction false} KeepMembers<T>(rows: seq<T>, p: T -> bool)
    ensures forall x :: x in Keep(rows, p) <==> x in rows && p(x)
  {
    if rows != [] {
      KeepMembers(rows[1..], p);
      assert rows == [rows[0]] + rows[1..];
    }
  }

  // Keeping twice is keeping once what passes both.
  lemma {:induction false} KeepTwice<T>(rows: seq<T>, p: T -> bool, q: T -> bool, both: T -> bool)
    requires forall x :: x in rows ==> (both(x) <==> p(x) && q(x))
    ensures Keep(Keep(rows, p), q) == Keep(rows, both)
  {
    if rows != [] {
      var first, rest := rows[0], rows[1..];
      KeepTwice(rest, p, q, both);
      assert rows == [first] + rest;
      var kept := Keep(rest, p);
      assert Keep(rows, p) == if p(first) then [first] + kept else kept;
      assert ([first] + kept)[1..] == kept;
      assert Keep([first] + kept, q) == (if q(first) then [first] else []) + Keep(kept, q);
    }
  }

  lemma OwnedAfterSweep(connections: seq<Connection>, device: string)
    ensures var owned := Owned(connections, device);
      Owned(Keep(connections, (c: Connection) => c.id !in owned), device) == {}
  {
    var owned := Owned(connections, device);
    KeepMembers(connections, (c: Connection) => c.id !in owned);
  }

  lemma SweepCredentialsAbsorbed(t: Tables, device: string)
    ensures Cleared(SweepRows(t, device, Credentials), device) == Cleared(t, device)
  {
    var p := (x: Token) => x.device != device;
    KeepTwice(t.tokens, p, p, p);
  }

  lemma SweepConnectionsAbsorbed(t: Tables, device: string)
    ensures Cleared(SweepRows(t, device, Connections), device) == Cleared(t, device)
  {
    hide Keep;
    var owned := Owned(t.connections, device);
    OwnedAfterSweep(t.connections, device);
    var swept := Owned(SweepRows(t, device, Connections).connections, device);
    assert swept == {};
    KeepTwice(t.connections, (c: Connection) => c.id !in owned, (c: Connection) => c.id !in swept, (c: Connection) => c.id !in owned);
    KeepTwice(t.diagnostics, (d: Diagnostic) => !OnOwned(d, owned),
              (d: Diagnostic) => d.device != Some(device) && !OnOwned(d, swept),
              (d: Diagnostic) => d.device != Some(device) && !OnOwned(d, owned));
  }

  lemma SweepBookkeepingAbsorbed(t: Tables, device: string)
    ensures Cleared(SweepRows(t, device, Bookkeeping), device) == Cleared(t, device)
  {
    hide Keep;
    var owned := Owned(t.connections, device);
    var p := (x: Proposal) => x.device != device;
    KeepTwice(t.proposals, p, p, p);
    KeepTwice(t.diagnostics, (d: Diagnostic) => d.device != Some(device),
              (d: Diagnostic) => d.device != Some(device) && !OnOwned(d, owned),
              (d: Diagnostic) => d.device != Some(device) && !OnOwned(d, owned));
  }

  lemma SweepAbsorbed(t: Tables, device: string, sweep: Sweep)
    ensures Cleared(SweepRows(t, device, sweep), device) == Cleared(t, device)
  {
    hide Cleared, SweepRows;
    match sweep
    case Credentials => SweepCredentialsAbsorbed(t, device);
    case Connections => SweepConnectionsAbsorbed(t, device);
    case Bookkeeping => SweepBookkeepingAbsorbed(t, device);
  }

  function Swept(t: Tables, device: string, sweeps: seq<Sweep>): Tables
    decreases |sweeps|
  {
    if sweeps == [] then t else Swept(SweepRows(t, device, sweeps[0]), device, sweeps[1..])
  }

  // Cleanup may stop and begin again at any point: whichever sweeps were made, and however often, the
  // completing commit leaves the same rows.
  lemma {:induction false} CleanupReplays(t: Tables, device: string, sweeps: seq<Sweep>)
    ensures Cleared(Swept(t, device, sweeps), device) == Cleared(t, device)
    decreases |sweeps|
  {
    hide Cleared, SweepRows;
    if sweeps != [] {
      SweepAbsorbed(t, device, sweeps[0]);
      CleanupReplays(SweepRows(t, device, sweeps[0]), device, sweeps[1..]);
    }
  }

  predicate NamesNothing(t: Tables, device: string) {
    && (forall x :: x in t.tokens ==> x.device != device)
    && (forall c :: c in t.connections ==> c.creator != Some(device))
    && (forall d :: d in t.diagnostics ==> d.device != Some(device))
    && (forall p :: p in t.proposals ==> p.device != device)
  }

  // The device created a connection of this name.
  predicate CreatedBy(t: Tables, device: string, id: string) {
    exists c :: c in t.connections && c.creator == Some(device) && c.id == id
  }

  predicate OnCreated(t: Tables, device: string, d: Diagnostic) {
    d.connection.Some? && CreatedBy(t, device, d.connection.value)
  }

  lemma OwnedExactly(t: Tables, device: string, id: string)
    ensures id in Owned(t.connections, device) <==> CreatedBy(t, device, id)
  {
  }

  // The completing commit keeps exactly the rows that name neither the device nor a connection it created.
  lemma ClearedExactly(t: Tables, device: string)
    ensures NamesNothing(Cleared(t, device), device)
    ensures forall x :: x in Cleared(t, device).tokens <==> x in t.tokens && x.device != device
    ensures forall c :: c in Cleared(t, device).connections <==> c in t.connections && !CreatedBy(t, device, c.id)
    ensures forall d :: d in Cleared(t, device).diagnostics <==>
      d in t.diagnostics && d.device != Some(device) && !OnCreated(t, device, d)
    ensures forall p :: p in Cleared(t, device).proposals <==> p in t.proposals && p.device != device
  {
    hide Keep, Owned, CreatedBy;
    var owned := Owned(t.connections, device);
    forall id
      ensures id in owned <==> CreatedBy(t, device, id)
    {
      OwnedExactly(t, device, id);
    }
    forall c | c in t.connections && c.creator == Some(device)
      ensures CreatedBy(t, device, c.id)
    {
      Creates(t, device, c);
    }
    KeepMembers(t.tokens, (x: Token) => x.device != device);
    KeepMembers(t.connections, (c: Connection) => c.id !in owned);
    KeepMembers(t.diagnostics, (d: Diagnostic) => d.device != Some(device) && !OnOwned(d, owned));
    KeepMembers(t.proposals, (p: Proposal) => p.device != device);
  }

  lemma Creates(t: Tables, device: string, c: Connection)
    requires c in t.connections && c.creator == Some(device)
    ensures CreatedBy(t, device, c.id)
  {
  }

  // Each sweep erases its own part of that, and nothing else.
  lemma SweepExactly(t: Tables, device: string, sweep: Sweep)
    ensures var after := SweepRows(t, device, sweep);
      && (forall x :: x in after.tokens <==> x in t.tokens && (sweep == Credentials ==> x.device != device))
      && (forall c :: c in after.connections <==> c in t.connections && (sweep == Connections ==> !CreatedBy(t, device, c.id)))
      && (forall d :: d in after.diagnostics <==>
            && d in t.diagnostics && (sweep == Connections ==> !OnCreated(t, device, d))
            && (sweep == Bookkeeping ==> d.device != Some(device)))
      && (forall p :: p in after.proposals <==> p in t.proposals && (sweep == Bookkeeping ==> p.device != device))
  {
    hide Keep, Owned, CreatedBy;
    var owned := Owned(t.connections, device);
    forall id
      ensures id in owned <==> CreatedBy(t, device, id)
    {
      OwnedExactly(t, device, id);
    }
    KeepMembers(t.tokens, (x: Token) => x.device != device);
    KeepMembers(t.connections, (c: Connection) => c.id !in owned);
    KeepMembers(t.diagnostics, (d: Diagnostic) => !OnOwned(d, owned));
    KeepMembers(t.diagnostics, (d: Diagnostic) => d.device != Some(device));
    KeepMembers(t.proposals, (p: Proposal) => p.device != device);
  }
}
