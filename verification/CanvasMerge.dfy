// The three-way merge of a JSON Canvas: nodes, edges, their orders and the other top-level fields, then the
// checks on the result (src/server/gitService.ts).
module CanvasMerge {
  import opened Common
  import opened Json
  import opened FieldMerge
  import opened CanvasEntries
  import O = CanvasOrder

  // `root` holds the fields other than nodes and edges.
  datatype Canvas = Canvas(nodes: Entries, edges: Entries, nodeOrder: seq<string>, edgeOrder: seq<string>, root: Record)

  datatype CanvasError = Refused(entry: MergeError) | OrderConflict | RootConflict | Dangling | CheckRefused | OrderRefused

  ghost predicate Lists(order: seq<string>, m: Entries) {
    O.Distinct(order) && forall id :: id in order <==> id in m
  }

  predicate Endpoint(f: Field, nodes: Entries) {
    f.Some? && f.value.Str? && f.value.text in nodes
  }

  predicate ValidEdge(e: Record, nodes: Entries) {
    && Endpoint(FieldOf(e, "fromNode"), nodes) && Endpoint(FieldOf(e, "toNode"), nodes)
    && IsString(FieldOf(e, "fromSide")) && IsString(FieldOf(e, "toSide"))
  }

  // An edge joins two nodes there are, and names a side of each.
  lemma EdgeExactly(e: Record, nodes: Entries)
    ensures ValidEdge(e, nodes) <==>
      && (forall f :: f in {"fromNode", "toNode"} ==> f in e && e[f].Str? && e[f].text in nodes)
      && (forall f :: f in {"fromSide", "toSide"} ==> f in e && e[f].Str?)
  {
    if (forall f :: f in {"fromNode", "toNode"} ==> f in e && e[f].Str? && e[f].text in nodes)
      && (forall f :: f in {"fromSide", "toSide"} ==> f in e && e[f].Str?) {
      assert "fromNode" in {"fromNode", "toNode"} && "toNode" in {"fromNode", "toNode"};
      assert "fromSide" in {"fromSide", "toSide"} && "toSide" in {"fromSide", "toSide"};
    }
  }

  predicate ValidNodes(nodes: Entries) {
    forall id :: id in nodes ==> ValidEntry(Node, EntryOf(nodes, id))
  }

  predicate ValidEdges(edges: Entries, nodes: Entries) {
    forall id :: id in edges ==> ValidEdge(edges[id], nodes)
  }

  // What parsing a canvas guarantees.
  ghost predicate WellFormed(c: Canvas) {
    && Lists(c.nodeOrder, c.nodes) && Lists(c.edgeOrder, c.edges) && Keyed(c.nodes) && Keyed(c.edges)
    && ValidNodes(c.nodes) && ValidEdges(c.edges, c.nodes)
  }

  lemma MergedNodesValid(base: Entries, current: Entries, device: Entries, merged: Entries)
    requires ValidNodes(base) && ValidNodes(current) && ValidNodes(device)
    requires MergedAs(Node, base, current, device, Ids(base, current, device), merged)
    ensures ValidNodes(merged)
  {
    hide MergeEntry, ValidEntry;
    forall id | id in merged
      ensures ValidEntry(Node, EntryOf(merged, id))
    {
      assert MergeAt(Node, base, current, device, id).Success?;
      AbsentValid();
      MergedValid(EntryOf(base, id), EntryOf(current, id), EntryOf(device, id));
    }
  }

  lemma AbsentValid()
    ensures ValidEntry(Node, None)
  {
  }

  lemma MergedCoherent(kind: Kind, base: Entries, current: Entries, device: Entries, merged: Entries,
                       baseOrder: seq<string>, currentOrder: seq<string>, deviceOrder: seq<string>)
    requires MergedAs(kind, base, current, device, Ids(base, current, device), merged)
    requires Lists(baseOrder, base) && Lists(currentOrder, current) && Lists(deviceOrder, device)
    ensures O.Coherent(baseOrder, currentOrder, deviceOrder, merged.Keys)
    ensures O.SharedKept(baseOrder, currentOrder, deviceOrder, merged.Keys)
  {
    hide MergeEntry, O.Distinct;
    forall id | id in base && id in current && id in device
      ensures id in merged
    {
      assert MergeAt(kind, base, current, device, id) == Success(EntryOf(merged, id));
      SharedEntryKept(kind, base[id], current[id], device[id]);
    }
    forall id | id in merged
      ensures id in current || id in device
      ensures id in base ==> id in current && id in device
    {
      assert MergeAt(kind, base, current, device, id) == Success(EntryOf(merged, id));
      MergedIdSurvives(kind, EntryOf(base, id), EntryOf(current, id), EntryOf(device, id));
    }
  }

  lemma SharedEntryKept(kind: Kind, base: Record, current: Record, device: Record)
    requires MergeEntry(kind, Some(base), Some(current), Some(device)).Success?
    ensures MergeEntry(kind, Some(base), Some(current), Some(device)).value.Some?
  {
    hide Text, ObjectChanged, AnyConflict, MergedFields, ValidNode;
  }

  // The merge of a collection is one collection.
  lemma MergedUnique(kind: Kind, base: Entries, current: Entries, device: Entries, a: Entries, b: Entries)
    requires MergedAs(kind, base, current, device, Ids(base, current, device), a)
    requires MergedAs(kind, base, current, device, Ids(base, current, device), b)
    ensures a == b
  {
    hide MergeAt;
    forall id | id in Ids(base, current, device)
      ensures EntryOf(a, id) == EntryOf(b, id)
    {
      assert MergeAt(kind, base, current, device, id) == Success(EntryOf(a, id));
      assert MergeAt(kind, base, current, device, id) == Success(EntryOf(b, id));
    }
    assert a.Keys == b.Keys;
  }

  lemma RefusedNotMerged(kind: Kind, base: Entries, current: Entries, device: Entries, id: string, e: MergeError, merged: Entries)
    requires RefusedFirst(kind, base, current, device, id, e)
    ensures !MergedAs(kind, base, current, device, Ids(base, current, device), merged)
  {
    hide MergeAt;
  }

  ghost predicate PartRefused(kind: Kind, base: Entries, current: Entries, device: Entries, e: CanvasError) {
    e == OrderConflict || (e.Refused? && exists id :: RefusedFirst(kind, base, current, device, id, e.entry))
  }

  // One collection with its order.
  method MergePart(kind: Kind, base: Entries, current: Entries, device: Entries,
                   baseOrder: seq<string>, currentOrder: seq<string>, deviceOrder: seq<string>)
    returns (r: Result<(Entries, seq<string>), CanvasError>)
    requires Lists(baseOrder, base) && Lists(currentOrder, current) && Lists(deviceOrder, device)
    ensures r.Success? ==>
      && MergedAs(kind, base, current, device, Ids(base, current, device), r.value.0)
      && O.MergeOrder(baseOrder, currentOrder, deviceOrder, r.value.0.Keys) == Some(r.value.1)
      && Lists(r.value.1, r.value.0)
    ensures r.Failure? ==> PartRefused(kind, base, current, device, r.error)
    ensures r.Failure? ==> forall merged: Entries :: MergedAs(kind, base, current, device, Ids(base, current, device), merged) ==>
      O.MergeOrder(baseOrder, currentOrder, deviceOrder, merged.Keys).None?
  {
    hide MergedAs, RefusedFirst, O.MergeOrder, O.Distinct, O.Coherent, O.Chosen, O.Filter, O.Integrated;
    var merged := MergeCollection(kind, base, current, device);
    if merged.Failure? {
      ghost var id :| RefusedFirst(kind, base, current, device, id, merged.error);
      forall m: Entries
        ensures !MergedAs(kind, base, current, device, Ids(base, current, device), m)
      {
        RefusedNotMerged(kind, base, current, device, id, merged.error, m);
      }
      return Failure(Refused(merged.error));
    }
    forall m: Entries | MergedAs(kind, base, current, device, Ids(base, current, device), m)
      ensures m == merged.value
    {
      MergedUnique(kind, base, current, device, m, merged.value);
    }
    var order := O.MergeCanvasOrder(baseOrder, currentOrder, deviceOrder, merged.value.Keys);
    if order.None? {
      return Failure(OrderConflict);
    }
    MergedCoherent(kind, base, current, device, merged.value, baseOrder, currentOrder, deviceOrder);
    O.MergedOrderExact(baseOrder, currentOrder, deviceOrder, merged.value.Keys);
    return Success((merged.value, order.value));
  }

  // The check of one collection never refuses; that of the orders may.
  method CheckPart(kind: Kind, base: Entries, current: Entries, device: Entries, merged: Entries,
                   baseOrder: seq<string>, currentOrder: seq<string>, deviceOrder: seq<string>, mergedOrder: seq<string>)
    returns (error: Option<CanvasError>)
    requires MergedAs(kind, base, current, device, Ids(base, current, device), merged)
    ensures error == if O.OrderAllowed(baseOrder, currentOrder, deviceOrder, mergedOrder) then None else Some(OrderRefused)
  {
    hide MergedAs, CheckEntry, O.OrderAllowed;
    CheckAcceptsCollection(kind, base, current, device, merged);
    var ok := CheckCollection(base, current, device);
    if !ok {
      return Some(CheckRefused);
    }
    return if O.OrderAllowed(baseOrder, currentOrder, deviceOrder, mergedOrder) then None else Some(OrderRefused);
  }

  // Everything but the closing checks.
  ghost predicate MergedParts(base: Canvas, current: Canvas, device: Canvas, out: Canvas) {
    && MergedAs(Node, base.nodes, current.nodes, device.nodes, Ids(base.nodes, current.nodes, device.nodes), out.nodes)
    && MergedAs(Edge, base.edges, current.edges, device.edges, Ids(base.edges, current.edges, device.edges), out.edges)
    && O.MergeOrder(base.nodeOrder, current.nodeOrder, device.nodeOrder, out.nodes.Keys) == Some(out.nodeOrder)
    && O.MergeOrder(base.edgeOrder, current.edgeOrder, device.edgeOrder, out.edges.Keys) == Some(out.edgeOrder)
    && MergeRecord(base.root, current.root, device.root) == Some(out.root)
  }

  predicate OrdersAllowed(base: Canvas, current: Canvas, device: Canvas, out: Canvas) {
    && O.OrderAllowed(base.nodeOrder, current.nodeOrder, device.nodeOrder, out.nodeOrder)
    && O.OrderAllowed(base.edgeOrder, current.edgeOrder, device.edgeOrder, out.edgeOrder)
  }

  // Each side did something of its own to the order of the base ids, deleted ones included.
  predicate OrdersConflict(base: Canvas, current: Canvas, device: Canvas) {
    || O.Conflict(base.nodeOrder, current.nodeOrder, device.nodeOrder, O.Ids(base.nodeOrder))
    || O.Conflict(base.edgeOrder, current.edgeOrder, device.edgeOrder, O.Ids(base.edgeOrder))
  }

  predicate CleanIds(c: Canvas) {
    O.CleanSet(O.Ids(c.nodeOrder)) && O.CleanSet(O.Ids(c.edgeOrder))
  }

  lemma PartsUnique(base: Canvas, current: Canvas, device: Canvas, a: Canvas, b: Canvas)
    requires MergedParts(base, current, device, a) && MergedParts(base, current, device, b)
    ensures a == b
  {
    hide MergedAs, O.MergeOrder, MergeRecord;
    MergedUnique(Node, base.nodes, current.nodes, device.nodes, a.nodes, b.nodes);
    MergedUnique(Edge, base.edges, current.edges, device.edges, a.edges, b.edges);
  }

  // What the merge of all parts accepted, the order checks refuse exactly for such a conflict.
  lemma OrdersRefusedExactly(base: Canvas, current: Canvas, device: Canvas, out: Canvas)
    requires WellFormed(base) && WellFormed(current) && WellFormed(device) && CleanIds(base)
    requires MergedParts(base, current, device, out)
    ensures OrdersAllowed(base, current, device, out) <==> !OrdersConflict(base, current, device)
  {
    hide MergedAs, O.MergeOrder, O.OrderAllowed, O.Conflict, O.Coherent, O.SharedKept, O.CleanSet, Lists, Keyed, ValidNodes, ValidEdges, MergeRecord;
    MergedCoherent(Node, base.nodes, current.nodes, device.nodes, out.nodes, base.nodeOrder, current.nodeOrder, device.nodeOrder);
    MergedCoherent(Edge, base.edges, current.edges, device.edges, out.edges, base.edgeOrder, current.edgeOrder, device.edgeOrder);
    O.CheckRefusesExactly(base.nodeOrder, current.nodeOrder, device.nodeOrder, out.nodes.Keys);
    O.CheckRefusesExactly(base.edgeOrder, current.edgeOrder, device.edgeOrder, out.edges.Keys);
  }

  // The merge of all parts, short of the closing checks, or the refusal of the first part refused.
  method MergeParts(base: Canvas, current: Canvas, device: Canvas) returns (r: Result<Canvas, CanvasError>)
    requires WellFormed(base) && WellFormed(current) && WellFormed(device)
    ensures r.Success? ==> MergedParts(base, current, device, r.value) && Lists(r.value.nodeOrder, r.value.nodes)
    ensures r.Success? ==> Lists(r.value.edgeOrder, r.value.edges)
    ensures r.Failure? ==> r.error == RootConflict || r.error == OrderConflict || r.error.Refused?
    ensures r.Failure? ==> forall out :: !MergedParts(base, current, device, out)
  {
    hide MergedAs, RefusedFirst, O.MergeOrder, Lists, Keyed, ValidNodes, ValidEdges, MergeRecord;
    var nodes := MergePart(Node, base.nodes, current.nodes, device.nodes, base.nodeOrder, current.nodeOrder, device.nodeOrder);
    if nodes.Failure? {
      return Failure(nodes.error);
    }
    var edges := MergePart(Edge, base.edges, current.edges, device.edges, base.edgeOrder, current.edgeOrder, device.edgeOrder);
    if edges.Failure? {
      return Failure(edges.error);
    }
    var root := MergeRecords(base.root, current.root, device.root);
    if root.None? {
      return Failure(RootConflict);
    }
    return Success(Canvas(nodes.value.0, edges.value.0, nodes.value.1, edges.value.1, root.value));
  }

  // The orders refuse a canvas that every part of the merge, and the edges' endpoints, allow.
  ghost predicate OnlyOrdersRefuse(base: Canvas, current: Canvas, device: Canvas) {
    exists out :: MergedParts(base, current, device, out) && ValidEdges(out.edges, out.nodes) && !OrdersAllowed(base, current, device, out)
  }

  // Every part merges, every edge of the merge has its endpoints, and the orders pass their checks.
  ghost predicate Mergeable(base: Canvas, current: Canvas, device: Canvas) {
    exists out :: MergedParts(base, current, device, out) && ValidEdges(out.edges, out.nodes) && OrdersAllowed(base, current, device, out)
  }

  // The parts merge to an edge that lost an endpoint.
  ghost predicate Dangles(base: Canvas, current: Canvas, device: Canvas) {
    exists out :: MergedParts(base, current, device, out) && !ValidEdges(out.edges, out.nodes)
  }

  // The whole file. A merged canvas is well-formed and is the merge of every part; the check of entries and
  // the check of nodes can never be what refuses it, and the checks of the orders refuse it exactly when
  // they fail what the merge accepted: with ids the texts can tell apart, exactly for a conflict of orders.
  method MergeCanvas(base: Canvas, current: Canvas, device: Canvas) returns (r: Result<Canvas, CanvasError>)
    requires WellFormed(base) && WellFormed(current) && WellFormed(device)
    ensures r.Success? ==> WellFormed(r.value) && MergedParts(base, current, device, r.value)
    ensures r.Success? ==> OrdersAllowed(base, current, device, r.value)
    ensures r.Success? <==> Mergeable(base, current, device)
    ensures r == Failure(Dangling) <==> Dangles(base, current, device)
    ensures r != Failure(CheckRefused)
    ensures r == Failure(OrderRefused) <==> OnlyOrdersRefuse(base, current, device)
    ensures CleanIds(base) && (r.Success? || r == Failure(OrderRefused)) ==>
      (r == Failure(OrderRefused) <==> OrdersConflict(base, current, device))
  {
    hide MergedParts, WellFormed, OrdersAllowed, OrdersConflict, ValidEdge, CleanIds;
    var parts := MergeParts(base, current, device);
    if parts.Failure? {
      return Failure(parts.error);
    }
    var out := parts.value;
    forall other | MergedParts(base, current, device, other)
      ensures other == out
    {
      PartsUnique(base, current, device, other, out);
    }
    if !ValidEdges(out.edges, out.nodes) {
      return Failure(Dangling);
    }
    if CleanIds(base) {
      OrdersRefusedExactly(base, current, device, out);
    }
    MergedWellFormed(base, current, device, out);
    var refusal := CheckMerged(base, current, device, out);
    if refusal.Some? {
      return Failure(refusal.value);
    }
    return Success(out);
  }

  lemma MergedWellFormed(base: Canvas, current: Canvas, device: Canvas, out: Canvas)
    requires WellFormed(base) && WellFormed(current) && WellFormed(device) && MergedParts(base, current, device, out)
    requires Lists(out.nodeOrder, out.nodes) && Lists(out.edgeOrder, out.edges) && ValidEdges(out.edges, out.nodes)
    ensures WellFormed(out)
  {
    hide MergedAs, O.MergeOrder, Lists, Keyed, ValidNodes, ValidEdges, MergeRecord;
    MergedKeyed(Node, base.nodes, current.nodes, device.nodes, out.nodes);
    MergedKeyed(Edge, base.edges, current.edges, device.edges, out.edges);
    MergedNodesValid(base.nodes, current.nodes, device.nodes, out.nodes);
  }

  // The closing checks of both collections.
  method CheckMerged(base: Canvas, current: Canvas, device: Canvas, out: Canvas) returns (error: Option<CanvasError>)
    requires MergedParts(base, current, device, out)
    ensures error == if OrdersAllowed(base, current, device, out) then None else Some(OrderRefused)
  {
    hide MergedAs, O.MergeOrder, O.OrderAllowed, MergeRecord;
    error := CheckPart(Node, base.nodes, current.nodes, device.nodes, out.nodes,
                       base.nodeOrder, current.nodeOrder, device.nodeOrder, out.nodeOrder);
    if error.Some? {
      return;
    }
    error := CheckPart(Edge, base.edges, current.edges, device.edges, out.edges,
                       base.edgeOrder, current.edgeOrder, device.edgeOrder, out.edgeOrder);
  }
}
