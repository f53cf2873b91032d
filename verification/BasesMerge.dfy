// Three-way merge of an Obsidian Bases file: named maps entry by entry, views by type and name, other
// fields atomically (src/server/gitService.ts).
module BasesMerge {
  import opened Common
  import opened Json
  import opened FieldMerge
  import O = CanvasOrder

  datatype Reason = ConcurrentAdditions | DeleteVsEdit | ConcurrentEdits | UnknownViewKey | RestrictedViewKey(field: string) | ViewReorder

  // What is refused, and where.
  datatype Refusal = Refusal(path: seq<string>, reason: Reason)

  type Merged<T> = Result<T, Refusal>

  const RESTRICTED_CONCURRENT_VIEW_KEYS: seq<string> := ["type", "name", "filters", "order"]

  const KNOWN_VIEW_KEYS: set<string> := {
    "type", "name", "filters", "order", "sort", "limit", "columns", "properties", "formulas", "summaries",
    "group", "groupBy", "image", "display"
  }

  // ----- One entry -----

  function FailingFields(base: Record, current: Record, device: Record): set<string> {
    set k | k in Keys(base, current, device) && MergeKey(base, current, device, k).None?
  }

  lemma RefusalFails(base: Record, current: Record, device: Record)
    requires MergeRecord(base, current, device).None?
    ensures FailingFields(base, current, device) != {}
  {
    hide StableJson, MergeKey;
    var k :| k in Keys(base, current, device) && MergeKey(base, current, device, k).None?;
    assert k in FailingFields(base, current, device);
  }

  // Field by field; the first field that conflicts is reported.
  function MergeNested(base: Record, current: Record, device: Record): Merged<Field> {
    var merged := MergeRecord(base, current, device);
    if merged.Some? then Success(Some(Obj(merged.value)))
    else
      RefusalFails(base, current, device);
      Failure(Refusal([First(FailingFields(base, current, device))], ConcurrentEdits))
  }

  predicate BothObjects(base: Json, current: Json, device: Json) {
    base.Obj? && current.Obj? && device.Obj?
  }

  // An entry of formulas, properties or summaries.
  function MergeMapEntry(base: Field, current: Field, device: Field): Merged<Field> {
    if FieldText(current) == FieldText(base) then Success(device)
    else if FieldText(device) == FieldText(base) then Success(current)
    else if FieldText(current) == FieldText(device) then Success(current)
    else if base.None? then Failure(Refusal([], ConcurrentAdditions))
    else if current.None? || device.None? then Failure(Refusal([], DeleteVsEdit))
    else if BothObjects(base.value, current.value, device.value) then
      MergeNested(base.value.fields, current.value.fields, device.value.fields)
    else Failure(Refusal([], ConcurrentEdits))
  }

  function ChangedKeys(base: Record, side: Record): set<string> {
    set k | k in base.Keys + side.Keys && TextAt(base, k) != TextAt(side, k)
  }

  // The first of the fields that may not be changed on both sides at once.
  function FirstRestricted(changed: set<string>, fields: seq<string>): Option<string> {
    if fields == [] then None else if fields[0] in changed then Some(fields[0]) else FirstRestricted(changed, fields[1..])
  }

  function MergeViewObject(base: Record, current: Record, device: Record): Merged<Field> {
    var (ours, theirs) := (ChangedKeys(base, current), ChangedKeys(base, device));
    var changed := ours + theirs;
    var restricted := FirstRestricted(changed, RESTRICTED_CONCURRENT_VIEW_KEYS);
    if ours != {} && theirs != {} && !(changed <= KNOWN_VIEW_KEYS) then Failure(Refusal([], UnknownViewKey))
    else if ours != {} && theirs != {} && restricted.Some? then Failure(Refusal([], RestrictedViewKey(restricted.value)))
    else MergeNested(base, current, device)
  }

  function MergeViewEntry(base: Field, current: Field, device: Field): Merged<Field> {
    if FieldText(current) == FieldText(base) then Success(device)
    else if FieldText(device) == FieldText(base) then Success(current)
    else if FieldText(current) == FieldText(device) then Success(current)
    else if base.None? then Failure(Refusal([], ConcurrentAdditions))
    else if current.None? || device.None? then Failure(Refusal([], DeleteVsEdit))
    else if BothObjects(base.value, current.value, device.value) then
      MergeViewObject(base.value.fields, current.value.fields, device.value.fields)
    else Failure(Refusal([], ConcurrentEdits))
  }

  predicate SameField(a: Merged<Field>, b: Merged<Field>) {
    match a
    case Success(f) => b.Success? && FieldText(f) == FieldText(b.value)
    case Failure(e) => b.Failure? && b.error == e
  }

  lemma FailingSymmetric(base: Record, current: Record, device: Record)
    ensures FailingFields(base, current, device) == FailingFields(base, device, current)
  {
    hide StableJson, MergeAtomic;
    forall k
      ensures MergeKey(base, current, device, k).None? <==> MergeKey(base, device, current, k).None?
    {
      AtomicMeaning(FieldOf(base, k), FieldOf(current, k), FieldOf(device, k));
    }
  }

  lemma NestedSymmetric(base: Record, current: Record, device: Record)
    ensures SameField(MergeNested(base, current, device), MergeNested(base, device, current))
  {
    hide StableJson, MergeRecord, FailingFields;
    FailingSymmetric(base, current, device);
    RecordSymmetric(base, current, device);
  }

  lemma EntrySymmetric(base: Field, current: Field, device: Field)
    ensures SameField(MergeMapEntry(base, current, device), MergeMapEntry(base, device, current))
  {
    hide StableJson, MergeNested;
    if base.Some? && current.Some? && device.Some? && BothObjects(base.value, current.value, device.value) {
      NestedSymmetric(base.value.fields, current.value.fields, device.value.fields);
    }
  }

  lemma ViewObjectSymmetric(base: Record, current: Record, device: Record)
    ensures SameField(MergeViewObject(base, current, device), MergeViewObject(base, device, current))
  {
    hide StableJson, MergeNested, ChangedKeys, FirstRestricted;
    NestedSymmetric(base, current, device);
    assert ChangedKeys(base, current) + ChangedKeys(base, device) == ChangedKeys(base, device) + ChangedKeys(base, current);
  }

  lemma ViewSymmetric(base: Field, current: Field, device: Field)
    ensures SameField(MergeViewEntry(base, current, device), MergeViewEntry(base, device, current))
  {
    hide StableJson, MergeViewObject;
    if base.Some? && current.Some? && device.Some? && BothObjects(base.value, current.value, device.value) {
      ViewObjectSymmetric(base.value.fields, current.value.fields, device.value.fields);
    }
  }

  // ----- Named maps -----

  function OrEmpty(m: Option<Record>): Record {
    if m.Some? then m.value else map[]
  }

  function EntryAt(base: Record, current: Record, device: Record, k: string): Merged<Field> {
    MergeMapEntry(FieldOf(base, k), FieldOf(current, k), FieldOf(device, k))
  }

  function FailingEntries(base: Record, current: Record, device: Record): set<string> {
    set k | k in Keys(base, current, device) && EntryAt(base, current, device, k).Failure?
  }

  function Under(k: string, e: Refusal): Refusal {
    e.(path := [k] + e.path)
  }

  function EntriesOver(base: Record, current: Record, device: Record, keys: set<string>): Record {
    map k | k in keys && EntryAt(base, current, device, k).Success? && EntryAt(base, current, device, k).value.Some?
      :: EntryAt(base, current, device, k).value.value
  }

  function MergedEntries(base: Record, current: Record, device: Record): Record {
    EntriesOver(base, current, device, Keys(base, current, device))
  }

  function MergeNamedMap(base: Option<Record>, current: Option<Record>, device: Option<Record>): Merged<Option<Record>> {
    var (b, c, d) := (OrEmpty(base), OrEmpty(current), OrEmpty(device));
    if base.None? && current.None? && device.None? then Success(None)
    else
      var failing := FailingEntries(b, c, d);
      if failing == {} then Success(Some(MergedEntries(b, c, d)))
      else Failure(Under(First(failing), EntryAt(b, c, d, First(failing)).error))
  }

  predicate SameRecord(a: Merged<Option<Record>>, b: Merged<Option<Record>>) {
    match a
    case Success(r) => b.Success? && RecordText(r) == RecordText(b.value)
    case Failure(e) => b.Failure? && b.error == e
  }

  lemma EntriesSymmetric(b: Record, c: Record, d: Record)
    ensures FailingEntries(b, c, d) == FailingEntries(b, d, c)
    ensures FailingEntries(b, c, d) == {} ==> Text(MergedEntries(b, c, d)) == Text(MergedEntries(b, d, c))
  {
    hide StableJson, Text, MergeMapEntry;
    forall k
      ensures SameField(EntryAt(b, c, d, k), EntryAt(b, d, c, k))
    {
      EntrySymmetric(FieldOf(b, k), FieldOf(c, k), FieldOf(d, k));
    }
    if FailingEntries(b, c, d) == {} {
      MergedEntriesAlike(b, c, d);
    }
  }

  lemma MergedEntriesAt(b: Record, c: Record, d: Record, k: string)
    requires FailingEntries(b, c, d) == {}
    ensures EntryAt(b, c, d, k) == Success(FieldOf(MergedEntries(b, c, d), k))
  {
    hide StableJson, MergeNested;
    assert k in Keys(b, c, d) ==> (EntryAt(b, c, d, k).Failure? ==> k in FailingEntries(b, c, d));
  }

  lemma MergedEntriesAlike(b: Record, c: Record, d: Record)
    requires FailingEntries(b, c, d) == {} && FailingEntries(b, d, c) == {}
    ensures Text(MergedEntries(b, c, d)) == Text(MergedEntries(b, d, c))
  {
    hide StableJson, Text, MergeMapEntry, MergedEntries, FailingEntries;
    forall k
      ensures TextAt(MergedEntries(b, c, d), k) == TextAt(MergedEntries(b, d, c), k)
    {
      MergedEntriesAt(b, c, d, k);
      MergedEntriesAt(b, d, c, k);
      EntrySymmetric(FieldOf(b, k), FieldOf(c, k), FieldOf(d, k));
    }
    TextFields(MergedEntries(b, c, d), MergedEntries(b, d, c));
  }

  lemma NamedMapSymmetric(base: Option<Record>, current: Option<Record>, device: Option<Record>)
    ensures SameRecord(MergeNamedMap(base, current, device), MergeNamedMap(base, device, current))
  {
    hide StableJson, Text, MergeMapEntry, MergedEntries, FailingEntries;
    var (b, c, d) := (OrEmpty(base), OrEmpty(current), OrEmpty(device));
    EntriesSymmetric(b, c, d);
    if FailingEntries(b, c, d) != {} {
      var k := First(FailingEntries(b, c, d));
      EntrySymmetric(FieldOf(b, k), FieldOf(c, k), FieldOf(d, k));
      FailingFails(b, c, d, k);
    }
  }

  lemma FailingFails(b: Record, c: Record, d: Record, k: string)
    requires k in FailingEntries(b, c, d)
    ensures EntryAt(b, c, d, k).Failure?
  {
  }

  // With one side unchanged a map merges to the other side's entries.
  lemma NamedMapUnit(base: Option<Record>, side: Option<Record>)
    ensures var merged := MergeNamedMap(base, base, side);
      && merged.Success? && (merged.value.None? <==> base.None? && side.None?)
      && Text(OrEmpty(merged.value)) == Text(OrEmpty(side))
  {
    hide StableJson, Text, MergeNested;
    var (b, d) := (OrEmpty(base), OrEmpty(side));
    forall k
      ensures EntryAt(b, b, d, k) == Success(FieldOf(d, k))
    {
    }
    assert FailingEntries(b, b, d) == {};
    assert MergedEntries(b, b, d) == d;
  }

  // ----- Views -----

  // The views by key, a key being type and name together, and the order of the keys.
  datatype Views = Views(present: bool, byKey: map<string, Record>, order: seq<string>)

  predicate ValidViews(v: Views) {
    && O.Distinct(v.order) && O.Ids(v.order) == v.byKey.Keys
    && (!v.present ==> v.order == [])
  }

  function ViewState(v: Views, key: string): Field {
    if key in v.byKey then Some(Obj(v.byKey[key])) else None
  }

  predicate Reordered(base: Views, side: Views) {
    O.Filter(base.order, side.byKey.Keys) != O.Filter(side.order, O.Ids(base.order))
  }

  function Additions(base: Views, current: Views, device: Views): set<string> {
    (O.Ids(current.order) + O.Ids(device.order)) - O.Ids(base.order)
  }

  function ViewAt(base: Views, current: Views, device: Views, key: string): Merged<Field> {
    MergeViewEntry(ViewState(base, key), ViewState(current, key), ViewState(device, key))
  }

  function Listed(f: Field): seq<Record> {
    if f.Some? && f.value.Obj? then [f.value.fields] else []
  }

  // The views of `keys`, in order, after those already listed.
  function ViewList(base: Views, current: Views, device: Views, keys: seq<string>, listed: seq<Record>): Merged<seq<Record>>
    decreases |keys|
  {
    if keys == [] then Success(listed)
    else
      var view := ViewAt(base, current, device, keys[0]);
      if view.Failure? then Failure(Under(keys[0], view.error))
      else ViewList(base, current, device, keys[1..], listed + Listed(view.value))
  }

  function ViewKeys(base: Views, current: Views, device: Views): seq<string> {
    base.order + Sorted(Additions(base, current, device))
  }

  function MergeViews(base: Views, current: Views, device: Views): Merged<Option<seq<Record>>> {
    if !base.present && !current.present && !device.present then Success(None)
    else if Reordered(base, current) || Reordered(base, device) then Failure(Refusal(["views"], ViewReorder))
    else
      var list := ViewList(base, current, device, ViewKeys(base, current, device), []);
      if list.Failure? then Failure(list.error) else Success(Some(list.value))
  }

  predicate AlikeLists(a: seq<Record>, b: seq<Record>) {
    |a| == |b| && forall i :: 0 <= i < |a| ==> Text(a[i]) == Text(b[i])
  }

  predicate SameList(a: Merged<seq<Record>>, b: Merged<seq<Record>>) {
    match a
    case Success(list) => b.Success? && AlikeLists(list, b.value)
    case Failure(e) => b.Failure? && b.error == e
  }

  predicate SameViews(a: Merged<Option<seq<Record>>>, b: Merged<Option<seq<Record>>>) {
    match a
    case Success(None) => b == Success(None)
    case Success(Some(list)) => b.Success? && b.value.Some? && AlikeLists(list, b.value.value)
    case Failure(e) => b.Failure? && b.error == e
  }

  lemma ListedAlike(f: Field, g: Field)
    requires FieldText(f) == FieldText(g)
    ensures AlikeLists(Listed(f), Listed(g))
  {
    hide StableJson;
    if f.Some? {
      StableJsonCanonical(f.value, g.value);
      assert Plain(f.value).Obj? <==> f.value.Obj?;
      assert Plain(g.value).Obj? <==> g.value.Obj?;
    }
  }

  lemma AlikeAppend(a: seq<Record>, b: seq<Record>, x: seq<Record>, y: seq<Record>)
    requires AlikeLists(a, b) && AlikeLists(x, y)
    ensures AlikeLists(a + x, b + y)
  {
    hide Text;
  }

  lemma {:induction false} ListSymmetric(base: Views, current: Views, device: Views, keys: seq<string>, x: seq<Record>, y: seq<Record>)
    requires AlikeLists(x, y)
    ensures SameList(ViewList(base, current, device, keys, x), ViewList(base, device, current, keys, y))
    decreases |keys|
  {
    hide StableJson, MergeViewEntry, ViewState, AlikeLists, Listed;
    if keys != [] {
      var key := keys[0];
      ViewSymmetric(ViewState(base, key), ViewState(current, key), ViewState(device, key));
      var a, b := ViewAt(base, current, device, key), ViewAt(base, device, current, key);
      if a.Success? {
        ListedAlike(a.value, b.value);
        AlikeAppend(x, y, Listed(a.value), Listed(b.value));
        ListSymmetric(base, current, device, keys[1..], x + Listed(a.value), y + Listed(b.value));
      }
    }
  }

  // Swapping the sides gives the same views in the same order, or the same refusal.
  lemma ViewsSymmetric(base: Views, current: Views, device: Views)
    ensures SameViews(MergeViews(base, current, device), MergeViews(base, device, current))
  {
    hide StableJson, ViewList, Reordered, Text;
    assert Additions(base, current, device) == Additions(base, device, current);
    ListSymmetric(base, current, device, ViewKeys(base, current, device), [], []);
  }

  // ----- Documents -----

  // A parsed Bases document. `other` holds the fields the merge does not know.
  datatype Doc = Doc(
    filters: Field,
    formulas: Option<Record>,
    properties: Option<Record>,
    summaries: Option<Record>,
    views: Views,
    other: Record)

  datatype Output = Output(
    filters: Field,
    formulas: Option<Record>,
    properties: Option<Record>,
    summaries: Option<Record>,
    views: Option<seq<Record>>,
    other: Record)

  function MergeFilters(base: Doc, current: Doc, device: Doc): Merged<Field> {
    var merged := MergeAtomic(base.filters, current.filters, device.filters);
    if merged.Some? then Success(merged.value) else Failure(Refusal(["filters"], ConcurrentEdits))
  }

  function MergeOther(base: Doc, current: Doc, device: Doc): Merged<Record> {
    var merged := MergeRecord(base.other, current.other, device.other);
    if merged.Some? then Success(merged.value)
    else
      RefusalFails(base.other, current.other, device.other);
      Failure(Refusal([First(FailingFields(base.other, current.other, device.other))], ConcurrentEdits))
  }

  function Stage<T>(field: string, r: Merged<T>): Merged<T> {
    if r.Failure? then Failure(Under(field, r.error)) else r
  }

  // The first refusal, in the order the fields are merged.
  function Merge(base: Doc, current: Doc, device: Doc): Merged<Output> {
    var filters := MergeFilters(base, current, device);
    var formulas := Stage("formulas", MergeNamedMap(base.formulas, current.formulas, device.formulas));
    var properties := Stage("properties", MergeNamedMap(base.properties, current.properties, device.properties));
    var summaries := Stage("summaries", MergeNamedMap(base.summaries, current.summaries, device.summaries));
    var views := MergeViews(base.views, current.views, device.views);
    var other := MergeOther(base, current, device);
    if filters.Failure? then Failure(filters.error)
    else if formulas.Failure? then Failure(formulas.error)
    else if properties.Failure? then Failure(properties.error)
    else if summaries.Failure? then Failure(summaries.error)
    else if views.Failure? then Failure(views.error)
    else if other.Failure? then Failure(other.error)
    else Success(Output(filters.value, formulas.value, properties.value, summaries.value, views.value, other.value))
  }

  // The same canonical document: every part has the same text, and the views are in the same order.
  predicate AlikeOutputs(a: Output, b: Output) {
    && FieldText(a.filters) == FieldText(b.filters)
    && RecordText(a.formulas) == RecordText(b.formulas)
    && RecordText(a.properties) == RecordText(b.properties)
    && RecordText(a.summaries) == RecordText(b.summaries)
    && a.views.Some? == b.views.Some? && (a.views.Some? ==> AlikeLists(a.views.value, b.views.value))
    && Text(a.other) == Text(b.other)
  }

  predicate SameMerge(a: Merged<Output>, b: Merged<Output>) {
    match a
    case Success(out) => b.Success? && AlikeOutputs(out, b.value)
    case Failure(e) => b.Failure? && b.error == e
  }

  lemma OtherSymmetric(base: Doc, current: Doc, device: Doc)
    ensures var (a, b) := (MergeOther(base, current, device), MergeOther(base, device, current));
      && (a.Failure? ==> b == a)
      && (a.Success? ==> b.Success? && Text(a.value) == Text(b.value))
  {
    hide StableJson, MergeRecord, FailingFields;
    FailingSymmetric(base.other, current.other, device.other);
    RecordSymmetric(base.other, current.other, device.other);
  }

  // Swapping the server's side and the device's gives the same canonical document, or the same refusal.
  lemma MergeIsSymmetric(base: Doc, current: Doc, device: Doc)
    ensures SameMerge(Merge(base, current, device), Merge(base, device, current))
  {
    hide StableJson, Text, MergeNamedMap, MergeViews, MergeOther, AlikeLists;
    AtomicMeaning(base.filters, current.filters, device.filters);
    NamedMapSymmetric(base.formulas, current.formulas, device.formulas);
    NamedMapSymmetric(base.properties, current.properties, device.properties);
    NamedMapSymmetric(base.summaries, current.summaries, device.summaries);
    ViewsSymmetric(base.views, current.views, device.views);
    OtherSymmetric(base, current, device);
  }

  // ----- One side unchanged -----

  function Present(v: Views, keys: seq<string>): seq<Record> {
    if keys == [] then [] else (if keys[0] in v.byKey then [v.byKey[keys[0]]] else []) + Present(v, keys[1..])
  }

  lemma PresentCons(v: Views, key: string, rest: seq<string>)
    ensures Present(v, [key] + rest) == if key in v.byKey then [v.byKey[key]] + Present(v, rest) else Present(v, rest)
  {
    assert ([key] + rest)[1..] == rest;
  }

  lemma ViewAtUnit(base: Views, side: Views, key: string)
    ensures ViewAt(base, base, side, key) == Success(ViewState(side, key))
    ensures Listed(ViewState(side, key)) == if key in side.byKey then [side.byKey[key]] else []
  {
    hide StableJson, MergeViewObject;
  }

  lemma {:induction false} ListUnit(base: Views, side: Views, keys: seq<string>, listed: seq<Record>)
    ensures ViewList(base, base, side, keys, listed) == Success(listed + Present(side, keys))
    decreases |keys|
  {
    hide ViewAt, ViewState, Listed;
    if keys == [] {
      assert listed + Present(side, keys) == listed;
    } else {
      var key, rest := keys[0], keys[1..];
      assert keys == [key] + rest;
      ViewAtUnit(base, side, key);
      PresentCons(side, key, rest);
      var view := Listed(ViewState(side, key));
      ListUnit(base, side, rest, listed + view);
      assert listed + (view + Present(side, rest)) == listed + view + Present(side, rest);
    }
  }

  lemma {:induction false} PresentConcat(v: Views, a: seq<string>, b: seq<string>)
    ensures Present(v, a + b) == Present(v, a) + Present(v, b)
  {
    hide Present;
    assert Present(v, []) == [] by { PresentNone(v); }
    if a == [] {
      assert a + b == b;
    } else {
      var rest := a[1..];
      PresentConcat(v, rest, b);
      assert a + b == [a[0]] + (rest + b);
      PresentCons(v, a[0], rest + b);
      PresentCons(v, a[0], rest);
      assert a == [a[0]] + rest;
    }
  }

  lemma PresentNone(v: Views)
    ensures Present(v, []) == []
  {
  }

  lemma {:induction false} PresentFiltered(v: Views, keys: seq<string>)
    ensures Present(v, O.Filter(keys, v.byKey.Keys)) == Present(v, keys)
  {
    if keys != [] {
      PresentFiltered(v, keys[1..]);
      var rest := O.Filter(keys[1..], v.byKey.Keys);
      assert O.Filter(keys, v.byKey.Keys) == if keys[0] in v.byKey then [keys[0]] + rest else rest;
      assert ([keys[0]] + rest)[1..] == rest;
    }
  }

  function Added(base: Views, side: Views): set<string> {
    O.Ids(side.order) - O.Ids(base.order)
  }

  lemma NoSelfReorder(base: Views)
    requires ValidViews(base)
    ensures !Reordered(base, base)
  {
    hide O.Filter;
    assert O.Ids(base.order) == base.byKey.Keys;
  }

  function SideViews(base: Views, side: Views): seq<Record> {
    Present(side, O.Filter(side.order, O.Ids(base.order))) + Present(side, Sorted(Added(base, side)))
  }

  lemma UnitList(base: Views, side: Views)
    requires !Reordered(base, side)
    ensures ViewList(base, base, side, ViewKeys(base, base, side), []) == Success(SideViews(base, side))
  {
    hide ViewList, Present, O.Filter, Sorted;
    assert Additions(base, base, side) == Added(base, side);
    ListUnit(base, side, ViewKeys(base, base, side), []);
    PresentConcat(side, base.order, Sorted(Added(base, side)));
    PresentFiltered(side, base.order);
    assert [] + SideViews(base, side) == SideViews(base, side);
  }

  // The views of a merge with one side unchanged: refused exactly when the other side reordered base views;
  // otherwise its views, in its own order save that its additions come last and sorted.
  lemma ViewsUnit(base: Views, side: Views)
    requires ValidViews(base) && (base.present || side.present)
    ensures MergeViews(base, base, side).Failure? <==> Reordered(base, side)
    ensures !Reordered(base, side) ==> MergeViews(base, base, side) == Success(Some(SideViews(base, side)))
  {
    hide ViewList, SideViews, ViewKeys, Reordered, ValidViews;
    NoSelfReorder(base);
    if !Reordered(base, side) {
      UnitList(base, side);
    }
  }

  // ----- No view is lost -----

  lemma {:induction false} DistinctIds(s: seq<string>)
    requires O.Distinct(s)
    ensures forall x :: multiset(s)[x] == if x in s then 1 else 0
  {
    if s != [] {
      var first, rest := s[0], s[1..];
      assert s == [first] + rest;
      DistinctIds(rest);
      assert first !in rest;
    }
  }

  lemma SortedDistinct(keys: set<string>)
    ensures O.Distinct(Sorted(keys))
  {
    forall i, j | 0 <= i < j < |Sorted(keys)|
      ensures Sorted(keys)[i] != Sorted(keys)[j]
    {
      SortedOrder(keys, i, j);
    }
  }

  function RecordsOf(v: Views, key: string): multiset<Record> {
    if key in v.byKey then multiset{v.byKey[key]} else multiset{}
  }

  lemma PresentFirst(v: Views, key: string, rest: seq<string>)
    ensures multiset(Present(v, [key] + rest)) == RecordsOf(v, key) + multiset(Present(v, rest))
  {
    hide Present;
    PresentCons(v, key, rest);
  }

  // Taking one key out of two lists of the same keys.
  lemma OneKeyOut(key: string, rest: seq<string>, left: seq<string>, right: seq<string>)
    requires multiset([key] + rest) == multiset(left + ([key] + right))
    ensures multiset(rest) == multiset(left + right)
  {
    assert multiset([key] + rest) == multiset{key} + multiset(rest);
    assert left + ([key] + right) == left + [key] + right;
    var a, b := multiset(rest), multiset(left + right);
    assert multiset(left + ([key] + right)) == multiset{key} + b;
    forall x
      ensures a[x] == b[x]
    {
      assert (multiset{key} + a)[x] == (multiset{key} + b)[x];
    }
  }

  lemma PresentMiddle(v: Views, left: seq<string>, key: string, right: seq<string>)
    ensures multiset(Present(v, left + ([key] + right))) == RecordsOf(v, key) + multiset(Present(v, left + right))
  {
    hide Present, RecordsOf;
    PresentFirst(v, key, right);
    PresentConcat(v, left, [key] + right);
    PresentConcat(v, left, right);
  }

  // The records of some keys do not depend on the order of the keys.
  lemma {:induction false} PresentPermutes(v: Views, a: seq<string>, b: seq<string>)
    requires multiset(a) == multiset(b)
    ensures multiset(Present(v, a)) == multiset(Present(v, b))
    decreases |a|
  {
    hide Present, RecordsOf;
    assert |a| == |multiset(a)| == |multiset(b)| == |b|;
    if a == [] {
      assert b == [];
    } else {
      var key, rest := a[0], a[1..];
      assert a == [key] + rest;
      assert key in multiset(a) && key in b;
      var i :| 0 <= i < |b| && b[i] == key;
      var left, right := b[..i], b[i + 1..];
      assert b == left + ([key] + right);
      OneKeyOut(key, rest, left, right);
      PresentPermutes(v, rest, left + right);
      PresentFirst(v, key, rest);
      PresentMiddle(v, left, key, right);
    }
  }

  // Distinct lists that split the members of a third list them all.
  lemma SplitKeys(a: seq<string>, b: seq<string>, all: seq<string>)
    requires O.Distinct(a) && O.Distinct(b) && O.Distinct(all)
    requires forall x :: x in all <==> x in a || x in b
    requires forall x :: x in a ==> x !in b
    ensures multiset(a + b) == multiset(all)
  {
    hide O.Distinct;
    DistinctIds(a);
    DistinctIds(b);
    DistinctIds(all);
    assert forall x :: multiset(a + b)[x] == multiset(a)[x] + multiset(b)[x];
  }

  // The views of such a merge are the other side's, each as often as there: none is lost, none is doubled.
  lemma SideViewsComplete(base: Views, side: Views)
    requires ValidViews(base) && ValidViews(side)
    ensures multiset(SideViews(base, side)) == multiset(Present(side, side.order))
  {
    hide Present, Sorted, O.Filter, O.Distinct;
    var kept := O.Filter(side.order, O.Ids(base.order));
    var added := Sorted(Added(base, side));
    O.FilterIds(side.order, O.Ids(base.order));
    O.FilterDistinct(side.order, O.Ids(base.order));
    SortedDistinct(Added(base, side));
    SplitKeys(kept, added, side.order);
    PresentPermutes(side, kept + added, side.order);
    PresentConcat(side, kept, added);
  }

  lemma OtherUnit(base: Doc, side: Doc)
    ensures MergeOther(base, base, side).Success? && Text(MergeOther(base, base, side).value) == Text(side.other)
  {
    hide StableJson, MergeRecord, Text, FailingFields;
    RecordUnit(base.other, side.other);
  }

  // With the server unchanged, the merge is refused exactly for a view reorder, and otherwise is the
  // device's document, up to the order of added views and absent against empty maps and views.
  lemma MergeUnit(base: Doc, side: Doc)
    requires ValidViews(base.views) && ValidViews(side.views)
    ensures Merge(base, base, side).Failure? <==> (base.views.present || side.views.present) && Reordered(base.views, side.views)
    ensures Merge(base, base, side).Success? ==>
      var out := Merge(base, base, side).value;
      && out.filters == side.filters
      && Text(OrEmpty(out.formulas)) == Text(OrEmpty(side.formulas))
      && Text(OrEmpty(out.properties)) == Text(OrEmpty(side.properties))
      && Text(OrEmpty(out.summaries)) == Text(OrEmpty(side.summaries))
      && Text(out.other) == Text(side.other)
      && (out.views.None? <==> !base.views.present && !side.views.present)
      && (out.views.Some? ==> out.views.value == SideViews(base.views, side.views))
  {
    hide StableJson, MergeNamedMap, MergeOther, Reordered, Text, ViewList, Present, O.Filter;
    NamedMapUnit(base.formulas, side.formulas);
    NamedMapUnit(base.properties, side.properties);
    NamedMapUnit(base.summaries, side.summaries);
    OtherUnit(base, side);
    if base.views.present || side.views.present {
      ViewsUnit(base.views, side.views);
    }
  }

  // ----- Numbers that print alike -----

  predicate Exact(f: Field) {
    f.Some? ==> Plain(f.value) == f.value
  }

  // Swapping the sides gives the very same value exactly when sides that compare equal are equal.
  lemma AtomicSwapsExactly(base: Field, current: Field, device: Field)
    ensures MergeAtomic(base, current, device) == MergeAtomic(base, device, current) <==>
      (FieldText(current) == FieldText(device) ==> current == device)
  {
    hide StableJson;
  }

  // Without numbers that print alike, swapping the sides gives the very same value.
  lemma AtomicExactlySymmetric(base: Field, current: Field, device: Field)
    requires Exact(current) && Exact(device)
    ensures MergeAtomic(base, current, device) == MergeAtomic(base, device, current)
  {
    hide StableJson, Plain, MergeAtomic;
    TextExact(current, device);
    AtomicSwapsExactly(base, current, device);
  }

  lemma TextExact(f: Field, g: Field)
    requires Exact(f) && Exact(g)
    ensures FieldText(f) == FieldText(g) <==> f == g
  {
    hide StableJson, Plain;
    if f.Some? && g.Some? {
      StableJsonCanonical(f.value, g.value);
    }
  }

  // A value that is not a number compares equal to null, so an edit between them goes unseen, and which of
  // the two survives depends on the side.
  lemma NotANumberUnseen()
    ensures MergeAtomic(Some(Null), Some(Num(NaN)), Some(Null)) == Some(Some(Null))
    ensures MergeAtomic(Some(Null), Some(Null), Some(Num(NaN))) == Some(Some(Num(NaN)))
  {
  }

  // ----- The loops -----

  lemma FirstFailing(b: Record, c: Record, d: Record, rest: set<string>, k: string)
    requires rest <= Keys(b, c, d) && IsFirst(rest, k) && EntryAt(b, c, d, k).Failure?
    requires forall j :: j in Keys(b, c, d) - rest ==> EntryAt(b, c, d, j).Success?
    ensures FailingEntries(b, c, d) != {} && First(FailingEntries(b, c, d)) == k
  {
    hide EntryAt, Leq;
    assert k in FailingEntries(b, c, d);
    assert IsFirst(FailingEntries(b, c, d), k);
    FirstUnique(FailingEntries(b, c, d));
  }

  lemma EntriesStep(b: Record, c: Record, d: Record, keys: set<string>, k: string)
    requires k !in keys && EntryAt(b, c, d, k).Success?
    ensures EntriesOver(b, c, d, keys + {k}) == WithField(EntriesOver(b, c, d, keys), k, EntryAt(b, c, d, k).value)
  {
    hide EntryAt;
  }

  method MergeNamedMapField(base: Option<Record>, current: Option<Record>, device: Option<Record>) returns (r: Merged<Option<Record>>)
    ensures r == MergeNamedMap(base, current, device)
  {
    hide EntryAt, EntriesOver, FailingEntries, Keys;
    if base.None? && current.None? && device.None? {
      return Success(None);
    }
    var b, c, d := OrEmpty(base), OrEmpty(current), OrEmpty(device);
    var all := Keys(b, c, d);
    var rest := all;
    var result: Record := map[];
    assert all - rest == {};
    assert EntriesOver(b, c, d, {}) == map[] by { NoEntries(b, c, d); }
    while rest != {}
      invariant rest <= all
      invariant forall j :: j in all - rest ==> EntryAt(b, c, d, j).Success?
      invariant result == EntriesOver(b, c, d, all - rest)
      decreases |rest|
    {
      var key := First(rest);
      var merged := EntryAt(b, c, d, key);
      if merged.Failure? {
        FirstFailing(b, c, d, rest, key);
        return Failure(Under(key, merged.error));
      }
      EntriesStep(b, c, d, all - rest, key);
      result := WithField(result, key, merged.value);
      assert all - rest + {key} == all - (rest - {key});
      rest := rest - {key};
    }
    assert all - rest == all;
    NoneFailing(b, c, d);
    return Success(Some(result));
  }

  lemma NoneFailing(b: Record, c: Record, d: Record)
    requires forall j :: j in Keys(b, c, d) ==> EntryAt(b, c, d, j).Success?
    ensures FailingEntries(b, c, d) == {}
  {
    hide EntryAt;
  }

  lemma NoEntries(b: Record, c: Record, d: Record)
    ensures EntriesOver(b, c, d, {}) == map[]
  {
  }

  method MergeViewCollections(base: Views, current: Views, device: Views) returns (r: Merged<Option<seq<Record>>>)
    ensures r == MergeViews(base, current, device)
  {
    hide ViewAt, ViewKeys, Reordered;
    if !base.present && !current.present && !device.present {
      return Success(None);
    }
    if Reordered(base, current) || Reordered(base, device) {
      return Failure(Refusal(["views"], ViewReorder));
    }
    var keys := ViewKeys(base, current, device);
    var result: seq<Record> := [];
    var i := 0;
    while i < |keys|
      invariant 0 <= i <= |keys|
      invariant ViewList(base, current, device, keys, []) == ViewList(base, current, device, keys[i..], result)
    {
      var view := ViewAt(base, current, device, keys[i]);
      if view.Failure? {
        return Failure(Under(keys[i], view.error));
      }
      assert keys[i..][1..] == keys[i + 1..];
      result := result + Listed(view.value);
      i := i + 1;
    }
    return Success(Some(result));
  }
}
