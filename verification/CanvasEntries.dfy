// Three-way merge of the nodes or the edges of a JSON Canvas, entry by entry and field by field
// (src/server/gitService.ts), and the check that is applied to its result afterwards.
module CanvasEntries {
  import opened Common
  import opened Json
  import opened FieldMerge

  datatype Kind = Node | Edge

  datatype MergeError = ConcurrentAdditions | DeleteVsEdit | EditVsDelete | SameField | InvalidNode

  type Entry = Option<Record>

  // The source asks whether any key differs.
  predicate ObjectChanged(base: Record, side: Record) {
    exists k :: k in base.Keys + side.Keys && Changed(base, side, k)
  }

  predicate AnyConflict(base: Record, current: Record, device: Record) {
    exists k :: k in Keys(base, current, device) && FieldConflict(base, current, device, k)
  }

  function Choice(base: Record, current: Record, device: Record, k: string): Field {
    if Changed(base, device, k) then FieldOf(device, k)
    else if Changed(base, current, k) then FieldOf(current, k)
    else FieldOf(base, k)
  }

  function MergedFields(base: Record, current: Record, device: Record): Record {
    map k | k in Keys(base, current, device) && Choice(base, current, device, k).Some? :: Choice(base, current, device, k).value
  }

  predicate FiniteNumber(f: Field) {
    f.Some? && f.value.Num? && (f.value.number.Finite? || f.value.number.NegativeZero?)
  }

  predicate IsString(f: Field) {
    f.Some? && f.value.Str?
  }

  predicate ValidNode(r: Record) {
    && IsString(FieldOf(r, "id")) && IsString(FieldOf(r, "type"))
    && FiniteNumber(FieldOf(r, "x")) && FiniteNumber(FieldOf(r, "y"))
    && FiniteNumber(FieldOf(r, "width")) && FiniteNumber(FieldOf(r, "height"))
  }

  function MergeFields(kind: Kind, base: Record, current: Record, device: Record): Result<Entry, MergeError> {
    if AnyConflict(base, current, device) then Failure(SameField)
    else
      var merged := MergedFields(base, current, device);
      if kind == Node && !ValidNode(merged) then Failure(InvalidNode) else Success(Some(merged))
  }

  function MergeEntry(kind: Kind, base: Entry, current: Entry, device: Entry): Result<Entry, MergeError> {
    if base.None? then
      if current.Some? && device.Some? && Text(current.value) != Text(device.value) then Failure(ConcurrentAdditions)
      else Success(if current.Some? then current else device)
    else if current.None? && device.None? then Success(None)
    else if current.None? then
      if ObjectChanged(base.value, device.value) then Failure(DeleteVsEdit) else Success(None)
    else if device.None? then
      if ObjectChanged(base.value, current.value) then Failure(EditVsDelete) else Success(None)
    else if Text(current.value) == Text(base.value) then Success(device)
    else if Text(device.value) == Text(base.value) then Success(current)
    else if Text(current.value) == Text(device.value) then Success(current)
    else MergeFields(kind, base.value, current.value, device.value)
  }

  // ----- What the merge means -----

  function EntryText(e: Entry): Option<string> {
    if e.Some? then Some(Text(e.value)) else None
  }

  predicate Alike(a: Entry, b: Entry) {
    EntryText(a) == EntryText(b)
  }

  lemma ChangedMeansText(base: Record, side: Record)
    ensures ObjectChanged(base, side) <==> Text(base) != Text(side)
  {
    hide StableJson, Text;
    TextFields(base, side);
    if ObjectChanged(base, side) {
      var k :| k in base.Keys + side.Keys && Changed(base, side, k);
      assert TextAt(base, k) != TextAt(side, k);
    }
    if k :| TextAt(base, k) != TextAt(side, k) {
      assert k in base.Keys + side.Keys && Changed(base, side, k);
    }
  }

  // The two sides conflict: they add different entries, one edits what the other deletes, or they change a
  // field differently.
  ghost predicate Conflicting(base: Entry, current: Entry, device: Entry) {
    if base.None? then current.Some? && device.Some? && Text(current.value) != Text(device.value)
    else if current.None? || device.None? then
      (current.Some? && Text(base.value) != Text(current.value)) || (device.Some? && Text(base.value) != Text(device.value))
    else exists k :: FieldConflict(base.value, current.value, device.value, k)
  }

  lemma AnyConflictMeans(base: Record, current: Record, device: Record)
    ensures AnyConflict(base, current, device) <==> exists k :: FieldConflict(base, current, device, k)
  {
    hide StableJson;
    forall k | FieldConflict(base, current, device, k)
      ensures k in Keys(base, current, device)
    {
    }
  }

  lemma ConflictNeedsChanges(base: Record, current: Record, device: Record)
    requires Text(current) == Text(base) || Text(device) == Text(base) || Text(current) == Text(device)
    ensures forall k :: !FieldConflict(base, current, device, k)
  {
    hide StableJson, Text;
    TextFields(current, base);
    TextFields(device, base);
    TextFields(current, device);
  }

  predicate ValidEntry(kind: Kind, e: Entry) {
    kind == Node && e.Some? ==> ValidNode(e.value)
  }

  lemma ChoiceOfSides(base: Record, current: Record, device: Record, k: string)
    ensures var f := Choice(base, current, device, k); f == FieldOf(base, k) || f == FieldOf(current, k) || f == FieldOf(device, k)
    ensures FieldOf(MergedFields(base, current, device), k) == Choice(base, current, device, k)
  {
    hide StableJson;
  }

  // Merging valid nodes field by field gives a valid node, so that check never refuses.
  lemma MergedNodeValid(base: Record, current: Record, device: Record)
    requires ValidNode(base) && ValidNode(current) && ValidNode(device)
    ensures ValidNode(MergedFields(base, current, device))
  {
    hide Choice, MergedFields;
    ChoiceOfSides(base, current, device, "id");
    ChoiceOfSides(base, current, device, "type");
    ChoiceOfSides(base, current, device, "x");
    ChoiceOfSides(base, current, device, "y");
    ChoiceOfSides(base, current, device, "width");
    ChoiceOfSides(base, current, device, "height");
  }

  // A merge field by field is refused for its shape exactly when a required field of the result is missing or
  // of another type.
  lemma InvalidExactly(base: Record, current: Record, device: Record)
    ensures MergeFields(Node, base, current, device) == Failure(InvalidNode) <==>
      && !AnyConflict(base, current, device)
      && exists k :: k in {"id", "type", "x", "y", "width", "height"} && !Required(MergedFields(base, current, device), k)
  {
    hide AnyConflict, MergedFields;
    var merged := MergedFields(base, current, device);
    if !ValidNode(merged) {
      assert !Required(merged, "id") || !Required(merged, "type") || !Required(merged, "x") || !Required(merged, "y")
          || !Required(merged, "width") || !Required(merged, "height");
    }
  }

  predicate Required(r: Record, k: string) {
    k in r && if k == "id" || k == "type" then r[k].Str? else r[k].Num? && r[k].number !in {NaN, PositiveInfinity, NegativeInfinity}
  }

  // The merge of valid entries refuses exactly a conflict.
  lemma RefusesExactlyConflicts(kind: Kind, base: Entry, current: Entry, device: Entry)
    requires ValidEntry(kind, base) && ValidEntry(kind, current) && ValidEntry(kind, device)
    ensures MergeEntry(kind, base, current, device).Failure? <==> Conflicting(base, current, device)
  {
    hide StableJson, Text, ObjectChanged, AnyConflict, FieldConflict, MergedFields, ValidNode;
    if base.Some? {
      if current.Some? {
        ChangedMeansText(base.value, current.value);
      }
      if device.Some? {
        ChangedMeansText(base.value, device.value);
      }
      if current.Some? && device.Some? {
        BothPresent(kind, base.value, current.value, device.value);
      }
    }
  }

  lemma BothPresent(kind: Kind, base: Record, current: Record, device: Record)
    requires kind == Node ==> ValidNode(base) && ValidNode(current) && ValidNode(device)
    ensures MergeEntry(kind, Some(base), Some(current), Some(device)).Failure? <==>
      exists k :: FieldConflict(base, current, device, k)
  {
    hide StableJson, Text, ObjectChanged, AnyConflict, FieldConflict, MergedFields, ValidNode;
    AnyConflictMeans(base, current, device);
    if kind == Node {
      MergedNodeValid(base, current, device);
    }
    if Text(current) == Text(base) || Text(device) == Text(base) || Text(current) == Text(device) {
      ConflictNeedsChanges(base, current, device);
    }
  }

  // Success loses no edit: every field one side changed has that side's value, and the others the base's.
  lemma KeepsEveryEdit(kind: Kind, base: Record, current: Record, device: Record, k: string)
    requires MergeEntry(kind, Some(base), Some(current), Some(device)).Success?
    ensures MergeEntry(kind, Some(base), Some(current), Some(device)).value.Some?
    ensures var merged := TextAt(MergeEntry(kind, Some(base), Some(current), Some(device)).value.value, k);
      && (Changed(base, current, k) ==> merged == TextAt(current, k))
      && (Changed(base, device, k) ==> merged == TextAt(device, k))
      && (!Changed(base, current, k) && !Changed(base, device, k) ==> merged == TextAt(base, k))
  {
    hide StableJson, Text, ObjectChanged, AnyConflict, MergedFields, ValidNode;
    TextFields(current, base);
    TextFields(device, base);
    TextFields(current, device);
    AnyConflictMeans(base, current, device);
    assert AnyConflict(base, current, device) || !FieldConflict(base, current, device, k);
    ChoiceOfSides(base, current, device, k);
  }

  // One side unchanged gives the other; two equal sides give either.
  lemma MergeUnits(kind: Kind, base: Entry, side: Entry)
    ensures MergeEntry(kind, base, base, side).Success? && Alike(MergeEntry(kind, base, base, side).value, side)
    ensures MergeEntry(kind, base, side, base).Success? && Alike(MergeEntry(kind, base, side, base).value, side)
    ensures MergeEntry(kind, base, side, side).Success? && MergeEntry(kind, base, side, side).value == side
  {
    hide StableJson, Text, ObjectChanged, MergeFields;
    if base.Some? {
      ChangedMeansText(base.value, base.value);
    }
  }

  function Swapped(e: MergeError): MergeError {
    match e
    case DeleteVsEdit => EditVsDelete
    case EditVsDelete => DeleteVsEdit
    case _ => e
  }

  predicate SameOutcome(a: Result<Entry, MergeError>, b: Result<Entry, MergeError>) {
    match a
    case Success(e) => b.Success? && Alike(e, b.value)
    case Failure(e) => b.Failure? && b.error == Swapped(e)
  }

  lemma FieldsSymmetric(base: Record, current: Record, device: Record)
    requires !AnyConflict(base, current, device)
    ensures Text(MergedFields(base, current, device)) == Text(MergedFields(base, device, current))
  {
    hide StableJson, Text, AnyConflict, MergedFields;
    AnyConflictMeans(base, current, device);
    var a, b := MergedFields(base, current, device), MergedFields(base, device, current);
    forall k
      ensures TextAt(a, k) == TextAt(b, k)
    {
      assert !FieldConflict(base, current, device, k);
      ChoiceOfSides(base, current, device, k);
      ChoiceOfSides(base, device, current, k);
    }
    TextFields(a, b);
  }

  // Swapping the two sides gives the same entry, or the mirrored refusal.
  lemma MergeSymmetric(kind: Kind, base: Entry, current: Entry, device: Entry)
    requires ValidEntry(kind, base) && ValidEntry(kind, current) && ValidEntry(kind, device)
    ensures SameOutcome(MergeEntry(kind, base, current, device), MergeEntry(kind, base, device, current))
  {
    hide StableJson, Text, ObjectChanged, AnyConflict, MergedFields, ValidNode;
    if base.Some? && current.Some? && device.Some? {
      var (b, c, d) := (base.value, current.value, device.value);
      AnyConflictMeans(b, c, d);
      AnyConflictMeans(b, d, c);
      ConflictSymmetric(b, c, d);
      if !AnyConflict(b, c, d) {
        FieldsSymmetric(b, c, d);
      }
      if kind == Node {
        MergedNodeValid(b, c, d);
        MergedNodeValid(b, d, c);
      }
    }
  }

  lemma ConflictSymmetric(base: Record, current: Record, device: Record)
    ensures (exists k :: FieldConflict(base, current, device, k)) <==> exists k :: FieldConflict(base, device, current, k)
  {
    hide StableJson;
    forall k
      ensures FieldConflict(base, current, device, k) <==> FieldConflict(base, device, current, k)
    {
    }
  }

  // ----- Collections -----

  type Entries = map<string, Record>

  function EntryOf(m: Entries, id: string): Entry {
    if id in m then Some(m[id]) else None
  }

  function Ids(base: Entries, current: Entries, device: Entries): set<string> {
    base.Keys + current.Keys + device.Keys
  }

  function MergeAt(kind: Kind, base: Entries, current: Entries, device: Entries, id: string): Result<Entry, MergeError> {
    MergeEntry(kind, EntryOf(base, id), EntryOf(current, id), EntryOf(device, id))
  }

  // The collection of all merged entries.
  predicate MergedAs(kind: Kind, base: Entries, current: Entries, device: Entries, ids: set<string>, merged: Entries) {
    && (forall id :: id in ids ==> MergeAt(kind, base, current, device, id) == Success(EntryOf(merged, id)))
    && merged.Keys <= ids
  }

  // The entry of `id` is refused with `e`, and no entry before it is refused.
  predicate RefusedFirst(kind: Kind, base: Entries, current: Entries, device: Entries, id: string, e: MergeError) {
    && id in Ids(base, current, device) && MergeAt(kind, base, current, device, id) == Failure(e)
    && forall earlier :: earlier in Ids(base, current, device) && !Leq(id, earlier) ==> MergeAt(kind, base, current, device, earlier).Success?
  }

  function WithEntry(m: Entries, id: string, e: Entry): Entries {
    if e.Some? then m[id := e.value] else m
  }

  lemma MergedStep(kind: Kind, base: Entries, current: Entries, device: Entries, ids: set<string>, merged: Entries, id: string)
    requires MergedAs(kind, base, current, device, ids, merged) && id !in ids
    requires MergeAt(kind, base, current, device, id).Success?
    ensures MergedAs(kind, base, current, device, ids + {id}, WithEntry(merged, id, MergeAt(kind, base, current, device, id).value))
  {
    hide MergeAt;
  }

  // The merge visits the ids in order and stops at the first refusal.
  method MergeCollection(kind: Kind, base: Entries, current: Entries, device: Entries) returns (r: Result<Entries, MergeError>)
    ensures r.Success? ==> MergedAs(kind, base, current, device, Ids(base, current, device), r.value)
    ensures r.Success? ==> forall id :: MergeAt(kind, base, current, device, id) == Success(EntryOf(r.value, id))
    ensures r.Failure? ==> exists id :: RefusedFirst(kind, base, current, device, id, r.error)
  {
    hide MergeAt, Leq, MergedAs;
    var all := Ids(base, current, device);
    var rest := all;
    var merged: Entries := map[];
    assert all - rest == {};
    assert MergedAs(kind, base, current, device, {}, merged) by { NothingMerged(kind, base, current, device); }
    while rest != {}
      invariant rest <= all
      invariant MergedAs(kind, base, current, device, all - rest, merged)
      decreases |rest|
    {
      var id := First(rest);
      var entry := MergeAt(kind, base, current, device, id);
      if entry.Failure? {
        RefusalIsFirst(kind, base, current, device, rest, merged, id);
        return Failure(entry.error);
      }
      MergedStep(kind, base, current, device, all - rest, merged, id);
      merged := WithEntry(merged, id, entry.value);
      assert all - rest + {id} == all - (rest - {id});
      rest := rest - {id};
    }
    assert all - rest == all;
    EveryId(kind, base, current, device, merged);
    return Success(merged);
  }

  lemma EveryId(kind: Kind, base: Entries, current: Entries, device: Entries, merged: Entries)
    requires MergedAs(kind, base, current, device, Ids(base, current, device), merged)
    ensures forall id :: MergeAt(kind, base, current, device, id) == Success(EntryOf(merged, id))
  {
    hide Text, ObjectChanged, MergeFields;
    forall id | id !in Ids(base, current, device)
      ensures MergeAt(kind, base, current, device, id) == Success(EntryOf(merged, id))
    {
    }
  }

  lemma NothingMerged(kind: Kind, base: Entries, current: Entries, device: Entries)
    ensures MergedAs(kind, base, current, device, {}, map[])
  {
  }

  lemma RefusalIsFirst(kind: Kind, base: Entries, current: Entries, device: Entries, rest: set<string>, merged: Entries, id: string)
    requires rest <= Ids(base, current, device) && IsFirst(rest, id)
    requires MergedAs(kind, base, current, device, Ids(base, current, device) - rest, merged)
    requires MergeAt(kind, base, current, device, id).Failure?
    ensures RefusedFirst(kind, base, current, device, id, MergeAt(kind, base, current, device, id).error)
  {
    hide MergeAt, Leq;
  }

  // The later check looks at each id again, on its own terms: a deletion against an edit, or a field that
  // both sides changed differently, an entry unknown to the base counting as all its fields changed.
  function OrEmpty(e: Entry): Record {
    if e.Some? then e.value else map[]
  }

  predicate CheckEntry(base: Entry, current: Entry, device: Entry) {
    && !(base.Some? && current.None? && device.Some? && ObjectChanged(base.value, device.value))
    && !(base.Some? && device.None? && current.Some? && ObjectChanged(base.value, current.value))
    && !(current.Some? && device.Some? && AnyConflict(OrEmpty(base), current.value, device.value))
  }

  lemma CheckAcceptsAdditions(current: Record, device: Record)
    requires Text(current) == Text(device)
    ensures !AnyConflict(map[], current, device)
  {
    hide StableJson, Text;
    TextFields(current, device);
  }

  // The check can never refuse what the merge accepted.
  lemma CheckAcceptsMerge(kind: Kind, base: Entry, current: Entry, device: Entry)
    requires MergeEntry(kind, base, current, device).Success?
    ensures CheckEntry(base, current, device)
  {
    hide StableJson, Text, ObjectChanged, AnyConflict, MergedFields, ValidNode;
    if current.Some? && device.Some? {
      if base.Some? {
        if Text(current.value) == Text(base.value) || Text(device.value) == Text(base.value) || Text(current.value) == Text(device.value) {
          ConflictNeedsChanges(base.value, current.value, device.value);
        }
        AnyConflictMeans(base.value, current.value, device.value);
      } else {
        CheckAcceptsAdditions(current.value, device.value);
      }
    }
  }

  // On its own terms it refuses exactly an edit against a deletion, and a field both sides changed differently;
  // of an entry unknown to the base, a field both sides have, differently.
  lemma CheckRefusesExactly(base: Entry, current: Entry, device: Entry)
    ensures !CheckEntry(base, current, device) <==>
      || (base.Some? && current.None? && device.Some? && Text(base.value) != Text(device.value))
      || (base.Some? && device.None? && current.Some? && Text(base.value) != Text(current.value))
      || (base.Some? && current.Some? && device.Some? && exists k :: FieldConflict(base.value, current.value, device.value, k))
      || (base.None? && current.Some? && device.Some? && exists k :: BothHave(current.value, device.value, k))
  {
    hide StableJson, Text, ObjectChanged, AnyConflict, BothHave;
    if base.Some? && current.Some? {
      ChangedMeansText(base.value, current.value);
    }
    if base.Some? && device.Some? {
      ChangedMeansText(base.value, device.value);
    }
    if current.Some? && device.Some? {
      AnyConflictMeans(OrEmpty(base), current.value, device.value);
      forall k
        ensures FieldConflict(map[], current.value, device.value, k) <==> BothHave(current.value, device.value, k)
      {
        BothHaveMeans(current.value, device.value, k);
      }
    }
  }

  predicate BothHave(current: Record, device: Record, k: string) {
    k in current && k in device && StableJson(current[k]) != StableJson(device[k])
  }

  lemma BothHaveMeans(current: Record, device: Record, k: string)
    ensures FieldConflict(map[], current, device, k) <==> BothHave(current, device, k)
  {
    hide StableJson;
  }

  lemma NothingToCheck()
    ensures CheckEntry(None, None, None)
  {
  }

  method CheckCollection(base: Entries, current: Entries, device: Entries) returns (ok: bool)
    ensures ok <==> forall id :: CheckEntry(EntryOf(base, id), EntryOf(current, id), EntryOf(device, id))
  {
    hide CheckEntry;
    NothingToCheck();
    var rest := Ids(base, current, device);
    ok := true;
    while rest != {}
      invariant rest <= Ids(base, current, device)
      invariant forall id :: id in Ids(base, current, device) - rest ==> CheckEntry(EntryOf(base, id), EntryOf(current, id), EntryOf(device, id))
      decreases |rest|
    {
      var id := First(rest);
      if !CheckEntry(EntryOf(base, id), EntryOf(current, id), EntryOf(device, id)) {
        return false;
      }
      rest := rest - {id};
    }
  }

  lemma CheckAcceptsCollection(kind: Kind, base: Entries, current: Entries, device: Entries, merged: Entries)
    requires MergedAs(kind, base, current, device, Ids(base, current, device), merged)
    ensures forall id :: CheckEntry(EntryOf(base, id), EntryOf(current, id), EntryOf(device, id))
  {
    hide MergeEntry, CheckEntry, MergedAs;
    EveryId(kind, base, current, device, merged);
    forall id
      ensures CheckEntry(EntryOf(base, id), EntryOf(current, id), EntryOf(device, id))
    {
      assert MergeAt(kind, base, current, device, id).Success?;
      CheckAcceptsMerge(kind, EntryOf(base, id), EntryOf(current, id), EntryOf(device, id));
    }
  }

  // A merged id is in a side, and no side deleted it if the base had it.
  lemma MergedIdSurvives(kind: Kind, base: Entry, current: Entry, device: Entry)
    requires MergeEntry(kind, base, current, device).Success? && MergeEntry(kind, base, current, device).value.Some?
    ensures current.Some? || device.Some?
    ensures base.Some? ==> current.Some? && device.Some?
  {
  }

  predicate HasId(e: Entry, id: string) {
    e.Some? ==> FieldOf(e.value, "id") == Some(Str(id))
  }

  predicate Keyed(m: Entries) {
    forall id :: id in m ==> HasId(EntryOf(m, id), id)
  }

  lemma MergeKeepsId(kind: Kind, base: Entry, current: Entry, device: Entry, id: string)
    requires HasId(base, id) && HasId(current, id) && HasId(device, id)
    requires MergeEntry(kind, base, current, device).Success?
    ensures HasId(MergeEntry(kind, base, current, device).value, id)
  {
    hide StableJson, Text, MergedFields, AnyConflict, ObjectChanged, Choice, ValidNode, FieldOf;
    if base.Some? && current.Some? && device.Some? {
      ChoiceOfSides(base.value, current.value, device.value, "id");
    }
  }

  // Entries keyed by their id stay so.
  lemma MergedKeyed(kind: Kind, base: Entries, current: Entries, device: Entries, merged: Entries)
    requires Keyed(base) && Keyed(current) && Keyed(device)
    requires MergedAs(kind, base, current, device, Ids(base, current, device), merged)
    ensures Keyed(merged)
  {
    hide MergeEntry, FieldOf;
    forall id | id in merged
      ensures HasId(EntryOf(merged, id), id)
    {
      MergeKeepsId(kind, EntryOf(base, id), EntryOf(current, id), EntryOf(device, id), id);
    }
  }

  lemma MergedValid(base: Entry, current: Entry, device: Entry)
    requires ValidEntry(Node, base) && ValidEntry(Node, current) && ValidEntry(Node, device)
    requires MergeEntry(Node, base, current, device).Success?
    ensures ValidEntry(Node, MergeEntry(Node, base, current, device).value)
  {
    hide StableJson, Text, MergedFields, AnyConflict, ObjectChanged, ValidNode;
  }
}
