// Three-way merging of single fields, shared by the Canvas and Bases merges of src/server/gitService.ts.
// Values are compared by their stable text; an absent field is None.
module FieldMerge {
  import opened Common
  import opened Json

  type Field = Option<Json>

  type Record = map<string, Json>

  function FieldOf(r: Record, k: string): Field {
    if k in r then Some(r[k]) else None
  }

  function FieldText(f: Field): Option<string> {
    if f.Some? then Some(StableJson(f.value)) else None
  }

  function TextAt(r: Record, k: string): Option<string> {
    FieldText(FieldOf(r, k))
  }

  function Text(r: Record): string {
    StableJson(Obj(r))
  }

  // A side that did not change a field takes the other side's value; equal changes agree.
  function MergeAtomic(base: Field, current: Field, device: Field): Option<Field> {
    if FieldText(current) == FieldText(base) then Some(device)
    else if FieldText(device) == FieldText(base) then Some(current)
    else if FieldText(current) == FieldText(device) then Some(current)
    else None
  }

  function ResultText(r: Option<Field>): Option<Option<string>> {
    if r.Some? then Some(FieldText(r.value)) else None
  }

  // What the merge means: it fails exactly when both sides changed the field, differently; a changed value
  // is kept, an unchanged field stays; and the sides may be swapped.
  lemma AtomicMeaning(base: Field, current: Field, device: Field)
    ensures var merged := MergeAtomic(base, current, device);
      var (b, c, d) := (FieldText(base), FieldText(current), FieldText(device));
      && (merged.None? <==> c != b && d != b && c != d)
      && (merged.Some? && c != b ==> FieldText(merged.value) == c)
      && (merged.Some? && d != b ==> FieldText(merged.value) == d)
      && (c == b && d == b ==> ResultText(merged) == Some(b))
      && ResultText(merged) == ResultText(MergeAtomic(base, device, current))
  {
    hide StableJson;
  }

  // Records have the same text exactly when their fields do.
  lemma TextFields(a: Record, b: Record)
    ensures Text(a) == Text(b) <==> forall k :: TextAt(a, k) == TextAt(b, k)
  {
    hide StableJson;
    StableJsonCanonical(Obj(a), Obj(b));
    if Text(a) == Text(b) {
      forall k
        ensures TextAt(a, k) == TextAt(b, k)
      {
        PlainFields(a, b, k);
      }
    }
    if forall k :: TextAt(a, k) == TextAt(b, k) {
      TextsPlain(a, b);
    }
  }

  lemma PlainFields(a: Record, b: Record, k: string)
    requires Plain(Obj(a)) == Plain(Obj(b))
    ensures TextAt(a, k) == TextAt(b, k)
  {
    hide StableJson;
    assert Plain(Obj(a)).fields.Keys == a.Keys && Plain(Obj(b)).fields.Keys == b.Keys;
    if k in a {
      assert Plain(a[k]) == Plain(Obj(a)).fields[k] == Plain(Obj(b)).fields[k] == Plain(b[k]);
      StableJsonCanonical(a[k], b[k]);
    }
  }

  lemma TextsPlain(a: Record, b: Record)
    requires forall k :: TextAt(a, k) == TextAt(b, k)
    ensures Plain(Obj(a)) == Plain(Obj(b))
  {
    hide StableJson, Plain;
    forall k
      ensures k in a <==> k in b
      ensures k in a && k in b ==> Plain(a[k]) == Plain(b[k])
    {
      assert TextAt(a, k) == TextAt(b, k);
      if k in a && k in b {
        StableJsonCanonical(a[k], b[k]);
      }
    }
    ObjectPlain(Obj(a), Obj(b));
  }

  // ----- Records, field by field -----

  function Keys(base: Record, current: Record, device: Record): set<string> {
    base.Keys + current.Keys + device.Keys
  }

  // A side changed a field; both did, differently.
  predicate Changed(base: Record, side: Record, k: string) {
    TextAt(base, k) != TextAt(side, k)
  }

  predicate FieldConflict(base: Record, current: Record, device: Record, k: string) {
    Changed(base, current, k) && Changed(base, device, k) && TextAt(current, k) != TextAt(device, k)
  }

  function MergeKey(base: Record, current: Record, device: Record, k: string): Option<Field> {
    MergeAtomic(FieldOf(base, k), FieldOf(current, k), FieldOf(device, k))
  }

  // `merged` is the merge of the fields in `keys`.
  predicate MergedOver(base: Record, current: Record, device: Record, keys: set<string>, merged: Record) {
    && merged.Keys <= keys
    && forall k :: k in keys ==> MergeKey(base, current, device, k) == Some(FieldOf(merged, k))
  }

  // The merge of two records: none if some field conflicts.
  function MergeRecord(base: Record, current: Record, device: Record): Option<Record> {
    var keys := Keys(base, current, device);
    if exists k :: k in keys && MergeKey(base, current, device, k).None? then None
    else Some(map k | k in keys && MergeKey(base, current, device, k).value.Some? :: MergeKey(base, current, device, k).value.value)
  }

  lemma MergeRecordOver(base: Record, current: Record, device: Record, merged: Record)
    ensures MergeRecord(base, current, device) == Some(merged) <==> MergedOver(base, current, device, Keys(base, current, device), merged)
  {
    hide MergeKey;
    var keys := Keys(base, current, device);
    if MergedOver(base, current, device, keys, merged) {
      forall k | k in keys
        ensures MergeKey(base, current, device, k).Some?
      {
        assert MergeKey(base, current, device, k) == Some(FieldOf(merged, k));
      }
      assert MergeRecord(base, current, device).value == merged;
    }
  }

  function WithField(r: Record, k: string, f: Field): Record {
    if f.Some? then r[k := f.value] else r
  }

  lemma MergedOverStep(base: Record, current: Record, device: Record, keys: set<string>, merged: Record, k: string)
    requires MergedOver(base, current, device, keys, merged) && k !in keys && MergeKey(base, current, device, k).Some?
    ensures MergedOver(base, current, device, keys + {k}, WithField(merged, k, MergeKey(base, current, device, k).value))
  {
    hide MergeKey;
  }

  method MergeRecords(base: Record, current: Record, device: Record) returns (r: Option<Record>)
    ensures r == MergeRecord(base, current, device)
  {
    hide MergeKey, MergedOver;
    var all := Keys(base, current, device);
    var rest := all;
    var merged: Record := map[];
    assert all - rest == {};
    assert MergedOver(base, current, device, {}, merged) by { NothingMerged(base, current, device); }
    while rest != {}
      invariant rest <= all
      invariant MergedOver(base, current, device, all - rest, merged)
      decreases |rest|
    {
      var k := First(rest);
      var field := MergeKey(base, current, device, k);
      if field.None? {
        return None;
      }
      MergedOverStep(base, current, device, all - rest, merged, k);
      merged := WithField(merged, k, field.value);
      assert all - rest + {k} == all - (rest - {k});
      rest := rest - {k};
    }
    assert all - rest == all;
    MergeRecordOver(base, current, device, merged);
    return Some(merged);
  }

  lemma NothingMerged(base: Record, current: Record, device: Record)
    ensures MergedOver(base, current, device, {}, map[])
  {
  }

  function RecordText(r: Option<Record>): Option<string> {
    if r.Some? then Some(Text(r.value)) else None
  }

  lemma MergeRecordAt(base: Record, current: Record, device: Record, k: string)
    requires MergeRecord(base, current, device).Some?
    ensures MergeKey(base, current, device, k) == Some(FieldOf(MergeRecord(base, current, device).value, k))
  {
    hide StableJson;
    MergeRecordOver(base, current, device, MergeRecord(base, current, device).value);
  }

  // Every field has the text of the side that changed it, and else the base's.
  ghost predicate KeepsFields(base: Record, current: Record, device: Record, merged: Record) {
    forall k ::
      && (Changed(base, current, k) ==> TextAt(merged, k) == TextAt(current, k))
      && (Changed(base, device, k) ==> TextAt(merged, k) == TextAt(device, k))
      && (!Changed(base, current, k) && !Changed(base, device, k) ==> TextAt(merged, k) == TextAt(base, k))
  }

  // The merge of two records is refused exactly when some field conflicts, and keeps both sides' edits.
  lemma RecordMeaning(base: Record, current: Record, device: Record)
    ensures MergeRecord(base, current, device).None? <==> exists k :: FieldConflict(base, current, device, k)
    ensures MergeRecord(base, current, device).Some? ==> KeepsFields(base, current, device, MergeRecord(base, current, device).value)
  {
    hide StableJson, MergeAtomic, MergeRecord;
    forall k
      ensures MergeKey(base, current, device, k).None? <==> FieldConflict(base, current, device, k)
    {
      AtomicMeaning(FieldOf(base, k), FieldOf(current, k), FieldOf(device, k));
    }
    RecordRefused(base, current, device);
    if MergeRecord(base, current, device).Some? {
      var merged := MergeRecord(base, current, device).value;
      forall k
        ensures Changed(base, current, k) ==> TextAt(merged, k) == TextAt(current, k)
        ensures Changed(base, device, k) ==> TextAt(merged, k) == TextAt(device, k)
        ensures !Changed(base, current, k) && !Changed(base, device, k) ==> TextAt(merged, k) == TextAt(base, k)
      {
        MergeRecordAt(base, current, device, k);
        AtomicMeaning(FieldOf(base, k), FieldOf(current, k), FieldOf(device, k));
      }
    }
  }

  lemma RecordRefused(base: Record, current: Record, device: Record)
    ensures MergeRecord(base, current, device).None? <==> exists k :: MergeKey(base, current, device, k).None?
  {
    hide StableJson;
    forall k | MergeKey(base, current, device, k).None?
      ensures k in Keys(base, current, device)
    {
    }
  }

  // Swapping the sides merges to the same record, or refuses as well.
  lemma RecordSymmetric(base: Record, current: Record, device: Record)
    ensures RecordText(MergeRecord(base, current, device)) == RecordText(MergeRecord(base, device, current))
  {
    hide StableJson, MergeRecord, Text, MergeAtomic;
    var a, b := MergeRecord(base, current, device), MergeRecord(base, device, current);
    RecordSameRefusal(base, current, device);
    if a.Some? && b.Some? {
      forall k
        ensures TextAt(a.value, k) == TextAt(b.value, k)
      {
        MergeRecordAt(base, current, device, k);
        MergeRecordAt(base, device, current, k);
        AtomicMeaning(FieldOf(base, k), FieldOf(current, k), FieldOf(device, k));
      }
      TextFields(a.value, b.value);
    }
  }

  lemma RecordSameRefusal(base: Record, current: Record, device: Record)
    ensures MergeRecord(base, current, device).None? <==> MergeRecord(base, device, current).None?
  {
    hide StableJson, Text, MergeAtomic;
    forall k
      ensures MergeKey(base, current, device, k).None? <==> MergeKey(base, device, current, k).None?
    {
      AtomicMeaning(FieldOf(base, k), FieldOf(current, k), FieldOf(device, k));
    }
    assert Keys(base, current, device) == Keys(base, device, current);
  }

  // With one side unchanged the merge is the other side.
  lemma RecordUnit(base: Record, side: Record)
    ensures RecordText(MergeRecord(base, base, side)) == Some(Text(side))
  {
    hide StableJson, Text;
    assert forall k :: MergeKey(base, base, side, k) == Some(FieldOf(side, k));
    MergeRecordOver(base, base, side, side);
  }
}
