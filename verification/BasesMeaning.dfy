// What a Bases merge of two edited sides means (src/server/gitService.ts): when it is refused, and that it
// keeps what either side edited. Everything is said of the texts of the three inputs and the result.
module BasesMeaning {
  import opened Common
  import opened Json
  import opened FieldMerge
  import opened BasesMerge
  import O = CanvasOrder

  // ----- One entry -----

  predicate Edited(base: Field, side: Field) {
    FieldText(side) != FieldText(base)
  }

  // Both sides changed the entry, and not to the same.
  predicate Disputed(base: Field, current: Field, device: Field) {
    Edited(base, current) && Edited(base, device) && FieldText(current) != FieldText(device)
  }

  predicate ThreeObjects(base: Field, current: Field, device: Field) {
    base.Some? && current.Some? && device.Some? && base.value.Obj? && current.value.Obj? && device.value.Obj?
  }

  ghost predicate AnyFieldConflict(base: Field, current: Field, device: Field)
    requires ThreeObjects(base, current, device)
  {
    exists k :: FieldConflict(base.value.fields, current.value.fields, device.value.fields, k)
  }

  // The least key at which the objects conflict.
  ghost predicate FirstConflict(base: Field, current: Field, device: Field, k: string)
    requires ThreeObjects(base, current, device)
  {
    && FieldConflict(base.value.fields, current.value.fields, device.value.fields, k)
    && forall j :: FieldConflict(base.value.fields, current.value.fields, device.value.fields, j) ==> Leq(k, j)
  }

  // The entry that keeps every edit: an edit of one side, an edit both made, or both sides' edits field by
  // field.
  ghost predicate Kept(base: Field, current: Field, device: Field, merged: Field) {
    && (!Edited(base, current) ==> FieldText(merged) == FieldText(device))
    && (!Edited(base, device) ==> FieldText(merged) == FieldText(current))
    && (FieldText(current) == FieldText(device) ==> FieldText(merged) == FieldText(current))
    && (Disputed(base, current, device) ==>
      && ThreeObjects(base, current, device) && merged.Some? && merged.value.Obj?
      && KeepsFields(base.value.fields, current.value.fields, device.value.fields, merged.value.fields))
  }

  // An entry of formulas, properties or summaries that needs a review.
  ghost predicate EntryDisputed(base: Field, current: Field, device: Field) {
    Disputed(base, current, device) && (ThreeObjects(base, current, device) ==> AnyFieldConflict(base, current, device))
  }

  lemma FailingMeans(base: Record, current: Record, device: Record)
    ensures forall k :: k in FailingFields(base, current, device) <==> FieldConflict(base, current, device, k)
  {
    hide StableJson, MergeAtomic;
    forall k
      ensures MergeKey(base, current, device, k).None? <==> FieldConflict(base, current, device, k)
    {
      AtomicMeaning(FieldOf(base, k), FieldOf(current, k), FieldOf(device, k));
    }
    forall k | FieldConflict(base, current, device, k)
      ensures k in Keys(base, current, device)
    {
    }
  }

  lemma NestedMeaning(base: Record, current: Record, device: Record)
    ensures var merged := MergeNested(base, current, device);
      && (merged.Failure? <==> exists k :: FieldConflict(base, current, device, k))
      && (merged.Failure? ==> merged.error.reason == ConcurrentEdits && |merged.error.path| == 1)
      && (merged.Failure? ==> FieldConflict(base, current, device, merged.error.path[0]))
      && (merged.Failure? ==> forall j :: FieldConflict(base, current, device, j) ==> Leq(merged.error.path[0], j))
      && (merged.Success? ==> merged.value.Some? && merged.value.value.Obj?)
      && (merged.Success? ==> KeepsFields(base, current, device, merged.value.value.fields))
  {
    hide StableJson, MergeRecord, FieldConflict, FailingFields, KeepsFields, Leq;
    RecordMeaning(base, current, device);
    FailingMeans(base, current, device);
    if MergeRecord(base, current, device).None? {
      RefusalFails(base, current, device);
    }
  }

  // An entry is refused exactly when both sides changed it differently and it is not three objects free of
  // field conflicts; the refusal says which of the three reasons it is, and where.
  lemma EntryRefusedExactly(base: Field, current: Field, device: Field)
    ensures var merged := MergeMapEntry(base, current, device);
      && (merged.Failure? <==> EntryDisputed(base, current, device))
      && (merged.Failure? && ThreeObjects(base, current, device) ==>
        merged.error.reason == ConcurrentEdits && |merged.error.path| == 1 && FirstConflict(base, current, device, merged.error.path[0]))
      && (merged.Failure? && !ThreeObjects(base, current, device) ==> merged.error == Refusal([],
        if base.None? then ConcurrentAdditions else if current.None? || device.None? then DeleteVsEdit else ConcurrentEdits))
  {
    hide StableJson, MergeNested, FieldConflict, KeepsFields, Leq;
    if ThreeObjects(base, current, device) {
      NestedMeaning(base.value.fields, current.value.fields, device.value.fields);
    }
  }

  lemma EntryKeepsEdits(base: Field, current: Field, device: Field)
    ensures var merged := MergeMapEntry(base, current, device); merged.Success? ==> Kept(base, current, device, merged.value)
  {
    hide StableJson, MergeNested, FieldConflict, KeepsFields, Leq;
    if ThreeObjects(base, current, device) {
      NestedMeaning(base.value.fields, current.value.fields, device.value.fields);
    }
  }

  // ----- One view -----

  // The keys of a view that both sides may be changing at once.
  predicate Mergeable(k: string) {
    k in {"sort", "limit", "columns", "properties", "formulas", "summaries", "group", "groupBy", "image", "display"}
  }

  ghost predicate ChangesMergeable(base: Record, current: Record, device: Record) {
    forall k :: Changed(base, current, k) || Changed(base, device, k) ==> Mergeable(k)
  }

  ghost predicate ViewDisputed(base: Field, current: Field, device: Field) {
    && Disputed(base, current, device)
    && (ThreeObjects(base, current, device) ==>
      || AnyFieldConflict(base, current, device)
      || !ChangesMergeable(base.value.fields, current.value.fields, device.value.fields))
  }

  lemma ChangedKeysMean(base: Record, side: Record)
    ensures forall k :: k in ChangedKeys(base, side) <==> Changed(base, side, k)
    ensures ChangedKeys(base, side) != {} <==> Text(base) != Text(side)
  {
    hide StableJson, Text;
    TextFields(base, side);
    forall k | Changed(base, side, k)
      ensures k in base.Keys + side.Keys
    {
    }
    if Text(base) != Text(side) {
      var k :| TextAt(base, k) != TextAt(side, k);
      assert Changed(base, side, k) && k in ChangedKeys(base, side);
    }
  }

  lemma {:induction false} RestrictedMeans(changed: set<string>, fields: seq<string>)
    ensures FirstRestricted(changed, fields).None? <==> forall f :: f in fields ==> f !in changed
    ensures var first := FirstRestricted(changed, fields); first.Some? ==> first.value in fields && first.value in changed
  {
    if fields != [] {
      assert fields == [fields[0]] + fields[1..];
      RestrictedMeans(changed, fields[1..]);
    }
  }

  lemma KeysMergeable(k: string)
    ensures Mergeable(k) <==> k in KNOWN_VIEW_KEYS && k !in RESTRICTED_CONCURRENT_VIEW_KEYS
  {
    assert k in RESTRICTED_CONCURRENT_VIEW_KEYS <==> k == "type" || k == "name" || k == "filters" || k == "order";
  }

  lemma ViewObjectMeaning(base: Record, current: Record, device: Record)
    requires Text(current) != Text(base) && Text(device) != Text(base)
    ensures var merged := MergeViewObject(base, current, device);
      && (merged.Failure? <==> !ChangesMergeable(base, current, device) || exists k :: FieldConflict(base, current, device, k))
      && (merged.Success? ==> merged.value.Some? && merged.value.value.Obj?)
      && (merged.Success? ==> KeepsFields(base, current, device, merged.value.value.fields))
      && (merged.Failure? && merged.error.reason != ConcurrentEdits ==> merged.error.path == [])
      && (merged.Failure? ==> (merged.error.reason == ConcurrentEdits <==> ChangesMergeable(base, current, device)))
      && (merged.Failure? ==> (merged.error.reason == UnknownViewKey <==>
          exists k :: (Changed(base, current, k) || Changed(base, device, k)) && k !in KNOWN_VIEW_KEYS))
  {
    hide StableJson, Text, MergeNested, FieldConflict, KeepsFields, Mergeable, Leq, ChangedKeys, FirstRestricted, Changed;
    NestedMeaning(base, current, device);
    ChangedKeysMean(base, current);
    ChangedKeysMean(base, device);
    var changed := ChangedKeys(base, current) + ChangedKeys(base, device);
    RestrictedMeans(changed, RESTRICTED_CONCURRENT_VIEW_KEYS);
    forall k
      ensures Mergeable(k) <==> k in KNOWN_VIEW_KEYS && k !in RESTRICTED_CONCURRENT_VIEW_KEYS
    {
      KeysMergeable(k);
    }
  }

  // A view is refused exactly when both sides changed it differently and it is not three objects whose
  // changed keys may all be merged and do not conflict.
  lemma ViewRefusedExactly(base: Field, current: Field, device: Field)
    ensures var merged := MergeViewEntry(base, current, device);
      && (merged.Failure? <==> ViewDisputed(base, current, device))
      && (merged.Failure? && !ThreeObjects(base, current, device) ==> merged.error == Refusal([],
        if base.None? then ConcurrentAdditions else if current.None? || device.None? then DeleteVsEdit else ConcurrentEdits))
      && (merged.Success? ==> Kept(base, current, device, merged.value))
  {
    hide StableJson, MergeViewObject, FieldConflict, KeepsFields, ChangesMergeable, Leq;
    if ThreeObjects(base, current, device) && Edited(base, current) && Edited(base, device) {
      ViewObjectMeaning(base.value.fields, current.value.fields, device.value.fields);
    }
  }

  // ----- Named maps -----

  ghost predicate MapDisputed(b: Record, c: Record, d: Record, k: string) {
    EntryDisputed(FieldOf(b, k), FieldOf(c, k), FieldOf(d, k))
  }

  ghost predicate AnyDisputed(base: Option<Record>, current: Option<Record>, device: Option<Record>) {
    exists k :: MapDisputed(OrEmpty(base), OrEmpty(current), OrEmpty(device), k)
  }

  lemma FailingEntriesMean(b: Record, c: Record, d: Record)
    ensures forall k :: k in FailingEntries(b, c, d) <==> MapDisputed(b, c, d, k)
  {
    hide StableJson, MergeMapEntry, FieldConflict;
    forall k
      ensures EntryAt(b, c, d, k).Failure? <==> MapDisputed(b, c, d, k)
    {
      EntryRefusedExactly(FieldOf(b, k), FieldOf(c, k), FieldOf(d, k));
    }
    forall k | MapDisputed(b, c, d, k)
      ensures k in Keys(b, c, d)
    {
    }
  }

  // A named map is refused exactly when some entry needs a review, at the first such entry; otherwise every
  // entry is the one that keeps the edits.
  lemma NamedMapMeaning(base: Option<Record>, current: Option<Record>, device: Option<Record>)
    ensures var merged := MergeNamedMap(base, current, device);
      var (b, c, d) := (OrEmpty(base), OrEmpty(current), OrEmpty(device));
      && (merged.Failure? <==> AnyDisputed(base, current, device))
      && (merged.Failure? ==> |merged.error.path| > 0 && MapDisputed(b, c, d, merged.error.path[0]))
      && (merged.Failure? ==> forall j :: MapDisputed(b, c, d, j) ==> Leq(merged.error.path[0], j))
      && (merged.Success? ==> (merged.value.None? <==> base.None? && current.None? && device.None?))
      && (merged.Success? ==> forall k :: Kept(FieldOf(b, k), FieldOf(c, k), FieldOf(d, k), FieldOf(OrEmpty(merged.value), k)))
  {
    hide StableJson, MergeMapEntry, MapDisputed, Kept, Leq, MergedEntries, FailingEntries;
    var (b, c, d) := (OrEmpty(base), OrEmpty(current), OrEmpty(device));
    FailingEntriesMean(b, c, d);
    if base.None? && current.None? && device.None? {
      NothingDisputed();
    } else if FailingEntries(b, c, d) == {} {
      forall k
        ensures Kept(FieldOf(b, k), FieldOf(c, k), FieldOf(d, k), FieldOf(MergedEntries(b, c, d), k))
      {
        MergedEntriesAt(b, c, d, k);
        EntryKeepsEdits(FieldOf(b, k), FieldOf(c, k), FieldOf(d, k));
      }
    }
  }

  lemma NothingDisputed()
    ensures forall k :: !MapDisputed(map[], map[], map[], k) && Kept(None, None, None, FieldOf(map[], k))
  {
  }

  // ----- Views -----

  ghost predicate ViewKeyDisputed(base: Views, current: Views, device: Views, key: string) {
    ViewDisputed(ViewState(base, key), ViewState(current, key), ViewState(device, key))
  }

  ghost predicate ViewKept(base: Views, current: Views, device: Views, key: string, merged: Field) {
    Kept(ViewState(base, key), ViewState(current, key), ViewState(device, key), merged)
  }

  // `list` has, key by key and in that order, the views that keep the edits.
  ghost predicate KeepsViews(base: Views, current: Views, device: Views, keys: seq<string>, list: seq<Record>)
    decreases |keys|
  {
    if keys == [] then list == []
    else
      || (ViewKept(base, current, device, keys[0], None) && KeepsViews(base, current, device, keys[1..], list))
      || (list != [] && ViewKept(base, current, device, keys[0], Some(Obj(list[0])))
          && KeepsViews(base, current, device, keys[1..], list[1..]))
  }

  lemma ViewStateObject(v: Views, key: string)
    ensures ViewState(v, key).Some? ==> ViewState(v, key).value.Obj?
  {
  }

  // A merged view is an object, or absent.
  lemma ViewAtObject(base: Views, current: Views, device: Views, key: string)
    ensures var view := ViewAt(base, current, device, key);
      view.Success? && view.value.Some? ==> view.value.value.Obj?
  {
    hide StableJson, MergeNested, ChangedKeys, FirstRestricted, KeepsFields, FieldConflict, Leq;
    var b, c, d := ViewState(base, key), ViewState(current, key), ViewState(device, key);
    if ThreeObjects(b, c, d) {
      NestedMeaning(b.value.fields, c.value.fields, d.value.fields);
    }
  }

  lemma {:induction false} ListMeaning(base: Views, current: Views, device: Views, keys: seq<string>, listed: seq<Record>)
    ensures var list := ViewList(base, current, device, keys, listed);
      && (list.Failure? <==> exists key :: key in keys && ViewKeyDisputed(base, current, device, key))
      && (list.Failure? ==> |list.error.path| > 0 && list.error.path[0] in keys && ViewKeyDisputed(base, current, device, list.error.path[0]))
      && (list.Success? ==> |list.value| >= |listed| && list.value[..|listed|] == listed)
      && (list.Success? ==> KeepsViews(base, current, device, keys, list.value[|listed|..]))
    decreases |keys|
  {
    hide StableJson, ViewAt, ViewKept, ViewKeyDisputed, ViewState;
    if keys != [] {
      var key, rest := keys[0], keys[1..];
      assert keys == [key] + rest;
      ViewMeaning(base, current, device, key);
      ViewAtObject(base, current, device, key);
      var view := ViewAt(base, current, device, key);
      if view.Success? {
        ListMeaning(base, current, device, rest, listed + Listed(view.value));
        var list := ViewList(base, current, device, rest, listed + Listed(view.value));
        if list.Success? {
          PrefixOf(listed, Listed(view.value), list.value);
        }
      }
    }
  }

  lemma PrefixOf(a: seq<Record>, b: seq<Record>, all: seq<Record>)
    requires |all| >= |a + b| && all[..|a + b|] == a + b
    ensures all[..|a|] == a && all[|a|..] == b + all[|a + b|..]
  {
    assert all[..|a|] == all[..|a + b|][..|a|];
    assert all == (a + b) + all[|a + b|..];
  }

  lemma ViewMeaning(base: Views, current: Views, device: Views, key: string)
    ensures var view := ViewAt(base, current, device, key);
      && (view.Failure? <==> ViewKeyDisputed(base, current, device, key))
      && (view.Success? ==> ViewKept(base, current, device, key, view.value))
  {
    hide StableJson, MergeViewEntry, Kept, ViewDisputed;
    ViewRefusedExactly(ViewState(base, key), ViewState(current, key), ViewState(device, key));
  }

  // The views are refused exactly for a reorder of base views on a side, or for a view that needs a review;
  // otherwise they are the base's in its order, then the additions sorted, each keeping the edits.
  lemma ViewsMeaning(base: Views, current: Views, device: Views)
    requires base.present || current.present || device.present
    ensures var merged := MergeViews(base, current, device);
      var additions := (O.Ids(current.order) + O.Ids(device.order)) - O.Ids(base.order);
      var keys := base.order + Sorted(additions);
      && (merged.Failure? <==>
        Reordered(base, current) || Reordered(base, device) || exists key :: key in keys && ViewKeyDisputed(base, current, device, key))
      && (merged.Success? ==> merged.value.Some? && KeepsViews(base, current, device, keys, merged.value.value))
  {
    hide ViewList, Reordered, KeepsViews, ViewKeyDisputed, O.Ids;
    ListMeaning(base, current, device, ViewKeys(base, current, device), []);
    var list := ViewList(base, current, device, ViewKeys(base, current, device), []);
    if list.Success? {
      assert list.value[0..] == list.value;
    }
  }

  // ----- The document -----

  ghost predicate ViewsDisputed(base: Views, current: Views, device: Views) {
    && (base.present || current.present || device.present)
    && (Reordered(base, current) || Reordered(base, device)
      || exists key :: key in ViewKeys(base, current, device) && ViewKeyDisputed(base, current, device, key))
  }

  lemma OtherMeaning(base: Doc, current: Doc, device: Doc)
    ensures var other := MergeOther(base, current, device);
      && (other.Failure? <==> exists k :: FieldConflict(base.other, current.other, device.other, k))
      && (other.Success? ==> KeepsFields(base.other, current.other, device.other, other.value))
  {
    hide StableJson, MergeRecord, FieldConflict, KeepsFields, FailingFields;
    RecordMeaning(base.other, current.other, device.other);
  }

  lemma MapsMeaning(base: Doc, current: Doc, device: Doc)
    ensures MergeNamedMap(base.formulas, current.formulas, device.formulas).Failure? <==> AnyDisputed(base.formulas, current.formulas, device.formulas)
    ensures MergeNamedMap(base.properties, current.properties, device.properties).Failure? <==>
      AnyDisputed(base.properties, current.properties, device.properties)
    ensures MergeNamedMap(base.summaries, current.summaries, device.summaries).Failure? <==>
      AnyDisputed(base.summaries, current.summaries, device.summaries)
  {
    hide StableJson, MergeNamedMap, MapDisputed, Kept, Leq;
    NamedMapMeaning(base.formulas, current.formulas, device.formulas);
    NamedMapMeaning(base.properties, current.properties, device.properties);
    NamedMapMeaning(base.summaries, current.summaries, device.summaries);
  }

  lemma ViewsRefused(base: Views, current: Views, device: Views)
    ensures MergeViews(base, current, device).Failure? <==> ViewsDisputed(base, current, device)
  {
    hide StableJson, MergeViews, KeepsViews, Reordered, ViewKeyDisputed;
    if base.present || current.present || device.present {
      ViewsMeaning(base, current, device);
    } else {
      NoViews(base, current, device);
    }
  }

  lemma FiltersRefused(base: Doc, current: Doc, device: Doc)
    ensures MergeFilters(base, current, device).Failure? <==> Disputed(base.filters, current.filters, device.filters)
  {
    hide StableJson, MergeAtomic;
    AtomicMeaning(base.filters, current.filters, device.filters);
  }

  // A Bases merge is refused exactly when a part of it needs a review.
  lemma MergeRefusedExactly(base: Doc, current: Doc, device: Doc)
    ensures Merge(base, current, device).Failure? <==>
      || Disputed(base.filters, current.filters, device.filters)
      || AnyDisputed(base.formulas, current.formulas, device.formulas)
      || AnyDisputed(base.properties, current.properties, device.properties)
      || AnyDisputed(base.summaries, current.summaries, device.summaries)
      || ViewsDisputed(base.views, current.views, device.views)
      || exists k :: FieldConflict(base.other, current.other, device.other, k)
  {
    hide StableJson, MergeNamedMap, MergeViews, MergeOther, MergeFilters, FieldConflict, Disputed, AnyDisputed, ViewsDisputed, KeepsFields;
    FiltersRefused(base, current, device);
    MapsMeaning(base, current, device);
    ViewsRefused(base.views, current.views, device.views);
    OtherMeaning(base, current, device);
  }

  lemma NoViews(base: Views, current: Views, device: Views)
    requires !base.present && !current.present && !device.present
    ensures MergeViews(base, current, device) == Success(None)
  {
  }

  // The refusal names the first part that needs a review, in the order the parts are merged.
  lemma MergeRefusedWhere(base: Doc, current: Doc, device: Doc)
    requires Merge(base, current, device).Failure?
    ensures var e := Merge(base, current, device).error;
      if Disputed(base.filters, current.filters, device.filters) then e == Refusal(["filters"], ConcurrentEdits)
      else if AnyDisputed(base.formulas, current.formulas, device.formulas) then
        e.path != [] && e.path[0] == "formulas" && MergeNamedMap(base.formulas, current.formulas, device.formulas) == Failure(e.(path := e.path[1..]))
      else if AnyDisputed(base.properties, current.properties, device.properties) then
        e.path != [] && e.path[0] == "properties" && MergeNamedMap(base.properties, current.properties, device.properties) == Failure(e.(path := e.path[1..]))
      else if AnyDisputed(base.summaries, current.summaries, device.summaries) then
        e.path != [] && e.path[0] == "summaries" && MergeNamedMap(base.summaries, current.summaries, device.summaries) == Failure(e.(path := e.path[1..]))
      else if ViewsDisputed(base.views, current.views, device.views) then MergeViews(base.views, current.views, device.views) == Failure(e)
      else MergeOther(base, current, device) == Failure(e)
  {
    hide StableJson, MergeNamedMap, MergeViews, MergeOther, FieldConflict, Disputed, AnyDisputed, ViewsDisputed, KeepsFields;
    FiltersRefused(base, current, device);
    MapsMeaning(base, current, device);
    ViewsRefused(base.views, current.views, device.views);
  }

  ghost predicate MapKept(base: Option<Record>, current: Option<Record>, device: Option<Record>, merged: Option<Record>) {
    && (merged.None? <==> base.None? && current.None? && device.None?)
    && forall k :: Kept(FieldOf(OrEmpty(base), k), FieldOf(OrEmpty(current), k), FieldOf(OrEmpty(device), k), FieldOf(OrEmpty(merged), k))
  }

  // And what it merges keeps every edit of either side.
  lemma MergeKeepsEdits(base: Doc, current: Doc, device: Doc)
    requires Merge(base, current, device).Success?
    ensures var out := Merge(base, current, device).value;
      && (Edited(base.filters, current.filters) ==> FieldText(out.filters) == FieldText(current.filters))
      && (Edited(base.filters, device.filters) ==> FieldText(out.filters) == FieldText(device.filters))
      && (!Edited(base.filters, current.filters) && !Edited(base.filters, device.filters) ==> FieldText(out.filters) == FieldText(base.filters))
      && MapKept(base.formulas, current.formulas, device.formulas, out.formulas)
      && MapKept(base.properties, current.properties, device.properties, out.properties)
      && MapKept(base.summaries, current.summaries, device.summaries, out.summaries)
      && (out.views.None? <==> !base.views.present && !current.views.present && !device.views.present)
      && (out.views.Some? ==>
        KeepsViews(base.views, current.views, device.views, ViewKeys(base.views, current.views, device.views), out.views.value))
      && KeepsFields(base.other, current.other, device.other, out.other)
  {
    hide StableJson, MergeNamedMap, MergeViews, MergeOther, MergeAtomic, FieldConflict, MapDisputed, Kept, KeepsViews, KeepsFields,
      Reordered, ViewKeyDisputed, Leq;
    AtomicMeaning(base.filters, current.filters, device.filters);
    NamedMapMeaning(base.formulas, current.formulas, device.formulas);
    NamedMapMeaning(base.properties, current.properties, device.properties);
    NamedMapMeaning(base.summaries, current.summaries, device.summaries);
    OtherMeaning(base, current, device);
    if base.views.present || current.views.present || device.views.present {
      ViewsMeaning(base.views, current.views, device.views);
    } else {
      NoViews(base.views, current.views, device.views);
    }
  }
}
