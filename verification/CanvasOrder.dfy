// Three-way merge of the order of a Canvas collection: the chosen order of the surviving base ids, into
// which the additions of each side are spliced next to their neighbours (src/server/gitService.ts).
module CanvasOrder {
  import opened Common

  type Order = seq<string>

  predicate Distinct(s: Order) {
    forall i, j :: 0 <= i < j < |s| ==> s[i] != s[j]
  }

  function Ids(s: Order): set<string> {
    set x | x in s
  }

  function Filter(s: Order, ids: set<string>): Order {
    if s == [] then [] else (if s[0] in ids then [s[0]] else []) + Filter(s[1..], ids)
  }

  // Where `x` is in `s`; past the end if it is not.
  function Pos(s: Order, x: string): int {
    if s == [] || s[0] == x then 0 else 1 + Pos(s[1..], x)
  }

  // The ids of `side` that are in `r` are in the same order there.
  predicate Follows(r: Order, side: Order) {
    forall i, j :: 0 <= i < j < |side| && side[i] in r && side[j] in r ==> Pos(r, side[i]) < Pos(r, side[j])
  }

  function Insert(s: Order, p: int, x: string): Order
    requires 0 <= p <= |s|
  {
    s[..p] + [x] + s[p..]
  }

  // ----- Splicing one id -----

  function Previous(side: Order, i: int, r: Order): Option<string>
    requires 0 <= i <= |side|
    decreases i
  {
    if i == 0 then None else if side[i - 1] in r then Some(side[i - 1]) else Previous(side, i - 1, r)
  }

  function Following(side: Order, i: int, r: Order): Option<string>
    requires 0 <= i <= |side|
    decreases |side| - i
  {
    if i == |side| then None else if side[i] in r then Some(side[i]) else Following(side, i + 1, r)
  }

  // An id found but empty counts as not found.
  predicate Anchors(found: Option<string>) {
    found.Some? && found.value != ""
  }

  function Slot(r: Order, side: Order, i: int): (p: int)
    requires 0 <= i < |side|
  {
    var before := Previous(side, i, r);
    if Anchors(before) then Pos(r, before.value) + 1
    else
      var after := Following(side, i + 1, r);
      if Anchors(after) then Pos(r, after.value) else |r|
  }

  predicate Skipped(r: Order, id: string, baseIds: set<string>, merged: set<string>) {
    id in baseIds || id !in merged || id in r
  }

  function Splice(r: Order, side: Order, i: int, baseIds: set<string>, merged: set<string>): Order
    requires 0 <= i < |side|
  {
    SlotInside(r, side, i);
    if Skipped(r, side[i], baseIds, merged) then r else Insert(r, Slot(r, side, i), side[i])
  }

  function Integrate(r: Order, side: Order, i: int, baseIds: set<string>, merged: set<string>): Order
    requires 0 <= i <= |side|
    decreases |side| - i
  {
    if i == |side| then r else Integrate(Splice(r, side, i, baseIds, merged), side, i + 1, baseIds, merged)
  }

  lemma {:induction false} PosIn(s: Order, x: string)
    ensures 0 <= Pos(s, x) <= |s| && (Pos(s, x) < |s| <==> x in s)
    ensures x in s ==> s[Pos(s, x)] == x
  {
    if s != [] && s[0] != x {
      PosIn(s[1..], x);
      assert s == [s[0]] + s[1..];
    }
  }

  lemma {:induction false} PreviousIs(side: Order, i: int, r: Order)
    requires 0 <= i <= |side|
    ensures var found := Previous(side, i, r);
      if found.None? then forall k :: 0 <= k < i ==> side[k] !in r
      else exists k :: 0 <= k < i && side[k] == found.value && side[k] in r && forall m :: k < m < i ==> side[m] !in r
    decreases i
  {
    if i > 0 && side[i - 1] !in r {
      PreviousIs(side, i - 1, r);
    }
  }

  lemma {:induction false} FollowingIs(side: Order, i: int, r: Order)
    requires 0 <= i <= |side|
    ensures var found := Following(side, i, r);
      if found.None? then forall k :: i <= k < |side| ==> side[k] !in r
      else exists k :: i <= k < |side| && side[k] == found.value && side[k] in r && forall m :: i <= m < k ==> side[m] !in r
    decreases |side| - i
  {
    if i < |side| && side[i] !in r {
      FollowingIs(side, i + 1, r);
    }
  }

  lemma SlotInside(r: Order, side: Order, i: int)
    requires 0 <= i < |side|
    ensures 0 <= Slot(r, side, i) <= |r|
  {
    hide Previous, Following, Pos;
    var before, after := Previous(side, i, r), Following(side, i + 1, r);
    PreviousIs(side, i, r);
    FollowingIs(side, i + 1, r);
    if before.Some? {
      PosIn(r, before.value);
    }
    if after.Some? {
      PosIn(r, after.value);
    }
  }

  lemma {:induction false} InsertPos(s: Order, p: int, x: string, a: string)
    requires 0 <= p <= |s| && x !in s
    ensures Pos(Insert(s, p, x), x) == p
    ensures a in s ==> Pos(Insert(s, p, x), a) == Pos(s, a) + (if Pos(s, a) < p then 0 else 1)
    decreases |s|
  {
    if s == [] || p == 0 {
      PosIn(s, a);
      assert Insert(s, p, x) == [x] + s;
      assert ([x] + s)[1..] == s;
    } else {
      var t := s[1..];
      assert Insert(s, p, x) == [s[0]] + Insert(t, p - 1, x);
      assert ([s[0]] + Insert(t, p - 1, x))[1..] == Insert(t, p - 1, x);
      assert s == [s[0]] + t;
      InsertPos(t, p - 1, x, a);
    }
  }

  lemma InsertIds(s: Order, p: int, x: string)
    requires 0 <= p <= |s|
    ensures forall a :: a in Insert(s, p, x) <==> a in s || a == x
  {
    assert s == s[..p] + s[p..];
  }

  lemma InsertDistinct(s: Order, p: int, x: string)
    requires 0 <= p <= |s| && x !in s && Distinct(s)
    ensures Distinct(Insert(s, p, x))
  {
  }

  // Splicing an id the other order does not have leaves that order followed.
  lemma InsertFollows(r: Order, p: int, x: string, other: Order)
    requires 0 <= p <= |r| && x !in r && x !in other && Follows(r, other)
    ensures Follows(Insert(r, p, x), other)
  {
    hide Insert, Pos;
    var t := Insert(r, p, x);
    InsertIds(r, p, x);
    forall i, j | 0 <= i < j < |other| && other[i] in t && other[j] in t
      ensures Pos(t, other[i]) < Pos(t, other[j])
    {
      InsertPos(r, p, x, other[i]);
      InsertPos(r, p, x, other[j]);
    }
  }

  // The slot lies between the neighbours of the id: after all that precede it, before all that follow.
  lemma SlotBetween(r: Order, side: Order, i: int)
    requires 0 <= i < |side| && Follows(r, side) && "" !in r
    ensures forall k :: 0 <= k < i && side[k] in r ==> Pos(r, side[k]) < Slot(r, side, i)
    ensures forall k :: i < k < |side| && side[k] in r ==> Slot(r, side, i) <= Pos(r, side[k])
  {
    hide Previous, Following, Pos;
    PreviousIs(side, i, r);
    FollowingIs(side, i + 1, r);
  }

  // It is right after the nearest id that precedes it, or, none preceding, right before the nearest that
  // follows, or else at the end.
  lemma SlotNearest(r: Order, side: Order, i: int, k: int)
    requires 0 <= i < |side| && 0 <= k < |side| && k != i && side[k] in r && side[k] != ""
    requires k < i ==> forall m :: k < m < i ==> side[m] !in r
    requires k > i ==> (forall m :: i < m < k ==> side[m] !in r) && forall m :: 0 <= m < i ==> side[m] !in r
    ensures Slot(r, side, i) == if k < i then Pos(r, side[k]) + 1 else Pos(r, side[k])
  {
    hide Previous, Following, Pos;
    PreviousIs(side, i, r);
    FollowingIs(side, i + 1, r);
  }

  lemma SlotLast(r: Order, side: Order, i: int)
    requires 0 <= i < |side| && forall m :: 0 <= m < |side| && m != i ==> side[m] !in r
    ensures Slot(r, side, i) == |r|
  {
    hide Previous, Following, Pos;
    PreviousIs(side, i, r);
    FollowingIs(side, i + 1, r);
  }

  lemma SpliceFollows(r: Order, side: Order, i: int, baseIds: set<string>, merged: set<string>)
    requires 0 <= i < |side| && Follows(r, side) && "" !in r && "" !in merged && Distinct(side)
    ensures Follows(Splice(r, side, i, baseIds, merged), side) && "" !in Splice(r, side, i, baseIds, merged)
  {
    hide Insert, Pos, Slot;
    if !Skipped(r, side[i], baseIds, merged) {
      SlotInside(r, side, i);
      InsertIds(r, Slot(r, side, i), side[i]);
      SlotBetween(r, side, i);
      SlotKeepsOrder(r, side, i, Slot(r, side, i));
    }
  }

  lemma SlotKeepsOrder(r: Order, side: Order, i: int, p: int)
    requires 0 <= i < |side| && 0 <= p <= |r| && side[i] !in r && Distinct(side) && Follows(r, side)
    requires forall k :: 0 <= k < i && side[k] in r ==> Pos(r, side[k]) < p
    requires forall k :: i < k < |side| && side[k] in r ==> p <= Pos(r, side[k])
    ensures Follows(Insert(r, p, side[i]), side)
  {
    hide Insert, Pos;
    var x, t := side[i], Insert(r, p, side[i]);
    InsertIds(r, p, x);
    forall j, k | 0 <= j < k < |side| && side[j] in t && side[k] in t
      ensures Pos(t, side[j]) < Pos(t, side[k])
    {
      InsertPos(r, p, x, side[j]);
      InsertPos(r, p, x, side[k]);
    }
  }

  lemma {:induction false} IntegrateFollows(r: Order, side: Order, i: int, baseIds: set<string>, merged: set<string>)
    requires 0 <= i <= |side| && Follows(r, side) && "" !in r && "" !in merged && Distinct(side)
    ensures Follows(Integrate(r, side, i, baseIds, merged), side)
    decreases |side| - i
  {
    hide Follows, Splice, Distinct;
    if i < |side| {
      SpliceFollows(r, side, i, baseIds, merged);
      IntegrateFollows(Splice(r, side, i, baseIds, merged), side, i + 1, baseIds, merged);
    }
  }

  predicate IsAddition(x: string, baseIds: set<string>, merged: set<string>) {
    x !in baseIds && x in merged
  }

  lemma {:induction false} IntegrateIds(r: Order, side: Order, i: int, baseIds: set<string>, merged: set<string>)
    requires 0 <= i <= |side| && Distinct(r)
    ensures Distinct(Integrate(r, side, i, baseIds, merged))
    ensures forall x :: x in Integrate(r, side, i, baseIds, merged) <==> x in r || (x in side[i..] && IsAddition(x, baseIds, merged))
    decreases |side| - i
  {
    hide Slot, Insert, Distinct;
    if i < |side| {
      var x := side[i];
      SlotInside(r, side, i);
      if !Skipped(r, x, baseIds, merged) {
        InsertDistinct(r, Slot(r, side, i), x);
        InsertIds(r, Slot(r, side, i), x);
      }
      assert side[i..] == [x] + side[i + 1..];
      IntegrateIds(Splice(r, side, i, baseIds, merged), side, i + 1, baseIds, merged);
    }
  }

  // Integrating one side leaves the other followed, if the ids it adds are not the other's.
  lemma {:induction false} IntegrateKeepsOther(r: Order, side: Order, i: int, baseIds: set<string>, merged: set<string>, other: Order)
    requires 0 <= i <= |side| && Follows(r, other)
    requires forall x :: x in side && IsAddition(x, baseIds, merged) && x in other ==> x in r
    ensures Follows(Integrate(r, side, i, baseIds, merged), other)
    decreases |side| - i
  {
    hide Slot, Insert, Follows;
    if i < |side| {
      var x := side[i];
      SlotInside(r, side, i);
      if !Skipped(r, x, baseIds, merged) {
        InsertFollows(r, Slot(r, side, i), x, other);
        InsertIds(r, Slot(r, side, i), x);
      }
      IntegrateKeepsOther(Splice(r, side, i, baseIds, merged), side, i + 1, baseIds, merged, other);
    }
  }

  lemma {:induction false} InsertFilter(s: Order, p: int, x: string, ids: set<string>)
    requires 0 <= p <= |s| && x !in ids
    ensures Filter(Insert(s, p, x), ids) == Filter(s, ids)
    decreases p
  {
    if p == 0 {
      assert Insert(s, p, x) == [x] + s;
      assert ([x] + s)[1..] == s;
    } else {
      var t := Insert(s[1..], p - 1, x);
      assert Insert(s, p, x) == [s[0]] + t;
      assert ([s[0]] + t)[1..] == t;
      InsertFilter(s[1..], p - 1, x, ids);
    }
  }

  lemma {:induction false} IntegrateKeepsFilter(r: Order, side: Order, i: int, baseIds: set<string>, merged: set<string>, ids: set<string>)
    requires 0 <= i <= |side| && ids <= baseIds
    ensures Filter(Integrate(r, side, i, baseIds, merged), ids) == Filter(r, ids)
    decreases |side| - i
  {
    hide Slot, Insert, Filter;
    if i < |side| {
      SlotInside(r, side, i);
      if !Skipped(r, side[i], baseIds, merged) {
        InsertFilter(r, Slot(r, side, i), side[i], ids);
      }
      IntegrateKeepsFilter(Splice(r, side, i, baseIds, merged), side, i + 1, baseIds, merged, ids);
    }
  }

  // ----- The merge -----

  function Join(s: Order): string {
    if s == [] then ""
    else if |s| == 1 then s[0]
    else s[0] + "\0" + Join(s[1..])
  }

  // The text by which the source compares orders.
  function OrderText(s: Order, ids: set<string>): string {
    Join(Filter(s, ids))
  }

  function Survivors(base: Order, merged: set<string>): set<string> {
    set x | x in base && x in merged
  }

  predicate Conflict(base: Order, current: Order, device: Order, ids: set<string>) {
    && OrderText(current, ids) != OrderText(base, ids)
    && OrderText(device, ids) != OrderText(base, ids)
    && OrderText(current, ids) != OrderText(device, ids)
  }

  function Chosen(base: Order, current: Order, device: Order, ids: set<string>): Order {
    if OrderText(current, ids) != OrderText(base, ids) then Filter(current, ids)
    else if OrderText(device, ids) != OrderText(base, ids) then Filter(device, ids)
    else Filter(base, ids)
  }

  // The closing filter: merged ids, at their first occurrence.
  function FirstOnes(r: Order, i: int, merged: set<string>): Order
    requires 0 <= i <= |r|
    decreases |r| - i
  {
    if i == |r| then []
    else (if r[i] in merged && Pos(r, r[i]) == i then [r[i]] else []) + FirstOnes(r, i + 1, merged)
  }

  function Integrated(base: Order, current: Order, device: Order, merged: set<string>): Order {
    var kept := Chosen(base, current, device, Survivors(base, merged));
    Integrate(Integrate(kept, current, 0, Ids(base), merged), device, 0, Ids(base), merged)
  }

  function MergeOrder(base: Order, current: Order, device: Order, merged: set<string>): Option<Order> {
    if Conflict(base, current, device, Survivors(base, merged)) then None
    else
      var r := Integrated(base, current, device, merged);
      Some(FirstOnes(r, 0, merged))
  }

  // What the merge of the entries guarantees of the merged ids: each is in a side, and a base id among them
  // was deleted by neither.
  predicate Coherent(base: Order, current: Order, device: Order, merged: set<string>) {
    && Distinct(base) && Distinct(current) && Distinct(device)
    && (forall x :: x in merged ==> x in current || x in device)
    && (forall x :: x in merged && x in base ==> x in current && x in device)
  }

  lemma {:induction false} FilterIds(s: Order, ids: set<string>)
    ensures forall x :: x in Filter(s, ids) <==> x in s && x in ids
  {
    if s != [] {
      FilterIds(s[1..], ids);
      assert s == [s[0]] + s[1..];
    }
  }

  lemma {:induction false} FilterDistinct(s: Order, ids: set<string>)
    requires Distinct(s)
    ensures Distinct(Filter(s, ids))
  {
    if s != [] {
      FilterDistinct(s[1..], ids);
      FilterIds(s[1..], ids);
    }
  }

  lemma {:induction false} FilterPos(s: Order, ids: set<string>, a: string, b: string)
    requires a in s && b in s && a in ids && b in ids
    ensures Pos(Filter(s, ids), a) < Pos(Filter(s, ids), b) <==> Pos(s, a) < Pos(s, b)
  {
    var t := s[1..];
    assert s == [s[0]] + t;
    FilterIds(t, ids);
    PosIn(t, a);
    PosIn(t, b);
    PosIn(Filter(t, ids), a);
    PosIn(Filter(t, ids), b);
    assert Filter(s, ids) == if s[0] in ids then [s[0]] + Filter(t, ids) else Filter(t, ids);
    assert ([s[0]] + Filter(t, ids))[1..] == Filter(t, ids);
    if s[0] != a && s[0] != b {
      FilterPos(t, ids, a, b);
    }
  }

  lemma PosAt(s: Order, i: int)
    requires Distinct(s) && 0 <= i < |s|
    ensures Pos(s, s[i]) == i
  {
    PosIn(s, s[i]);
  }

  lemma FilterFollows(s: Order, ids: set<string>)
    requires Distinct(s)
    ensures Follows(Filter(s, ids), s)
  {
    hide Pos, Filter;
    FilterIds(s, ids);
    forall i, j | 0 <= i < j < |s| && s[i] in Filter(s, ids) && s[j] in Filter(s, ids)
      ensures Pos(Filter(s, ids), s[i]) < Pos(Filter(s, ids), s[j])
    {
      PosAt(s, i);
      PosAt(s, j);
      FilterPos(s, ids, s[i], s[j]);
    }
  }

  lemma {:induction false} FirstOnesSame(r: Order, i: int, merged: set<string>)
    requires 0 <= i <= |r| && Distinct(r) && forall x :: x in r ==> x in merged
    ensures FirstOnes(r, i, merged) == r[i..]
    decreases |r| - i
  {
    if i < |r| {
      PosAt(r, i);
      FirstOnesSame(r, i + 1, merged);
    }
  }

  lemma ChosenIds(base: Order, current: Order, device: Order, merged: set<string>)
    requires Coherent(base, current, device, merged)
    ensures var ids := Survivors(base, merged); var kept := Chosen(base, current, device, ids);
      Distinct(kept) && forall x :: x in kept <==> x in ids
  {
    hide OrderText, Filter;
    var ids := Survivors(base, merged);
    FilterIds(base, ids);
    FilterIds(current, ids);
    FilterIds(device, ids);
    FilterDistinct(base, ids);
    FilterDistinct(current, ids);
    FilterDistinct(device, ids);
  }

  lemma IntegratedIds(base: Order, current: Order, device: Order, merged: set<string>)
    requires Coherent(base, current, device, merged)
    ensures var r := Integrated(base, current, device, merged); Distinct(r) && forall x :: x in r <==> x in merged
  {
    hide Chosen, Integrate, Distinct;
    var kept := Chosen(base, current, device, Survivors(base, merged));
    ChosenIds(base, current, device, merged);
    IntegrateIds(kept, current, 0, Ids(base), merged);
    IntegrateIds(Integrate(kept, current, 0, Ids(base), merged), device, 0, Ids(base), merged);
  }

  // The merged order lists exactly the merged ids, each once, and keeps the chosen order of the survivors.
  lemma MergedOrderExact(base: Order, current: Order, device: Order, merged: set<string>)
    requires Coherent(base, current, device, merged) && MergeOrder(base, current, device, merged).Some?
    ensures var r := MergeOrder(base, current, device, merged).value; var ids := Survivors(base, merged);
      && r == Integrated(base, current, device, merged)
      && Distinct(r) && (forall x :: x in r <==> x in merged)
      && Filter(r, ids) == Chosen(base, current, device, ids)
  {
    hide Integrate, Chosen, Distinct, Conflict, Filter, FirstOnes;
    var r := Integrated(base, current, device, merged);
    IntegratedIds(base, current, device, merged);
    FirstOnesSame(r, 0, merged);
    KeptFilter(base, current, device, merged);
  }

  lemma {:induction false} FilterAll(s: Order, ids: set<string>)
    requires forall x :: x in s ==> x in ids
    ensures Filter(s, ids) == s
  {
    if s != [] {
      FilterAll(s[1..], ids);
    }
  }

  lemma KeptFilter(base: Order, current: Order, device: Order, merged: set<string>)
    requires Coherent(base, current, device, merged)
    ensures var ids := Survivors(base, merged);
      Filter(Integrated(base, current, device, merged), ids) == Chosen(base, current, device, ids)
  {
    hide Integrate, Chosen, Distinct, Filter;
    var ids := Survivors(base, merged);
    var kept := Chosen(base, current, device, ids);
    ChosenIds(base, current, device, merged);
    FilterAll(kept, ids);
    IntegrateKeepsFilter(kept, current, 0, Ids(base), merged, ids);
    IntegrateKeepsFilter(Integrate(kept, current, 0, Ids(base), merged), device, 0, Ids(base), merged, ids);
  }

  // ----- When both sides are followed -----

  // Ids that the comparison by text can tell apart.
  predicate Clean(id: string) {
    id != "" && '\0' !in id
  }

  predicate CleanAll(s: Order) {
    forall x :: x in s ==> Clean(x)
  }

  lemma {:induction false} FirstPartUnique(a: string, b: string, x: string, y: string)
    requires '\0' !in a && '\0' !in b && a + "\0" + x == b + "\0" + y
    ensures a == b && x == y
  {
    var u, v := a + "\0" + x, b + "\0" + y;
    assert u[0] == v[0];
    if a == [] || b == [] {
      assert a == b;
      assert x == u[1..] && y == v[1..];
    } else {
      assert u[1..] == a[1..] + "\0" + x && v[1..] == b[1..] + "\0" + y;
      FirstPartUnique(a[1..], b[1..], x, y);
      assert a == [a[0]] + a[1..] && b == [b[0]] + b[1..];
    }
  }

  lemma JoinHasSeparator(s: Order)
    requires CleanAll(s)
    ensures s == [] <==> Join(s) == ""
    ensures |s| <= 1 <==> '\0' !in Join(s)
  {
    assert s != [] ==> s[0] in s;
    if |s| > 1 {
      assert Join(s)[|s[0]|] == '\0';
    }
  }

  lemma {:induction false} JoinUnique(a: Order, b: Order)
    requires CleanAll(a) && CleanAll(b) && Join(a) == Join(b)
    ensures a == b
  {
    JoinHasSeparator(a);
    JoinHasSeparator(b);
    if |a| > 1 && |b| > 1 {
      assert a[0] in a && b[0] in b;
      FirstPartUnique(a[0], b[0], Join(a[1..]), Join(b[1..]));
      JoinUnique(a[1..], b[1..]);
      assert a == [a[0]] + a[1..] && b == [b[0]] + b[1..];
    }
  }

  predicate CleanSet(ids: set<string>) {
    forall x :: x in ids ==> Clean(x)
  }

  lemma OrderTextUnique(a: Order, b: Order, ids: set<string>)
    requires CleanSet(ids)
    ensures OrderText(a, ids) == OrderText(b, ids) <==> Filter(a, ids) == Filter(b, ids)
  {
    hide Filter, Join, Clean;
    FilterIds(a, ids);
    FilterIds(b, ids);
    if OrderText(a, ids) == OrderText(b, ids) {
      JoinUnique(Filter(a, ids), Filter(b, ids));
    }
  }

  predicate Precedes(s: Order, a: string, b: string) {
    a in s && b in s && Pos(s, a) < Pos(s, b)
  }

  // The sides order every merged id they share the same way.
  ghost predicate Agree(current: Order, device: Order, merged: set<string>) {
    forall a, b :: a in merged && b in merged && Precedes(current, a, b) && a in device && b in device ==> Precedes(device, a, b)
  }

  lemma AgreeSymmetric(current: Order, device: Order, merged: set<string>)
    requires Agree(current, device, merged)
    ensures Agree(device, current, merged)
  {
    forall a, b | a in merged && b in merged && Precedes(device, a, b) && a in current && b in current
      ensures Precedes(current, a, b)
    {
      PosIn(current, a);
      PosIn(current, b);
      assert Precedes(current, b, a) ==> Precedes(device, b, a);
    }
  }

  // What follows one side, and holds only its ids, follows the other if they agree.
  lemma FollowsAgreed(r: Order, current: Order, device: Order, merged: set<string>)
    requires Follows(r, current) && Agree(device, current, merged) && Distinct(current) && Distinct(device)
    requires forall x :: x in r ==> x in merged && x in current
    ensures Follows(r, device)
  {
    hide Pos;
    forall i, j | 0 <= i < j < |device| && device[i] in r && device[j] in r
      ensures Pos(r, device[i]) < Pos(r, device[j])
    {
      var a, b := device[i], device[j];
      PosAt(device, i);
      PosAt(device, j);
      assert Precedes(device, a, b);
      assert Precedes(current, a, b);
      FollowsPrecedes(r, current, a, b);
    }
  }

  lemma FollowsPrecedes(r: Order, side: Order, a: string, b: string)
    requires Follows(r, side) && Precedes(side, a, b) && a in r && b in r
    ensures Precedes(r, a, b)
  {
    PosIn(side, a);
    PosIn(side, b);
  }

  // Lists of the same ids, each once, one following the other, are the same list.
  lemma {:induction false} FollowsSame(r: Order, side: Order)
    requires Distinct(r) && Distinct(side) && Follows(r, side) && forall x :: x in r <==> x in side
    ensures r == side
    decreases |r|
  {
    assert r != [] ==> r[0] in side;
    assert side != [] ==> side[0] in r;
    if r != [] && side != [] {
      FirstFirst(r, side);
      TailFollows(r, side);
      FollowsSame(r[1..], side[1..]);
    }
  }

  lemma FirstFirst(r: Order, side: Order)
    requires r != [] && side != [] && Follows(r, side) && forall x :: x in r <==> x in side
    ensures r[0] == side[0]
  {
    assert side[0] in r;
    PosIn(side, r[0]);
    PosIn(r, side[0]);
    var p := Pos(side, r[0]);
    assert r[0] in side && side[p] == r[0];
    assert Pos(r, side[p]) == 0;
  }

  lemma TailFollows(r: Order, side: Order)
    requires r != [] && side != [] && r[0] == side[0] && Distinct(r) && Distinct(side)
    requires Follows(r, side) && forall x :: x in r <==> x in side
    ensures Distinct(r[1..]) && Distinct(side[1..]) && Follows(r[1..], side[1..])
    ensures forall x :: x in r[1..] <==> x in side[1..]
  {
    assert r == [r[0]] + r[1..] && side == [side[0]] + side[1..];
    var t, u := r[1..], side[1..];
    assert r[0] !in t && side[0] !in u;
    forall x
      ensures x in t <==> x in u
    {
      assert x in r <==> x == r[0] || x in t;
      assert x in side <==> x == side[0] || x in u;
    }
    forall i, j | 0 <= i < j < |u| && u[i] in t && u[j] in t
      ensures Pos(t, u[i]) < Pos(t, u[j])
    {
      assert Pos(r, side[i + 1]) < Pos(r, side[j + 1]);
    }
  }

  lemma FilterAgreed(current: Order, device: Order, merged: set<string>, ids: set<string>)
    requires Distinct(current) && Distinct(device) && Agree(device, current, merged) && ids <= merged
    requires forall x :: x in ids ==> x in current && x in device
    ensures Filter(current, ids) == Filter(device, ids)
  {
    hide Filter, Distinct, Follows, Agree;
    var a, b := Filter(current, ids), Filter(device, ids);
    FilterIds(current, ids);
    FilterIds(device, ids);
    FilterDistinct(current, ids);
    FilterDistinct(device, ids);
    FilterFollows(current, ids);
    FollowsAgreed(a, current, device, merged);
    FollowsFilter(a, device, ids);
    FollowsSame(a, b);
  }

  lemma FollowsFilter(r: Order, side: Order, ids: set<string>)
    requires Follows(r, side) && Distinct(side)
    ensures Follows(r, Filter(side, ids))
  {
    hide Pos, Filter;
    var t := Filter(side, ids);
    FilterIds(side, ids);
    FilterDistinct(side, ids);
    forall i, j | 0 <= i < j < |t| && t[i] in r && t[j] in r
      ensures Pos(r, t[i]) < Pos(r, t[j])
    {
      PosAt(t, i);
      PosAt(t, j);
      assert t[i] in t && t[j] in t;
      FilterPos(side, ids, t[i], t[j]);
      FollowsPrecedes(r, side, t[i], t[j]);
    }
  }

  // Surviving base ids that can be told apart, and no merged id that cannot be an anchor.
  predicate Tellable(base: Order, merged: set<string>) {
    "" !in merged && CleanSet(Survivors(base, merged))
  }

  lemma ChosenAgreed(base: Order, current: Order, device: Order, merged: set<string>)
    requires Coherent(base, current, device, merged) && Agree(device, current, merged)
    requires CleanSet(Survivors(base, merged))
    ensures var ids := Survivors(base, merged);
      !Conflict(base, current, device, ids) && Chosen(base, current, device, ids) == Filter(current, ids)
  {
    hide Filter, Agree, CleanSet, Distinct, OrderText;
    var ids := Survivors(base, merged);
    FilterAgreed(current, device, merged, ids);
    OrderTextUnique(current, device, ids);
    OrderTextUnique(current, base, ids);
  }

  lemma AgreedFollowsBoth(base: Order, current: Order, device: Order, merged: set<string>)
    requires Coherent(base, current, device, merged) && Agree(device, current, merged) && Tellable(base, merged)
    ensures var r := Integrated(base, current, device, merged); Follows(r, current) && Follows(r, device)
  {
    hide Filter, Agree, Conflict, Distinct, Follows, Integrate, Chosen;
    var kept, baseIds := Chosen(base, current, device, Survivors(base, merged)), Ids(base);
    ChosenAgreed(base, current, device, merged);
    FilterFollows(current, Survivors(base, merged));
    ChosenIds(base, current, device, merged);
    IntegrateIds(kept, current, 0, baseIds, merged);
    IntegrateFollows(kept, current, 0, baseIds, merged);
    var first := Integrate(kept, current, 0, baseIds, merged);
    FollowsAgreed(first, current, device, merged);
    IntegrateFollows(first, device, 0, baseIds, merged);
    IntegrateKeepsOther(first, device, 0, baseIds, merged, current);
  }

  lemma FollowedAgrees(r: Order, current: Order, device: Order, merged: set<string>)
    requires Follows(r, current) && Follows(r, device) && Distinct(device) && forall x :: x in merged ==> x in r
    ensures Agree(current, device, merged)
  {
    hide Pos;
    forall a, b | a in merged && b in merged && Precedes(current, a, b) && a in device && b in device
      ensures Precedes(device, a, b)
    {
      FollowsPrecedes(r, current, a, b);
      PosIn(device, a);
      PosIn(device, b);
      PosIn(current, a);
      PosIn(current, b);
      PosIn(r, a);
      PosIn(r, b);
      assert Pos(device, a) == Pos(device, b) ==> a == b;
      assert Precedes(device, b, a) ==> Precedes(r, b, a) by {
        if Precedes(device, b, a) {
          FollowsPrecedes(r, device, b, a);
        }
      }
    }
  }

  // An order that follows both sides shows that they order the merged ids they share the same way; and if
  // they do, and no surviving base id holds the separator and no merged id is empty, the merge follows both.
  lemma FollowsBothExactlyWhenAgreed(base: Order, current: Order, device: Order, merged: set<string>)
    requires Coherent(base, current, device, merged)
    ensures var r := MergeOrder(base, current, device, merged);
      r.Some? && Follows(r.value, current) && Follows(r.value, device) ==> Agree(current, device, merged)
    ensures var r := MergeOrder(base, current, device, merged);
      Tellable(base, merged) && Agree(current, device, merged) ==> r.Some? && Follows(r.value, current) && Follows(r.value, device)
  {
    hide Follows, Agree, Integrated, Conflict, CleanSet, Distinct, Filter, FirstOnes;
    var r := MergeOrder(base, current, device, merged);
    if r.Some? {
      MergedOrderExact(base, current, device, merged);
    }
    if Tellable(base, merged) && Agree(current, device, merged) {
      AgreeSymmetric(current, device, merged);
      ChosenAgreed(base, current, device, merged);
      AgreedFollowsBoth(base, current, device, merged);
    }
    if r.Some? && Follows(r.value, current) && Follows(r.value, device) {
      FollowedAgrees(r.value, current, device, merged);
    }
  }

  // The order of the surviving base ids: a side that did not reorder them takes the other side's order, equal
  // orders agree, and the merge is refused exactly when all three are different.
  lemma OrderMeaning(base: Order, current: Order, device: Order, merged: set<string>)
    requires Coherent(base, current, device, merged) && CleanSet(Survivors(base, merged))
    ensures var r, ids := MergeOrder(base, current, device, merged), set x | x in base && x in merged;
      var (b, c, d) := (Filter(base, ids), Filter(current, ids), Filter(device, ids));
      && (r.None? <==> c != b && d != b && c != d)
      && (r.Some? && c == b ==> Filter(r.value, ids) == d)
      && (r.Some? && d == b ==> Filter(r.value, ids) == c)
      && (r.Some? && c == d ==> Filter(r.value, ids) == c)
  {
    hide Filter, Integrated, FirstOnes, Distinct, OrderText, CleanSet;
    var ids := Survivors(base, merged);
    assert ids == set x | x in base && x in merged;
    OrderTextUnique(current, base, ids);
    OrderTextUnique(device, base, ids);
    OrderTextUnique(current, device, ids);
    if MergeOrder(base, current, device, merged).Some? {
      MergedOrderExact(base, current, device, merged);
    }
  }

  // Additions that have no neighbour in common stand in the order of their sides, the server's first.
  lemma AdditionsInTurn(current: Order, device: Order)
    requires Distinct(current + device) && "" !in current + device
    ensures MergeOrder([], current, device, Ids(current) + Ids(device)) == Some(current + device)
  {
    var merged := Ids(current) + Ids(device);
    NoSurvivors(merged);
    FilterByNone(current);
    FilterByNone(device);
    hide Filter, Integrate, FirstOnes;
    assert Survivors([], merged) == {};
    assert Chosen([], current, device, {}) == [];
    assert current[..0] == [] && device[..0] == [] && [] + current == current && current + [] == current && [] + [] == current[..0];
    assert Distinct(current) by {
      assert forall j :: 0 <= j < |current| ==> current[j] == (current + device)[j];
    }
    AppendsSide([], current, 0, merged);
    AppendsSide(current, device, 0, merged);
    assert Ids([]) == {};
    assert !Conflict([], current, device, {});
    assert Integrated([], current, device, merged) == current + device;
    assert (current + device)[0..] == current + device;
    FirstOnesSame(current + device, 0, merged);
  }

  lemma NoSurvivors(merged: set<string>)
    ensures Filter([], {}) == [] && Survivors([], merged) == {}
  {
  }

  lemma {:induction false} FilterByNone(s: Order)
    ensures Filter(s, {}) == []
  {
    if s != [] {
      FilterByNone(s[1..]);
    }
  }

  lemma {:induction false} AppendsSide(r: Order, side: Order, i: int, merged: set<string>)
    requires 0 <= i <= |side| && Distinct(r + side) && "" !in side && forall x :: x in side ==> x in merged
    ensures Integrate(r + side[..i], side, i, {}, merged) == r + side
    decreases |side| - i
  {
    hide Slot, Insert;
    if i == |side| {
      assert side[..i] == side;
    } else {
      var so := r + side[..i];
      assert side[..i + 1] == side[..i] + [side[i]];
      assert so + [side[i]] == r + side[..i + 1];
      SlotInside(so, side, i);
      AppendSlot(r, side, i);
      assert side[i] !in so by { NotBefore(r, side, i); }
      InsertLast(so, side[i]);
      AppendsSide(r, side, i + 1, merged);
    }
  }

  lemma NotBefore(r: Order, side: Order, i: int)
    requires 0 <= i < |side| && Distinct(r + side)
    ensures forall m :: i <= m < |side| ==> side[m] !in r + side[..i]
  {
    forall m, j | i <= m < |side| && 0 <= j < |r + side[..i]|
      ensures (r + side[..i])[j] != side[m]
    {
      assert (r + side)[j] == (r + side[..i])[j] && (r + side)[|r| + m] == side[m];
    }
  }

  lemma InsertLast(s: Order, x: string)
    ensures Insert(s, |s|, x) == s + [x]
  {
  }

  lemma AppendSlot(r: Order, side: Order, i: int)
    requires 0 <= i < |side| && Distinct(r + side) && "" !in side
    ensures Slot(r + side[..i], side, i) == |r + side[..i]|
  {
    hide Slot, Pos;
    var so := r + side[..i];
    NotBefore(r, side, i);
    if i == 0 {
      SlotLast(so, side, i);
    } else {
      assert so[|so| - 1] == side[i - 1];
      SlotNearest(so, side, i, i - 1);
      assert Distinct(so) by {
        assert forall j :: 0 <= j < |so| ==> so[j] == (r + side)[j];
      }
      PosAt(so, |so| - 1);
    }
  }

  // A side whose ids are the base's, or not merged, adds nothing.
  lemma NoneAdded(r: Order, side: Order, base: Order, merged: set<string>)
    requires forall x :: x in side ==> x in base || x !in merged
    ensures Integrate(r, side, 0, Ids(base), merged) == r
  {
    NoneAddedFrom(r, side, 0, Ids(base), merged);
  }

  lemma {:induction false} NoneAddedFrom(r: Order, side: Order, i: int, baseIds: set<string>, merged: set<string>)
    requires 0 <= i <= |side| && forall x :: x in side ==> x in baseIds || x !in merged
    ensures Integrate(r, side, i, baseIds, merged) == r
    decreases |side| - i
  {
    if i < |side| {
      NoneAddedFrom(r, side, i + 1, baseIds, merged);
    }
  }

  // Without additions the merge is the chosen order.
  lemma MergeWithoutAdditions(base: Order, current: Order, device: Order, merged: set<string>)
    requires Coherent(base, current, device, merged) && !Conflict(base, current, device, Survivors(base, merged))
    requires forall x :: x in merged ==> x in base
    ensures MergeOrder(base, current, device, merged) == Some(Chosen(base, current, device, Survivors(base, merged)))
  {
    hide Chosen, Distinct, Integrate, FirstOnes, Conflict;
    var kept := Chosen(base, current, device, Survivors(base, merged));
    ChosenIds(base, current, device, merged);
    NoneAdded(kept, current, base, merged);
    NoneAdded(kept, device, base, merged);
    FirstOnesSame(kept, 0, merged);
  }

  // An id that holds the separator hides a reordering: the text of both orders is the same, and the base's
  // order wins over the side that changed it.
  lemma SeparatorHidesReorder()
    ensures var x, y := "a", "a\0a";
      MergeOrder([x, y], [y, x], [x, y], {x, y}) == Some([x, y]) && !Follows([x, y], [y, x])
  {
    var x, y := "a", "a\0a";
    var base: Order, current: Order := [x, y], [y, x];
    var ids := {x, y};
    assert Survivors(base, ids) == ids;
    hide Filter, Join, MergeOrder, Pos;
    FilterAll(base, ids);
    FilterAll(current, ids);
    JoinPair(x, y);
    JoinPair(y, x);
    MergeWithoutAdditions(base, current, base, ids);
    PairPositions(x, y);
    assert current[0] == y && current[1] == x;
  }

  lemma JoinPair(x: string, y: string)
    ensures Join([x, y]) == x + "\0" + y
  {
    assert [x, y][1..] == [y];
  }

  lemma PairPositions(x: string, y: string)
    requires x != y
    ensures Pos([x, y], x) == 0 && Pos([x, y], y) == 1
  {
    assert [x, y][1..] == [y];
  }

  // The empty id is never an anchor, so an addition next to it can land on its wrong side.
  lemma EmptyIdMisplacesAddition()
    ensures MergeOrder([""], ["x", ""], [""], {"", "x"}) == Some(["", "x"]) && !Follows(["", "x"], ["x", ""])
  {
    var ids := Survivors([""], {"", "x"});
    assert ids == {""};
    assert Filter(["x", ""], ids) == [""];
    var side: Order := ["x", ""];
    assert Splice([""], side, 0, Ids([""]), {"", "x"}) == ["", "x"];
    assert Integrate(["", "x"], side, 1, Ids([""]), {"", "x"}) == ["", "x"];
    assert Integrate([""], side, 0, Ids([""]), {"", "x"}) == ["", "x"];
    assert Integrate(["", "x"], [""], 0, Ids([""]), {"", "x"}) == ["", "x"];
    FirstOnesSame(["", "x"], 0, {"", "x"});
    assert Pos(["", "x"], "x") == 1 && side[0] == "x";
  }

  // ----- The check afterwards -----

  // It compares the orders of all base ids, deleted ones included.
  predicate OrderAllowed(base: Order, current: Order, device: Order, merged: Order) {
    var ids := Ids(base);
    && !Conflict(base, current, device, ids)
    && (OrderText(merged, ids) == OrderText(current, ids) || OrderText(merged, ids) == OrderText(device, ids)
        || OrderText(merged, ids) == OrderText(base, ids))
  }

  lemma {:induction false} FilterEqual(s: Order, a: set<string>, b: set<string>)
    ensures Filter(s, a) == Filter(s, b) <==> forall x :: x in s ==> (x in a <==> x in b)
  {
    FilterIds(s, a);
    FilterIds(s, b);
    if forall x :: x in s ==> (x in a <==> x in b) {
      FilterSame(s, a, b);
    }
    if Filter(s, a) == Filter(s, b) {
      forall x | x in s
        ensures x in a <==> x in b
      {
        assert x in Filter(s, a) <==> x in Filter(s, b);
      }
    }
  }

  lemma {:induction false} FilterSame(s: Order, a: set<string>, b: set<string>)
    requires forall x :: x in s ==> (x in a <==> x in b)
    ensures Filter(s, a) == Filter(s, b)
  {
    if s != [] {
      FilterSame(s[1..], a, b);
    }
  }

  // What no side deleted is merged.
  predicate SharedKept(base: Order, current: Order, device: Order, merged: set<string>) {
    forall x :: x in base && x in current && x in device ==> x in merged
  }

  lemma FilterCons(x: string, rest: Order, ids: set<string>)
    ensures Filter([x] + rest, ids) == if x in ids then [x] + Filter(rest, ids) else Filter(rest, ids)
  {
    assert ([x] + rest)[1..] == rest;
  }

  lemma FilterNone(ids: set<string>)
    ensures Filter([], ids) == []
  {
  }

  lemma {:induction false} FilterTwice(s: Order, a: set<string>, b: set<string>)
    ensures Filter(Filter(s, a), b) == Filter(s, a * b)
  {
    hide Filter;
    if s == [] {
      FilterNone(a);
      FilterNone(b);
      FilterNone(a * b);
    } else {
      var x, rest := s[0], s[1..];
      assert s == [x] + rest;
      FilterTwice(rest, a, b);
      FilterCons(x, rest, a);
      FilterCons(x, rest, a * b);
      FilterCons(x, Filter(rest, a), b);
    }
  }

  // A side's base ids, all of which the other side kept, are its survivors.
  lemma SideSurvivors(base: Order, side: Order, other: Order, merged: set<string>)
    requires SharedKept(base, side, other, merged) && forall x :: x in side && x in base ==> x in other
    ensures Filter(side, Survivors(base, merged)) == Filter(side, Ids(base))
  {
    FilterEqual(side, Survivors(base, merged), Ids(base));
  }

  // Orders that agree on the base ids agree on the surviving ones.
  lemma SameOnSurvivors(base: Order, a: Order, b: Order, merged: set<string>)
    requires Filter(a, Ids(base)) == Filter(b, Ids(base))
    ensures Filter(a, Survivors(base, merged)) == Filter(b, Survivors(base, merged))
    ensures forall x :: x in base ==> (x in a <==> x in b)
  {
    hide Filter;
    var ids, kept := Ids(base), Survivors(base, merged);
    FilterTwice(a, ids, kept);
    FilterTwice(b, ids, kept);
    assert ids * kept == kept;
    FilterIds(a, ids);
    FilterIds(b, ids);
    forall x | x in base
      ensures x in a <==> x in b
    {
      assert x in Filter(a, ids) <==> x in a;
      assert x in Filter(b, ids) <==> x in b;
    }
  }

  // If one side left the base ids alone, or both did the same to them, the chosen order is all the base ids
  // of a side.
  lemma ChosenIsSide(base: Order, current: Order, device: Order, merged: set<string>)
    requires Coherent(base, current, device, merged) && SharedKept(base, current, device, merged) && CleanSet(Ids(base))
    requires !Conflict(base, current, device, Ids(base))
    ensures var kept := Chosen(base, current, device, Survivors(base, merged)); var ids := Ids(base);
      kept == Filter(current, ids) || kept == Filter(device, ids) || kept == Filter(base, ids)
  {
    hide Filter, OrderText, Clean, Distinct;
    var ids, kept := Ids(base), Survivors(base, merged);
    assert CleanSet(kept);
    OrderTextUnique(current, base, ids);
    OrderTextUnique(device, base, ids);
    OrderTextUnique(current, device, ids);
    OrderTextUnique(current, base, kept);
    OrderTextUnique(device, base, kept);
    if Filter(current, ids) == Filter(base, ids) {
      SameOnSurvivors(base, current, base, merged);
      SideSurvivors(base, device, current, merged);
    } else if Filter(device, ids) == Filter(base, ids) {
      SameOnSurvivors(base, device, base, merged);
      SideSurvivors(base, current, device, merged);
    } else {
      SameOnSurvivors(base, current, device, merged);
      SideSurvivors(base, current, device, merged);
      SideSurvivors(base, device, current, merged);
    }
  }

  // The check refuses what the merge accepted exactly when each side did something of its own to the base
  // ids, deleted ones included.
  lemma CheckRefusesExactly(base: Order, current: Order, device: Order, merged: set<string>)
    requires Coherent(base, current, device, merged) && SharedKept(base, current, device, merged) && CleanSet(Ids(base))
    requires MergeOrder(base, current, device, merged).Some?
    ensures OrderAllowed(base, current, device, MergeOrder(base, current, device, merged).value) <==>
      !Conflict(base, current, device, Ids(base))
  {
    hide Filter, Conflict, Coherent, SharedKept, CleanSet, Chosen, FirstOnes, Integrated;
    var r := MergeOrder(base, current, device, merged).value;
    MergedOrderExact(base, current, device, merged);
    FilterEqual(r, Survivors(base, merged), Ids(base));
    if !Conflict(base, current, device, Ids(base)) {
      ChosenIsSide(base, current, device, merged);
    }
  }

  // The sides keep the base's order and only delete: `keptHere` and `keptThere` are what they left.
  predicate OnlyDeletions(base: Order, current: Order, device: Order, keptHere: set<string>, keptThere: set<string>) {
    Filter(current, Ids(base)) == Filter(base, keptHere) && Filter(device, Ids(base)) == Filter(base, keptThere)
  }

  // The surviving ids of a side that only deletes are in the base's order.
  lemma DeletionsKeepOrder(base: Order, side: Order, kept: set<string>, ids: set<string>)
    requires Filter(side, Ids(base)) == Filter(base, kept) && ids <= Ids(base) && forall x :: x in ids ==> x in side
    ensures Filter(side, ids) == Filter(base, ids)
  {
    hide Filter;
    FilterTwice(side, Ids(base), ids);
    FilterTwice(base, kept, ids);
    FilterIds(side, Ids(base));
    FilterIds(base, kept);
    assert Ids(base) * ids == ids;
    forall x | x in ids
      ensures x in kept
    {
      assert x in Filter(side, Ids(base));
    }
    assert kept * ids == ids;
  }

  // A merge of deletions has nothing to object to, and yet the check refuses it exactly when both sides
  // deleted something, and not the same ids.
  lemma TwoDeletionsRefused(base: Order, current: Order, device: Order, merged: set<string>, keptHere: set<string>, keptThere: set<string>)
    requires Coherent(base, current, device, merged) && SharedKept(base, current, device, merged) && CleanSet(Ids(base))
    requires OnlyDeletions(base, current, device, keptHere, keptThere)
    ensures MergeOrder(base, current, device, merged).Some?
    ensures OrderAllowed(base, current, device, MergeOrder(base, current, device, merged).value) <==>
      || (forall x :: x in base ==> x in keptHere)
      || (forall x :: x in base ==> x in keptThere)
      || (forall x :: x in base ==> (x in keptHere <==> x in keptThere))
  {
    hide Filter, Chosen, Integrated, FirstOnes, OrderAllowed, Distinct;
    DeletionsKeepOrder(base, current, keptHere, Survivors(base, merged));
    CheckRefusesExactly(base, current, device, merged);
    DeletionsConflict(base, current, device, keptHere, keptThere);
  }

  lemma DeletionsConflict(base: Order, current: Order, device: Order, keptHere: set<string>, keptThere: set<string>)
    requires CleanSet(Ids(base)) && OnlyDeletions(base, current, device, keptHere, keptThere)
    ensures !Conflict(base, current, device, Ids(base)) <==>
      || (forall x :: x in base ==> x in keptHere)
      || (forall x :: x in base ==> x in keptThere)
      || (forall x :: x in base ==> (x in keptHere <==> x in keptThere))
  {
    hide CleanSet, Filter, OrderText;
    var ids := Ids(base);
    OrderTextUnique(current, base, ids);
    OrderTextUnique(device, base, ids);
    OrderTextUnique(current, device, ids);
    FilterEqual(base, keptHere, ids);
    FilterEqual(base, keptThere, ids);
    FilterEqual(base, keptHere, keptThere);
  }

  // Two different deletions.
  lemma TwoDeletionsWitness()
    ensures MergeOrder(["a", "b", "c"], ["b", "c"], ["a", "c"], {"c"}) == Some(["c"])
    ensures !OrderAllowed(["a", "b", "c"], ["b", "c"], ["a", "c"], ["c"])
  {
    var base: Order, current: Order, device: Order := ["a", "b", "c"], ["b", "c"], ["a", "c"];
    hide Filter, Join, MergeOrder, OrderAllowed;
    AbcText(current, device);
    assert Survivors(base, {"c"}) == {"c"};
    OnlyLast(["a", "b"], "c");
    OnlyLast(["b"], "c");
    OnlyLast(["a"], "c");
    assert base == ["a", "b"] + ["c"] && current == ["b"] + ["c"] && device == ["a"] + ["c"];
    MergeWithoutAdditions(base, current, device, {"c"});
    ConflictRefused(base, current, device, ["c"]);
  }

  lemma {:induction false} OnlyLast(others: Order, x: string)
    requires x !in others
    ensures Filter(others + [x], {x}) == [x]
  {
    if others != [] {
      OnlyLast(others[1..], x);
      assert (others + [x])[1..] == others[1..] + [x];
    }
  }

  lemma ConflictRefused(base: Order, current: Order, device: Order, merged: Order)
    requires Conflict(base, current, device, Ids(base))
    ensures !OrderAllowed(base, current, device, merged)
  {
  }

  // The texts of orders of "a", "b" and "c" that differ.
  lemma AbcText(current: Order, device: Order)
    requires current == ["b", "c"] || current == ["b", "a", "c"]
    requires device == ["a", "c"] || device == ["a", "b"]
    ensures Conflict(["a", "b", "c"], current, device, Ids(["a", "b", "c"]))
  {
    hide OrderText, Filter, CleanSet;
    var base: Order := ["a", "b", "c"];
    AbcClean();
    FilterAll(base, Ids(base));
    FilterAll(current, Ids(base));
    FilterAll(device, Ids(base));
    OrderTextUnique(current, base, Ids(base));
    OrderTextUnique(device, base, Ids(base));
    OrderTextUnique(current, device, Ids(base));
    assert current[0] == "b" && device[0] == "a" && |device| == 2;
  }

  lemma AbcClean()
    ensures CleanSet(Ids(["a", "b", "c"]))
  {
  }

  // A reordering on one side and a deletion on the other.
  lemma ReorderAgainstDeletionWitness()
    ensures MergeOrder(["a", "b", "c"], ["b", "a", "c"], ["a", "b"], {"a", "b"}) == Some(["b", "a"])
    ensures !OrderAllowed(["a", "b", "c"], ["b", "a", "c"], ["a", "b"], ["b", "a"])
  {
    var base: Order, current: Order, device: Order := ["a", "b", "c"], ["b", "a", "c"], ["a", "b"];
    var kept := {"a", "b"};
    hide OrderText, MergeOrder;
    AbcText(current, device);
    assert Survivors(base, kept) == kept;
    FilterAll(device, kept);
    assert Filter(base, kept) == ["a", "b"] by {
      assert base[1..] == ["b", "c"] && base[1..][1..] == ["c"];
    }
    assert Filter(current, kept) == ["b", "a"] by {
      assert current[1..] == ["a", "c"] && current[1..][1..] == ["c"];
    }
    assert CleanSet(kept);
    OrderTextUnique(current, base, kept);
    assert ["b", "a"][0] != ["a", "b"][0];
    OrderTextUnique(device, base, kept);
    MergeWithoutAdditions(base, current, device, kept);
  }

  // ----- The loops -----

  method NearestPrevious(order: Order, start: int, candidates: Order) returns (found: Option<string>)
    requires 0 <= start <= |order|
    ensures found == Previous(order, start, candidates)
  {
    var index := start;
    while index > 0
      invariant 0 <= index <= start
      invariant Previous(order, start, candidates) == Previous(order, index, candidates)
    {
      if order[index - 1] in candidates {
        return Some(order[index - 1]);
      }
      index := index - 1;
    }
    return None;
  }

  method NearestNext(order: Order, start: int, candidates: Order) returns (found: Option<string>)
    requires 0 <= start <= |order|
    ensures found == Following(order, start, candidates)
  {
    var index := start;
    while index < |order|
      invariant start <= index <= |order|
      invariant Following(order, start, candidates) == Following(order, index, candidates)
    {
      if order[index] in candidates {
        return Some(order[index]);
      }
      index := index + 1;
    }
    return None;
  }

  // The list the source splices in place.
  class OrderList {
    var ids: Order

    constructor (start: Order)
      ensures ids == start
    {
      ids := start;
    }

    method SpliceIn(side: Order, index: int, baseIds: set<string>, merged: set<string>)
      requires 0 <= index < |side| && !Skipped(ids, side[index], baseIds, merged)
      modifies this
      ensures ids == Splice(old(ids), side, index, baseIds, merged)
    {
      hide Insert, Previous, Following, Pos;
      SlotInside(ids, side, index);
      var before := NearestPrevious(side, index, ids);
      if Anchors(before) {
        ids := Insert(ids, Pos(ids, before.value) + 1, side[index]);
        return;
      }
      var after := NearestNext(side, index + 1, ids);
      if Anchors(after) {
        ids := Insert(ids, Pos(ids, after.value), side[index]);
        return;
      }
      ids := Insert(ids, |ids|, side[index]);
    }

    method IntegrateAdditions(side: Order, baseIds: set<string>, merged: set<string>)
      modifies this
      ensures ids == Integrate(old(ids), side, 0, baseIds, merged)
    {
      hide Insert, Slot;
      var index := 0;
      while index < |side|
        invariant 0 <= index <= |side|
        invariant Integrate(old(ids), side, 0, baseIds, merged) == Integrate(ids, side, index, baseIds, merged)
      {
        if !Skipped(ids, side[index], baseIds, merged) {
          SpliceIn(side, index, baseIds, merged);
        }
        index := index + 1;
      }
    }
  }

  lemma FirstOnesStep(r: Order, index: int, merged: set<string>, kept: Order)
    requires 0 <= index < |r|
    ensures kept + FirstOnes(r, index, merged) ==
      (if r[index] in merged && Pos(r, r[index]) == index then kept + [r[index]] else kept) + FirstOnes(r, index + 1, merged)
  {
  }

  lemma FirstOnesEnd(r: Order, merged: set<string>)
    ensures FirstOnes(r, |r|, merged) == []
  {
  }

  method FirstOccurrences(r: Order, merged: set<string>) returns (kept: Order)
    ensures kept == FirstOnes(r, 0, merged)
  {
    hide FirstOnes, Pos;
    FirstOnesEnd(r, merged);
    kept := [];
    var index := 0;
    while index < |r|
      invariant 0 <= index <= |r|
      invariant FirstOnes(r, 0, merged) == kept + FirstOnes(r, index, merged)
    {
      FirstOnesStep(r, index, merged, kept);
      if r[index] in merged && Pos(r, r[index]) == index {
        kept := kept + [r[index]];
      }
      index := index + 1;
    }
  }

  method MergeCanvasOrder(base: Order, current: Order, device: Order, merged: set<string>) returns (r: Option<Order>)
    ensures r == MergeOrder(base, current, device, merged)
  {
    hide Integrate, FirstOnes, Filter, OrderText;
    var survivors := Survivors(base, merged);
    if Conflict(base, current, device, survivors) {
      return None;
    }
    var list := new OrderList(Chosen(base, current, device, survivors));
    list.IntegrateAdditions(current, Ids(base), merged);
    list.IntegrateAdditions(device, Ids(base), merged);
    var kept := FirstOccurrences(list.ids, merged);
    return Some(kept);
  }
}
