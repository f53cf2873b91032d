// Merging front matter whose two sides differ only in timestamp fields: each field takes the later instant
// (src/server/frontmatterTimestampMerge.ts). Fields are given with the span each side holds; the timestamps
// are those of RFC 3339, section 5.6, already parsed.
module TimestampMerge {
  import opened Common

  datatype Instant = Instant(seconds: int, nanos: int)

  // A field's place in one text, and what stands there.
  datatype Span = Span(start: int, end: int, raw: string, instant: Instant)

  datatype Field = Field(server: Span, device: Span)

  datatype Winner = ServerWins | DeviceWins | Tie

  function Compare(a: Instant, b: Instant): int {
    if a.seconds != b.seconds then if a.seconds > b.seconds then 1 else -1
    else if a.nanos == b.nanos then 0
    else if a.nanos > b.nanos then 1
    else -1
  }

  // The comparison is a total order on instants, and equal only on the same instant.
  lemma CompareIsTotalOrder(a: Instant, b: Instant, c: Instant)
    ensures Compare(a, b) == -Compare(b, a) && (Compare(a, b) == 0 <==> a == b)
    ensures Compare(a, b) >= 0 && Compare(b, c) >= 0 ==> Compare(a, c) >= 0
  {
  }

  function WinnerOf(f: Field): Winner {
    var c := Compare(f.server.instant, f.device.instant);
    if c == 0 then Tie else if c > 0 then ServerWins else DeviceWins
  }

  function Winning(f: Field): Span {
    if WinnerOf(f) == DeviceWins then f.device else f.server
  }

  // Seconds decide, then nanoseconds.
  predicate AtOrAfter(a: Instant, b: Instant) {
    a.seconds > b.seconds || (a.seconds == b.seconds && a.nanos >= b.nanos)
  }

  // The winner is the later instant, and the server's text on a tie.
  lemma LaterWins(f: Field)
    ensures AtOrAfter(Winning(f).instant, f.server.instant) && AtOrAfter(Winning(f).instant, f.device.instant)
    ensures Winning(f) == f.server || Winning(f) == f.device
    ensures AtOrAfter(f.server.instant, f.device.instant) ==> Winning(f) == f.server
    ensures WinnerOf(f) == Tie <==> f.server.instant == f.device.instant
    ensures WinnerOf(f) == ServerWins <==> f.server.instant != f.device.instant && AtOrAfter(f.server.instant, f.device.instant)
  {
  }

  // ----- Replacing spans -----

  datatype Edit = Edit(start: int, end: int, value: string)

  // Edits in text order that do not overlap.
  predicate Laid(text: string, edits: seq<Edit>, cursor: int)
    decreases |edits|
  {
    if edits == [] then cursor <= |text|
    else cursor <= edits[0].start <= edits[0].end <= |text| && Laid(text, edits[1..], edits[0].end)
  }

  // All edits at once: what is between them stays.
  function Replaced(text: string, edits: seq<Edit>, cursor: int): string
    requires 0 <= cursor && Laid(text, edits, cursor)
    decreases |edits|
  {
    if edits == [] then text[cursor..]
    else text[cursor..edits[0].start] + edits[0].value + Replaced(text, edits[1..], edits[0].end)
  }

  // Cuts as JavaScript's slice does, within bounds or not.
  function Before(s: string, i: int): string {
    if i < 0 then [] else if i > |s| then s else s[..i]
  }

  function From(s: string, i: int): string {
    if i < 0 then s else if i > |s| then [] else s[i..]
  }

  function Splice(text: string, e: Edit): string {
    Before(text, e.start) + e.value + From(text, e.end)
  }

  // One after the other, the last in the text first.
  function SpliceAll(text: string, edits: seq<Edit>): string
    decreases |edits|
  {
    if edits == [] then text else Splice(SpliceAll(text, edits[1..]), edits[0])
  }

  // Splicing into a text that is unchanged up to the edit's end.
  lemma SpliceOnto(text: string, e: Edit, tail: string)
    requires 0 <= e.start <= e.end <= |text|
    ensures Splice(text[..e.end] + tail, e) == text[..e.start] + e.value + tail
  {
    var t := text[..e.end] + tail;
    assert t[..e.start] == text[..e.start];
    assert t[e.end..] == tail;
  }

  lemma ReplacedCons(text: string, e: Edit, rest: seq<Edit>, cursor: int)
    requires 0 <= cursor <= e.start <= e.end <= |text| && Laid(text, rest, e.end)
    ensures Laid(text, [e] + rest, cursor)
    ensures Replaced(text, [e] + rest, cursor) == text[cursor..e.start] + e.value + Replaced(text, rest, e.end)
  {
    assert ([e] + rest)[1..] == rest;
  }

  lemma ReplacedNone(text: string, cursor: int)
    requires 0 <= cursor <= |text|
    ensures Replaced(text, [], cursor) == text[cursor..]
  {
  }

  // Splicing from the right is replacing all spans at once.
  lemma {:induction false} SplicedIsReplaced(text: string, edits: seq<Edit>, cursor: int)
    requires 0 <= cursor && Laid(text, edits, cursor)
    ensures cursor <= |text| && SpliceAll(text, edits) == text[..cursor] + Replaced(text, edits, cursor)
    decreases |edits|
  {
    hide Splice, Replaced;
    if edits == [] {
      ReplacedNone(text, cursor);
      assert text == text[..cursor] + text[cursor..];
    } else {
      var e, rest := edits[0], edits[1..];
      assert edits == [e] + rest;
      SplicedIsReplaced(text, rest, e.end);
      SpliceOnto(text, e, Replaced(text, rest, e.end));
      ReplacedCons(text, e, rest, cursor);
      assert text[..e.start] == text[..cursor] + text[cursor..e.start];
      Regroup(text[..cursor], text[cursor..e.start], e.value, Replaced(text, rest, e.end));
    }
  }

  lemma Regroup(a: string, b: string, v: string, r: string)
    ensures a + b + v + r == a + (b + v + r)
  {
  }

  // ----- The fields in text order -----

  function InsertField(f: Field, fields: seq<Field>): seq<Field> {
    if fields == [] then [f]
    else if f.server.start <= fields[0].server.start then [f] + fields
    else [fields[0]] + InsertField(f, fields[1..])
  }

  function SortFields(fields: seq<Field>): seq<Field> {
    if fields == [] then [] else InsertField(fields[0], SortFields(fields[1..]))
  }

  function InsertEdit(e: Edit, edits: seq<Edit>): seq<Edit> {
    if edits == [] then [e]
    else if e.start <= edits[0].start then [e] + edits
    else [edits[0]] + InsertEdit(e, edits[1..])
  }

  function SortEdits(edits: seq<Edit>): seq<Edit> {
    if edits == [] then [] else InsertEdit(edits[0], SortEdits(edits[1..]))
  }

  function DeviceEdit(f: Field): Edit {
    Edit(f.server.start, f.server.end, f.device.raw)
  }

  function EditOf(f: Field): seq<Edit> {
    if WinnerOf(f) == DeviceWins then [DeviceEdit(f)] else []
  }

  // The edits the source collects: only where the device is later.
  function Edits(fields: seq<Field>): seq<Edit> {
    if fields == [] then [] else EditOf(fields[0]) + Edits(fields[1..])
  }

  // Every span with its winning text.
  function WinningEdits(fields: seq<Field>): seq<Edit> {
    if fields == [] then []
    else [Edit(fields[0].server.start, fields[0].server.end, Winning(fields[0]).raw)] + WinningEdits(fields[1..])
  }

  predicate Ascending(fields: seq<Field>) {
    forall i, j :: 0 <= i < j < |fields| ==> fields[i].server.start <= fields[j].server.start
  }

  lemma {:induction false} InsertAscending(f: Field, fields: seq<Field>)
    requires Ascending(fields)
    ensures Ascending(InsertField(f, fields))
    ensures forall x :: x in InsertField(f, fields) <==> x == f || x in fields
  {
    if fields != [] {
      var first, rest := fields[0], fields[1..];
      assert fields == [first] + rest;
      if f.server.start > first.server.start {
        InsertAscending(f, rest);
        assert forall x :: x in rest ==> first.server.start <= x.server.start;
        assert forall x :: x in InsertField(f, rest) ==> first.server.start <= x.server.start;
      }
    }
  }

  lemma {:induction false} SortAscending(fields: seq<Field>)
    ensures Ascending(SortFields(fields)) && forall x :: x in SortFields(fields) <==> x in fields
  {
    if fields != [] {
      assert fields == [fields[0]] + fields[1..];
      SortAscending(fields[1..]);
      InsertAscending(fields[0], SortFields(fields[1..]));
    }
  }

  lemma EditsCons(f: Field, rest: seq<Field>)
    ensures Edits([f] + rest) ==
      if WinnerOf(f) == DeviceWins then [DeviceEdit(f)] + Edits(rest) else Edits(rest)
  {
    assert ([f] + rest)[1..] == rest;
  }

  lemma {:induction false} EditsAfter(fields: seq<Field>, start: int)
    requires forall x :: x in fields ==> start <= x.server.start
    ensures forall e :: e in Edits(fields) ==> start <= e.start
  {
    if fields != [] {
      assert fields == [fields[0]] + fields[1..];
      EditsAfter(fields[1..], start);
    }
  }

  lemma InsertFront(e: Edit, edits: seq<Edit>)
    requires forall x :: x in edits ==> e.start <= x.start
    ensures InsertEdit(e, edits) == [e] + edits
  {
    assert edits != [] ==> edits[0] in edits;
  }

  lemma InsertPast(e: Edit, first: Edit, rest: seq<Edit>)
    requires e.start > first.start
    ensures InsertEdit(e, [first] + rest) == [first] + InsertEdit(e, rest)
  {
    assert ([first] + rest)[1..] == rest;
  }

  // Sorting and collecting the edits commute.
  lemma {:induction false} EditsInsert(f: Field, fields: seq<Field>)
    requires Ascending(fields)
    ensures Edits(InsertField(f, fields)) ==
      if WinnerOf(f) == DeviceWins then InsertEdit(DeviceEdit(f), Edits(fields)) else Edits(fields)
  {
    hide Edits, WinnerOf;
    var e := DeviceEdit(f);
    if fields == [] {
      EditsCons(f, []);
      assert [f] + [] == [f];
      assert Edits([]) == [] by { NoEdits(); }
    } else {
      var first, rest := fields[0], fields[1..];
      assert fields == [first] + rest;
      if f.server.start <= first.server.start {
        EditsCons(f, fields);
        EditsAfter(fields, f.server.start);
        InsertFront(e, Edits(fields));
      } else {
        EditsInsert(f, rest);
        EditsCons(first, rest);
        EditsCons(first, InsertField(f, rest));
        InsertPast(e, DeviceEdit(first), Edits(rest));
      }
    }
  }

  lemma NoEdits()
    ensures Edits([]) == []
  {
  }

  lemma {:induction false} EditsSorted(fields: seq<Field>)
    ensures SortEdits(Edits(fields)) == Edits(SortFields(fields))
  {
    hide Edits, InsertField, InsertEdit, WinnerOf;
    if fields == [] {
      NoEdits();
    } else {
      var f, rest := fields[0], fields[1..];
      assert fields == [f] + rest;
      EditsSorted(rest);
      SortAscending(rest);
      EditsInsert(f, SortFields(rest));
      EditsCons(f, rest);
      var e := DeviceEdit(f);
      assert ([e] + Edits(rest))[1..] == Edits(rest);
    }
  }

  // ----- The merge -----

  // The server spans are the text's own, in order and apart.
  predicate LaidOut(text: string, fields: seq<Field>, cursor: int)
    decreases |fields|
  {
    if fields == [] then 0 <= cursor <= |text|
    else
      var s := fields[0].server;
      && 0 <= cursor <= s.start <= s.end <= |text| && s.raw == text[s.start..s.end]
      && LaidOut(text, fields[1..], s.end)
  }

  lemma LaidCons(text: string, e: Edit, rest: seq<Edit>, cursor: int)
    requires cursor <= e.start <= e.end <= |text| && Laid(text, rest, e.end)
    ensures Laid(text, [e] + rest, cursor)
  {
    assert ([e] + rest)[1..] == rest;
  }

  lemma {:induction false} EditsLaid(text: string, fields: seq<Field>, cursor: int)
    requires LaidOut(text, fields, cursor)
    ensures Laid(text, Edits(fields), cursor) && Laid(text, WinningEdits(fields), cursor)
    decreases |fields|
  {
    hide WinnerOf, Laid, Edits;
    if fields == [] {
      NoEdits();
      LaidNone(text, cursor);
    } else {
      var f, rest := fields[0], fields[1..];
      EditsLaid(text, rest, f.server.end);
      EditsCons(f, rest);
      assert fields == [f] + rest;
      if WinnerOf(f) == DeviceWins {
        LaidCons(text, DeviceEdit(f), Edits(rest), cursor);
      } else {
        LaidEarlier(text, Edits(rest), cursor, f.server.end);
      }
      LaidCons(text, Edit(f.server.start, f.server.end, Winning(f).raw), WinningEdits(rest), cursor);
    }
  }

  lemma LaidNone(text: string, cursor: int)
    requires cursor <= |text|
    ensures Laid(text, [], cursor)
  {
  }

  lemma LaidEarlier(text: string, edits: seq<Edit>, cursor: int, later: int)
    requires cursor <= later && Laid(text, edits, later)
    ensures Laid(text, edits, cursor)
  {
  }

  lemma ReplacedEarlier(text: string, edits: seq<Edit>, cursor: int, later: int)
    requires 0 <= cursor <= later <= |text| && Laid(text, edits, later)
    ensures Laid(text, edits, cursor) && Replaced(text, edits, cursor) == text[cursor..later] + Replaced(text, edits, later)
  {
    LaidEarlier(text, edits, cursor, later);
    hide Replaced;
    if edits == [] {
      ReplacedNone(text, cursor);
      ReplacedNone(text, later);
      assert text[cursor..] == text[cursor..later] + text[later..];
    } else {
      var e, rest := edits[0], edits[1..];
      assert edits == [e] + rest;
      ReplacedCons(text, e, rest, cursor);
      ReplacedCons(text, e, rest, later);
      hide Laid;
      assert text[cursor..e.start] == text[cursor..later] + text[later..e.start];
      Regroup(text[cursor..later], text[later..e.start], e.value, Replaced(text, rest, e.end));
    }
  }

  // Leaving the server's own text in place is replacing it by itself.
  lemma {:induction false} WinnersOnly(text: string, fields: seq<Field>, cursor: int)
    requires LaidOut(text, fields, cursor)
    ensures Laid(text, Edits(fields), cursor) && Laid(text, WinningEdits(fields), cursor)
    ensures Replaced(text, Edits(fields), cursor) == Replaced(text, WinningEdits(fields), cursor)
    decreases |fields|
  {
    hide Replaced, WinnerOf, Laid, Edits;
    EditsLaid(text, fields, cursor);
    if fields == [] {
      NoEdits();
    } else {
      var f, rest := fields[0], fields[1..];
      var e := Edit(f.server.start, f.server.end, Winning(f).raw);
      assert fields == [f] + rest;
      WinnersOnly(text, rest, f.server.end);
      EditsCons(f, rest);
      ReplacedCons(text, e, WinningEdits(rest), cursor);
      if WinnerOf(f) == DeviceWins {
        ReplacedCons(text, DeviceEdit(f), Edits(rest), cursor);
      } else {
        ReplacedEarlier(text, Edits(rest), cursor, f.server.end);
        assert text[cursor..f.server.end] == text[cursor..f.server.start] + f.server.raw;
      }
    }
  }

  // The merged text: the server's outside the spans, and in each span the text of the later instant, the
  // server's on a tie.
  lemma MergedText(text: string, fields: seq<Field>)
    requires LaidOut(text, SortFields(fields), 0)
    ensures Laid(text, WinningEdits(SortFields(fields)), 0)
    ensures SpliceAll(text, SortEdits(Edits(fields))) == Replaced(text, WinningEdits(SortFields(fields)), 0)
  {
    hide Replaced, SpliceAll, Laid;
    var sorted := SortFields(fields);
    EditsSorted(fields);
    WinnersOnly(text, sorted, 0);
    SplicedIsReplaced(text, Edits(sorted), 0);
    assert text[..0] == [];
  }

  // ----- The two sides -----

  function ServerSpans(fields: seq<Field>): seq<Span> {
    if fields == [] then [] else [fields[0].server] + ServerSpans(fields[1..])
  }

  function Swap(f: Field): Field {
    Field(f.device, f.server)
  }

  function Swapped(fields: seq<Field>): seq<Field> {
    if fields == [] then [] else [Swap(fields[0])] + Swapped(fields[1..])
  }

  // The text between the spans.
  function Gaps(text: string, spans: seq<Span>, cursor: int): seq<string>
    decreases |spans|
  {
    if spans == [] then [From(text, cursor)]
    else [From(Before(text, spans[0].start), cursor)] + Gaps(text, spans[1..], spans[0].end)
  }

  function Filled(gaps: seq<string>, fields: seq<Field>): string
    decreases |fields|
  {
    if gaps == [] then [] else if fields == [] then gaps[0]
    else gaps[0] + Winning(fields[0]).raw + Filled(gaps[1..], fields[1..])
  }

  // The replaced text is the gaps with the winners between them.
  lemma {:induction false} ReplacedIsFilled(text: string, fields: seq<Field>, cursor: int)
    requires LaidOut(text, fields, cursor)
    ensures Laid(text, WinningEdits(fields), cursor)
    ensures Replaced(text, WinningEdits(fields), cursor) == Filled(Gaps(text, ServerSpans(fields), cursor), fields)
    decreases |fields|
  {
    hide Replaced, Laid, WinnerOf, Winning;
    EditsLaid(text, fields, cursor);
    if fields == [] {
      ReplacedNone(text, cursor);
    } else {
      var f, rest := fields[0], fields[1..];
      ReplacedIsFilled(text, rest, f.server.end);
      ReplacedCons(text, Edit(f.server.start, f.server.end, Winning(f).raw), WinningEdits(rest), cursor);
      var gaps := Gaps(text, ServerSpans(rest), f.server.end);
      var first := text[cursor..f.server.start];
      assert ServerSpans(fields)[1..] == ServerSpans(rest);
      assert From(Before(text, f.server.start), cursor) == first;
      assert ([first] + gaps)[1..] == gaps;
    }
  }

  // Swapping the sides picks the same instant in every field.
  lemma SwapPicksSameInstant(f: Field)
    ensures Winning(Swap(f)).instant == Winning(f).instant
    ensures WinnerOf(Swap(f)) == (match WinnerOf(f) case ServerWins => DeviceWins case DeviceWins => ServerWins case Tie => Tie)
  {
  }

  predicate TiesAgree(fields: seq<Field>) {
    forall f :: f in fields && WinnerOf(f) == Tie ==> f.server.raw == f.device.raw
  }

  lemma {:induction false} FilledSwapped(gaps: seq<string>, fields: seq<Field>)
    requires TiesAgree(fields)
    ensures Filled(gaps, Swapped(fields)) == Filled(gaps, fields)
    decreases |fields|
  {
    if fields != [] && gaps != [] {
      var f, rest := fields[0], fields[1..];
      assert f in fields;
      assert fields == [f] + rest;
      FilledSwapped(gaps[1..], rest);
      assert Swapped(fields)[1..] == Swapped(rest);
      assert Winning(Swap(f)).raw == Winning(f).raw;
    }
  }

  // When the sides differ only in the spans, and texts of the same instant are the same, swapping the sides
  // merges to the same text.
  lemma SwapMergesSame(server: string, device: string, fields: seq<Field>)
    requires LaidOut(server, SortFields(fields), 0) && LaidOut(device, SortFields(Swapped(fields)), 0)
    requires SortFields(Swapped(fields)) == Swapped(SortFields(fields))
    requires Gaps(server, ServerSpans(SortFields(fields)), 0) == Gaps(device, ServerSpans(SortFields(Swapped(fields))), 0)
    requires TiesAgree(fields)
    ensures SpliceAll(server, SortEdits(Edits(fields))) == SpliceAll(device, SortEdits(Edits(Swapped(fields))))
  {
    hide SpliceAll, SortFields, Replaced, Laid, Gaps, Filled, LaidOut, Swapped;
    MergedText(server, fields);
    MergedText(device, Swapped(fields));
    ReplacedIsFilled(server, SortFields(fields), 0);
    ReplacedIsFilled(device, SortFields(Swapped(fields)), 0);
    SortAscending(fields);
    FilledSwapped(Gaps(server, ServerSpans(SortFields(fields)), 0), SortFields(fields));
  }

  // ----- The loops -----

  method EqualOutsideSpans(left: string, leftSpans: seq<Span>, right: string, rightSpans: seq<Span>) returns (equal: bool)
    requires |leftSpans| == |rightSpans|
    ensures equal <==> Gaps(left, leftSpans, 0) == Gaps(right, rightSpans, 0)
  {
    var leftCursor, rightCursor, index := 0, 0, 0;
    while index < |leftSpans|
      invariant 0 <= index <= |leftSpans|
      invariant Gaps(left, leftSpans, 0) == Gaps(right, rightSpans, 0) <==>
        Gaps(left, leftSpans[index..], leftCursor) == Gaps(right, rightSpans[index..], rightCursor)
    {
      var l, r := leftSpans[index], rightSpans[index];
      GapsStep(left, leftSpans[index..], leftCursor);
      GapsStep(right, rightSpans[index..], rightCursor);
      assert leftSpans[index..][1..] == leftSpans[index + 1..] && rightSpans[index..][1..] == rightSpans[index + 1..];
      if From(Before(left, l.start), leftCursor) != From(Before(right, r.start), rightCursor) {
        return false;
      }
      leftCursor, rightCursor, index := l.end, r.end, index + 1;
    }
    assert Gaps(left, leftSpans[index..], leftCursor)[0] == From(left, leftCursor);
    assert Gaps(right, rightSpans[index..], rightCursor)[0] == From(right, rightCursor);
    return From(left, leftCursor) == From(right, rightCursor);
  }

  lemma GapsStep(text: string, spans: seq<Span>, cursor: int)
    requires spans != []
    ensures var gaps := Gaps(text, spans, cursor);
      gaps[0] == From(Before(text, spans[0].start), cursor) && gaps[1..] == Gaps(text, spans[1..], spans[0].end)
      && gaps == [gaps[0]] + gaps[1..]
  {
  }

  method SpliceRightToLeft(text: string, edits: seq<Edit>) returns (content: string)
    ensures content == SpliceAll(text, edits)
  {
    content := text;
    var i := |edits|;
    while i > 0
      invariant 0 <= i <= |edits|
      invariant content == SpliceAll(text, edits[i..])
    {
      assert edits[i - 1..][1..] == edits[i..];
      content := Splice(content, edits[i - 1]);
      i := i - 1;
    }
    assert edits[0..] == edits;
  }

  // Each side's spans are taken in the order of that side's text.
  predicate DifferElsewhere(server: string, device: string, fields: seq<Field>) {
    Gaps(server, ServerSpans(SortFields(fields)), 0) != Gaps(device, ServerSpans(SortFields(Swapped(fields))), 0)
  }

  // The merge, or none when there are no rules or the sides differ elsewhere; `winners` are in rule order.
  method MergeLatest(server: string, device: string, fields: seq<Field>) returns (r: Option<(string, seq<Winner>)>)
    ensures r.None? <==> fields == [] || DifferElsewhere(server, device, fields)
    ensures r.Some? ==> r.value.0 == SpliceAll(server, SortEdits(Edits(fields)))
    ensures r.Some? ==> |r.value.1| == |fields| && forall i :: 0 <= i < |fields| ==> r.value.1[i] == WinnerOf(fields[i])
    ensures r.Some? && LaidOut(server, SortFields(fields), 0) ==>
      Laid(server, WinningEdits(SortFields(fields)), 0) && r.value.0 == Replaced(server, WinningEdits(SortFields(fields)), 0)
  {
    hide SortFields, SortEdits, Gaps, SpliceAll, Replaced, LaidOut, WinnerOf, Laid, Swapped, Edits, EditOf, WinningEdits, ServerSpans;
    if fields == [] {
      return None;
    }
    var sorted := SortFields(fields);
    SpansSize(fields);
    var equal := EqualOutsideSpans(server, ServerSpans(sorted), device, ServerSpans(SortFields(Swapped(fields))));
    if !equal {
      return None;
    }
    var edits: seq<Edit> := [];
    var winners: seq<Winner> := [];
    assert fields[0..] == fields && edits + Edits(fields) == Edits(fields);
    var i := 0;
    while i < |fields|
      invariant 0 <= i <= |fields| == |fields|
      invariant Edits(fields) == edits + Edits(fields[i..])
      invariant |winners| == i && forall j :: 0 <= j < i ==> winners[j] == WinnerOf(fields[j])
    {
      EditsStep(fields, i, edits);
      winners := winners + [WinnerOf(fields[i])];
      if WinnerOf(fields[i]) == DeviceWins {
        edits := edits + [DeviceEdit(fields[i])];
      }
      i := i + 1;
    }
    assert Edits(fields) == edits by {
      NoEdits();
      assert fields[i..] == [] && edits + [] == edits;
    }
    var content := SpliceRightToLeft(server, SortEdits(edits));
    if LaidOut(server, sorted, 0) {
      MergedText(server, fields);
    }
    return Some((content, winners));
  }

  lemma EditsStep(fields: seq<Field>, i: int, edits: seq<Edit>)
    requires 0 <= i < |fields|
    ensures edits + Edits(fields[i..]) ==
      (if WinnerOf(fields[i]) == DeviceWins then edits + [DeviceEdit(fields[i])] else edits) + Edits(fields[i + 1..])
  {
    hide WinnerOf, Edits;
    EditsCons(fields[i], fields[i + 1..]);
    assert fields[i..] == [fields[i]] + fields[i + 1..];
  }

  lemma {:induction false} InsertSize(f: Field, fields: seq<Field>)
    ensures |InsertField(f, fields)| == |fields| + 1
  {
    if fields != [] && f.server.start > fields[0].server.start {
      InsertSize(f, fields[1..]);
    }
  }

  lemma {:induction false} SortSize(fields: seq<Field>)
    ensures |SortFields(fields)| == |fields|
  {
    if fields != [] {
      SortSize(fields[1..]);
      InsertSize(fields[0], SortFields(fields[1..]));
    }
  }

  lemma {:induction false} SpanCount(fields: seq<Field>)
    ensures |ServerSpans(fields)| == |fields| == |Swapped(fields)|
  {
    if fields != [] {
      SpanCount(fields[1..]);
    }
  }

  lemma SpansSize(fields: seq<Field>)
    ensures |ServerSpans(SortFields(fields))| == |ServerSpans(SortFields(Swapped(fields)))|
  {
    SpanCount(fields);
    SortSize(fields);
    SortSize(Swapped(fields));
    SpanCount(SortFields(fields));
    SpanCount(SortFields(Swapped(fields)));
  }
}
