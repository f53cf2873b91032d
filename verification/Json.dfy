// JSON values and the text by which the server compares them: stableJson of src/server/gitService.ts,
// which prints an object with its keys in sorted order.
module Json {
  import opened Common

  predicate NumeralChar(c: char) {
    '0' <= c <= '9' || c == '-' || c == '+' || c == '.' || c == 'e'
  }

  // The text JavaScript prints for a finite number.
  type Numeral = s: string | |s| > 0 && forall c :: c in s ==> NumeralChar(c) witness "0"

  datatype Number = Finite(text: Numeral) | NegativeZero | NaN | PositiveInfinity | NegativeInfinity

  // The order of an object's fields is not part of the value.
  datatype Json =
    | Null
    | Bool(flag: bool)
    | Num(number: Number)
    | Str(text: string)
    | Arr(items: seq<Json>)
    | Obj(fields: map<string, Json>)

  // ----- Sorted keys -----

  predicate Leq(a: string, b: string) {
    if a == [] then true
    else if b == [] then false
    else if a[0] == b[0] then Leq(a[1..], b[1..])
    else a[0] < b[0]
  }

  lemma {:induction false} LeqTotal(a: string, b: string)
    ensures Leq(a, b) || Leq(b, a)
  {
    if a != [] && b != [] && a[0] == b[0] {
      LeqTotal(a[1..], b[1..]);
    }
  }

  lemma {:induction false} LeqAntisymmetric(a: string, b: string)
    requires Leq(a, b) && Leq(b, a)
    ensures a == b
  {
    if a != [] && b != [] && a[0] == b[0] {
      LeqAntisymmetric(a[1..], b[1..]);
      assert a == [a[0]] + a[1..] && b == [b[0]] + b[1..];
    }
  }

  lemma {:induction false} LeqTransitive(a: string, b: string, c: string)
    requires Leq(a, b) && Leq(b, c)
    ensures Leq(a, c)
  {
    if a != [] && b != [] && c != [] && a[0] == b[0] && b[0] == c[0] {
      LeqTransitive(a[1..], b[1..], c[1..]);
    }
  }

  predicate IsFirst(keys: set<string>, k: string) {
    k in keys && forall j :: j in keys ==> Leq(k, j)
  }

  lemma {:induction false} FirstExists(keys: set<string>)
    requires keys != {}
    ensures exists k :: IsFirst(keys, k)
    decreases |keys|
  {
    hide Leq;
    var x :| x in keys;
    var rest := keys - {x};
    if rest == {} {
      LeqTotal(x, x);
      assert keys == {x};
      assert IsFirst(keys, x);
    } else {
      FirstExists(rest);
      var k :| IsFirst(rest, k);
      LeqTotal(x, k);
      if Leq(k, x) {
        assert IsFirst(keys, k);
      } else {
        LeqTotal(x, x);
        forall j | j in keys
          ensures Leq(x, j)
        {
          if j != x {
            LeqTransitive(x, k, j);
          }
        }
        assert IsFirst(keys, x);
      }
    }
  }

  lemma FirstUnique(keys: set<string>)
    ensures forall a, b :: IsFirst(keys, a) && IsFirst(keys, b) ==> a == b
  {
    hide Leq;
    forall a, b | IsFirst(keys, a) && IsFirst(keys, b)
      ensures a == b
    {
      LeqAntisymmetric(a, b);
    }
  }

  function First(keys: set<string>): (k: string)
    requires keys != {}
    ensures IsFirst(keys, k)
  {
    FirstExists(keys);
    FirstUnique(keys);
    var k :| IsFirst(keys, k);
    k
  }

  function Sorted(keys: set<string>): (s: seq<string>)
    ensures forall k :: k in s <==> k in keys
    ensures |s| == |keys|
    decreases |keys|
  {
    if keys == {} then []
    else
      var k := First(keys);
      [k] + Sorted(keys - {k})
  }

  lemma {:induction false} SortedOrder(keys: set<string>, i: int, j: int)
    requires 0 <= i < j < |Sorted(keys)|
    ensures Sorted(keys)[i] != Sorted(keys)[j] && Leq(Sorted(keys)[i], Sorted(keys)[j])
    decreases |keys|
  {
    hide Leq;
    var k := First(keys);
    var rest := Sorted(keys - {k});
    assert Sorted(keys) == [k] + rest;
    if i == 0 {
      assert rest[j - 1] in rest;
    } else {
      SortedOrder(keys - {k}, i - 1, j - 1);
    }
  }

  // ----- Printing -----

  function HexDigit(n: int): char
    requires 0 <= n < 16
  {
    (if n < 10 then 48 + n else 87 + n) as char
  }

  function Escape(c: char): string {
    if c == '\"' then "\\\""
    else if c == '\\' then "\\\\"
    else if c == '\U{8}' then "\\b"
    else if c == '\t' then "\\t"
    else if c == '\n' then "\\n"
    else if c == '\U{C}' then "\\f"
    else if c == '\r' then "\\r"
    else if c < ' ' then "\\u00" + [HexDigit(c as int / 16), HexDigit(c as int % 16)]
    else [c]
  }

  function QuoteTail(s: string): string {
    if s == [] then "\"" else Escape(s[0]) + QuoteTail(s[1..])
  }

  // A quoted text holds no control character, and a quote only where it is escaped.
  lemma {:induction false} QuotedPlain(s: string)
    ensures forall c :: c in QuoteTail(s) ==> c >= ' '
    ensures QuoteTail(s) != [] && QuoteTail(s)[|QuoteTail(s)| - 1] == '\"'
    ensures (forall c :: c in s ==> c >= ' ' && c != '\"' && c != '\\') ==> QuoteTail(s) == s + "\""
  {
    if s != [] {
      assert s == [s[0]] + s[1..];
      QuotedPlain(s[1..]);
      assert forall c :: c in Escape(s[0]) ==> c >= ' ';
      assert s[0] in s && forall c :: c in s[1..] ==> c in s;
      assert [s[0]] + (s[1..] + "\"") == s + "\"";
    }
  }

  function PrintNumber(n: Number): string {
    match n
    case Finite(text) => text
    case NegativeZero => "0"
    case _ => "null"
  }

  function StableJson(v: Json): string
    decreases v, 2, 0
  {
    match v
    case Null => "null"
    case Bool(flag) => if flag then "true" else "false"
    case Num(n) => PrintNumber(n)
    case Str(text) => "\"" + QuoteTail(text)
    case Arr(items) => "[" + ItemsText(items, false)
    case Obj(fields) => "{" + FieldsText(v, Sorted(fields.Keys), false)
  }

  function ItemsText(items: seq<Json>, comma: bool): string
    decreases items, 1, 0
  {
    if items == [] then "]"
    else (if comma then "," else "") + StableJson(items[0]) + ItemsText(items[1..], true)
  }

  function FieldsText(v: Json, keys: seq<string>, comma: bool): string
    requires v.Obj? && forall k :: k in keys ==> k in v.fields
    decreases v, 1, |keys|
  {
    if keys == [] then "}"
    else
      (if comma then "," else "") + "\"" + QuoteTail(keys[0]) + ":" + StableJson(v.fields[keys[0]]) + FieldsText(v, keys[1..], true)
  }

  // ----- What the text tells apart -----

  // The value the text stands for: numbers that are not finite print as null, and negative zero as zero.
  function Plain(v: Json): Json
    decreases v
  {
    match v
    case Num(NegativeZero) => Num(Finite("0"))
    case Num(Finite(text)) => v
    case Num(_) => Null
    case Arr(items) => Arr(seq(|items|, i requires 0 <= i < |items| => Plain(items[i])))
    case Obj(fields) => Obj(map k | k in fields :: Plain(fields[k]))
    case _ => v
  }

  // A value is followed by one of these, or by nothing.
  predicate Delimited(x: string) {
    x == [] || x[0] == ',' || x[0] == ']' || x[0] == '}'
  }

  // Escapes are prefix-free: the second character tells the short ones apart, the last two the rest.
  lemma EscapePrefix(c: char, d: char)
    requires Escape(c) <= Escape(d)
    ensures c == d
  {
    var e, f := Escape(c), Escape(d);
    assert e[0] == f[0];
    if |e| > 1 {
      assert e[1] == f[1];
    }
    if |e| == 6 {
      assert e[4] == f[4] && e[5] == f[5];
      assert e[4] == HexDigit(c as int / 16) && e[5] == HexDigit(c as int % 16);
      assert f[4] == HexDigit(d as int / 16) && f[5] == HexDigit(d as int % 16);
    }
  }

  lemma EscapeUnique(c: char, d: char, x: string, y: string)
    requires Escape(c) + x == Escape(d) + y
    ensures c == d && x == y
  {
    hide Escape;
    var e, f, w := Escape(c), Escape(d), Escape(c) + x;
    assert e == w[..|e|] && f == w[..|f|];
    if |e| <= |f| {
      assert e == f[..|e|];
      EscapePrefix(c, d);
    } else {
      assert f == e[..|f|];
      EscapePrefix(d, c);
    }
    assert x == w[|e|..];
  }

  lemma EscapeNotQuote(c: char)
    ensures |Escape(c)| > 0 && Escape(c)[0] != '\"'
  {
  }

  lemma {:induction false} QuoteUnique(s: string, t: string, x: string, y: string)
    requires QuoteTail(s) + x == QuoteTail(t) + y
    ensures s == t && x == y
  {
    hide Escape;
    var a, b := QuoteTail(s) + x, QuoteTail(t) + y;
    if s != [] {
      EscapeNotQuote(s[0]);
    }
    if t != [] {
      EscapeNotQuote(t[0]);
    }
    assert a[0] == b[0];
    if s == [] || t == [] {
      assert x == a[1..] && y == b[1..];
    } else {
      var u, v := QuoteTail(s[1..]) + x, QuoteTail(t[1..]) + y;
      assert a == Escape(s[0]) + u && b == Escape(t[0]) + v;
      EscapeUnique(s[0], t[0], u, v);
      QuoteUnique(s[1..], t[1..], x, y);
      assert s == [s[0]] + s[1..] && t == [t[0]] + t[1..];
    }
  }

  lemma NumeralReaches(a: string, b: string, x: string, y: string)
    requires forall c :: c in b ==> NumeralChar(c)
    requires a + x == b + y && Delimited(x)
    ensures |b| <= |a|
  {
    var w := a + x;
    forall i | 0 <= i < |b|
      ensures NumeralChar(w[i])
    {
      assert w[i] == b[i] && b[i] in b;
    }
    assert x != [] ==> w[|a|] == x[0];
  }

  lemma NumeralUnique(a: string, b: string, x: string, y: string)
    requires forall c :: c in a ==> NumeralChar(c)
    requires forall c :: c in b ==> NumeralChar(c)
    requires a + x == b + y && Delimited(x) && Delimited(y)
    ensures a == b && x == y
  {
    var w := a + x;
    NumeralReaches(a, b, x, y);
    NumeralReaches(b, a, y, x);
    assert a == w[..|a|] && b == w[..|b|] && x == w[|a|..];
  }

  // What a text can begin with, by kind: the kinds never collide, save for the numbers that print as null.
  datatype TextKind = NullKind | BoolKind | NumberKind | StringKind | ArrayKind | ObjectKind

  function KindOf(v: Json): TextKind {
    match v
    case Null => NullKind
    case Bool(_) => BoolKind
    case Num(n) => if n.Finite? || n.NegativeZero? then NumberKind else NullKind
    case Str(_) => StringKind
    case Arr(_) => ArrayKind
    case Obj(_) => ObjectKind
  }

  function KindAt(c: char): TextKind {
    if c == 'n' then NullKind
    else if c == 't' || c == 'f' then BoolKind
    else if c == '\"' then StringKind
    else if c == '[' then ArrayKind
    else if c == '{' then ObjectKind
    else NumberKind
  }

  lemma KindShows(v: Json)
    ensures |StableJson(v)| > 0 && KindAt(StableJson(v)[0]) == KindOf(v)
  {
    hide ItemsText, FieldsText, QuoteTail;
    if v.Num? && v.number.Finite? {
      assert v.number.text[0] in v.number.text;
    }
  }

  lemma KindsAgree(a: Json, b: Json, x: string, y: string)
    requires StableJson(a) + x == StableJson(b) + y
    ensures KindOf(a) == KindOf(b)
  {
    hide StableJson;
    KindShows(a);
    KindShows(b);
    assert (StableJson(a) + x)[0] == (StableJson(b) + y)[0];
  }

  predicate ItemsAlike(a: seq<Json>, b: seq<Json>) {
    |a| == |b| && forall i :: 0 <= i < |a| ==> Plain(a[i]) == Plain(b[i])
  }

  predicate FieldsAlike(a: Json, b: Json, keys: seq<string>)
    requires a.Obj? && b.Obj?
    requires forall k :: k in keys ==> k in a.fields && k in b.fields
  {
    forall k :: k in keys ==> Plain(a.fields[k]) == Plain(b.fields[k])
  }

  // The text of a value cannot run on into what follows it: it determines the value, up to the numbers that
  // print alike, and where the value ends.
  lemma {:induction false} TextUnique(a: Json, b: Json, x: string, y: string)
    requires StableJson(a) + x == StableJson(b) + y && Delimited(x) && Delimited(y)
    ensures Plain(a) == Plain(b) && x == y
    decreases a, 2, 0
  {
    KindsAgree(a, b, x, y);
    match KindOf(a)
    case NullKind => NullUnique(a, b, x, y);
    case BoolKind => BoolUnique(a, b, x, y);
    case NumberKind => NumberUnique(a, b, x, y);
    case StringKind => StringUnique(a, b, x, y);
    case ArrayKind => ArrayUnique(a, b, x, y);
    case ObjectKind => ObjectUnique(a, b, x, y);
  }

  lemma NullUnique(a: Json, b: Json, x: string, y: string)
    requires StableJson(a) + x == StableJson(b) + y && KindOf(a) == KindOf(b) == NullKind
    ensures Plain(a) == Plain(b) && x == y
  {
    var w := StableJson(a) + x;
    assert StableJson(a) == StableJson(b) == "null";
    assert x == w[4..] && y == w[4..];
  }

  lemma BoolUnique(a: Json, b: Json, x: string, y: string)
    requires StableJson(a) + x == StableJson(b) + y && KindOf(a) == KindOf(b) == BoolKind
    ensures Plain(a) == Plain(b) && x == y
  {
    var w := StableJson(a) + x;
    assert w[0] == StableJson(a)[0] == StableJson(b)[0];
    assert x == w[|StableJson(a)|..] && y == w[|StableJson(b)|..];
  }

  lemma NumberUnique(a: Json, b: Json, x: string, y: string)
    requires StableJson(a) + x == StableJson(b) + y && KindOf(a) == KindOf(b) == NumberKind
    requires Delimited(x) && Delimited(y)
    ensures Plain(a) == Plain(b) && x == y
  {
    NumeralUnique(StableJson(a), StableJson(b), x, y);
  }

  lemma StringText(a: Json, x: string)
    requires KindOf(a) == StringKind
    ensures var w := StableJson(a) + x; |w| > 0 && w[1..] == QuoteTail(a.text) + x
  {
    hide QuoteTail;
    assert StableJson(a) + x == "\"" + (QuoteTail(a.text) + x);
  }

  lemma StringUnique(a: Json, b: Json, x: string, y: string)
    requires StableJson(a) + x == StableJson(b) + y && KindOf(a) == KindOf(b) == StringKind
    ensures Plain(a) == Plain(b) && x == y
  {
    hide StableJson, QuoteTail;
    StringText(a, x);
    StringText(b, y);
    QuoteUnique(a.text, b.text, x, y);
  }

  lemma DropLead(lead: string, head: string, tail: string, x: string)
    ensures (lead + head + tail + x)[|lead|..] == head + (tail + x)
  {
    assert lead + head + tail + x == lead + (head + (tail + x));
  }

  lemma ItemsStep(items: seq<Json>, comma: bool, x: string)
    requires items != []
    ensures var w := ItemsText(items, comma) + x;
      var lead := if comma then 1 else 0;
      |w| >= lead && w[lead..] == StableJson(items[0]) + (ItemsText(items[1..], true) + x)
  {
    hide StableJson;
    DropLead(if comma then "," else "", StableJson(items[0]), ItemsText(items[1..], true), x);
  }

  lemma {:induction false} ItemsUnique(a: seq<Json>, b: seq<Json>, comma: bool, x: string, y: string)
    requires ItemsText(a, comma) + x == ItemsText(b, comma) + y
    ensures ItemsAlike(a, b) && x == y
    decreases a, 1, 0
  {
    hide StableJson, Plain;
    ItemsHead(a, comma, x);
    ItemsHead(b, comma, y);
    if a == [] || b == [] {
      assert x == (ItemsText(a, comma) + x)[1..] == (ItemsText(b, comma) + y)[1..];
    } else {
      hide ItemsText;
      var s, t := a[1..], b[1..];
      ItemsStep(a, comma, x);
      ItemsStep(b, comma, y);
      ItemsHead(s, true, x);
      ItemsHead(t, true, y);
      TextUnique(a[0], b[0], ItemsText(s, true) + x, ItemsText(t, true) + y);
      ItemsUnique(s, t, true, x, y);
      ItemsAlikeCons(a, b);
    }
  }

  // The rest of an array's text begins with its bracket exactly when no items are left.
  lemma ItemsHead(items: seq<Json>, comma: bool, x: string)
    ensures var w := ItemsText(items, comma) + x;
      |w| > 0 && (w[0] == ']' <==> items == []) && (comma && items != [] ==> w[0] == ',') && (comma ==> Delimited(w))
  {
    if items != [] {
      KindShows(items[0]);
      assert NumeralChar(']') == false;
    }
  }

  lemma ItemsAlikeCons(a: seq<Json>, b: seq<Json>)
    requires a != [] && b != [] && Plain(a[0]) == Plain(b[0]) && ItemsAlike(a[1..], b[1..])
    ensures ItemsAlike(a, b)
  {
    hide Plain;
    assert a == [a[0]] + a[1..] && b == [b[0]] + b[1..];
  }

  lemma ArrayUnique(a: Json, b: Json, x: string, y: string)
    requires StableJson(a) + x == StableJson(b) + y && KindOf(a) == KindOf(b) == ArrayKind
    ensures Plain(a) == Plain(b) && x == y
    decreases a, 1, 1
  {
    hide StableJson, ItemsText;
    ArrayText(a, x);
    ArrayText(b, y);
    ItemsUnique(a.items, b.items, false, x, y);
  }

  lemma ArrayText(a: Json, x: string)
    requires a.Arr?
    ensures var w := StableJson(a) + x; |w| > 0 && w[1..] == ItemsText(a.items, false) + x
  {
    hide ItemsText;
    assert StableJson(a) + x == "[" + (ItemsText(a.items, false) + x);
  }

  lemma FieldsHead(v: Json, keys: seq<string>, comma: bool, x: string)
    requires v.Obj? && forall k :: k in keys ==> k in v.fields
    ensures var w := FieldsText(v, keys, comma) + x;
      |w| > 0 && (w[0] == '}' <==> keys == []) && (comma ==> Delimited(w))
  {
  }

  lemma FieldsStep(v: Json, keys: seq<string>, comma: bool, x: string)
    requires v.Obj? && keys != [] && forall k :: k in keys ==> k in v.fields
    ensures var w := FieldsText(v, keys, comma) + x;
      var lead := if comma then 2 else 1;
      |w| >= lead && w[lead..] == QuoteTail(keys[0]) + (":" + (StableJson(v.fields[keys[0]]) + (FieldsText(v, keys[1..], true) + x)))
  {
    hide StableJson, QuoteTail;
    var key, value, tail := QuoteTail(keys[0]), StableJson(v.fields[keys[0]]), FieldsText(v, keys[1..], true);
    var w := FieldsText(v, keys, comma) + x;
    if comma {
      assert w == ",\"" + (key + (":" + (value + (tail + x))));
    } else {
      assert w == "\"" + (key + (":" + (value + (tail + x))));
    }
  }

  // One field: its key, then the text of its value and of the fields after it.
  lemma FieldsKey(a: Json, b: Json, ks: seq<string>, js: seq<string>, comma: bool, x: string, y: string)
    requires a.Obj? && b.Obj? && ks != [] && js != []
    requires (forall k :: k in ks ==> k in a.fields) && forall j :: j in js ==> j in b.fields
    requires FieldsText(a, ks, comma) + x == FieldsText(b, js, comma) + y
    ensures ks[0] == js[0]
    ensures StableJson(a.fields[ks[0]]) + (FieldsText(a, ks[1..], true) + x) == StableJson(b.fields[js[0]]) + (FieldsText(b, js[1..], true) + y)
  {
    hide StableJson, QuoteTail, FieldsText;
    FieldsStep(a, ks, comma, x);
    FieldsStep(b, js, comma, y);
    var u := StableJson(a.fields[ks[0]]) + (FieldsText(a, ks[1..], true) + x);
    var v := StableJson(b.fields[js[0]]) + (FieldsText(b, js[1..], true) + y);
    QuoteUnique(ks[0], js[0], ":" + u, ":" + v);
    assert u == (":" + u)[1..] == (":" + v)[1..] == v;
  }

  lemma {:induction false} FieldsUnique(a: Json, b: Json, ks: seq<string>, js: seq<string>, comma: bool, x: string, y: string)
    requires a.Obj? && b.Obj?
    requires (forall k :: k in ks ==> k in a.fields) && forall j :: j in js ==> j in b.fields
    requires FieldsText(a, ks, comma) + x == FieldsText(b, js, comma) + y
    ensures ks == js && FieldsAlike(a, b, ks) && x == y
    decreases a, 1, |ks|, 0
  {
    hide StableJson, Plain;
    FieldsHead(a, ks, comma, x);
    FieldsHead(b, js, comma, y);
    if ks == [] || js == [] {
      assert x == (FieldsText(a, ks, comma) + x)[1..] == (FieldsText(b, js, comma) + y)[1..];
    } else {
      hide FieldsText;
      FieldsKey(a, b, ks, js, comma, x, y);
      FieldsRest(a, b, ks, js, x, y);
      assert ks == [ks[0]] + ks[1..] && js == [js[0]] + js[1..];
    }
  }

  lemma FieldsRest(a: Json, b: Json, ks: seq<string>, js: seq<string>, x: string, y: string)
    requires a.Obj? && b.Obj? && ks != [] && js != []
    requires (forall k :: k in ks ==> k in a.fields) && forall j :: j in js ==> j in b.fields
    requires StableJson(a.fields[ks[0]]) + (FieldsText(a, ks[1..], true) + x) == StableJson(b.fields[js[0]]) + (FieldsText(b, js[1..], true) + y)
    ensures ks[1..] == js[1..] && FieldsAlike(a, b, ks[1..]) && x == y
    ensures Plain(a.fields[ks[0]]) == Plain(b.fields[js[0]])
    decreases a, 1, |ks| - 1, 1
  {
    hide StableJson, Plain, FieldsText;
    var k, j, s, t := ks[0], js[0], ks[1..], js[1..];
    FieldsHead(a, s, true, x);
    FieldsHead(b, t, true, y);
    TextUnique(a.fields[k], b.fields[j], FieldsText(a, s, true) + x, FieldsText(b, t, true) + y);
    FieldsUnique(a, b, s, t, true, x, y);
  }

  lemma ObjectText(a: Json, x: string)
    requires a.Obj?
    ensures var w := StableJson(a) + x; |w| > 0 && w[1..] == FieldsText(a, Sorted(a.fields.Keys), false) + x
  {
    hide FieldsText;
    var w := StableJson(a) + x;
    assert w == "{" + (FieldsText(a, Sorted(a.fields.Keys), false) + x);
  }

  lemma ObjectPlain(a: Json, b: Json)
    requires a.Obj? && b.Obj?
    requires forall k :: k in a.fields <==> k in b.fields
    requires forall k :: k in a.fields ==> Plain(a.fields[k]) == Plain(b.fields[k])
    ensures Plain(a) == Plain(b)
  {
    hide Plain;
    PlainFields(a);
    PlainFields(b);
    SameFields(Plain(a).fields, Plain(b).fields);
  }

  lemma SameFields(p: map<string, Json>, q: map<string, Json>)
    requires p.Keys == q.Keys && forall k :: k in p.Keys ==> p[k] == q[k]
    ensures p == q
  {
  }

  lemma PlainFields(v: Json)
    requires v.Obj?
    ensures Plain(v).Obj? && Plain(v).fields.Keys == v.fields.Keys
    ensures forall k :: k in v.fields ==> Plain(v).fields[k] == Plain(v.fields[k])
  {
  }

  lemma ObjectUnique(a: Json, b: Json, x: string, y: string)
    requires StableJson(a) + x == StableJson(b) + y && KindOf(a) == KindOf(b) == ObjectKind
    ensures Plain(a) == Plain(b) && x == y
    decreases a, 1, |Sorted(a.fields.Keys)| + 1
  {
    hide StableJson, Plain, FieldsText;
    var ks, js := Sorted(a.fields.Keys), Sorted(b.fields.Keys);
    ObjectText(a, x);
    ObjectText(b, y);
    FieldsUnique(a, b, ks, js, false, x, y);
    assert forall k :: k in ks <==> k in a.fields;
    ObjectPlain(a, b);
  }

  // The converse: values that differ only in such numbers print alike.
  lemma {:induction false} PlainText(v: Json)
    ensures StableJson(Plain(v)) == StableJson(v)
    decreases v, 2, 0
  {
    match v
    case Arr(items) =>
      assert Plain(v).items == PlainItems(items);
      PlainItemsText(items, false);
    case Obj(fields) =>
      assert Plain(v).fields.Keys == fields.Keys;
      PlainFieldsText(v, Sorted(fields.Keys), false);
    case _ =>
  }

  function PlainItems(items: seq<Json>): seq<Json> {
    seq(|items|, i requires 0 <= i < |items| => Plain(items[i]))
  }

  lemma {:induction false} PlainItemsText(items: seq<Json>, comma: bool)
    ensures ItemsText(PlainItems(items), comma) == ItemsText(items, comma)
    decreases items, 1, 0
  {
    hide Plain, StableJson;
    if items != [] {
      PlainText(items[0]);
      PlainItemsText(items[1..], true);
      assert PlainItems(items)[1..] == PlainItems(items[1..]);
    }
  }

  lemma {:induction false} PlainFieldsText(v: Json, keys: seq<string>, comma: bool)
    requires v.Obj? && Plain(v).Obj? && forall k :: k in keys ==> k in v.fields
    ensures (forall k :: k in keys ==> k in Plain(v).fields) && FieldsText(Plain(v), keys, comma) == FieldsText(v, keys, comma)
    decreases v, 1, |keys|
  {
    hide StableJson;
    if keys != [] {
      PlainText(v.fields[keys[0]]);
      PlainFieldsText(v, keys[1..], true);
    }
  }

  // Two values compare equal exactly when they are the same value, up to the numbers that print alike.
  lemma StableJsonCanonical(a: Json, b: Json)
    ensures StableJson(a) == StableJson(b) <==> Plain(a) == Plain(b)
  {
    hide StableJson, Plain;
    if StableJson(a) == StableJson(b) {
      assert StableJson(a) + "" == StableJson(b) + "";
      TextUnique(a, b, "", "");
    }
    if Plain(a) == Plain(b) {
      PlainText(a);
      PlainText(b);
    }
  }
}
