// The text of a repaired name (src/server/nameRepair.ts) and the characters a restricted platform cannot
// store (src/shared/namePortability.cjs).
module NameText {

  predicate ReservedChar(c: char) {
    c in "\"*:<>?\\|" || c < ' ' || c == '\U{7F}'
  }

  predicate HasReserved(s: string) {
    exists c :: c in s && ReservedChar(c)
  }

  predicate WhiteSpace(c: char) {
    || c == ' ' || '\t' <= c <= '\r' || c == '\U{A0}' || c == '\U{1680}' || '\U{2000}' <= c <= '\U{200A}'
    || c == '\U{2028}' || c == '\U{2029}' || c == '\U{202F}' || c == '\U{205F}' || c == '\U{3000}' || c == '\U{FEFF}'
  }

  function ReplaceChar(c: char): string {
    if c == ':' || c == '|' then " - "
    else if c == '\"' then "'"
    else if c == '\\' then "-"
    else if ReservedChar(c) then ""
    else [c]
  }

  function ReplaceAll(s: string): string {
    if s == [] then [] else ReplaceChar(s[0]) + ReplaceAll(s[1..])
  }

  // Runs of white space become one space; `after` says that one has just been written.
  function Collapse(s: string, after: bool): string {
    if s == [] then []
    else if WhiteSpace(s[0]) then (if after then "" else " ") + Collapse(s[1..], true)
    else [s[0]] + Collapse(s[1..], false)
  }

  function TrimStart(s: string): string {
    if s != [] && WhiteSpace(s[0]) then TrimStart(s[1..]) else s
  }

  function TrimEnd(s: string): string {
    if s != [] && WhiteSpace(s[|s| - 1]) then TrimEnd(s[..|s| - 1]) else s
  }

  function SanitizeText(s: string): string {
    TrimEnd(TrimStart(Collapse(ReplaceAll(s), false)))
  }

  predicate Alphanumeric(c: char) {
    '0' <= c <= '9' || 'a' <= c <= 'z' || 'A' <= c <= 'Z'
  }

  // Where the last dot is, or -1.
  function LastDot(s: string): (i: int)
    ensures -1 <= i < |s| && (i >= 0 ==> s[i] == '.')
    ensures forall j :: i < j < |s| ==> s[j] != '.'
  {
    if s == [] then -1 else if s[|s| - 1] == '.' then |s| - 1 else LastDot(s[..|s| - 1])
  }

  // A short alphanumeric extension that is not the whole name.
  function ExtensionAt(s: string): (i: int)
    ensures 0 <= i <= |s|
    ensures i < |s| ==> 0 < i && s[i] == '.' && i + 1 < |s| && forall j :: i < j < |s| ==> Alphanumeric(s[j])
  {
    var i := LastDot(s);
    if i > 0 && 1 <= |s| - i - 1 <= 16 && forall j :: i < j < |s| ==> Alphanumeric(s[j]) then i else |s|
  }

  const FORBIDDEN_RESULT_SEGMENTS: set<string> := {"", ".", "..", ".git"}

  // A segment with reserved characters is rewritten; any other keeps its exact text.
  function Sanitize(segment: string, isFile: bool, isRoot: bool): string {
    if !HasReserved(segment) then segment
    else
      var i := if isFile then ExtensionAt(segment) else |segment|;
      var stem := SanitizeText(segment[..i]);
      (if stem in FORBIDDEN_RESULT_SEGMENTS || (isRoot && stem == ".obts") then "Untitled" else stem) + segment[i..]
  }

  lemma {:induction false} ReplacedClean(s: string)
    ensures !HasReserved(ReplaceAll(s))
  {
    if s != [] {
      ReplacedClean(s[1..]);
      ReplaceCharClean(s[0]);
    }
  }

  lemma ReplaceCharClean(c: char)
    ensures !HasReserved(ReplaceChar(c))
  {
  }

  lemma {:induction false} CollapsedClean(s: string, after: bool)
    requires !HasReserved(s)
    ensures !HasReserved(Collapse(s, after))
  {
    if s != [] {
      assert s[0] in s && forall c :: c in s[1..] ==> c in s;
      CollapsedClean(s[1..], WhiteSpace(s[0]));
    }
  }

  lemma {:induction false} TrimStartPart(s: string)
    ensures forall c :: c in TrimStart(s) ==> c in s
  {
    if s != [] && WhiteSpace(s[0]) {
      TrimStartPart(s[1..]);
    }
  }

  lemma {:induction false} TrimEndPart(s: string)
    ensures forall c :: c in TrimEnd(s) ==> c in s
  {
    if s != [] && WhiteSpace(s[|s| - 1]) {
      TrimEndPart(s[..|s| - 1]);
    }
  }

  lemma SanitizedTextClean(s: string)
    ensures !HasReserved(SanitizeText(s))
  {
    hide ReservedChar, ReplaceAll, Collapse, TrimStart, TrimEnd;
    ReplacedClean(s);
    CollapsedClean(ReplaceAll(s), false);
    TrimStartPart(Collapse(ReplaceAll(s), false));
    TrimEndPart(TrimStart(Collapse(ReplaceAll(s), false)));
  }

  lemma ExtensionClean(s: string, i: int)
    requires 0 <= i <= |s| && (i < |s| ==> s[i] == '.' && forall j :: i < j < |s| ==> Alphanumeric(s[j]))
    ensures !HasReserved(s[i..])
  {
    var t := s[i..];
    forall c | c in t
      ensures !ReservedChar(c)
    {
      var j :| 0 <= j < |t| && t[j] == c;
      assert t[j] == s[i + j];
    }
  }

  // A rewritten segment holds no reserved character and is none of the forbidden names.
  lemma SanitizedStorable(segment: string, isFile: bool, isRoot: bool)
    ensures !HasReserved(Sanitize(segment, isFile, isRoot))
    ensures HasReserved(segment) ==> Sanitize(segment, isFile, isRoot) !in FORBIDDEN_RESULT_SEGMENTS
  {
    hide ReservedChar, SanitizeText;
    if HasReserved(segment) {
      var i := if isFile then ExtensionAt(segment) else |segment|;
      SanitizedTextClean(segment[..i]);
      ExtensionClean(segment, i);
      UntitledClean();
      NotForbidden(if SanitizeText(segment[..i]) in FORBIDDEN_RESULT_SEGMENTS || (isRoot && SanitizeText(segment[..i]) == ".obts")
                   then "Untitled" else SanitizeText(segment[..i]), segment[i..]);
    }
  }

  lemma UntitledClean()
    ensures !HasReserved("Untitled")
  {
  }

  lemma NotForbidden(stem: string, extension: string)
    requires stem !in FORBIDDEN_RESULT_SEGMENTS
    requires extension != [] ==> extension[0] == '.' && |extension| > 1 && Alphanumeric(extension[1])
    ensures stem + extension !in FORBIDDEN_RESULT_SEGMENTS
  {
    if extension == [] {
      assert stem + extension == stem;
    } else {
      var name := stem + extension;
      assert name[|stem|] == '.' && name[|stem| + 1] == extension[1];
    }
  }

  // ----- What a name becomes -----

  // Text without reserved characters is not touched.
  lemma {:induction false} PlainKept(s: string)
    requires !HasReserved(s)
    ensures ReplaceAll(s) == s
  {
    if s != [] {
      assert s[0] in s && forall c :: c in s[1..] ==> c in s;
      PlainKept(s[1..]);
      assert s == [s[0]] + s[1..];
    }
  }

  lemma {:induction false} ReplacedConcat(s: string, t: string)
    ensures ReplaceAll(s + t) == ReplaceAll(s) + ReplaceAll(t)
  {
    if s == [] {
      assert s + t == t && [] + ReplaceAll(t) == ReplaceAll(t);
    } else {
      assert (s + t)[0] == s[0] && (s + t)[1..] == s[1..] + t;
      ReplacedConcat(s[1..], t);
    }
  }

  // A reserved character becomes a dash or an apostrophe, if anything.
  lemma ReservedReplaced(c: char)
    requires ReservedChar(c)
    ensures ReplaceAll([c]) ==
            if c in ":|" then " - " else if c == '\\' then "-" else if c == '\"' then "'" else ""
  {
    assert [c][1..] == [];
    assert ReplaceAll([c]) == ReplaceChar(c) + [];
  }

  predicate StartsBlank(s: string) {
    s == [] || WhiteSpace(s[0])
  }

  // The words of a text, between its white space.
  function Words(s: string): (r: seq<string>)
    ensures !StartsBlank(s) ==> r != []
  {
    if s == [] then []
    else if WhiteSpace(s[0]) then Words(s[1..])
    else
      var rest := Words(s[1..]);
      if StartsBlank(s[1..]) then [[s[0]]] + rest else [[s[0]] + rest[0]] + rest[1..]
  }

  // Words with one space between any two.
  function Spaced(words: seq<string>): string {
    if words == [] then "" else if |words| == 1 then words[0] else words[0] + " " + Spaced(words[1..])
  }

  lemma {:induction false} TrimEndCons(c: char, s: string)
    ensures TrimEnd([c] + s) == if WhiteSpace(c) && TrimEnd(s) == [] then [] else [c] + TrimEnd(s)
    decreases |s|
  {
    var t := [c] + s;
    if s == [] {
      assert t[..0] == [];
    } else {
      var left := s[..|s| - 1];
      assert t[|t| - 1] == s[|s| - 1] && t[..|t| - 1] == [c] + left;
      if WhiteSpace(s[|s| - 1]) {
        TrimEndCons(c, left);
      }
    }
  }

  lemma SpacedNew(w: string, words: seq<string>)
    ensures Spaced([w] + words) == w + (if words == [] then "" else " ") + Spaced(words)
  {
    assert ([w] + words)[1..] == words;
    if words == [] {
      assert w + "" + "" == w;
    }
  }

  lemma SpacedGrown(c: char, words: seq<string>)
    requires words != []
    ensures Spaced([[c] + words[0]] + words[1..]) == [c] + Spaced(words)
  {
    hide Spaced;
    var w, rest := words[0], words[1..];
    SpacedNew([c] + w, rest);
    SpacedNew(w, rest);
    assert words == [w] + rest;
    var gap := if rest == [] then "" else " ";
    assert [c] + w + gap + Spaced(rest) == [c] + (w + gap + Spaced(rest));
  }

  lemma {:induction false} WordsFull(s: string)
    ensures Spaced(Words(s)) == "" <==> Words(s) == []
  {
    hide Spaced;
    NothingLeft();
    if s != [] {
      WordsFull(s[1..]);
      if !WhiteSpace(s[0]) {
        WordsCons(s[0], s[1..]);
      }
    }
  }

  // A character before a text: a word of its own before a gap, and else part of the first word.
  lemma WordsCons(c: char, s: string)
    requires !WhiteSpace(c)
    ensures Words([c] + s) != []
    ensures Spaced(Words([c] + s)) == [c] + (if StartsBlank(s) && Words(s) != [] then " " else "") + Spaced(Words(s))
  {
    hide Spaced, WhiteSpace;
    assert ([c] + s)[1..] == s;
    if StartsBlank(s) {
      SpacedNew([c], Words(s));
    } else {
      SpacedGrown(c, Words(s));
      assert [c] + "" + Spaced(Words(s)) == [c] + Spaced(Words(s));
    }
  }

  // Collapsed and trimmed at the end: the words, after a space if the text began with white space.
  lemma {:induction false} CollapsedWords(s: string, after: bool)
    ensures TrimEnd(Collapse(s, after)) ==
            (if !after && s != [] && StartsBlank(s) && Words(s) != [] then " " else "") + Spaced(Words(s))
    decreases |s|, 0
  {
    hide WhiteSpace, TrimEnd, Spaced;
    if s == [] {
      NothingLeft();
    } else if WhiteSpace(s[0]) {
      BlankFirst(s[0], s[1..], after);
    } else {
      var c, rest := s[0], s[1..];
      CollapsedWords(rest, false);
      TrimEndCons(c, Collapse(rest, false));
      assert s == [c] + rest;
      WordsCons(c, rest);
      LetterFirst(c, rest);
    }
  }

  lemma LetterFirst(c: char, s: string)
    requires !WhiteSpace(c)
    ensures var gap := if s != [] && StartsBlank(s) && Words(s) != [] then " " else "";
      [c] + (if StartsBlank(s) && Words(s) != [] then " " else "") + Spaced(Words(s)) == [c] + (gap + Spaced(Words(s)))
  {
    hide Spaced, WhiteSpace;
    assert s == [] ==> Words(s) == [];
  }

  lemma {:induction false} BlankFirst(c: char, s: string, after: bool)
    requires WhiteSpace(c)
    ensures TrimEnd(Collapse([c] + s, after)) == (if !after && Words(s) != [] then " " else "") + Spaced(Words(s))
    ensures Words([c] + s) == Words(s)
    decreases |s|, 1
  {
    hide WhiteSpace, TrimEnd, Spaced;
    assert ([c] + s)[1..] == s;
    CollapsedWords(s, true);
    WordsFull(s);
    SpaceIsWhite();
    TrimEndCons(' ', Collapse(s, true));
    var rest := Collapse(s, true);
    assert Collapse([c] + s, after) == if after then rest else " " + rest;
    assert "" + Spaced(Words(s)) == Spaced(Words(s));
  }

  lemma NothingLeft()
    ensures TrimEnd([]) == [] && Spaced([]) == []
  {
  }

  lemma SpaceIsWhite()
    ensures WhiteSpace(' ')
  {
  }

  lemma {:induction false} CollapsedStart(s: string)
    ensures StartsBlank(Collapse(s, true)) ==> Collapse(s, true) == []
    ensures TrimStart(Collapse(s, false)) == Collapse(s, true)
  {
    if s != [] && WhiteSpace(s[0]) {
      CollapsedStart(s[1..]);
      assert (" " + Collapse(s[1..], true))[1..] == Collapse(s[1..], true);
    }
  }

  // The rewritten text is the words left by the replacements, one space between any two.
  lemma SanitizedWords(s: string)
    ensures SanitizeText(s) == Spaced(Words(ReplaceAll(s)))
  {
    hide ReplaceAll, Collapse, TrimStart, TrimEnd, Words, Spaced;
    CollapsedStart(ReplaceAll(s));
    CollapsedWords(ReplaceAll(s), true);
    assert "" + Spaced(Words(ReplaceAll(s))) == Spaced(Words(ReplaceAll(s)));
  }

  // A dot that ends the stem of a file, and one to sixteen letters and digits.
  predicate ExtensionStarts(s: string, i: int) {
    0 < i < |s| - 1 && s[i] == '.' && |s| - i <= 17 && forall j :: i < j < |s| ==> Alphanumeric(s[j])
  }

  lemma ExtensionExactly(s: string, i: int)
    requires 0 <= i < |s|
    ensures ExtensionAt(s) == i <==> ExtensionStarts(s, i)
  {
  }

  // The stem of a name that cannot be stored is rewritten by its words, or named anew when nothing usable
  // is left; its extension stays.
  lemma SanitizedExactly(stem: string, extension: string, isFile: bool, isRoot: bool)
    requires HasReserved(stem + extension)
    requires if isFile && extension != [] then ExtensionStarts(stem + extension, |stem|)
             else extension == [] && forall i :: isFile ==> !ExtensionStarts(stem, i)
    ensures var words := Spaced(Words(ReplaceAll(stem)));
      Sanitize(stem + extension, isFile, isRoot) ==
        (if words in ["", ".", "..", ".git"] || (isRoot && words == ".obts") then "Untitled" else words) + extension
  {
    hide HasReserved, SanitizeText, Words, Spaced, ReplaceAll, Alphanumeric;
    var s := stem + extension;
    SanitizedWords(stem);
    if isFile && extension != [] {
      ExtensionExactly(s, |stem|);
    } else if isFile && ExtensionAt(s) < |s| {
      assert s == stem;
      ExtensionExactly(s, ExtensionAt(s));
      assert false;
    }
    assert s[..|stem|] == stem && s[|stem|..] == extension;
  }
}
