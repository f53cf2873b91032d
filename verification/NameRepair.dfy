// The renaming plan that makes a tree of names storable on a restricted platform (src/server/nameRepair.ts).
// A path is its segments; the root is the empty path. Case folding is a parameter, applied to each segment.
module NameRepair {
  import opened Common
  import opened NameText

  type Path = seq<string>

  type Fold = string -> string

  function Parent(p: Path): Path {
    if p == [] then [] else p[..|p| - 1]
  }

  function Last(p: Path): string {
    if p == [] then "" else p[|p| - 1]
  }

  function Key(fold: Fold, p: Path): Path {
    seq(|p|, i requires 0 <= i < |p| => fold(p[i]))
  }

  lemma KeySplit(fold: Fold, p: Path)
    requires p != []
    ensures Key(fold, p) != [] && Parent(Key(fold, p)) == Key(fold, Parent(p)) && Last(Key(fold, p)) == fold(Last(p))
  {
  }

  predicate Storable(p: Path) {
    forall s :: s in p ==> !HasReserved(s)
  }

  // ----- Directories -----

  // Where each directory goes, and the directory that holds each folded path.
  datatype Dirs = Dirs(image: map<Path, Path>, byKey: map<Path, Path>)

  function NewParent(d: Dirs, p: Path): Path {
    if Parent(p) in d.image then d.image[Parent(p)] else []
  }

  function Candidate(d: Dirs, p: Path, isFile: bool): Path {
    NewParent(d, p) + [Sanitize(Last(p), isFile, NewParent(d, p) == [])]
  }

  function AddDirectory(fold: Fold, d: Dirs, p: Path): Dirs {
    var candidate := Candidate(d, p, false);
    var key := Key(fold, candidate);
    if key in d.byKey then d.(image := d.image[p := d.byKey[key]])
    else Dirs(d.image[p := candidate], d.byKey[key := candidate])
  }

  function MapDirectories(fold: Fold, ordered: seq<Path>, d: Dirs): Dirs
    decreases |ordered|
  {
    if ordered == [] then d else MapDirectories(fold, ordered[1..], AddDirectory(fold, d, ordered[0]))
  }

  // Every directory once, each after the one above it.
  predicate Ordered(ordered: seq<Path>, seen: set<Path>)
    decreases |ordered|
  {
    ordered == [] || (
      var p := ordered[0];
      && p != [] && p !in seen && (Parent(p) == [] || Parent(p) in seen)
      && Ordered(ordered[1..], seen + {p}))
  }

  // A directory that is taken holds its own key, is storable, and its parent is taken too.
  predicate Held(fold: Fold, d: Dirs, q: Path) {
    && q != [] && Storable(q) && Key(fold, q) in d.byKey && d.byKey[Key(fold, q)] == q
  }

  predicate HeldUnder(fold: Fold, d: Dirs, q: Path) {
    Held(fold, d, q) && (Parent(q) == [] || Held(fold, d, Parent(q)))
  }

  // The image of a directory lies in the image of its parent.
  predicate Placed(fold: Fold, d: Dirs, p: Path) {
    && p in d.image && p != [] && |d.image[p]| == |p| && HeldUnder(fold, d, d.image[p])
    && (Parent(p) != [] ==> Parent(p) in d.image)
    && Parent(d.image[p]) == NewParent(d, p)
  }

  predicate Mapped(fold: Fold, d: Dirs) {
    && (forall k :: k in d.byKey ==> Key(fold, d.byKey[k]) == k && HeldUnder(fold, d, d.byKey[k]))
    && (forall p :: p in d.image ==> Placed(fold, d, p))
  }

  lemma CandidateShape(fold: Fold, d: Dirs, p: Path, isFile: bool)
    requires Mapped(fold, d) && p != [] && (Parent(p) == [] || Parent(p) in d.image)
    ensures var c := Candidate(d, p, isFile);
      && c != [] && |c| == |p| && Parent(c) == NewParent(d, p) && Storable(c)
      && (NewParent(d, p) == [] || Held(fold, d, NewParent(d, p)))
  {
    hide HasReserved, Sanitize, Key;
    SanitizedStorable(Last(p), isFile, NewParent(d, p) == []);
    if Parent(p) in d.image {
      assert Placed(fold, d, Parent(p));
    } else {
      assert Parent(p) == [];
    }
  }

  // What already holds the candidate's key lies in the same directory.
  lemma ExistingShape(fold: Fold, d: Dirs, p: Path, isFile: bool)
    requires Mapped(fold, d) && p != [] && (Parent(p) == [] || Parent(p) in d.image)
    requires Key(fold, Candidate(d, p, isFile)) in d.byKey
    ensures var e := d.byKey[Key(fold, Candidate(d, p, isFile))];
      |e| == |p| && Parent(e) == NewParent(d, p) && HeldUnder(fold, d, e)
  {
    hide HasReserved, Sanitize, Placed;
    var c := Candidate(d, p, isFile);
    var e := d.byKey[Key(fold, c)];
    CandidateShape(fold, d, p, isFile);
    assert HeldUnder(fold, d, e) && Key(fold, e) == Key(fold, c);
    KeySplit(fold, c);
    KeySplit(fold, e);
    assert |Key(fold, e)| == |e| && |Key(fold, c)| == |c|;
    assert Key(fold, Parent(e)) == Key(fold, Parent(c));
  }

  lemma HeldGrows(fold: Fold, d: Dirs, e: Dirs, q: Path)
    requires HeldUnder(fold, d, q)
    requires forall k :: k in d.byKey ==> k in e.byKey && e.byKey[k] == d.byKey[k]
    ensures HeldUnder(fold, e, q)
  {
    hide Key, Storable;
  }

  lemma PlacedGrows(fold: Fold, d: Dirs, e: Dirs, q: Path, p: Path)
    requires Placed(fold, d, q) && p != [] && p !in d.image && [] !in d.image && e.image.Keys == d.image.Keys + {p}
    requires forall r :: r in d.image ==> e.image[r] == d.image[r]
    requires forall k :: k in d.byKey ==> k in e.byKey && e.byKey[k] == d.byKey[k]
    ensures Placed(fold, e, q)
  {
    hide HeldUnder, Key;
    HeldGrows(fold, d, e, d.image[q]);
    assert Parent(q) != p;
  }

  lemma AddMapped(fold: Fold, d: Dirs, p: Path)
    requires Mapped(fold, d) && p != [] && p !in d.image && (Parent(p) == [] || Parent(p) in d.image) && [] !in d.image
    ensures var e := AddDirectory(fold, d, p); Mapped(fold, e) && e.image.Keys == d.image.Keys + {p} && [] !in e.image
  {
    hide Sanitize, HeldUnder, Placed, Key, Candidate;
    var e := AddDirectory(fold, d, p);
    var c := Candidate(d, p, false);
    CandidateShape(fold, d, p, false);
    if Key(fold, c) in d.byKey {
      ExistingShape(fold, d, p, false);
      HeldGrows(fold, d, e, d.byKey[Key(fold, c)]);
    } else {
      NewHeld(fold, d, e, c);
    }
    NewPlaced(fold, d, e, p);
    forall k | k in e.byKey
      ensures Key(fold, e.byKey[k]) == k && HeldUnder(fold, e, e.byKey[k])
    {
      if k in d.byKey {
        HeldGrows(fold, d, e, d.byKey[k]);
      }
    }
    forall q | q in d.image
      ensures Placed(fold, e, q)
    {
      PlacedGrows(fold, d, e, q, p);
    }
  }

  lemma NewHeld(fold: Fold, d: Dirs, e: Dirs, c: Path)
    requires c != [] && Storable(c) && (Parent(c) == [] || Held(fold, d, Parent(c))) && Key(fold, c) !in d.byKey
    requires e.byKey == d.byKey[Key(fold, c) := c]
    ensures HeldUnder(fold, e, c)
  {
    hide Key, Storable;
  }

  lemma NewPlaced(fold: Fold, d: Dirs, e: Dirs, p: Path)
    requires p != [] && p !in d.image && (Parent(p) == [] || Parent(p) in d.image) && [] !in d.image
    requires p in e.image && e.image == d.image[p := e.image[p]]
    requires |e.image[p]| == |p| && HeldUnder(fold, e, e.image[p]) && Parent(e.image[p]) == NewParent(d, p)
    ensures Placed(fold, e, p)
  {
    hide HeldUnder;
    assert Parent(p) != p;
  }

  // Every directory is placed, in the image of its parent; directories that fold alike share one image.
  lemma {:induction false} DirectoriesMapped(fold: Fold, ordered: seq<Path>, d: Dirs)
    requires Mapped(fold, d) && Ordered(ordered, d.image.Keys) && [] !in d.image
    ensures var e := MapDirectories(fold, ordered, d);
      Mapped(fold, e) && [] !in e.image && e.image.Keys == d.image.Keys + set p | p in ordered
    decreases |ordered|
  {
    hide AddDirectory, Mapped;
    if ordered != [] {
      var p, rest := ordered[0], ordered[1..];
      AddMapped(fold, d, p);
      DirectoriesMapped(fold, rest, AddDirectory(fold, d, p));
      assert ordered == [p] + rest;
    }
  }

  // Directories that fold alike go to the same place, and no others.
  lemma ImagesFoldDistinct(fold: Fold, d: Dirs, p: Path, q: Path)
    requires Mapped(fold, d) && p in d.image && q in d.image && Key(fold, d.image[p]) == Key(fold, d.image[q])
    ensures d.image[p] == d.image[q]
  {
    hide Key;
    assert Placed(fold, d, p) && Placed(fold, d, q);
  }

  // ----- Files -----

  function Decimal(n: int): string {
    if n < 10 then [(if n < 0 then 48 else 48 + n) as char] else Decimal(n / 10) + [(48 + n % 10) as char]
  }

  function Numbered(a: string, n: int, b: string): string {
    a + " (" + Decimal(n) + ")" + b
  }

  // The number goes before the last dot of the name, unless that is its first character.
  function SuffixName(s: string, n: int): string {
    var dot := LastDot(s);
    if dot > 0 then Numbered(s[..dot], n, s[dot..]) else Numbered(s, n, "")
  }

  function WithSuffix(p: Path, n: int): Path {
    Parent(p) + [SuffixName(Last(p), n)]
  }

  // Folding leaves an inserted number alone.
  ghost predicate KeepsNumbers(fold: Fold) {
    forall a, n, b :: (b == "" || b[0] == '.') ==> fold(Numbered(a, n, b)) == Numbered(fold(a), n, fold(b))
  }

  lemma {:induction false} DecimalUnique(n: int, m: int)
    requires n >= 0 && m >= 0 && Decimal(n) == Decimal(m)
    ensures n == m
  {
    DecimalLength(n);
    DecimalLength(m);
    if n >= 10 && m >= 10 {
      assert Decimal(n)[..|Decimal(n)| - 1] == Decimal(n / 10);
      assert Decimal(m)[..|Decimal(m)| - 1] == Decimal(m / 10);
      DecimalUnique(n / 10, m / 10);
      assert Decimal(n)[|Decimal(n)| - 1] == Decimal(m)[|Decimal(m)| - 1];
    }
  }

  lemma {:induction false} DecimalLength(n: int)
    ensures |Decimal(n)| >= 1 && (n >= 10 ==> |Decimal(n)| >= 2)
  {
    if n >= 10 {
      DecimalLength(n / 10);
    }
  }

  lemma NumberedUnique(a: string, n: int, m: int, b: string)
    requires n >= 0 && m >= 0 && Numbered(a, n, b) == Numbered(a, m, b)
    ensures n == m
  {
    hide Decimal;
    var s, t := Numbered(a, n, b), Numbered(a, m, b);
    assert |Decimal(n)| == |Decimal(m)|;
    assert Decimal(n) == s[|a| + 2..|a| + 2 + |Decimal(n)|];
    assert Decimal(m) == t[|a| + 2..|a| + 2 + |Decimal(m)|];
    DecimalUnique(n, m);
  }

  predicate Digits(s: string) {
    forall c :: c in s ==> '0' <= c <= '9'
  }

  // The number a text of digits spells.
  function Value(s: string): int {
    if s == [] then 0 else 10 * Value(s[..|s| - 1]) + (s[|s| - 1] as int - '0' as int)
  }

  lemma {:induction false} DecimalSpells(n: nat)
    ensures Digits(Decimal(n)) && Value(Decimal(n)) == n && (n > 0 ==> Decimal(n)[0] != '0')
  {
    DecimalLength(n);
    if n >= 10 {
      DecimalSpells(n / 10);
      DecimalLength(n / 10);
      assert Decimal(n)[..|Decimal(n)| - 1] == Decimal(n / 10);
    }
  }

  // The number stands in brackets at the end of the name, or before its extension.
  lemma SuffixSpelled(stem: string, extension: string, n: int)
    requires stem != "" && '.' !in extension
    ensures SuffixName(stem + "." + extension, n) == stem + " (" + Decimal(n) + ")." + extension
    ensures '.' !in stem[1..] ==> SuffixName(stem, n) == stem + " (" + Decimal(n) + ")"
  {
    hide Decimal;
    var s := stem + "." + extension;
    assert s[|stem|] == '.' && s[|stem| + 1..] == extension;
    assert forall j :: |stem| < j < |s| ==> s[j] == extension[j - |stem| - 1];
    assert s[..|stem|] == stem && s[|stem|..] == "." + extension;
    assert stem + " (" + Decimal(n) + ")" + ("." + extension) == stem + " (" + Decimal(n) + ")." + extension;
    if '.' !in stem[1..] {
      assert forall j :: 0 < j < |stem| ==> stem[j] == stem[1..][j - 1];
      assert Numbered(stem, n, "") == stem + " (" + Decimal(n) + ")";
    }
  }

  // Different numbers give names that stay apart when folded.
  lemma SuffixesApart(fold: Fold, p: Path, n: int, m: int)
    requires KeepsNumbers(fold) && n >= 0 && m >= 0 && n != m
    ensures Key(fold, WithSuffix(p, n)) != Key(fold, WithSuffix(p, m))
  {
    hide Decimal, Numbered;
    var s := Last(p);
    var dot := LastDot(s);
    var (a, b) := if dot > 0 then (s[..dot], s[dot..]) else (s, "");
    assert SuffixName(s, n) == Numbered(a, n, b) && SuffixName(s, m) == Numbered(a, m, b);
    KeySplit(fold, WithSuffix(p, n));
    KeySplit(fold, WithSuffix(p, m));
    if fold(Numbered(a, n, b)) == fold(Numbered(a, m, b)) {
      NumberedUnique(fold(a), n, m, fold(b));
    }
  }

  // The keys of the attempts from `n` on that are taken are among `left`.
  ghost predicate Ahead(fold: Fold, candidate: Path, taken: set<Path>, left: set<Path>, n: int) {
    forall m :: m >= n && Key(fold, WithSuffix(candidate, m)) in taken ==> Key(fold, WithSuffix(candidate, m)) in left
  }

  lemma AheadNext(fold: Fold, candidate: Path, taken: set<Path>, left: set<Path>, n: int)
    requires KeepsNumbers(fold) && n >= 0 && Ahead(fold, candidate, taken, left, n)
    ensures Ahead(fold, candidate, taken, left - {Key(fold, WithSuffix(candidate, n))}, n + 1)
  {
    hide Key, WithSuffix, KeepsNumbers;
    forall m | m >= n + 1 && Key(fold, WithSuffix(candidate, m)) in taken
      ensures Key(fold, WithSuffix(candidate, m)) in left - {Key(fold, WithSuffix(candidate, n))}
    {
      SuffixesApart(fold, candidate, n, m);
    }
  }

  // The first attempt from `n` on whose key is free. The search ends: each failing attempt uses up a
  // different taken key.
  function FreeAttempt(fold: Fold, candidate: Path, taken: set<Path>, ghost left: set<Path>, n: int): (m: int)
    requires KeepsNumbers(fold) && n >= 0 && Ahead(fold, candidate, taken, left, n)
    ensures m >= n && Key(fold, WithSuffix(candidate, m)) !in taken
    ensures forall k :: n <= k < m ==> Key(fold, WithSuffix(candidate, k)) in taken
    decreases |left|
  {
    hide Key, WithSuffix, KeepsNumbers;
    if Key(fold, WithSuffix(candidate, n)) !in taken then n
    else
      AheadNext(fold, candidate, taken, left, n);
      FreeAttempt(fold, candidate, taken, left - {Key(fold, WithSuffix(candidate, n))}, n + 1)
  }

  lemma AheadAll(fold: Fold, candidate: Path, taken: set<Path>)
    ensures Ahead(fold, candidate, taken, taken, 2)
  {
  }

  function Target(fold: Fold, candidate: Path, taken: set<Path>): (t: Path)
    requires KeepsNumbers(fold)
    ensures Key(fold, t) !in taken
    ensures Key(fold, candidate) !in taken ==> t == candidate
  {
    hide Key, WithSuffix, KeepsNumbers;
    if Key(fold, candidate) !in taken then candidate
    else
      AheadAll(fold, candidate, taken);
      WithSuffix(candidate, FreeAttempt(fold, candidate, taken, taken, 2))
  }

  // Where each file goes, and the keys of everything placed.
  datatype Files = Files(image: map<Path, Path>, taken: set<Path>)

  function Take(fold: Fold, s: Files, f: Path, t: Path): Files {
    Files(s.image[f := t], s.taken + {Key(fold, t)})
  }

  // First, files whose path needs no change keep it.
  function Keep(fold: Fold, d: Dirs, s: Files, f: Path): Files {
    if Candidate(d, f, true) != f || Key(fold, f) in s.taken then s else Take(fold, s, f, f)
  }

  function KeepAll(fold: Fold, d: Dirs, files: seq<Path>, s: Files): Files
    decreases |files|
  {
    if files == [] then s else KeepAll(fold, d, files[1..], Keep(fold, d, s, files[0]))
  }

  // Then the others go to their candidate, numbered if it is taken.
  function Place(fold: Fold, d: Dirs, s: Files, f: Path): Files
    requires KeepsNumbers(fold)
  {
    if f in s.image then s else Take(fold, s, f, Target(fold, Candidate(d, f, true), s.taken))
  }

  function PlaceAll(fold: Fold, d: Dirs, files: seq<Path>, s: Files): Files
    requires KeepsNumbers(fold)
    decreases |files|
  {
    if files == [] then s else PlaceAll(fold, d, files[1..], Place(fold, d, s, files[0]))
  }

  function FilePlan(fold: Fold, d: Dirs, files: seq<Path>): Files
    requires KeepsNumbers(fold)
  {
    PlaceAll(fold, d, files, KeepAll(fold, d, files, Files(map[], d.byKey.Keys)))
  }

  predicate FilePlaced(d: Dirs, f: Path, t: Path) {
    t != [] && |t| == |f| && Storable(t) && Parent(t) == NewParent(d, f)
  }

  // Placed files are apart from each other and from every directory, in the image of their directory.
  predicate Settled(fold: Fold, d: Dirs, s: Files) {
    && d.byKey.Keys <= s.taken
    && (forall f :: f in s.image ==> Key(fold, s.image[f]) in s.taken - d.byKey.Keys && FilePlaced(d, f, s.image[f]))
    && (forall f, g :: f in s.image && g in s.image && f != g ==> Key(fold, s.image[f]) != Key(fold, s.image[g]))
  }

  lemma TakeSettled(fold: Fold, d: Dirs, s: Files, f: Path, t: Path)
    requires Settled(fold, d, s) && f !in s.image && Key(fold, t) !in s.taken && FilePlaced(d, f, t)
    ensures Settled(fold, d, Take(fold, s, f, t))
  {
    hide Key, FilePlaced;
  }

  predicate Under(d: Dirs, f: Path) {
    f != [] && (Parent(f) == [] || Parent(f) in d.image)
  }

  lemma CandidatePlaced(fold: Fold, d: Dirs, f: Path)
    requires Mapped(fold, d) && Under(d, f)
    ensures FilePlaced(d, f, Candidate(d, f, true))
  {
    hide Mapped, Candidate, Storable;
    CandidateShape(fold, d, f, true);
  }

  lemma TargetPlaced(fold: Fold, d: Dirs, f: Path, taken: set<Path>)
    requires KeepsNumbers(fold) && Mapped(fold, d) && Under(d, f)
    ensures FilePlaced(d, f, Target(fold, Candidate(d, f, true), taken))
  {
    hide Mapped, Candidate, Key, KeepsNumbers, WithSuffix, Storable;
    var c := Candidate(d, f, true);
    CandidatePlaced(fold, d, f);
    forall n
      ensures Storable(c) ==> FilePlaced(d, f, WithSuffix(c, n))
    {
      SuffixShape(c, n);
    }
  }

  lemma {:induction false} DecimalClean(n: int)
    ensures !HasReserved(Decimal(n))
  {
    if n >= 10 {
      DecimalClean(n / 10);
    }
  }

  lemma NumberedClean(a: string, n: int, b: string)
    requires !HasReserved(a) && !HasReserved(b)
    ensures !HasReserved(Numbered(a, n, b))
  {
    DecimalClean(n);
    assert !ReservedChar(' ') && !ReservedChar('(') && !ReservedChar(')');
  }

  lemma SuffixShape(p: Path, n: int)
    requires p != []
    ensures var t := WithSuffix(p, n); |t| == |p| && Parent(t) == Parent(p) && (Storable(p) ==> Storable(t))
  {
    hide ReservedChar, Decimal, Numbered;
    var s := Last(p);
    if Storable(p) {
      assert s in p && !HasReserved(s);
      var dot := LastDot(s);
      if dot > 0 {
        assert forall c :: c in s[..dot] ==> c in s;
        assert forall c :: c in s[dot..] ==> c in s;
        NumberedClean(s[..dot], n, s[dot..]);
      } else {
        NumberedClean(s, n, "");
      }
    }
  }

  lemma KeepSettled(fold: Fold, d: Dirs, s: Files, f: Path)
    requires Mapped(fold, d) && Under(d, f) && Settled(fold, d, s) && f !in s.image
    ensures Settled(fold, d, Keep(fold, d, s, f))
  {
    hide Key, Settled, Mapped, Candidate;
    CandidatePlaced(fold, d, f);
    if Candidate(d, f, true) == f && Key(fold, f) !in s.taken {
      TakeSettled(fold, d, s, f, f);
    }
  }

  lemma PlaceSettled(fold: Fold, d: Dirs, s: Files, f: Path)
    requires KeepsNumbers(fold) && Mapped(fold, d) && Under(d, f) && Settled(fold, d, s)
    ensures Settled(fold, d, Place(fold, d, s, f)) && Place(fold, d, s, f).image.Keys == s.image.Keys + {f}
  {
    hide Key, Settled, Mapped, Candidate, KeepsNumbers, FreeAttempt;
    if f !in s.image {
      TargetPlaced(fold, d, f, s.taken);
      TakeSettled(fold, d, s, f, Target(fold, Candidate(d, f, true), s.taken));
    }
  }

  predicate Distinct(files: seq<Path>) {
    forall i, j :: 0 <= i < j < |files| ==> files[i] != files[j]
  }

  lemma {:induction false} KeepAllSettled(fold: Fold, d: Dirs, files: seq<Path>, s: Files)
    requires Mapped(fold, d) && Settled(fold, d, s) && Distinct(files)
    requires forall f :: f in files ==> Under(d, f) && f !in s.image
    ensures Settled(fold, d, KeepAll(fold, d, files, s))
    ensures KeepAll(fold, d, files, s).image.Keys <= s.image.Keys + set f | f in files
    decreases |files|
  {
    hide Key, Settled, Mapped, Under, Candidate;
    if files != [] {
      var f, rest := files[0], files[1..];
      assert files == [f] + rest;
      assert f !in rest;
      KeepSettled(fold, d, s, f);
      KeepAllSettled(fold, d, rest, Keep(fold, d, s, f));
    }
  }

  lemma {:induction false} PlaceAllSettled(fold: Fold, d: Dirs, files: seq<Path>, s: Files)
    requires KeepsNumbers(fold) && Mapped(fold, d) && Settled(fold, d, s)
    requires forall f :: f in files ==> Under(d, f)
    ensures Settled(fold, d, PlaceAll(fold, d, files, s))
    ensures PlaceAll(fold, d, files, s).image.Keys == s.image.Keys + set f | f in files
    decreases |files|
  {
    hide Place, Settled, Mapped, Under, KeepsNumbers;
    if files != [] {
      var f, rest := files[0], files[1..];
      assert files == [f] + rest;
      PlaceSettled(fold, d, s, f);
      PlaceAllSettled(fold, d, rest, Place(fold, d, s, f));
    }
  }

  lemma NothingSettled(fold: Fold, d: Dirs)
    ensures Settled(fold, d, Files(map[], d.byKey.Keys))
  {
  }

  // Every file gets a place of its own: apart, under folding, from every other file and every directory, in
  // the image of its directory, and storable.
  lemma PlanSettled(fold: Fold, d: Dirs, files: seq<Path>)
    requires KeepsNumbers(fold) && Mapped(fold, d) && Distinct(files) && forall f :: f in files ==> Under(d, f)
    ensures Settled(fold, d, FilePlan(fold, d, files)) && FilePlan(fold, d, files).image.Keys == set f | f in files
  {
    hide KeepAll, PlaceAll, Settled, Mapped, Under, KeepsNumbers;
    NothingSettled(fold, d);
    KeepAllSettled(fold, d, files, Files(map[], d.byKey.Keys));
    PlaceAllSettled(fold, d, files, KeepAll(fold, d, files, Files(map[], d.byKey.Keys)));
  }

  // ----- Files that keep their names -----

  predicate Unchanged(d: Dirs, f: Path) {
    Candidate(d, f, true) == f
  }

  lemma {:induction false} PlaceAllKeeps(fold: Fold, d: Dirs, files: seq<Path>, s: Files, f: Path)
    requires KeepsNumbers(fold) && f in s.image
    ensures f in PlaceAll(fold, d, files, s).image && PlaceAll(fold, d, files, s).image[f] == s.image[f]
    decreases |files|
  {
    hide Target, Candidate, KeepsNumbers, Key;
    if files != [] {
      PlaceAllKeeps(fold, d, files[1..], Place(fold, d, s, files[0]), f);
    }
  }

  lemma {:induction false} KeepAllKeeps(fold: Fold, d: Dirs, files: seq<Path>, s: Files, f: Path)
    requires f in s.image && s.image[f] == f
    ensures f in KeepAll(fold, d, files, s).image && KeepAll(fold, d, files, s).image[f] == f
    decreases |files|
  {
    hide Candidate, Key;
    if files != [] {
      KeepAllKeeps(fold, d, files[1..], Keep(fold, d, s, files[0]), f);
    }
  }

  lemma {:induction false} KeepAllTakes(fold: Fold, d: Dirs, files: seq<Path>, s: Files, f: Path)
    requires f in files && Unchanged(d, f) && Key(fold, f) !in s.taken
    requires forall g :: g in files && g != f && Unchanged(d, g) ==> Key(fold, g) != Key(fold, f)
    ensures f in KeepAll(fold, d, files, s).image && KeepAll(fold, d, files, s).image[f] == f
    decreases |files|
  {
    hide Candidate, Key;
    var g, rest := files[0], files[1..];
    assert files == [g] + rest;
    if g == f {
      KeepAllKeeps(fold, d, rest, Keep(fold, d, s, f), f);
    } else {
      KeepAllTakes(fold, d, rest, Keep(fold, d, s, g), f);
    }
  }

  // A file whose path needs no change keeps it, unless a directory, or another such file, folds alike.
  lemma UncontestedKeep(fold: Fold, d: Dirs, files: seq<Path>, f: Path)
    requires KeepsNumbers(fold) && f in files && Unchanged(d, f) && Key(fold, f) !in d.byKey
    requires forall g :: g in files && g != f && Unchanged(d, g) ==> Key(fold, g) != Key(fold, f)
    ensures f in FilePlan(fold, d, files).image && FilePlan(fold, d, files).image[f] == f
  {
    hide KeepAll, PlaceAll, KeepsNumbers, Unchanged, Key;
    KeepAllTakes(fold, d, files, Files(map[], d.byKey.Keys), f);
    PlaceAllKeeps(fold, d, files, KeepAll(fold, d, files, Files(map[], d.byKey.Keys)), f);
  }

  // ----- The result can be stored -----

  predicate IsPrefix(q: Path, p: Path) {
    q != [] && q <= p
  }

  // A path is unportable if it has reserved characters, or a prefix of it folds like a different prefix of
  // some path.
  ghost predicate Unportable(fold: Fold, paths: set<Path>, p: Path) {
    || !Storable(p)
    || exists q, r, other :: IsPrefix(q, p) && other in paths && IsPrefix(r, other) && r != q && Key(fold, q) == Key(fold, r)
  }

  // The new paths: the images of the files and of the directories.
  function Results(d: Dirs, s: Files): set<Path> {
    (set f | f in s.image :: s.image[f]) + (set p | p in d.image :: d.image[p])
  }

  lemma {:induction false} PrefixHeld(fold: Fold, d: Dirs, q: Path, p: Path)
    requires Mapped(fold, d) && Held(fold, d, p) && IsPrefix(q, p)
    ensures Held(fold, d, q)
    decreases |p|
  {
    hide Key, Storable, Placed;
    if q != p {
      assert HeldUnder(fold, d, d.byKey[Key(fold, p)]);
      assert q <= Parent(p);
      PrefixHeld(fold, d, q, Parent(p));
    }
  }

  // A prefix of a result is a directory, or a whole new file path.
  lemma ResultPrefix(fold: Fold, d: Dirs, s: Files, p: Path, q: Path)
    requires Mapped(fold, d) && Settled(fold, d, s) && p in Results(d, s) && IsPrefix(q, p)
    ensures Storable(p)
    ensures Held(fold, d, q) || exists f :: f in s.image && s.image[f] == q
  {
    hide Key, Storable, HasReserved;
    if x :| x in d.image && d.image[x] == p {
      assert Placed(fold, d, x);
      PrefixHeld(fold, d, q, p);
    } else {
      var f :| f in s.image && s.image[f] == p;
      assert FilePlaced(d, f, p);
      if q != p {
        assert q <= Parent(p);
        assert Placed(fold, d, Parent(f));
        PrefixHeld(fold, d, q, Parent(p));
      }
    }
  }

  // No repaired path is unportable, so the closing check never refuses the plan.
  lemma RepairedIsPortable(fold: Fold, d: Dirs, s: Files, p: Path)
    requires Mapped(fold, d) && Settled(fold, d, s) && p in Results(d, s)
    ensures !Unportable(fold, Results(d, s), p)
  {
    hide Key, Storable, Results, Mapped, IsPrefix;
    ResultPrefixStorable(fold, d, s, p);
    forall q, r, other | IsPrefix(q, p) && other in Results(d, s) && IsPrefix(r, other) && Key(fold, q) == Key(fold, r)
      ensures q == r
    {
      ResultPrefix(fold, d, s, p, q);
      ResultPrefix(fold, d, s, other, r);
      PrefixesApart(fold, d, s, q, r);
    }
  }

  lemma ResultPrefixStorable(fold: Fold, d: Dirs, s: Files, p: Path)
    requires Mapped(fold, d) && Settled(fold, d, s) && p in Results(d, s)
    ensures Storable(p)
  {
    hide Key, HasReserved;
    if p == [] {
    } else {
      ResultPrefix(fold, d, s, p, p);
    }
  }

  lemma PrefixesApart(fold: Fold, d: Dirs, s: Files, q: Path, r: Path)
    requires Settled(fold, d, s) && Key(fold, q) == Key(fold, r)
    requires Held(fold, d, q) || exists f :: f in s.image && s.image[f] == q
    requires Held(fold, d, r) || exists f :: f in s.image && s.image[f] == r
    ensures q == r
  {
    hide Key, Storable, FilePlaced;
    if !Held(fold, d, q) {
      var f :| f in s.image && s.image[f] == q;
      var g :| g in s.image && s.image[g] == r;
    }
  }

  // ----- Planning again -----

  // Directories that stay where they are, all of them held by `d`.
  predicate FixedDirs(fold: Fold, d: Dirs, e: Dirs) {
    && (forall p :: p in e.image ==> e.image[p] == p && Held(fold, d, p))
    && (forall k :: k in e.byKey ==> e.byKey[k] in e.image && Key(fold, e.byKey[k]) == k)
  }

  lemma AddFixed(fold: Fold, d: Dirs, e: Dirs, p: Path)
    requires FixedDirs(fold, d, e) && Held(fold, d, p) && (Parent(p) == [] || Parent(p) in e.image) && [] !in e.image
    ensures FixedDirs(fold, d, AddDirectory(fold, e, p))
    ensures AddDirectory(fold, e, p).image.Keys == e.image.Keys + {p} && [] !in AddDirectory(fold, e, p).image
  {
    hide Key, HasReserved;
    CandidateFixed(e, p, false);
    if Key(fold, p) in e.byKey {
      assert Held(fold, d, e.byKey[Key(fold, p)]);
    }
  }

  lemma CandidateFixed(e: Dirs, p: Path, isFile: bool)
    requires p != [] && Storable(p) && (Parent(p) == [] || Parent(p) in e.image) && [] !in e.image
    requires forall q :: q in e.image ==> e.image[q] == q
    ensures Candidate(e, p, isFile) == p
  {
    hide HasReserved;
    assert Last(p) in p && !HasReserved(Last(p));
    assert p == Parent(p) + [Last(p)];
  }

  lemma {:induction false} DirectoriesFixed(fold: Fold, d: Dirs, ordered: seq<Path>, e: Dirs)
    requires FixedDirs(fold, d, e) && Ordered(ordered, e.image.Keys) && [] !in e.image
    requires forall p :: p in ordered ==> Held(fold, d, p)
    ensures FixedDirs(fold, d, MapDirectories(fold, ordered, e)) && [] !in MapDirectories(fold, ordered, e).image
    ensures MapDirectories(fold, ordered, e).image.Keys == e.image.Keys + set p | p in ordered
    decreases |ordered|
  {
    hide AddDirectory, FixedDirs, Held;
    if ordered != [] {
      var p, rest := ordered[0], ordered[1..];
      assert ordered == [p] + rest;
      AddFixed(fold, d, e, p);
      DirectoriesFixed(fold, d, rest, AddDirectory(fold, e, p));
    }
  }

  predicate IsNewFile(s: Files, f: Path) {
    exists g :: g in s.image && s.image[g] == f
  }

  // Planning again, on the repaired files and directories, renames nothing.
  lemma ReplanRenamesNothing(fold: Fold, d: Dirs, s: Files, ordered: seq<Path>, files: seq<Path>)
    requires KeepsNumbers(fold) && Mapped(fold, d) && Settled(fold, d, s)
    requires Ordered(ordered, {}) && forall p :: p in ordered ==> Held(fold, d, p)
    requires forall f :: f in files ==> IsNewFile(s, f) && (Parent(f) == [] || Parent(f) in ordered)
    ensures var e := MapDirectories(fold, ordered, Dirs(map[], map[]));
      && (forall p :: p in ordered ==> p in e.image && e.image[p] == p)
      && forall f :: f in files ==> f in FilePlan(fold, e, files).image && FilePlan(fold, e, files).image[f] == f
  {
    hide MapDirectories, KeepsNumbers, Held, Candidate, Mapped, Key, FilePlan, IsNewFile;
    var none := Dirs(map[], map[]);
    assert none.image.Keys == {};
    DirectoriesFixed(fold, d, ordered, none);
    var e := MapDirectories(fold, ordered, none);
    forall f | f in files
      ensures Unchanged(e, f) && Key(fold, f) !in e.byKey
    {
      NewFileFixed(fold, d, s, e, f);
    }
    forall f | f in files
      ensures f in FilePlan(fold, e, files).image && FilePlan(fold, e, files).image[f] == f
    {
      forall g | g in files && g != f
        ensures Key(fold, g) != Key(fold, f)
      {
        NewFilesApart(fold, d, s, f, g);
      }
      UncontestedKeep(fold, e, files, f);
    }
  }

  lemma NewFileFixed(fold: Fold, d: Dirs, s: Files, e: Dirs, f: Path)
    requires Settled(fold, d, s) && IsNewFile(s, f) && FixedDirs(fold, d, e) && [] !in e.image
    requires Parent(f) == [] || Parent(f) in e.image
    ensures Unchanged(e, f) && Key(fold, f) !in e.byKey
  {
    hide Key, Candidate, HasReserved;
    CandidateFixed(e, f, true);
    assert Key(fold, f) in e.byKey ==> Held(fold, d, e.byKey[Key(fold, f)]);
  }

  lemma NewFilesApart(fold: Fold, d: Dirs, s: Files, f: Path, g: Path)
    requires Settled(fold, d, s) && IsNewFile(s, f) && IsNewFile(s, g) && f != g
    ensures Key(fold, g) != Key(fold, f)
  {
    hide Key, FilePlaced;
  }

  // The directories of the repaired tree are held ones: those above a directory's image, and those above a
  // file's new path, which lies directly in such an image.
  lemma RepairedDirectoriesHeld(fold: Fold, d: Dirs, s: Files, q: Path)
    requires Mapped(fold, d) && Settled(fold, d, s)
    requires (exists f :: f in s.image && IsPrefix(q, Parent(s.image[f]))) || (exists p :: p in d.image && IsPrefix(q, d.image[p]))
    ensures Held(fold, d, q)
  {
    hide Key, Storable, HeldUnder;
    if f :| f in s.image && IsPrefix(q, Parent(s.image[f])) {
      assert FilePlaced(d, f, s.image[f]);
      assert d.image[Parent(f)] == Parent(s.image[f]);
    }
    var p :| p in d.image && IsPrefix(q, d.image[p]);
    assert Placed(fold, d, p);
    HeldUnderHeld(fold, d, d.image[p]);
    PrefixHeld(fold, d, q, d.image[p]);
  }

  lemma HeldUnderHeld(fold: Fold, d: Dirs, q: Path)
    requires HeldUnder(fold, d, q)
    ensures Held(fold, d, q)
  {
  }

  // ----- The loops -----

  method PlanDirectories(fold: Fold, ordered: seq<Path>) returns (d: Dirs)
    requires Ordered(ordered, {})
    ensures d == MapDirectories(fold, ordered, Dirs(map[], map[]))
    ensures Mapped(fold, d) && d.image.Keys == set p | p in ordered
  {
    hide AddDirectory, Mapped;
    d := Dirs(map[], map[]);
    assert Mapped(fold, d) by { NothingMapped(fold); }
    assert d.image.Keys == {};
    DirectoriesMapped(fold, ordered, d);
    var i := 0;
    while i < |ordered|
      invariant 0 <= i <= |ordered|
      invariant MapDirectories(fold, ordered, Dirs(map[], map[])) == MapDirectories(fold, ordered[i..], d)
    {
      assert ordered[i..][1..] == ordered[i + 1..];
      d := AddDirectory(fold, d, ordered[i]);
      i := i + 1;
    }
  }

  lemma NothingMapped(fold: Fold)
    ensures Mapped(fold, Dirs(map[], map[]))
  {
  }

  // The search for a free name.
  method FirstFree(fold: Fold, candidate: Path, taken: set<Path>) returns (target: Path)
    requires KeepsNumbers(fold)
    ensures target == Target(fold, candidate, taken)
  {
    hide Key, WithSuffix, KeepsNumbers;
    if Key(fold, candidate) !in taken {
      return candidate;
    }
    var attempt := 2;
    ghost var left := taken;
    AheadAll(fold, candidate, taken);
    while Key(fold, WithSuffix(candidate, attempt)) in taken
      invariant attempt >= 2 && Ahead(fold, candidate, taken, left, attempt)
      invariant forall k :: 2 <= k < attempt ==> Key(fold, WithSuffix(candidate, k)) in taken
      decreases |left|
    {
      AheadNext(fold, candidate, taken, left, attempt);
      left := left - {Key(fold, WithSuffix(candidate, attempt))};
      attempt := attempt + 1;
    }
    assert attempt == FreeAttempt(fold, candidate, taken, taken, 2);
    return WithSuffix(candidate, attempt);
  }

  // The two passes over the files.
  method PlanFiles(fold: Fold, d: Dirs, files: seq<Path>) returns (s: Files)
    requires KeepsNumbers(fold) && Mapped(fold, d) && Distinct(files) && forall f :: f in files ==> Under(d, f)
    ensures s == FilePlan(fold, d, files)
    ensures Settled(fold, d, s) && s.image.Keys == set f | f in files
  {
    hide KeepsNumbers, Mapped, Under, Settled, Candidate, Key, Target;
    PlanSettled(fold, d, files);
    s := Files(map[], d.byKey.Keys);
    ghost var start := s;
    var i := 0;
    while i < |files|
      invariant 0 <= i <= |files|
      invariant KeepAll(fold, d, files, start) == KeepAll(fold, d, files[i..], s)
    {
      assert files[i..][1..] == files[i + 1..];
      s := Keep(fold, d, s, files[i]);
      i := i + 1;
    }
    ghost var kept := s;
    i := 0;
    while i < |files|
      invariant 0 <= i <= |files|
      invariant PlaceAll(fold, d, files, kept) == PlaceAll(fold, d, files[i..], s)
    {
      assert files[i..][1..] == files[i + 1..];
      if files[i] !in s.image {
        var target := FirstFree(fold, Candidate(d, files[i], true), s.taken);
        s := Take(fold, s, files[i], target);
      }
      i := i + 1;
    }
  }
}
