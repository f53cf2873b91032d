// What the resolution of links means (src/server/nameRepair.ts), and that a link rewritten relative to its
// note leads back to the file it was meant for.
module LinkMeaning {
  import opened Common
  import opened Json
  import opened LinkRewrite

  // ----- Relative paths -----

  function Ups(n: int): seq<string> {
    if n <= 0 then [] else [".."] + Ups(n - 1)
  }

  // Names are kept as they come.
  lemma {:induction false} NamesCollapse(parts: seq<string>, done: seq<string>)
    requires forall s :: s in parts ==> Name(s)
    ensures Collapsed(parts, done) == done + parts
    decreases |parts|
  {
    if parts == [] {
      assert done + [] == done;
    } else {
      assert parts == [parts[0]] + parts[1..];
      assert parts[0] in parts;
      NamesCollapse(parts[1..], done + [parts[0]]);
      assert done + [parts[0]] + parts[1..] == done + ([parts[0]] + parts[1..]);
    }
  }

  // Empty segments and dots count for nothing, wherever they stand.
  lemma {:induction false} DotsDropped(a: seq<string>, x: string, b: seq<string>, done: seq<string>)
    requires x == "" || x == "."
    ensures Collapsed(a + [x] + b, done) == Collapsed(a + b, done)
    decreases |a|
  {
    if a == [] {
      assert a + [x] + b == [x] + b && a + b == b;
      assert ([x] + b)[1..] == b;
    } else {
      var rest := a[1..];
      assert (a + [x] + b)[1..] == rest + [x] + b && (a + [x] + b)[0] == a[0];
      assert (a + b)[1..] == rest + b && (a + b)[0] == a[0];
      DotsDropped(rest, x, b, done);
      if done != [] {
        DotsDropped(rest, x, b, done[..|done| - 1]);
      }
      DotsDropped(rest, x, b, done + [a[0]]);
    }
  }

  lemma CollapsedUp(rest: seq<string>, done: seq<string>)
    ensures done != [] && done[|done| - 1] != ".." ==> Collapsed([".."] + rest, done) == Collapsed(rest, done[..|done| - 1])
    ensures done == [] || done[|done| - 1] == ".." ==> Collapsed([".."] + rest, done) == Collapsed(rest, done + [".."])
  {
    assert ([".."] + rest)[1..] == rest;
  }

  lemma UpsCons(n: int, rest: seq<string>)
    requires n > 0
    ensures Ups(n) + rest == [".."] + (Ups(n - 1) + rest)
  {
  }

  // Each ".." takes back one name.
  lemma {:induction false} UpsCollapse(n: int, rest: seq<string>, done: seq<string>)
    requires 0 <= n <= |done| && forall s :: s in done ==> Name(s)
    ensures Collapsed(Ups(n) + rest, done) == Collapsed(rest, done[..|done| - n])
    decreases n
  {
    hide Collapsed, Ups;
    if n == 0 {
      assert Ups(0) + rest == rest by { NoUps(rest); }
      assert done[..|done|] == done;
    } else {
      UpsCons(n, rest);
      assert done[|done| - 1] in done;
      CollapsedUp(Ups(n - 1) + rest, done);
      var left := done[..|done| - 1];
      assert forall s :: s in left ==> s in done;
      UpsCollapse(n - 1, rest, left);
      assert left[..|left| - (n - 1)] == done[..|done| - n];
    }
  }

  lemma NoUps(rest: seq<string>)
    ensures Ups(0) + rest == rest
  {
  }

  // More of them than there are names stay, and lead out.
  lemma {:induction false} UpsStay(n: int, rest: seq<string>, k: int)
    requires n >= 0 && k >= 0
    ensures Collapsed(Ups(n) + rest, Ups(k)) == Collapsed(rest, Ups(k + n))
    decreases n
  {
    hide Collapsed;
    if n == 0 {
      NoUps(rest);
    } else {
      UpsCons(n, rest);
      UpsEnd(k);
      assert k > 0 ==> Ups(k)[k - 1] in Ups(k);
      assert k == 0 ==> Ups(k) == [];
      CollapsedUp(Ups(n - 1) + rest, Ups(k));
      UpsStay(n - 1, rest, k + 1);
    }
  }

  lemma {:induction false} UpsEnd(k: int)
    requires k >= 0
    ensures |Ups(k)| == k && (forall s :: s in Ups(k) ==> s == "..") && Ups(k) + [".."] == Ups(k + 1)
  {
    if k > 0 {
      UpsEnd(k - 1);
      assert Ups(k) + [".."] == [".."] + (Ups(k - 1) + [".."]);
    }
  }

  lemma SplitDirectory(dir: seq<string>)
    requires forall s :: s in dir ==> Name(s)
    ensures dir != [] ==> Split(Join(dir)) == dir
    ensures dir == [] ==> Split(Join(dir)) == [""]
  {
    if dir != [] {
      SplitJoin(dir);
    }
  }

  // The segments of a link read from a directory.
  lemma FromDirectory(dir: seq<string>, link: seq<string>)
    requires (forall s :: s in dir ==> Name(s)) && link != [] && SlashFree(link)
    ensures Collapsed(Split(Join(dir) + "/" + Join(link)), []) == Collapsed(link, dir)
  {
    hide Collapsed, Join, Split;
    SplitConcat(Join(dir), Join(link));
    SplitJoin(link);
    SplitDirectory(dir);
    if dir == [] {
      DotsDropped([], "", link, []);
      assert [] + [""] + link == [""] + link && [] + link == link;
    } else {
      AppendNames(dir, link, []);
      assert [] + dir == dir;
    }
  }

  lemma {:induction false} AppendNames(names: seq<string>, rest: seq<string>, done: seq<string>)
    requires forall s :: s in names ==> Name(s)
    ensures Collapsed(names + rest, done) == Collapsed(rest, done + names)
    decreases |names|
  {
    if names == [] {
      assert names + rest == rest && done + names == done;
    } else {
      assert names == [names[0]] + names[1..];
      assert names[0] in names;
      assert (names + rest)[1..] == names[1..] + rest && (names + rest)[0] == names[0];
      AppendNames(names[1..], rest, done + [names[0]]);
      assert done + [names[0]] + names[1..] == done + names;
    }
  }

  lemma {:induction false} JoinEnds(p: seq<string>)
    requires p != [] && SlashFree(p) && p[|p| - 1] != ""
    ensures Join(p) != [] && Join(p)[|Join(p)| - 1] != '/'
  {
    assert p[|p| - 1] in p;
    if |p| > 1 {
      var rest := p[1..];
      assert p == [p[0]] + rest && rest[|rest| - 1] == p[|p| - 1];
      JoinEnds(rest);
    } else {
      var s := p[0];
      assert s[|s| - 1] in s;
    }
  }

  lemma UpsSlashFree(n: int, rest: seq<string>)
    requires n >= 0 && forall s :: s in rest ==> Name(s)
    ensures SlashFree(Ups(n) + rest)
  {
    UpsEnd(n);
    forall s | s in Ups(n) + rest
      ensures '/' !in s
    {
      assert s in Ups(n) || s in rest;
    }
  }

  lemma UpsJoin(n: int, rest: seq<string>)
    requires n >= 0 && (forall s :: s in rest ==> Name(s)) && n + |rest| > 0
    ensures var link := Join(Ups(n) + rest); link != [] && link[|link| - 1] != '/'
    ensures Ups(n) + rest != [] && SlashFree(Ups(n) + rest)
  {
    hide Join, Ups;
    var link := Ups(n) + rest;
    UpsSlashFree(n, rest);
    UpsEnd(n);
    assert link[|link| - 1] != "" by {
      assert link[|link| - 1] in rest || link[|link| - 1] in Ups(n);
    }
    JoinEnds(link);
  }

  lemma UpsNames(dir: seq<string>, n: int, rest: seq<string>)
    requires (forall s :: s in dir ==> Name(s)) && 0 <= n <= |dir| && forall s :: s in rest ==> Name(s)
    ensures Collapsed(Ups(n) + rest, dir) == dir[..|dir| - n] + rest
  {
    hide Collapsed, Ups, Name;
    UpsCollapse(n, rest, dir);
    NamesCollapse(rest, dir[..|dir| - n]);
  }

  lemma NormalizedParts(directory: string, link: string, parts: seq<string>)
    requires link != [] && link[|link| - 1] != '/'
    requires Collapsed(Split(directory + "/" + link), []) == parts && parts != []
    ensures Normalized(directory, link) == Join(parts)
  {
    hide Collapsed, Join, Split;
    assert Join(parts) + "" == Join(parts);
  }

  // Read from a directory, a link that goes up and then down some names is the path that does so.
  lemma WalksUp(dir: seq<string>, n: int, rest: seq<string>)
    requires (forall s :: s in dir ==> Name(s)) && 0 <= n <= |dir| && forall s :: s in rest ==> Name(s)
    requires n + |rest| > 0 && |dir| - n + |rest| > 0
    ensures Normalized(Join(dir), Join(Ups(n) + rest)) == Join(dir[..|dir| - n] + rest)
  {
    hide Collapsed, Join, Ups, Split, Name, SlashFree, Normalized;
    UpsJoin(n, rest);
    FromDirectory(dir, Ups(n) + rest);
    UpsNames(dir, n, rest);
    NormalizedParts(Join(dir), Join(Ups(n) + rest), dir[..|dir| - n] + rest);
  }

  // One that goes up to the root names nothing, and one that goes beyond it leads out.
  lemma WalksOut(dir: seq<string>, n: int, rest: seq<string>)
    requires (forall s :: s in dir ==> Name(s)) && n > 0 && forall s :: s in rest ==> Name(s)
    ensures n == |dir| && rest == [] ==> Normalized(Join(dir), Join(Ups(n) + rest)) == "."
    ensures n > |dir| ==> Escapes(Normalized(Join(dir), Join(Ups(n) + rest)))
  {
    hide Collapsed, Join, Ups, Split, Name, SlashFree;
    UpsJoin(n, rest);
    FromDirectory(dir, Ups(n) + rest);
    if n <= |dir| {
      UpsCollapse(n, rest, dir);
      NamesCollapse(rest, dir[..|dir| - n]);
    } else {
      OutOf(dir, n, rest);
      BeginsUp(n - |dir|, rest);
    }
  }

  lemma OutOf(dir: seq<string>, n: int, rest: seq<string>)
    requires (forall s :: s in dir ==> Name(s)) && n > |dir| && forall s :: s in rest ==> Name(s)
    ensures Collapsed(Ups(n) + rest, dir) == Ups(n - |dir|) + rest
  {
    hide Collapsed;
    var k := |dir|;
    UpsSplit(k, n - k);
    assert Ups(n) + rest == Ups(k) + (Ups(n - k) + rest);
    UpsCollapse(k, Ups(n - k) + rest, dir);
    assert dir[..0] == [] && Ups(0) == [];
    UpsStay(n - k, rest, 0);
    NamesCollapse(rest, Ups(n - k));
  }

  lemma {:induction false} UpsSplit(a: int, b: int)
    requires a >= 0 && b >= 0
    ensures Ups(a + b) == Ups(a) + Ups(b)
  {
    if a > 0 {
      UpsSplit(a - 1, b);
      assert [".."] + (Ups(a - 1) + Ups(b)) == [".."] + Ups(a - 1) + Ups(b);
    } else {
      assert Ups(0) + Ups(b) == Ups(b);
    }
  }

  lemma BeginsUp(n: int, rest: seq<string>)
    requires n > 0
    ensures Ups(n) + rest != [] && (Join(Ups(n) + rest) == ".." || "../" <= Join(Ups(n) + rest))
  {
    var p := Ups(n) + rest;
    assert p[0] == "..";
  }

  // A closing slash of the link stays.
  lemma ClosingSlash(dir: seq<string>, rest: seq<string>)
    requires (forall s :: s in dir ==> Name(s)) && Names(rest)
    ensures Normalized(Join(dir), Join(rest) + "/") == Join(dir + rest) + "/"
  {
    hide Collapsed, Join, Split;
    var link := rest + [""];
    JoinAppend(rest, "");
    assert Join(rest) + "/" + "" == Join(rest) + "/";
    assert SlashFree(link) by {
      forall s | s in link ensures '/' !in s {
        assert s in rest || s == "";
      }
    }
    FromDirectory(dir, link);
    DotsDropped(rest, "", [], dir);
    assert rest + [""] + [] == link && rest + [] == rest;
    NamesCollapse(rest, dir);
  }

  lemma {:induction false} JoinAppend(p: seq<string>, s: string)
    requires p != []
    ensures Join(p + [s]) == Join(p) + "/" + s
  {
    if |p| == 1 {
      assert p + [s] == [p[0], s] && [p[0], s][1..] == [s];
    } else {
      assert (p + [s])[1..] == p[1..] + [s] && (p + [s])[0] == p[0];
      JoinAppend(p[1..], s);
      assert p[0] + "/" + (Join(p[1..]) + "/" + s) == p[0] + "/" + Join(p[1..]) + "/" + s;
    }
  }

  // ----- There and back -----

  lemma {:induction false} DropCommonExactly(from: seq<string>, to: seq<string>)
    ensures var (up, down) := DropCommon(from, to);
      && |up| <= |from| && |down| <= |to| && up == from[|from| - |up|..] && down == to[|to| - |down|..]
      && |from| - |up| == |to| - |down| && from[..|from| - |up|] == to[..|to| - |down|]
    ensures var (up, down) := DropCommon(from, to); up == [] || down == [] || up[0] != down[0]
    decreases |from|
  {
    if from != [] && to != [] && from[0] == to[0] {
      var x, f, t := from[0], from[1..], to[1..];
      var (up, down) := DropCommon(f, t);
      DropCommonExactly(f, t);
      assert from == [x] + f && to == [x] + t;
      PrefixCons(x, f, |f| - |up|);
      PrefixCons(x, t, |t| - |down|);
    }
  }

  lemma PrefixCons(x: string, s: seq<string>, n: int)
    requires 0 <= n <= |s|
    ensures ([x] + s)[..n + 1] == [x] + s[..n] && ([x] + s)[n + 1..] == s[n..]
  {
  }

  lemma WholeDropped(from: seq<string>, to: seq<string>)
    requires DropCommon(from, to).1 == []
    ensures to <= from
  {
    hide DropCommon;
    DropCommonExactly(from, to);
  }

  lemma DotDots(n: int)
    requires n >= 0
    ensures seq(n, i => "..") == Ups(n)
  {
    UpsEnd(n);
    assert forall i :: 0 <= i < n ==> Ups(n)[i] in Ups(n);
  }

  lemma PartsOf(dir: seq<string>)
    requires forall s :: s in dir ==> Name(s)
    ensures Parts(Join(dir)) == dir
  {
    if dir != [] {
      assert dir[0] in dir;
      SplitJoin(dir);
    }
  }

  // `n` steps up from the directory and then down `rest` is the target.
  predicate Leads(dir: seq<string>, target: seq<string>, n: int, rest: seq<string>) {
    0 <= n <= |dir| && Names(rest) && target == dir[..|dir| - n] + rest
  }

  lemma CommonLeads(dir: seq<string>, target: seq<string>)
    requires Names(target) && !(target <= dir)
    ensures var (up, down) := DropCommon(dir, target); Leads(dir, target, |up|, down) && Shortest(dir, |up|, down)
  {
    hide DropCommon;
    DropCommonExactly(dir, target);
    var (up, down) := DropCommon(dir, target);
    if down == [] {
      WholeDropped(dir, target);
    }
    assert forall s :: s in down ==> s in target;
    assert target == target[..|target| - |down|] + down;
  }

  // And no shorter walk leads there: going up one step less, it would have to come back.
  predicate Shortest(dir: seq<string>, n: int, rest: seq<string>)
    requires 0 <= n <= |dir| && rest != []
  {
    n == 0 || dir[|dir| - n] != rest[0]
  }

  // The relative link from a directory to a file is some steps up, as few as can be, and then down to it.
  lemma RelativeLinkIs(dir: seq<string>, target: seq<string>)
    requires (forall s :: s in dir ==> Name(s)) && Names(target) && !(target <= dir)
    ensures exists n, rest ::
      Leads(dir, target, n, rest) && Shortest(dir, n, rest) && RelativeLink(Join(dir), Join(target)) == Join(Ups(n) + rest)
  {
    hide DropCommon, Ups, Join, Parts, Leads, Basename;
    PartsOf(dir);
    PartsOf(target);
    CommonLeads(dir, target);
    var (up, down) := DropCommon(dir, target);
    DotDots(|up|);
    LeadsDown(dir, target, |up|, down);
    assert Leads(dir, target, |up|, down) && Shortest(dir, |up|, down) && RelativeLink(Join(dir), Join(target)) == Join(Ups(|up|) + down);
  }

  // To a directory above, only up; to the very directory, its own name.
  lemma RelativeAbove(dir: seq<string>, target: seq<string>)
    requires (forall s :: s in dir ==> Name(s)) && Names(target) && target <= dir
    ensures RelativeLink(Join(dir), Join(target)) ==
      if target == dir then target[|target| - 1] else Join(Ups(|dir| - |target|))
  {
    hide DropCommon, Ups, Join, Split;
    PartsOf(dir);
    PartsOf(target);
    SplitNames(target);
    DropAll(dir, target);
    var (up, down) := DropCommon(dir, target);
    DotDots(|up|);
    UpsEnd(|up|);
    assert Ups(|up|) + [] == Ups(|up|);
  }

  lemma {:induction false} DropAll(dir: seq<string>, target: seq<string>)
    requires target <= dir
    ensures DropCommon(dir, target) == (dir[|target|..], [])
    decreases |dir|
  {
    if target != [] {
      DropAll(dir[1..], target[1..]);
    }
  }

  lemma LeadsDown(dir: seq<string>, target: seq<string>, n: int, rest: seq<string>)
    requires Leads(dir, target, n, rest)
    ensures Ups(n) + rest != [] && Names(rest) && 0 <= n <= |dir| && target == dir[..|dir| - n] + rest
  {
  }

  // So it leads back to the file.
  lemma RelativeRoundTrip(dir: seq<string>, target: seq<string>)
    requires (forall s :: s in dir ==> Name(s)) && Names(target) && !(target <= dir)
    ensures Normalized(Join(dir), RelativeLink(Join(dir), Join(target))) == Join(target)
  {
    hide Normalized, RelativeLink, Join, Ups, Leads;
    RelativeLinkIs(dir, target);
    var n, rest :| Leads(dir, target, n, rest) && RelativeLink(Join(dir), Join(target)) == Join(Ups(n) + rest);
    LeadsDown(dir, target, n, rest);
    WalksUp(dir, n, rest);
  }

  // The directory of a path is its segments but the last.
  lemma DirectoryOf(dir: seq<string>, name: string)
    requires (forall s :: s in dir ==> Name(s)) && Name(name)
    ensures Directory(Join(dir + [name])) == Join(dir) && Basename(Join(dir + [name])) == name
  {
    SplitJoin(dir + [name]);
    assert (dir + [name])[..|dir + [name]| - 1] == dir;
  }

  // ----- Looking up -----

  function SameFold(paths: set<string>, fold: Fold, text: string): set<string> {
    set p | p in paths && fold(p) == fold(text)
  }

  // A path that is there as written is found, then one that is there with the extension; else the only one
  // that folds alike, then the only one that does with the extension; and otherwise none.
  lemma LookupExactly(paths: set<string>, fold: Fold, path: string)
    ensures var r, plain, md := Lookup(paths, fold, path), SameFold(paths, fold, path), SameFold(paths, fold, path + ".md");
      if path in paths then r == Some(path)
      else if path + ".md" in paths then r == Some(path + ".md")
      else if exists p :: plain == {p} then r.Some? && plain == {r.value}
      else if exists p :: md == {p} then r.Some? && md == {r.value}
      else r == None
  {
    OnlyOneExactly(SameFold(paths, fold, path));
    OnlyOneExactly(SameFold(paths, fold, path + ".md"));
  }

  lemma OnlyOneExactly(matches: set<string>)
    ensures if exists p :: matches == {p} then OnlyOne(matches).Some? && matches == {OnlyOne(matches).value} else OnlyOne(matches).None?
  {
    if |matches| == 1 {
      var p := First(matches);
      assert |matches - {p}| == 0;
      assert matches == (matches - {p}) + {p};
      assert matches == {p};
    }
  }

  // ----- Matching by suffix -----

  // The text ends in a slash and the tail.
  ghost predicate Ending(text: string, tail: string) {
    exists before :: text == before + "/" + tail
  }

  lemma EndingExactly(text: string, tail: string)
    ensures EndsWith(text, "/" + tail) <==> Ending(text, tail)
  {
    if EndsWith(text, "/" + tail) {
      var before := text[..|text| - |tail| - 1];
      assert text == before + ("/" + tail);
      assert text == before + "/" + tail;
    }
    if before :| text == before + "/" + tail {
      assert text == before + ("/" + tail);
    }
  }

  // The path folds to one of the two texts, or to one that ends in it after a slash, and under the same name.
  ghost predicate Suffixed(fold: Fold, path: string, link: string) {
    exists option :: option in [fold(link), fold(link + ".md")] && fold(Basename(path)) == Basename(option)
      && (fold(path) == option || Ending(fold(path), option))
  }

  // Before another: in the directory of the note; else by fewer segments; else by name.
  predicate Ahead(a: string, b: string, directory: string) {
    || (Directory(a) == directory && Directory(b) != directory)
    || ((Directory(a) == directory <==> Directory(b) == directory)
        && (|Split(a)| < |Split(b)| || (|Split(a)| == |Split(b)| && Leq(a, b))))
  }

  lemma AheadOrder(a: string, b: string, c: string, directory: string)
    ensures Better(a, b, directory) <==> Ahead(a, b, directory)
    ensures Ahead(a, b, directory) || Ahead(b, a, directory)
    ensures Ahead(a, b, directory) && Ahead(b, c, directory) ==> Ahead(a, c, directory)
  {
    hide Directory, Split, Leq;
    LeqTotal(a, b);
    if Leq(a, b) && Leq(b, c) {
      LeqTransitive(a, b, c);
    }
  }

  lemma {:induction false} BestAhead(list: seq<string>, best: string, directory: string)
    ensures forall p :: p == best || p in list ==> Ahead(Best(list, best, directory), p, directory)
    decreases |list|
  {
    hide Ahead, Better;
    AheadOrder(best, best, best, directory);
    if list != [] {
      var x, rest := list[0], list[1..];
      assert list == [x] + rest;
      AheadOrder(x, best, best, directory);
      AheadOrder(x, x, x, directory);
      var next := if Better(x, best, directory) then x else best;
      BestAhead(rest, next, directory);
      var b := Best(rest, next, directory);
      AheadOrder(b, next, x, directory);
      AheadOrder(b, next, best, directory);
    }
  }

  lemma MatchesExactly(paths: set<string>, fold: Fold, link: string, path: string)
    ensures path in SuffixMatches(paths, fold, link) <==> path in paths && Suffixed(fold, path, link)
  {
    hide EndsWith, Ending, Basename;
    EndingExactly(fold(path), fold(link));
    EndingExactly(fold(path), fold(link + ".md"));
    assert fold(link) in [fold(link), fold(link + ".md")] && fold(link + ".md") in [fold(link), fold(link + ".md")];
  }

  // A link by its last segments finds nothing when no path ends in it, and otherwise the path that does and
  // is ahead of all others that do.
  lemma SuffixExactly(paths: set<string>, fold: Fold, link: string, directory: string)
    ensures var r := SuffixMatch(paths, fold, link, directory);
      && (r.None? <==> forall p :: p in paths ==> !Suffixed(fold, p, link))
      && (r.Some? ==> r.value in paths && Suffixed(fold, r.value, link)
                      && forall p :: p in paths && Suffixed(fold, p, link) ==> Ahead(r.value, p, directory))
  {
    hide MatchesOption, Best, Ahead, Suffixed;
    var matches := SuffixMatches(paths, fold, link);
    var list := Sorted(matches);
    forall p
      ensures p in list <==> p in paths && Suffixed(fold, p, link)
    {
      MatchesExactly(paths, fold, link, p);
      assert p in list <==> p in matches;
    }
    if list != [] {
      BestAhead(list[1..], list[0], directory);
      var b := Best(list[1..], list[0], directory);
      assert b == list[0] || b in list[1..];
      assert b in list;
      assert list == [list[0]] + list[1..];
    }
  }

  // ----- Readings -----

  // What is left without the slashes it begins with.
  lemma {:induction false} SlashesStripped(n: nat, rest: string)
    requires rest == "" || rest[0] != '/'
    ensures StripSlashes(seq(n, i => '/') + rest) == rest
  {
    if n > 0 {
      var all, fewer := seq(n, i => '/'), seq(n - 1, i => '/');
      assert all == ['/'] + fewer;
      assert (all + rest)[1..] == fewer + rest;
      SlashesStripped(n - 1, rest);
    } else {
      assert seq(0, i => '/') + rest == rest;
    }
  }

  // A link is explicitly relative when a segment of one dot or two leads it.
  predicate Dotted(link: string) {
    |Split(link)| > 1 && Split(link)[0] in [".", ".."]
  }

  lemma DottedExactly(link: string)
    ensures ExplicitlyRelative(link) <==> Dotted(link)
  {
    if "./" <= link {
      Leading(".", link);
    } else if "../" <= link {
      Leading("..", link);
    }
    if Dotted(link) {
      var parts := Split(link);
      JoinSplit(link);
      assert Join(parts) == parts[0] + "/" + Join(parts[1..]);
      assert parts[0] + "/" == "./" || parts[0] + "/" == "../";
    }
  }

  lemma Leading(s: string, link: string)
    requires '/' !in s && s + "/" <= link
    ensures |Split(link)| > 1 && Split(link)[0] == s
  {
    assert link == s + "/" + link[|s| + 1..];
    SplitName(s);
    SplitConcat(s, link[|s| + 1..]);
  }

  // The path that a link reaches from its note's directory, going up and then down; none when it leaves the
  // vault or stops at its root.
  lemma RelativeReading(paths: set<string>, fold: Fold, dir: seq<string>, n: int, rest: seq<string>)
    requires (forall s :: s in dir ==> Name(s)) && n >= 0 && (forall s :: s in rest ==> Name(s)) && n + |rest| > 0
    ensures var found := LookupRelative(paths, fold, Join(Ups(n) + rest), Join(dir));
      if n > |dir| || (n == |dir| && rest == []) then found.None?
      else found == Lookup(paths, fold, Join(dir[..|dir| - n] + rest))
  {
    hide Collapsed, Normalized, Join, Ups, Lookup, Escapes;
    if n > |dir| || (n == |dir| && rest == []) {
      WalksOut(dir, n, rest);
      assert Escapes(".") by { RootEscapes(); }
    } else {
      WalksUp(dir, n, rest);
      var p := dir[..|dir| - n] + rest;
      forall s | s in p ensures Name(s) {
        assert s in dir || s in rest;
      }
      NamesStay(p);
    }
  }

  lemma RootEscapes()
    ensures Escapes(".")
  {
  }

  lemma NamesStay(p: seq<string>)
    requires Names(p)
    ensures !Escapes(Join(p)) && !ExplicitlyRelative(Join(p)) && Join(p) != ""
  {
    SplitNames(p);
    assert p[0] in p;
    if "../" <= Join(p) {
      Leading("..", Join(p));
    } else if "./" <= Join(p) {
      Leading(".", Join(p));
    }
    SplitName("..");
    SplitName(".");
    SplitName("");
  }

  lemma DotSplit(link: string)
    ensures Split("./" + link) == ["."] + Split(link)
  {
    hide Split;
    SplitConcat(".", link);
    SplitName(".");
    assert "./" + link == "." + "/" + link;
  }

  lemma DotCollapsed(directory: string, link: string)
    ensures Collapsed(Split(directory + "/" + ("./" + link)), []) == Collapsed(Split(directory + "/" + link), [])
  {
    hide Split, Collapsed;
    var d, l := Split(directory), Split(link);
    DotSplit(link);
    SplitConcat(directory, link);
    SplitConcat(directory, "./" + link);
    DotsDropped(d, ".", l, []);
    assert d + (["."] + l) == d + ["."] + l;
  }

  // A dot in front changes nothing.
  lemma DotReading(paths: set<string>, fold: Fold, link: string, directory: string)
    requires link != ""
    ensures LookupRelative(paths, fold, "./" + link, directory) == LookupRelative(paths, fold, link, directory)
  {
    hide Split, Collapsed, Join, Lookup, Escapes;
    DotCollapsed(directory, link);
    var dotted := "./" + link;
    assert dotted[|dotted| - 1] == link[|link| - 1];
  }

  // Wikilinks are not read relative to their note unless they are dotted, and dotted links in no other way.
  predicate MayRead(link: string, style: Style, form: Form) {
    link != "" && if form == Relative then Dotted(link) || style == Markdown else !Dotted(link)
  }

  function Reading(paths: set<string>, fold: Fold, link: string, source: string, form: Form): Option<string> {
    match form
    case Relative => LookupRelative(paths, fold, link, Directory(source))
    case Absolute => Lookup(paths, fold, StripSlashes(link))
    case Suffix => SuffixMatch(paths, fold, StripSlashes(link), Directory(source))
  }

  predicate Finds(paths: set<string>, fold: Fold, link: string, source: string, style: Style, form: Form) {
    MayRead(link, style, form) && Reading(paths, fold, link, source, form).Some?
  }

  function Rank(form: Form): int {
    match form
    case Relative => 0
    case Absolute => 1
    case Suffix => 2
  }

  // A link resolves by the first of its readings that finds a path, in the order relative, absolute, suffix.
  lemma ResolvesExactly(paths: set<string>, fold: Fold, link: string, source: string, style: Style, form: Form)
    ensures var r := Resolve(paths, fold, link, source, style);
      && (r.Some? && r.value.form == form <==>
          && Finds(paths, fold, link, source, style, form)
          && forall other :: Rank(other) < Rank(form) ==> !Finds(paths, fold, link, source, style, other))
      && (r.Some? && r.value.form == form ==> Reading(paths, fold, link, source, form) == Some(r.value.path))
  {
    hide LookupRelative, Lookup, SuffixMatch, StripSlashes, Directory, Dotted, ExplicitlyRelative;
    DottedExactly(link);
    assert Rank(Relative) == 0 && Rank(Absolute) == 1 && Rank(Suffix) == 2;
  }

  // ----- Rewriting -----

  lemma StripExactly(stem: string, path: string, keep: bool)
    ensures StripExtension(path, true) == path
    ensures StripExtension(stem + ".md", false) == stem
    ensures (forall s :: path != s + ".md") ==> StripExtension(path, keep) == path
  {
    assert (stem + ".md")[|stem|..] == ".md" && (stem + ".md")[..|stem|] == stem;
    if EndsWith(path, ".md") {
      assert path == path[..|path| - 3] + ".md";
    }
  }

  // The candidate by relative path: a link with a dot in front keeps one, any other gets none.
  lemma DottedStaysDotted(link: string, directory: string, intended: string)
    ensures var c, relative := Candidates(link, Relative, directory, intended, true)[0], RelativeLink(directory, intended);
      && (c == relative || c == "./" + relative)
      && ("./" <= link ==> "." <= c)
      && (!("./" <= link) || "." <= relative ==> c == relative)
    ensures Candidates(link, Absolute, directory, intended, true) == [LeadingSlash(link) + intended]
    ensures forall form, keep :: var all := Candidates(link, form, directory, intended, keep);
      all[|all| - 1] == LeadingSlash(link) + StripExtension(intended, keep)
  {
    hide RelativeLink, Tails, StripExtension;
    StripExactly("", RelativeLink(directory, intended), true);
    StripExactly("", "./" + RelativeLink(directory, intended), true);
    StripExactly("", intended, true);
    assert ("./" + RelativeLink(directory, intended))[0] == '.';
  }

  // The texts by the last segments are all of them, shortest first.
  lemma {:induction false} TailsExactly(parts: seq<string>, count: int, keep: bool)
    requires 1 <= count <= |parts| + 1
    ensures |Tails(parts, count, keep)| == |parts| - count + 1
    ensures forall i :: 0 <= i <= |parts| - count ==>
      Tails(parts, count, keep)[i] == StripExtension(Join(parts[|parts| - count - i..]), keep)
    decreases |parts| - count
  {
    hide Join, StripExtension;
    if count <= |parts| {
      TailsExactly(parts, count + 1, keep);
    }
  }

  // A link rewritten relative to its note reaches the file it was made for, in Markdown always and, dotted,
  // as a wikilink as well.
  lemma RelativeReaches(paths: set<string>, fold: Fold, dir: seq<string>, name: string, target: seq<string>)
    requires (forall s :: s in dir ==> Name(s)) && Name(name) && Names(target) && !(target <= dir) && Join(target) in paths
    ensures var link, source := RelativeLink(Join(dir), Join(target)), Join(dir + [name]);
      && Reaches(paths, fold, link, source, Markdown, Join(target))
      && forall style :: Reaches(paths, fold, "./" + link, source, style, Join(target))
  {
    hide RelativeLink, Leads, LookupRelative, Join, Ups, Directory, ResolveAbsolute;
    DirectoryOf(dir, name);
    RelativeLinkIs(dir, target);
    var n, rest :| Leads(dir, target, n, rest) && RelativeLink(Join(dir), Join(target)) == Join(Ups(n) + rest);
    LeadsDown(dir, target, n, rest);
    RelativeReading(paths, fold, dir, n, rest);
    UpsJoin(n, rest);
    DotReading(paths, fold, Join(Ups(n) + rest), Join(dir));
  }

  // So a Markdown link that resolved relative to its note and spells its extension is never lost: from the
  // new place of the note it reaches the new path of its file, wherever other files went.
  lemma RelativeLinkKept(r: Repair, fold: Fold, link: string, sourceOld: string, dir: seq<string>, name: string, target: seq<string>)
    requires Moved(r) && (forall s :: s in dir ==> Name(s)) && Name(name) && Names(target) && !(target <= dir)
    requires var before := Resolve(r.before, fold, link, sourceOld, Markdown);
      before.Some? && before.value.form == Relative && Intended(r, before.value) == Join(target)
    ensures Reaches(r.after, fold, Final(link, Rewritten(r, fold, true, link, sourceOld, Join(dir + [name]), Markdown)),
                    Join(dir + [name]), Markdown, Join(target))
  {
    hide Resolve, RelativeLink, Directory, VaultPath, FirstReaching, Join;
    var source := Join(dir + [name]);
    ResolvesInside(r.before, fold, link, sourceOld, Markdown);
    RelativeReaches(r.after, fold, dir, name, target);
    DirectoryOf(dir, name);
    var candidates := Candidates(link, Relative, Directory(source), Join(target), true);
    FirstReachingFinds(r.after, fold, candidates, source, Markdown, Join(target));
    assert candidates[0] in candidates;
  }
}
