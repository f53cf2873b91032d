// Links over a whole renaming plan (src/server/nameRepair.ts): the plan works on segments, links on text,
// and every file of the plan goes where the rewriting of links takes it to go.
module RepairedLinks {
  import opened Common
  import opened NameText
  import N = NameRepair
  import L = LinkRewrite
  import M = LinkMeaning

  // ----- Paths as text -----

  // Text made of names is a vault path.
  lemma JoinedVaultPath(p: N.Path)
    requires L.Names(p)
    ensures L.VaultPath(L.Join(p))
  {
    var t := L.Join(p);
    assert p[0] in p;
    L.SplitNames(p);
    Leads("", t);
    Leads(".", t);
    Leads("..", t);
  }

  // What stands before a slash is the first segment.
  lemma Leads(s: string, t: string)
    requires '/' !in s
    ensures s + "/" <= t ==> L.Split(t)[0] == s
    ensures s == "" && t == "" ==> L.Split(t)[0] == s
  {
    if s + "/" <= t {
      assert t == s + "/" + t[|s| + 1..];
      L.SplitName(s);
      L.SplitConcat(s, t[|s| + 1..]);
    }
  }

  // ----- Repaired names are names -----

  lemma {:induction false} ReplacedSlashFree(s: string)
    requires '/' !in s
    ensures '/' !in ReplaceAll(s)
  {
    if s != [] {
      assert s == [s[0]] + s[1..];
      ReplacedSlashFree(s[1..]);
    }
  }

  lemma {:induction false} CollapsedSlashFree(s: string, after: bool)
    requires '/' !in s
    ensures '/' !in Collapse(s, after)
  {
    if s != [] {
      assert s == [s[0]] + s[1..];
      CollapsedSlashFree(s[1..], WhiteSpace(s[0]));
    }
  }

  lemma SanitizedSlashFree(s: string)
    requires '/' !in s
    ensures '/' !in SanitizeText(s)
  {
    hide ReplaceAll, Collapse, TrimStart, TrimEnd;
    ReplacedSlashFree(s);
    CollapsedSlashFree(ReplaceAll(s), false);
    TrimStartPart(Collapse(ReplaceAll(s), false));
    TrimEndPart(TrimStart(Collapse(ReplaceAll(s), false)));
  }

  lemma SanitizedName(s: string, isFile: bool, isRoot: bool)
    requires L.Name(s)
    ensures L.Name(Sanitize(s, isFile, isRoot))
  {
    hide HasReserved, SanitizeText;
    SanitizedStorable(s, isFile, isRoot);
    if HasReserved(s) {
      var i := if isFile then ExtensionAt(s) else |s|;
      assert forall c :: c in s[..i] ==> c in s;
      assert forall c :: c in s[i..] ==> c in s;
      SanitizedSlashFree(s[..i]);
    }
  }

  lemma {:induction false} DecimalSlashFree(n: int)
    ensures '/' !in N.Decimal(n)
  {
    if n >= 10 {
      DecimalSlashFree(n / 10);
    }
  }

  lemma SuffixedName(s: string, n: int)
    requires L.Name(s)
    ensures L.Name(N.SuffixName(s, n))
  {
    DecimalSlashFree(n);
    var dot := LastDot(s);
    if dot > 0 {
      assert forall c :: c in s[..dot] ==> c in s;
      assert forall c :: c in s[dot..] ==> c in s;
    }
  }

  // ----- The plan -----

  predicate NamedDirs(d: N.Dirs) {
    && (forall p :: p in d.image ==> L.Names(d.image[p]))
    && (forall k :: k in d.byKey ==> L.Names(d.byKey[k]))
  }

  lemma CandidateNames(d: N.Dirs, p: N.Path, isFile: bool)
    requires NamedDirs(d) && L.Names(p)
    ensures L.Names(N.Candidate(d, p, isFile))
  {
    hide L.Name, Sanitize;
    var parent, last := N.NewParent(d, p), N.Last(p);
    assert last in p;
    SanitizedName(last, isFile, parent == []);
  }

  lemma {:induction false} DirectoriesNamed(fold: N.Fold, ordered: seq<N.Path>, d: N.Dirs)
    requires NamedDirs(d) && forall p :: p in ordered ==> L.Names(p)
    ensures NamedDirs(N.MapDirectories(fold, ordered, d))
    decreases |ordered|
  {
    hide L.Names, N.Candidate, N.Key;
    if ordered != [] {
      CandidateNames(d, ordered[0], false);
      DirectoriesNamed(fold, ordered[1..], N.AddDirectory(fold, d, ordered[0]));
    }
  }

  predicate NamedFiles(s: N.Files) {
    forall f :: f in s.image ==> L.Names(s.image[f])
  }

  lemma TargetNames(fold: N.Fold, candidate: N.Path, taken: set<N.Path>)
    requires N.KeepsNumbers(fold) && L.Names(candidate)
    ensures L.Names(N.Target(fold, candidate, taken))
  {
    hide N.Key, N.KeepsNumbers, N.FreeAttempt, N.SuffixName, L.Name;
    forall n
      ensures L.Names(N.WithSuffix(candidate, n))
    {
      assert N.Last(candidate) in candidate;
      SuffixedName(N.Last(candidate), n);
    }
  }

  lemma {:induction false} KeptNamed(fold: N.Fold, d: N.Dirs, files: seq<N.Path>, s: N.Files)
    requires NamedFiles(s) && forall f :: f in files ==> L.Names(f)
    ensures NamedFiles(N.KeepAll(fold, d, files, s))
    decreases |files|
  {
    hide L.Names, N.Candidate, N.Key;
    if files != [] {
      KeptNamed(fold, d, files[1..], N.Keep(fold, d, s, files[0]));
    }
  }

  lemma {:induction false} PlacedNamed(fold: N.Fold, d: N.Dirs, files: seq<N.Path>, s: N.Files)
    requires N.KeepsNumbers(fold) && NamedDirs(d) && NamedFiles(s) && forall f :: f in files ==> L.Names(f)
    ensures NamedFiles(N.PlaceAll(fold, d, files, s))
    decreases |files|
  {
    hide L.Names, N.Candidate, N.Key, N.KeepsNumbers, N.Target;
    if files != [] {
      CandidateNames(d, files[0], true);
      TargetNames(fold, N.Candidate(d, files[0], true), s.taken);
      PlacedNamed(fold, d, files[1..], N.Place(fold, d, s, files[0]));
    }
  }

  lemma PlanNamed(fold: N.Fold, ordered: seq<N.Path>, files: seq<N.Path>)
    requires N.KeepsNumbers(fold)
    requires (forall p :: p in ordered ==> L.Names(p)) && forall f :: f in files ==> L.Names(f)
    ensures NamedFiles(N.FilePlan(fold, N.MapDirectories(fold, ordered, N.Dirs(map[], map[])), files))
  {
    hide L.Names, N.KeepsNumbers, N.MapDirectories, N.KeepAll, N.PlaceAll;
    var d := N.MapDirectories(fold, ordered, N.Dirs(map[], map[]));
    DirectoriesNamed(fold, ordered, N.Dirs(map[], map[]));
    KeptNamed(fold, d, files, N.Files(map[], d.byKey.Keys));
    PlacedNamed(fold, d, files, N.KeepAll(fold, d, files, N.Files(map[], d.byKey.Keys)));
  }

  // ----- The repair of the links -----

  // The new path of a file, as text.
  function ImageText(s: N.Files, path: string): string {
    if L.Split(path) in s.image then L.Join(s.image[L.Split(path)]) else path
  }

  // What the plan does to a set of paths, as the rewriting of links takes it.
  function PlannedRepair(s: N.Files, paths: set<string>): L.Repair {
    L.Repair(paths, set p | p in paths :: ImageText(s, p), map p | p in paths :: ImageText(s, p))
  }

  function Segments(paths: seq<string>): seq<N.Path> {
    seq(|paths|, i requires 0 <= i < |paths| => L.Split(paths[i]))
  }

  // The files of a vault, and the directories above them in the order of the plan.
  predicate Planable(ordered: seq<N.Path>, paths: seq<string>) {
    && N.Ordered(ordered, {}) && (forall p :: p in ordered ==> L.Names(p))
    && (forall i, j :: 0 <= i < j < |paths| ==> paths[i] != paths[j])
    && forall t :: t in paths ==>
      L.Names(L.Split(t)) && (N.Parent(L.Split(t)) == [] || N.Parent(L.Split(t)) in ordered)
  }

  ghost function PlanOf(fold: N.Fold, ordered: seq<N.Path>, paths: seq<string>): N.Files
    requires N.KeepsNumbers(fold)
  {
    N.FilePlan(fold, N.MapDirectories(fold, ordered, N.Dirs(map[], map[])), Segments(paths))
  }

  lemma SegmentsDistinct(paths: seq<string>)
    requires forall i, j :: 0 <= i < j < |paths| ==> paths[i] != paths[j]
    ensures N.Distinct(Segments(paths))
  {
    forall i, j | 0 <= i < j < |paths|
      ensures L.Split(paths[i]) != L.Split(paths[j])
    {
      L.JoinSplit(paths[i]);
      L.JoinSplit(paths[j]);
    }
  }

  lemma DirectoriesPlanned(fold: N.Fold, ordered: seq<N.Path>, paths: seq<string>)
    requires Planable(ordered, paths)
    ensures var d := N.MapDirectories(fold, ordered, N.Dirs(map[], map[]));
      N.Mapped(fold, d) && d.image.Keys == set p | p in ordered
  {
    hide N.MapDirectories, N.Mapped;
    var none := N.Dirs(map[], map[]);
    N.NothingMapped(fold);
    assert none.image.Keys == {};
    N.DirectoriesMapped(fold, ordered, none);
  }

  lemma SegmentsPlanned(fold: N.Fold, ordered: seq<N.Path>, paths: seq<string>)
    requires N.KeepsNumbers(fold) && Planable(ordered, paths)
    ensures var s := PlanOf(fold, ordered, paths);
      && NamedFiles(s) && N.Settled(fold, N.MapDirectories(fold, ordered, N.Dirs(map[], map[])), s)
      && forall t :: t in paths ==> L.Split(t) in s.image
  {
    hide N.KeepsNumbers, N.MapDirectories, N.FilePlan, N.Mapped, N.Settled, L.Names, N.Ordered;
    var files := Segments(paths);
    var d := N.MapDirectories(fold, ordered, N.Dirs(map[], map[]));
    DirectoriesPlanned(fold, ordered, paths);
    SegmentsDistinct(paths);
    assert forall f :: f in files ==> exists t :: t in paths && f == L.Split(t);
    N.PlanSettled(fold, d, files);
    PlanNamed(fold, ordered, files);
    forall t | t in paths
      ensures L.Split(t) in files
    {
      var i :| 0 <= i < |paths| && paths[i] == t;
      assert files[i] == L.Split(t);
    }
  }

  // The plan is a repair in the sense of the links: every file goes to a vault path, and no two to the same.
  lemma PlanMoves(fold: N.Fold, ordered: seq<N.Path>, paths: seq<string>)
    requires N.KeepsNumbers(fold) && Planable(ordered, paths)
    ensures var r := PlannedRepair(PlanOf(fold, ordered, paths), set t | t in paths);
      && L.Moved(r)
      && forall t, u :: t in paths && u in paths && t != u ==> r.image[t] != r.image[u]
  {
    hide N.KeepsNumbers, PlanOf, L.Names, L.VaultPath, Planable, N.Key;
    var s := PlanOf(fold, ordered, paths);
    SegmentsPlanned(fold, ordered, paths);
    forall t | t in paths
      ensures L.VaultPath(ImageText(s, t))
    {
      JoinedVaultPath(s.image[L.Split(t)]);
    }
    forall t, u | t in paths && u in paths && t != u
      ensures ImageText(s, t) != ImageText(s, u)
    {
      L.JoinSplit(t);
      L.JoinSplit(u);
      L.SplitNames(s.image[L.Split(t)]);
      L.SplitNames(s.image[L.Split(u)]);
    }
  }

  // So after the planned renames a wikilink reaches the new path of the file it reached before, from the new
  // path of its note.
  lemma PlannedLinkReaches(fold: N.Fold, ordered: seq<N.Path>, paths: seq<string>, linkFold: L.Fold, keep: bool, link: string, note: string)
    requires N.KeepsNumbers(fold) && Planable(ordered, paths) && note in paths
    ensures var s := PlanOf(fold, ordered, paths);
      var r := PlannedRepair(s, set t | t in paths);
      var before := L.Resolve(r.before, linkFold, link, note, L.Wiki);
      before.Some? ==>
        var final := L.Final(link, L.Rewritten(r, linkFold, keep, link, note, ImageText(s, note), L.Wiki));
        before.value.path in paths && L.Reaches(r.after, linkFold, final, ImageText(s, note), L.Wiki, ImageText(s, before.value.path))
  {
    hide N.KeepsNumbers, PlanOf, Planable, L.Resolve, L.Rewritten, L.Moved, ImageText;
    var s := PlanOf(fold, ordered, paths);
    var r := PlannedRepair(s, set t | t in paths);
    PlanMoves(fold, ordered, paths);
    L.ResolvesInside(r.before, linkFold, link, note, L.Wiki);
    if L.Resolve(r.before, linkFold, link, note, L.Wiki).Some? {
      L.LinkPreserved(r, linkFold, keep, link, note, ImageText(s, note), L.Wiki);
    }
  }

  // No file goes where a directory of the repaired vault is.
  lemma FileAboveNothing(fold: N.Fold, ordered: seq<N.Path>, paths: seq<string>, t: string, note: string)
    requires N.KeepsNumbers(fold) && Planable(ordered, paths) && t in paths && note in paths
    ensures var s := PlanOf(fold, ordered, paths);
      L.Split(t) in s.image && L.Split(note) in s.image && !(s.image[L.Split(t)] <= N.Parent(s.image[L.Split(note)]))
  {
    hide N.KeepsNumbers, N.MapDirectories, N.FilePlan, L.Names, Planable, N.Key;
    var s, d := PlanOf(fold, ordered, paths), N.MapDirectories(fold, ordered, N.Dirs(map[], map[]));
    SegmentsPlanned(fold, ordered, paths);
    DirectoriesPlanned(fold, ordered, paths);
    var target, dir := s.image[L.Split(t)], N.Parent(s.image[L.Split(note)]);
    if target <= dir {
      assert N.IsPrefix(target, dir);
      N.RepairedDirectoriesHeld(fold, d, s, target);
    }
  }

  // The new place of a link's file and of its note, as directory, name and path.
  lemma RelativePlaced(r: L.Repair, linkFold: L.Fold, link: string, note: string, moved: N.Path, target: N.Path)
    requires L.Moved(r) && L.Names(moved) && L.Names(target) && !(target <= N.Parent(moved))
    requires var before := L.Resolve(r.before, linkFold, link, note, L.Markdown);
      before.Some? && before.value.form == L.Relative && L.Intended(r, before.value) == L.Join(target)
    ensures var source := L.Join(moved);
      L.Reaches(r.after, linkFold, L.Final(link, L.Rewritten(r, linkFold, true, link, note, source, L.Markdown)), source, L.Markdown, L.Join(target))
  {
    hide L.Resolve, L.Rewritten, L.Moved, L.Join, L.Name, L.Intended, L.Reaches;
    assert N.Parent(moved) + [N.Last(moved)] == moved;
    M.RelativeLinkKept(r, linkFold, link, note, N.Parent(moved), N.Last(moved), target);
  }

  // And a Markdown link that was read relative to its note and spells its extension reaches the new path too.
  lemma PlannedRelativeKept(fold: N.Fold, ordered: seq<N.Path>, paths: seq<string>, linkFold: L.Fold, link: string, note: string)
    requires N.KeepsNumbers(fold) && Planable(ordered, paths) && note in paths
    ensures var s := PlanOf(fold, ordered, paths);
      var r := PlannedRepair(s, set t | t in paths);
      var before := L.Resolve(r.before, linkFold, link, note, L.Markdown);
      before.Some? && before.value.form == L.Relative ==>
        var final := L.Final(link, L.Rewritten(r, linkFold, true, link, note, ImageText(s, note), L.Markdown));
        before.value.path in paths && L.Reaches(r.after, linkFold, final, ImageText(s, note), L.Markdown, ImageText(s, before.value.path))
  {
    hide N.KeepsNumbers, PlanOf, Planable, L.Resolve, L.Rewritten, L.Moved, L.Join, L.Names, L.Reaches, L.Final, N.Parent, N.Settled, N.MapDirectories;
    var s := PlanOf(fold, ordered, paths);
    var r := PlannedRepair(s, set t | t in paths);
    var before := L.Resolve(r.before, linkFold, link, note, L.Markdown);
    PlanMoves(fold, ordered, paths);
    L.ResolvesInside(r.before, linkFold, link, note, L.Markdown);
    if before.Some? && before.value.form == L.Relative {
      var path := before.value.path;
      FileAboveNothing(fold, ordered, paths, path, note);
      SegmentsPlanned(fold, ordered, paths);
      RelativePlaced(r, linkFold, link, note, s.image[L.Split(note)], s.image[L.Split(path)]);
    }
  }
}
