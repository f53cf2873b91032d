// Resolution of links over a set of vault paths, and the rewriting of a link so that it still reaches the
// renamed file (src/server/nameRepair.ts). Paths and link targets are text; folding and lower case are
// parameters.
module LinkRewrite {
  import opened Common
  import opened Json

  type Fold = string -> string

  datatype Style = Wiki | Markdown

  datatype Form = Absolute | Relative | Suffix

  datatype Resolved = Resolved(path: string, form: Form)

  // ----- Path text -----

  function Split(s: string): (r: seq<string>)
    ensures |r| > 0
  {
    if s == [] then [""]
    else
      var rest := Split(s[1..]);
      if s[0] == '/' then [""] + rest else [[s[0]] + rest[0]] + rest[1..]
  }

  function Join(parts: seq<string>): string {
    if parts == [] then "" else if |parts| == 1 then parts[0] else parts[0] + "/" + Join(parts[1..])
  }

  // A segment of a vault path.
  predicate Name(s: string) {
    s != "" && s != "." && s != ".." && '/' !in s
  }

  predicate Names(p: seq<string>) {
    p != [] && forall s :: s in p ==> Name(s)
  }

  predicate SlashFree(p: seq<string>) {
    forall s :: s in p ==> '/' !in s
  }

  lemma {:induction false} SplitName(s: string)
    requires '/' !in s
    ensures Split(s) == [s]
  {
    if s != [] {
      assert s == [s[0]] + s[1..];
      SplitName(s[1..]);
    }
  }

  lemma {:induction false} SplitConcat(s: string, t: string)
    ensures Split(s + "/" + t) == Split(s) + Split(t)
  {
    var all := s + "/" + t;
    if s == [] {
      assert all[0] == '/' && all[1..] == t;
    } else {
      assert all[0] == s[0] && all[1..] == s[1..] + "/" + t;
      SplitConcat(s[1..], t);
      var rest := Split(s[1..]);
      assert (rest + Split(t))[1..] == rest[1..] + Split(t);
      assert [""] + (rest + Split(t)) == [""] + rest + Split(t);
      assert [[s[0]] + rest[0]] + (rest[1..] + Split(t)) == [[s[0]] + rest[0]] + rest[1..] + Split(t);
    }
  }

  // The text of a path determines its segments,
  lemma {:induction false} SplitJoin(p: seq<string>)
    requires p != [] && SlashFree(p)
    ensures Split(Join(p)) == p
  {
    var s, rest := p[0], p[1..];
    assert p == [s] + rest;
    assert s in p;
    SplitName(s);
    if rest != [] {
      SplitJoin(rest);
      SplitConcat(s, Join(rest));
    }
  }

  lemma SplitNames(p: seq<string>)
    requires Names(p)
    ensures Split(Join(p)) == p
  {
    SplitJoin(p);
  }

  // and the segments determine the text.
  lemma {:induction false} JoinSplit(t: string)
    ensures Join(Split(t)) == t
  {
    if t != [] {
      var rest := Split(t[1..]);
      JoinSplit(t[1..]);
      assert t == [t[0]] + t[1..];
      if t[0] == '/' {
        assert ([""] + rest)[1..] == rest;
      } else {
        assert ([[t[0]] + rest[0]] + rest[1..])[1..] == rest[1..];
      }
    }
  }

  function Directory(path: string): string {
    var parts := Split(path);
    Join(parts[..|parts| - 1])
  }

  function Basename(path: string): string {
    var parts := Split(path);
    parts[|parts| - 1]
  }

  // Resolves "." and ".." segments.
  function Collapsed(parts: seq<string>, done: seq<string>): seq<string>
    decreases |parts|
  {
    if parts == [] then done
    else if parts[0] == "" || parts[0] == "." then Collapsed(parts[1..], done)
    else if parts[0] == ".." && done != [] && done[|done| - 1] != ".." then Collapsed(parts[1..], done[..|done| - 1])
    else Collapsed(parts[1..], done + [parts[0]])
  }

  // A path relative to a directory, normalised; a closing slash stays.
  function Normalized(directory: string, link: string): string {
    var parts := Collapsed(Split(directory + "/" + link), []);
    if parts == [] then "." else Join(parts) + (if link != [] && link[|link| - 1] == '/' then "/" else "")
  }

  function StripSlashes(s: string): string {
    if s != [] && s[0] == '/' then StripSlashes(s[1..]) else s
  }

  predicate EndsWith(s: string, tail: string) {
    |tail| <= |s| && s[|s| - |tail|..] == tail
  }

  // ----- Lookup -----

  function WithKey(paths: set<string>, fold: Fold, key: string): set<string> {
    set p | p in paths && fold(p) == key
  }

  function OnlyOne(matches: set<string>): Option<string> {
    if |matches| == 1 then Some(First(matches)) else None
  }

  // The exact path, with or without ".md"; else the one path that folds alike.
  function Lookup(paths: set<string>, fold: Fold, path: string): Option<string> {
    if path in paths then Some(path)
    else if path + ".md" in paths then Some(path + ".md")
    else
      var plain := OnlyOne(WithKey(paths, fold, fold(path)));
      if plain.Some? then plain else OnlyOne(WithKey(paths, fold, fold(path + ".md")))
  }

  predicate MatchesOption(fold: Fold, path: string, option: string) {
    && fold(Basename(path)) == Basename(option)
    && (fold(path) == option || EndsWith(fold(path), "/" + option))
  }

  function SuffixMatches(paths: set<string>, fold: Fold, link: string): set<string> {
    set p | p in paths && (MatchesOption(fold, p, fold(link)) || MatchesOption(fold, p, fold(link + ".md")))
  }

  // Files of the source's own directory first, then shallower ones, then by name.
  predicate Better(a: string, b: string, directory: string) {
    if Directory(a) == directory && Directory(b) != directory then true
    else if Directory(a) != directory && Directory(b) == directory then false
    else if |Split(a)| != |Split(b)| then |Split(a)| < |Split(b)|
    else Leq(a, b)
  }

  function Best(list: seq<string>, best: string, directory: string): (b: string)
    ensures b == best || b in list
    decreases |list|
  {
    if list == [] then best
    else Best(list[1..], if Better(list[0], best, directory) then list[0] else best, directory)
  }

  function SuffixMatch(paths: set<string>, fold: Fold, link: string, directory: string): Option<string> {
    var list := Sorted(SuffixMatches(paths, fold, link));
    if list == [] then None else Some(Best(list[1..], list[0], directory))
  }

  predicate ExplicitlyRelative(link: string) {
    "./" <= link || "../" <= link
  }

  predicate Escapes(relative: string) {
    "../" <= relative || relative == ".." || relative == "."
  }

  function LookupRelative(paths: set<string>, fold: Fold, link: string, directory: string): Option<string> {
    var relative := Normalized(directory, link);
    if Escapes(relative) then None else Lookup(paths, fold, relative)
  }

  function ResolveAbsolute(paths: set<string>, fold: Fold, link: string, directory: string): Option<Resolved> {
    var absolute := StripSlashes(link);
    var found := Lookup(paths, fold, absolute);
    if found.Some? then Some(Resolved(found.value, Absolute))
    else
      var suffix := SuffixMatch(paths, fold, absolute, directory);
      if suffix.Some? then Some(Resolved(suffix.value, Suffix)) else None
  }

  function Resolve(paths: set<string>, fold: Fold, link: string, source: string, style: Style): Option<Resolved> {
    if link == "" then None
    else if ExplicitlyRelative(link) || style == Markdown then
      var found := LookupRelative(paths, fold, link, Directory(source));
      if found.Some? then Some(Resolved(found.value, Relative))
      else if ExplicitlyRelative(link) then None
      else ResolveAbsolute(paths, fold, link, Directory(source))
    else ResolveAbsolute(paths, fold, link, Directory(source))
  }

  lemma LookupInside(paths: set<string>, fold: Fold, path: string)
    ensures Lookup(paths, fold, path).Some? ==> Lookup(paths, fold, path).value in paths
  {
    OnlyOneInside(WithKey(paths, fold, fold(path)));
    OnlyOneInside(WithKey(paths, fold, fold(path + ".md")));
  }

  lemma OnlyOneInside(matches: set<string>)
    ensures OnlyOne(matches).Some? ==> OnlyOne(matches).value in matches
  {
  }

  lemma SuffixInside(paths: set<string>, fold: Fold, link: string, directory: string)
    ensures SuffixMatch(paths, fold, link, directory).Some? ==> SuffixMatch(paths, fold, link, directory).value in paths
  {
    hide MatchesOption, Best;
    var list := Sorted(SuffixMatches(paths, fold, link));
    if list != [] {
      var b := Best(list[1..], list[0], directory);
      assert b == list[0] || b in list[1..];
      assert b in list;
    }
  }

  // A link only ever resolves to a path of the index.
  lemma ResolvesInside(paths: set<string>, fold: Fold, link: string, source: string, style: Style)
    ensures var r := Resolve(paths, fold, link, source, style); r.Some? ==> r.value.path in paths
  {
    hide Lookup, SuffixMatch, Normalized, Directory, StripSlashes;
    LookupInside(paths, fold, Normalized(Directory(source), link));
    LookupInside(paths, fold, StripSlashes(link));
    SuffixInside(paths, fold, StripSlashes(link), Directory(source));
  }

  // ----- Rewriting -----

  function StripExtension(path: string, keep: bool): string {
    if !keep && EndsWith(path, ".md") then path[..|path| - 3] else path
  }

  function DropCommon(from: seq<string>, to: seq<string>): (seq<string>, seq<string>)
    decreases |from|
  {
    if from != [] && to != [] && from[0] == to[0] then DropCommon(from[1..], to[1..]) else (from, to)
  }

  function Parts(path: string): seq<string> {
    if path == "" then [] else Split(path)
  }

  function RelativeLink(directory: string, target: string): string {
    var (up, down) := DropCommon(Parts(directory), Parts(target));
    var parts := seq(|up|, i => "..") + down;
    if parts == [] then Basename(target) else Join(parts)
  }

  // The last segments of the path, one more each time.
  function Tails(parts: seq<string>, count: int, keep: bool): seq<string>
    requires 1 <= count
    decreases |parts| - count
  {
    if count > |parts| then []
    else [StripExtension(Join(parts[|parts| - count..]), keep)] + Tails(parts, count + 1, keep)
  }

  function LeadingSlash(link: string): string {
    if "/" <= link then "/" else ""
  }

  // The texts that may replace the link, in the order they are tried.
  function Candidates(link: string, form: Form, directory: string, intended: string, keep: bool): seq<string> {
    var relative := RelativeLink(directory, intended);
    (match form
     case Relative => [StripExtension(if "./" <= link && !("." <= relative) then "./" + relative else relative, keep)]
     case Suffix => Tails(Split(intended), 1, keep)
     case Absolute => [])
    + [LeadingSlash(link) + StripExtension(intended, keep)]
  }

  predicate Reaches(paths: set<string>, fold: Fold, link: string, source: string, style: Style, target: string) {
    var r := Resolve(paths, fold, link, source, style);
    r.Some? && r.value.path == target
  }

  // The first candidate that reaches the target.
  function FirstReaching(paths: set<string>, fold: Fold, candidates: seq<string>, source: string, style: Style, target: string): Option<string> {
    if candidates == [] then None
    else if Reaches(paths, fold, candidates[0], source, style, target) then Some(candidates[0])
    else FirstReaching(paths, fold, candidates[1..], source, style, target)
  }

  lemma {:induction false} FirstReachingFinds(paths: set<string>, fold: Fold, candidates: seq<string>, source: string, style: Style, target: string)
    ensures var found := FirstReaching(paths, fold, candidates, source, style, target);
      && (found.Some? ==> found.value in candidates && Reaches(paths, fold, found.value, source, style, target))
      && (found.None? ==> forall c :: c in candidates ==> !Reaches(paths, fold, c, source, style, target))
  {
    hide Reaches;
    if candidates != [] {
      assert candidates == [candidates[0]] + candidates[1..];
      FirstReachingFinds(paths, fold, candidates[1..], source, style, target);
    }
  }

  method FindReaching(paths: set<string>, fold: Fold, candidates: seq<string>, source: string, style: Style, target: string)
    returns (found: Option<string>)
    ensures found == FirstReaching(paths, fold, candidates, source, style, target)
  {
    hide Reaches;
    var i := 0;
    while i < |candidates|
      invariant 0 <= i <= |candidates|
      invariant FirstReaching(paths, fold, candidates, source, style, target) ==
                FirstReaching(paths, fold, candidates[i..], source, style, target)
    {
      assert candidates[i..][1..] == candidates[i + 1..];
      if Reaches(paths, fold, candidates[i], source, style, target) {
        return Some(candidates[i]);
      }
      i := i + 1;
    }
    return None;
  }

  // A vault path: not empty, and not written like an absolute or a relative link.
  predicate VaultPath(p: string) {
    p != "" && p[0] != '/' && !ExplicitlyRelative(p)
  }

  // What the relative reading of a link finds, if anything, is the target.
  predicate RelativeHits(paths: set<string>, fold: Fold, link: string, source: string, target: string) {
    var found := LookupRelative(paths, fold, link, Directory(source));
    found.None? || found == Some(target)
  }

  // The full path, with or without the slash the link began with, always reaches its file as a wikilink; as
  // a Markdown link it does exactly when no other file stands at the same place relative to the source.
  lemma FullPathReaches(paths: set<string>, fold: Fold, link: string, source: string, target: string)
    requires target in paths && VaultPath(target)
    ensures Reaches(paths, fold, LeadingSlash(link) + target, source, Wiki, target)
    ensures Reaches(paths, fold, LeadingSlash(link) + target, source, Markdown, target) <==>
      RelativeHits(paths, fold, LeadingSlash(link) + target, source, target)
  {
    hide SuffixMatch, Directory, LookupRelative;
    var full := LeadingSlash(link) + target;
    if "/" <= link {
      assert full[0] == '/' && full[1..] == target;
    } else {
      assert full == target;
    }
    assert StripSlashes(full) == target;
  }

  // A repair: the paths before and after, and where each file went.
  datatype Repair = Repair(before: set<string>, after: set<string>, image: map<string, string>)

  predicate Moved(r: Repair) {
    forall p :: p in r.before ==> p in r.image && r.image[p] in r.after && VaultPath(r.image[p])
  }

  function Intended(r: Repair, resolved: Resolved): string {
    if resolved.path in r.image then r.image[resolved.path] else resolved.path
  }

  // The new target of a link, or none to leave it. `keep` says that the link spells its extension.
  function Rewritten(r: Repair, fold: Fold, keep: bool, link: string, sourceOld: string, sourceNew: string, style: Style): Option<string> {
    var resolved := Resolve(r.before, fold, link, sourceOld, style);
    if resolved.None? then None
    else
      var intended := Intended(r, resolved.value);
      if Reaches(r.after, fold, link, sourceNew, style, intended) then None
      else
        var candidates := Candidates(link, resolved.value.form, Directory(sourceNew), intended, keep);
        var found := FirstReaching(r.after, fold, candidates, sourceNew, style, intended);
        if found.Some? then found else Some(LeadingSlash(link) + intended)
  }

  function Final(link: string, replacement: Option<string>): string {
    if replacement.Some? then replacement.value else link
  }

  // The link, as it stood or as one of the candidates, can reach its file.
  predicate SomeTextReaches(r: Repair, fold: Fold, keep: bool, link: string, resolved: Resolved, source: string, style: Style) {
    var intended := Intended(r, resolved);
    || Reaches(r.after, fold, link, source, style, intended)
    || exists c :: c in Candidates(link, resolved.form, Directory(source), intended, keep) && Reaches(r.after, fold, c, source, style, intended)
  }

  // A link that resolved before the repair, and what it reaches afterwards, replaced or not: a wikilink the
  // image of its file; a Markdown link the image exactly when the old text or some candidate does, or no
  // other file stands where the full path is read relative to the source. Where nothing moved, no link is
  // replaced.
  lemma LinkPreserved(r: Repair, fold: Fold, keep: bool, link: string, sourceOld: string, sourceNew: string, style: Style)
    requires Moved(r) && Resolve(r.before, fold, link, sourceOld, style).Some?
    ensures var resolved := Resolve(r.before, fold, link, sourceOld, style).value;
      var final := Final(link, Rewritten(r, fold, keep, link, sourceOld, sourceNew, style));
      && resolved.path in r.image && Intended(r, resolved) == r.image[resolved.path]
      && (Reaches(r.after, fold, final, sourceNew, style, Intended(r, resolved)) <==>
          || style == Wiki
          || SomeTextReaches(r, fold, keep, link, resolved, sourceNew, style)
          || RelativeHits(r.after, fold, LeadingSlash(link) + Intended(r, resolved), sourceNew, Intended(r, resolved)))
    ensures r.before == r.after && sourceOld == sourceNew && (forall p :: p in r.before ==> r.image[p] == p) ==>
      Rewritten(r, fold, keep, link, sourceOld, sourceNew, style).None?
  {
    hide Resolve, Candidates, VaultPath, RelativeHits, FirstReaching;
    ResolvesInside(r.before, fold, link, sourceOld, style);
    var resolved := Resolve(r.before, fold, link, sourceOld, style).value;
    var intended := Intended(r, resolved);
    FirstReachingFinds(r.after, fold, Candidates(link, resolved.form, Directory(sourceNew), intended, keep), sourceNew, style, intended);
    FullPathReaches(r.after, fold, link, sourceNew, intended);
  }

  method RewriteTarget(r: Repair, fold: Fold, keep: bool, link: string, sourceOld: string, sourceNew: string, style: Style)
    returns (replacement: Option<string>)
    requires Moved(r)
    ensures replacement == Rewritten(r, fold, keep, link, sourceOld, sourceNew, style)
    ensures var before := Resolve(r.before, fold, link, sourceOld, style);
      && (before.None? ==> replacement.None?)
      && (before.Some? && style == Wiki ==>
        before.value.path in r.image && Reaches(r.after, fold, Final(link, replacement), sourceNew, style, r.image[before.value.path]))
  {
    hide Resolve, Candidates, VaultPath, FirstReaching, SomeTextReaches, RelativeHits;
    var resolved := Resolve(r.before, fold, link, sourceOld, style);
    if resolved.None? {
      return None;
    }
    LinkPreserved(r, fold, keep, link, sourceOld, sourceNew, style);
    var intended := Intended(r, resolved.value);
    if Reaches(r.after, fold, link, sourceNew, style, intended) {
      return None;
    }
    var candidates := Candidates(link, resolved.value.form, Directory(sourceNew), intended, keep);
    var found := FindReaching(r.after, fold, candidates, sourceNew, style, intended);
    if found.Some? {
      return found;
    }
    return Some(LeadingSlash(link) + intended);
  }

  // ----- A Markdown link that is lost -----

  // A name in a directory with a name.
  lemma InDirectory(directory: string, name: string)
    requires Name(directory) && Name(name)
    ensures Directory(directory + "/" + name) == directory && Basename(directory + "/" + name) == name && Basename(name) == name
    ensures Normalized(directory, name) == directory + "/" + name
  {
    SplitName(name);
    SplitName(directory);
    SplitConcat(directory, name);
    var parts := [directory, name];
    assert Split(directory + "/" + name) == parts && parts[..1] == [directory] && parts[1..] == [name];
    assert Collapsed([name], [directory]) == [directory] + [name] by {
      assert [name][1..] == [];
    }
    assert [] + [directory] == [directory] && [directory] + [name] == parts;
    assert Collapsed(parts, []) == Collapsed([name], [directory]);
    assert Join(parts) == directory + "/" + name;
    assert name[|name| - 1] in name;
  }

  // A folding that changes nothing.
  function Unfolded(s: string): string {
    s
  }

  // Nothing is found under a name that no path has and that ends no path.
  lemma NotFound(paths: set<string>, link: string)
    requires link !in paths && link + ".md" !in paths
    ensures Lookup(paths, Unfolded, link).None?
  {
    assert WithKey(paths, Unfolded, link) == {};
    assert WithKey(paths, Unfolded, link + ".md") == {};
  }

  lemma NoSuffix(paths: set<string>, link: string, directory: string)
    requires Name(link) && Name(link + ".md")
    requires forall p :: p in paths ==> Basename(p) != link && Basename(p) != link + ".md"
    ensures SuffixMatch(paths, Unfolded, link, directory).None?
  {
    hide Split;
    assert Basename(link) == link by { InDirectory("d", link); }
    assert Basename(link + ".md") == link + ".md" by { InDirectory("d", link + ".md"); }
    assert SuffixMatches(paths, Unfolded, link) == {};
  }

  function LostLink(): Repair {
    Repair({"a?b.md", "d/s.md", "d/ab.md"}, {"ab.md", "d/s.md", "d/ab.md"},
           map["a?b.md" := "ab.md", "d/s.md" := "d/s.md", "d/ab.md" := "d/ab.md"])
  }

  lemma LostMoved()
    ensures Moved(LostLink())
  {
    forall p | p in LostLink().before
      ensures VaultPath(LostLink().image[p])
    {
      assert p == "a?b.md" || p == "d/s.md" || p == "d/ab.md";
      assert LostLink().image[p][0] == 'a' || LostLink().image[p][0] == 'd';
    }
  }

  // A link that begins with neither a dot nor a slash.
  lemma Bare(link: string)
    requires link != "" && link[0] != '.' && link[0] != '/'
    ensures !ExplicitlyRelative(link) && !Escapes(link) && StripSlashes(link) == link && LeadingSlash(link) == ""
  {
  }

  lemma LostResolves()
    ensures Resolve(LostLink().before, Unfolded, "a?b.md", "d/s.md", Markdown) == Some(Resolved("a?b.md", Absolute))
  {
    hide Split, Normalized, Directory, Lookup, ExplicitlyRelative, Escapes, StripSlashes;
    InDirectory("d", "s.md");
    InDirectory("d", "a?b.md");
    assert "d" + "/" + "s.md" == "d/s.md" && "d" + "/" + "a?b.md" == "d/a?b.md";
    Bare("a?b.md");
    Bare("d/a?b.md");
    NotFound(LostLink().before, "d/a?b.md");
    assert Lookup(LostLink().before, Unfolded, "a?b.md") == Some("a?b.md") by { FoundExactly(LostLink().before, "a?b.md"); }
  }

  lemma FoundExactly(paths: set<string>, path: string)
    requires path in paths
    ensures Lookup(paths, Unfolded, path) == Some(path)
  {
  }

  lemma LostAfterwards()
    ensures Resolve(LostLink().after, Unfolded, "a?b.md", "d/s.md", Markdown).None?
    ensures Resolve(LostLink().after, Unfolded, "ab.md", "d/s.md", Markdown) == Some(Resolved("d/ab.md", Relative))
  {
    hide Split, Normalized, Directory, Lookup, SuffixMatch, Basename, ExplicitlyRelative, Escapes, StripSlashes;
    var paths := LostLink().after;
    InDirectory("d", "s.md");
    InDirectory("d", "a?b.md");
    InDirectory("d", "ab.md");
    assert "d" + "/" + "s.md" == "d/s.md" && "d" + "/" + "a?b.md" == "d/a?b.md" && "d" + "/" + "ab.md" == "d/ab.md";
    Bare("a?b.md");
    Bare("ab.md");
    Bare("d/a?b.md");
    Bare("d/ab.md");
    NotFound(paths, "d/a?b.md");
    NotFound(paths, "a?b.md");
    NoSuffix(paths, "a?b.md", "d");
    FoundExactly(paths, "d/ab.md");
  }

  // The file "a?b.md" moves to "ab.md", but a Markdown link to it from "d/s.md" is rewritten to text that
  // reaches "d/ab.md", another file.
  lemma MarkdownLinkLost()
    ensures Moved(LostLink())
    ensures Rewritten(LostLink(), Unfolded, true, "a?b.md", "d/s.md", "d/s.md", Markdown) == Some("ab.md")
    ensures !Reaches(LostLink().after, Unfolded, "ab.md", "d/s.md", Markdown, "ab.md")
    ensures Reaches(LostLink().after, Unfolded, "ab.md", "d/s.md", Markdown, "d/ab.md")
  {
    hide Resolve, Directory, RelativeLink, Tails;
    LostMoved();
    LostResolves();
    LostAfterwards();
    var candidates := Candidates("a?b.md", Absolute, Directory("d/s.md"), "ab.md", true);
    Bare("a?b.md");
    assert "" + "ab.md" == "ab.md" && [] + ["ab.md"] == ["ab.md"];
    assert candidates == ["ab.md"];
    assert candidates[1..] == [];
  }
}
