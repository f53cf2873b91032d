// Directory intents: their replay, the compaction the server sends instead of them, and the difference of
// two snapshots as intents (src/server/app.ts, src/server/metadataStore.ts).
module DirectoryReplay {
  import opened Common
  import opened Json
  import L = LinkRewrite

  datatype Intent = Create(path: string) | Delete(path: string)

  // A delete of `q` takes `q` and everything below it.
  predicate Covers(q: string, p: string) {
    p == q || q + "/" <= p
  }

  // A path is below another, or is it, exactly when its segments begin with the other's.
  lemma CoversSegments(q: string, p: string)
    ensures Covers(q, p) <==> L.Split(q) <= L.Split(p)
  {
    if q + "/" <= p {
      assert p == q + "/" + p[|q| + 1..];
      L.SplitConcat(q, p[|q| + 1..]);
    }
    if L.Split(q) <= L.Split(p) {
      SegmentsCover(q, p);
    }
  }

  lemma {:induction false} SegmentsCover(q: string, p: string)
    requires L.Split(q) <= L.Split(p)
    ensures Covers(q, p)
  {
    var a, b := L.Split(q), L.Split(p);
    assert a[0] == b[0];
    if q == [] {
      assert p == [] || p[0] == '/';
    } else if p != [] {
      var c, d := L.Split(q[1..]), L.Split(p[1..]);
      assert q == [q[0]] + q[1..] && p == [p[0]] + p[1..];
      if q[0] == '/' {
        assert p[0] == '/';
        assert a[1..] == c && b[1..] == d;
      } else {
        assert |b[0]| > 0 && a[0][0] == q[0];
        assert p[0] == q[0];
        assert a[0][1..] == c[0] && b[0][1..] == d[0];
        assert a[1..] == c[1..] && b[1..] == d[1..];
        assert c == [c[0]] + c[1..] && d == [d[0]] + d[1..];
      }
      SegmentsCover(q[1..], p[1..]);
    }
  }

  lemma CoversTransitive(a: string, b: string, c: string)
    requires Covers(a, b) && Covers(b, c)
    ensures Covers(a, c)
  {
    if a != b && b != c {
      var prefix := a + "/";
      assert prefix == b[..|prefix|];
      assert b == (b + "/")[..|b|] == c[..|b|];
      assert prefix == c[..|prefix|];
    }
  }

  function Apply(dirs: set<string>, x: Intent): set<string> {
    match x
    case Create(path) => dirs + {path}
    case Delete(path) => set p | p in dirs && !Covers(path, p)
  }

  function Replay(intents: seq<Intent>, dirs: set<string>): set<string>
    decreases |intents|
  {
    if intents == [] then dirs else Replay(intents[1..], Apply(dirs, intents[0]))
  }

  // ----- Compaction -----

  type Standing = map<string, Intent>

  function Drop(standing: Standing, q: string): Standing {
    map p | p in standing && !Covers(q, p) :: standing[p]
  }

  function Stand(standing: Standing, x: Intent): Standing {
    (if x.Delete? then Drop(standing, x.path) else standing)[x.path := x]
  }

  // The last word on each path that no later delete of an ancestor took back.
  function Compact(intents: seq<Intent>, standing: Standing): Standing
    decreases |intents|
  {
    if intents == [] then standing else Compact(intents[1..], Stand(standing, intents[0]))
  }

  predicate Keyed(standing: Standing) {
    forall p :: p in standing ==> standing[p].path == p
  }

  function Created(standing: Standing): set<string> {
    set p | p in standing && standing[p] == Create(p)
  }

  predicate DeletedIn(standing: Standing, p: string) {
    exists q :: q in standing && standing[q] == Delete(q) && Covers(q, p)
  }

  // The base paths some delete of the list covers.
  function Gone(intents: seq<Intent>, base: set<string>, gone: set<string>): set<string>
    decreases |intents|
  {
    if intents == [] then gone
    else Gone(intents[1..], base, gone + (if intents[0].Delete? then set p | p in base && Covers(intents[0].path, p) else {}))
  }

  // ----- A compacted list -----

  // Any order in which a directory comes before what lies below it; the source sorts by path.
  predicate AncestorsFirst(list: seq<Intent>) {
    forall i, j :: 0 <= i < j < |list| ==> !Covers(list[j].path, list[i].path)
  }

  ghost predicate Lists(list: seq<Intent>, standing: Standing) {
    && AncestorsFirst(list)
    && forall x :: x in list <==> x.path in standing && standing[x.path] == x
  }

  predicate DeletedBy(list: seq<Intent>, p: string) {
    exists x :: x in list && x.Delete? && Covers(x.path, p)
  }

  // Replaying such a list: what it creates, and what of the base no delete in it covers.
  lemma {:induction false} ReplayMeans(list: seq<Intent>, dirs: set<string>)
    requires AncestorsFirst(list)
    ensures forall p :: p in Replay(list, dirs) <==> Create(p) in list || (p in dirs && !DeletedBy(list, p))
    decreases |list|
  {
    hide Covers;
    if list != [] {
      var x, rest := list[0], list[1..];
      assert list == [x] + rest;
      ReplayMeans(rest, Apply(dirs, x));
      forall p
        ensures p in Replay(list, dirs) <==> Create(p) in list || (p in dirs && !DeletedBy(list, p))
      {
        DeletedByCons(x, rest, p);
        NotDeletedLater(x, rest);
      }
    }
  }

  lemma DeletedByCons(x: Intent, rest: seq<Intent>, p: string)
    ensures DeletedBy([x] + rest, p) <==> (x.Delete? && Covers(x.path, p)) || DeletedBy(rest, p)
  {
    hide Covers;
    assert forall y :: y in [x] + rest <==> y == x || y in rest;
  }

  lemma NotDeletedLater(x: Intent, rest: seq<Intent>)
    requires AncestorsFirst([x] + rest)
    ensures !DeletedBy(rest, x.path)
  {
    hide Covers;
    var list := [x] + rest;
    forall i | 0 <= i < |rest|
      ensures !Covers(rest[i].path, x.path)
    {
      assert list[i + 1] == rest[i] && list[0] == x;
    }
  }

  // ----- Compacting -----

  lemma StandKeyed(standing: Standing, x: Intent)
    requires Keyed(standing)
    ensures Keyed(Stand(standing, x))
  {
    hide Covers;
  }

  lemma {:induction false} CompactKeyed(intents: seq<Intent>, standing: Standing)
    requires Keyed(standing)
    ensures Keyed(Compact(intents, standing))
    decreases |intents|
  {
    hide Stand, Keyed;
    if intents != [] {
      StandKeyed(standing, intents[0]);
      CompactKeyed(intents[1..], Stand(standing, intents[0]));
    }
  }

  lemma StandCreated(standing: Standing, x: Intent)
    requires Keyed(standing)
    ensures Created(Stand(standing, x)) == Apply(Created(standing), x)
  {
    hide Covers;
    if x.Delete? {
      assert Covers(x.path, x.path) by { CoversItself(x.path); }
    }
  }

  lemma CoversItself(p: string)
    ensures Covers(p, p)
  {
  }

  // The plain replay holds what stands created, and what of the base was never covered by a delete.
  lemma {:induction false} ReplayPlain(intents: seq<Intent>, standing: Standing, base: set<string>, gone: set<string>)
    requires Keyed(standing) && gone <= base
    ensures Replay(intents, Created(standing) + (base - gone)) ==
      Created(Compact(intents, standing)) + (base - Gone(intents, base, gone))
    decreases |intents|
  {
    hide Stand, Created, Covers, Keyed;
    if intents != [] {
      var x, rest := intents[0], intents[1..];
      var next := gone + (if x.Delete? then set p | p in base && Covers(x.path, p) else {});
      StandKeyed(standing, x);
      StandCreated(standing, x);
      ReplayStep(Created(standing), base, gone, x);
      ReplayPlain(rest, Stand(standing, x), base, next);
    }
  }

  lemma ReplayStep(created: set<string>, base: set<string>, gone: set<string>, x: Intent)
    ensures var next := gone + (if x.Delete? then set p | p in base && Covers(x.path, p) else {});
      Apply(created + (base - gone), x) == Apply(created, x) + (base - next)
  {
    hide Covers;
  }

  lemma ReplayListed(list: seq<Intent>, standing: Standing, base: set<string>)
    requires Lists(list, standing) && Keyed(standing)
    ensures Replay(list, base) == Created(standing) + set p | p in base && !DeletedIn(standing, p)
  {
    hide Covers, Replay;
    ReplayMeans(list, base);
    forall p
      ensures Create(p) in list <==> p in Created(standing)
      ensures DeletedBy(list, p) <==> DeletedIn(standing, p)
    {
      DeletedListed(list, standing, p);
    }
  }

  lemma DeletedListed(list: seq<Intent>, standing: Standing, p: string)
    requires Lists(list, standing) && Keyed(standing)
    ensures DeletedBy(list, p) <==> DeletedIn(standing, p)
  {
    hide Covers, AncestorsFirst;
    if q :| q in standing && standing[q] == Delete(q) && Covers(q, p) {
      assert standing[q] in list;
    }
  }

  // From nothing, replaying the compacted list in order equals replaying the events, so the snapshot built
  // from compacted events and the one built from the events themselves are the same.
  lemma SnapshotsAgree(intents: seq<Intent>, list: seq<Intent>)
    requires Lists(list, Compact(intents, map[]))
    ensures Replay(list, {}) == Replay(intents, {})
  {
    hide Compact, Replay, Lists;
    CompactKeyed(intents, map[]);
    ReplayListed(list, Compact(intents, map[]), {});
    PlainFromBase(intents, {});
    assert (set p | p in {} && !DeletedIn(Compact(intents, map[]), p)) == {};
  }

  lemma {:induction false} GoneFromNothing(intents: seq<Intent>, base: set<string>, gone: set<string>)
    requires gone <= base
    ensures gone <= Gone(intents, base, gone) <= base
    decreases |intents|
  {
    hide Covers;
    if intents != [] {
      GoneFromNothing(intents[1..], base, gone + (if intents[0].Delete? then set p | p in base && Covers(intents[0].path, p) else {}));
    }
  }

  // A base directory that a delete took and that the compacted list neither deletes nor creates: a directory
  // above it was created again since.
  predicate Resurfaces(intents: seq<Intent>, base: set<string>, p: string) {
    var standing := Compact(intents, map[]);
    p in Gone(intents, base, {}) && p !in Created(standing) && !DeletedIn(standing, p)
  }

  lemma StandDeletes(standing: Standing, x: Intent, p: string)
    requires Keyed(standing) && DeletedIn(Stand(standing, x), p)
    ensures (x.Delete? && Covers(x.path, p)) || DeletedIn(standing, p)
  {
    hide Covers;
  }

  // What the compacted list deletes of the base, some delete of the events had covered.
  lemma {:induction false} DeletedWasGone(intents: seq<Intent>, standing: Standing, base: set<string>, gone: set<string>, p: string)
    requires Keyed(standing) && p in base && (DeletedIn(standing, p) ==> p in gone)
    ensures DeletedIn(Compact(intents, standing), p) ==> p in Gone(intents, base, gone)
    decreases |intents|
  {
    hide Stand, Covers, DeletedIn, Keyed;
    if intents != [] {
      var x := intents[0];
      StandKeyed(standing, x);
      if DeletedIn(Stand(standing, x), p) {
        StandDeletes(standing, x, p);
      }
      DeletedWasGone(intents[1..], Stand(standing, x), base,
                     gone + (if x.Delete? then set q | q in base && Covers(x.path, q) else {}), p);
    }
  }

  // From a base, the compacted replay equals the plain one exactly when no base directory resurfaces.
  lemma BaseReplayExactly(intents: seq<Intent>, list: seq<Intent>, base: set<string>)
    requires Lists(list, Compact(intents, map[]))
    ensures Replay(list, base) == Replay(intents, base) <==> forall p :: p in base ==> !Resurfaces(intents, base, p)
  {
    hide Compact, Replay, Lists, Gone, DeletedIn, Created;
    var standing := Compact(intents, map[]);
    CompactKeyed(intents, map[]);
    ReplayListed(list, standing, base);
    PlainFromBase(intents, base);
    forall p | p in base
      ensures DeletedIn(standing, p) ==> p in Gone(intents, base, {})
    {
      NoneStanding(p);
      DeletedWasGone(intents, map[], base, {}, p);
    }
    var listed, plain := Replay(list, base), Replay(intents, base);
    forall p
      ensures (p in listed <==> p in plain) <==> (p in base ==> !Resurfaces(intents, base, p))
    {
    }
  }

  lemma NoneStanding(p: string)
    ensures !DeletedIn(map[], p)
  {
  }

  lemma PlainFromBase(intents: seq<Intent>, base: set<string>)
    ensures Replay(intents, base) == Created(Compact(intents, map[])) + (base - Gone(intents, base, {}))
  {
    hide Replay, Compact, Gone;
    ReplayPlain(intents, map[], base, {});
    assert Created(map[]) + (base - {}) == base;
  }

  predicate HasBelow(q: string, base: set<string>) {
    exists p :: p in base && p != q && Covers(q, p)
  }

  // No directory with base directories below it is created again after the list deleted it.
  predicate NeverRecreated(intents: seq<Intent>, base: set<string>, deleted: set<string>)
    decreases |intents|
  {
    intents == [] || (
      var x := intents[0];
      (x.Create? && x.path in deleted ==> !HasBelow(x.path, base))
      && NeverRecreated(intents[1..], base, if x.Delete? then deleted + {x.path} else deleted))
  }

  predicate Accounted(standing: Standing, p: string) {
    (p in standing && standing[p] == Create(p)) || DeletedIn(standing, p)
  }

  lemma DeleteAccounts(standing: Standing, x: Intent, p: string)
    requires Keyed(standing) && x.Delete? && (Covers(x.path, p) || Accounted(standing, p))
    ensures Accounted(Stand(standing, x), p)
  {
    var next := Stand(standing, x);
    if Covers(x.path, p) {
      assert next[x.path] == Delete(x.path);
    } else if p in standing && standing[p] == Create(p) {
      assert next[p] == Create(p);
    } else {
      var q :| q in standing && standing[q] == Delete(q) && Covers(q, p);
      if Covers(x.path, q) {
        CoversTransitive(x.path, q, p);
      }
      assert next[q] == Delete(q);
    }
  }

  lemma CreateAccounts(standing: Standing, x: Intent, base: set<string>, p: string)
    requires Keyed(standing) && x.Create? && Accounted(standing, p) && p in base
    requires x.path in standing && standing[x.path] == Delete(x.path) ==> !HasBelow(x.path, base)
    ensures Accounted(Stand(standing, x), p)
  {
    hide Covers;
    var next := Stand(standing, x);
    if p == x.path || (p in standing && standing[p] == Create(p)) {
      assert next[p] == Create(p);
    } else {
      var q :| q in standing && standing[q] == Delete(q) && Covers(q, p);
      assert next[q] == Delete(q);
    }
  }

  predicate DeletesKnown(standing: Standing, deleted: set<string>) {
    forall q :: q in standing && standing[q].Delete? ==> q in deleted
  }

  lemma {:induction false} RecreationAlone(intents: seq<Intent>, standing: Standing, base: set<string>, gone: set<string>, deleted: set<string>, p: string)
    requires Keyed(standing) && NeverRecreated(intents, base, deleted) && DeletesKnown(standing, deleted)
    requires p in base && (p in gone ==> Accounted(standing, p))
    ensures p in Gone(intents, base, gone) ==> Accounted(Compact(intents, standing), p)
    decreases |intents|
  {
    hide Covers, Accounted, Keyed, HasBelow;
    if intents != [] {
      var x := intents[0];
      var next := gone + (if x.Delete? then set q | q in base && Covers(x.path, q) else {});
      StandKeyed(standing, x);
      if p in next {
        if x.Delete? {
          DeleteAccounts(standing, x, p);
        } else {
          CreateAccounts(standing, x, base, p);
        }
      }
      RecreationAlone(intents[1..], Stand(standing, x), base, next, if x.Delete? then deleted + {x.path} else deleted, p);
    }
  }

  // So it is enough that no directory with base directories below it is deleted and then created again.
  lemma BaseReplayAgrees(intents: seq<Intent>, list: seq<Intent>, base: set<string>)
    requires Lists(list, Compact(intents, map[])) && NeverRecreated(intents, base, {})
    ensures Replay(list, base) == Replay(intents, base)
  {
    hide Covers, DeletedIn, Gone, Compact, NeverRecreated, Replay, Lists;
    forall p | p in base
      ensures !Resurfaces(intents, base, p)
    {
      RecreationAlone(intents, map[], base, {}, {}, p);
    }
    BaseReplayExactly(intents, list, base);
  }

  // Deleted and created again, a directory loses what was below it; the compacted list only creates it.
  lemma RecreationResurfaces()
    ensures var intents := [Delete("a"), Create("a")];
      && Compact(intents, map[]) == map["a" := Create("a")]
      && Replay(intents, {"a", "a/b"}) == {"a"} && Replay([Create("a")], {"a", "a/b"}) == {"a", "a/b"}
  {
    var intents := [Delete("a"), Create("a")];
    assert intents[1..] == [Create("a")];
    assert Covers("a", "a/b");
    assert Apply({"a", "a/b"}, Delete("a")) == {};
    assert Replay([Create("a")], {}) == {"a"};
  }

  // ----- The difference of two snapshots -----

  // The paths only `previous` has, without those below another of them.
  predicate Topmost(previous: set<string>, current: set<string>, p: string) {
    p in previous - current && forall q :: q in previous - current && q != p ==> !Covers(q, p)
  }

  function Between(previous: set<string>, current: set<string>): Standing {
    (map p | p in previous && Topmost(previous, current, p) :: Delete(p)) + (map p | p in current - previous :: Create(p))
  }

  lemma CoversShorter(q: string, p: string)
    requires Covers(q, p) && q != p
    ensures |q| < |p|
  {
  }

  lemma {:induction false} TopmostAbove(previous: set<string>, current: set<string>, p: string)
    requires p in previous - current
    ensures exists q :: q in previous && Topmost(previous, current, q) && Covers(q, p)
    decreases |p|
  {
    hide Covers;
    CoversItself(p);
    if !Topmost(previous, current, p) {
      var q :| q in previous - current && q != p && Covers(q, p);
      CoversShorter(q, p);
      TopmostAbove(previous, current, q);
      var top :| top in previous && Topmost(previous, current, top) && Covers(top, q);
      CoversTransitive(top, q, p);
    }
  }

  lemma BetweenDeletes(previous: set<string>, current: set<string>, p: string)
    ensures DeletedIn(Between(previous, current), p) <==> exists q :: q in previous - current && Covers(q, p)
  {
    hide Covers;
    var diff := Between(previous, current);
    if q :| q in previous - current && Covers(q, p) {
      TopmostAbove(previous, current, q);
      var top :| top in previous && Topmost(previous, current, top) && Covers(top, q);
      CoversTransitive(top, q, p);
      assert diff[top] == Delete(top);
    }
    if q :| q in diff && diff[q] == Delete(q) && Covers(q, p) {
      assert q in previous - current;
    }
  }

  lemma BetweenCreates(previous: set<string>, current: set<string>)
    ensures Created(Between(previous, current)) == current - previous && Keyed(Between(previous, current))
  {
    hide Covers, Topmost;
  }

  // Replaying the difference on the first snapshot gives the second exactly when no directory of both lies
  // below one that only the first has.
  lemma BetweenExactly(previous: set<string>, current: set<string>, list: seq<Intent>)
    requires Lists(list, Between(previous, current))
    ensures Replay(list, previous) == current <==>
      forall p, q :: p in previous * current && q in previous - current ==> !Covers(q, p)
  {
    hide Covers, Between, Replay, Lists;
    BetweenCreates(previous, current);
    ReplayListed(list, Between(previous, current), previous);
    forall p
      ensures DeletedIn(Between(previous, current), p) <==> exists q :: q in previous - current && Covers(q, p)
    {
      BetweenDeletes(previous, current, p);
    }
    forall p
      ensures p in previous - current ==> p !in Replay(list, previous)
    {
      CoversItself(p);
    }
  }

  // ----- Sorting by path -----

  lemma {:induction false} PrefixLeq(a: string, b: string)
    requires a <= b
    ensures Leq(a, b)
  {
    if a != [] {
      PrefixLeq(a[1..], b[1..]);
    }
  }

  lemma NotAfter(a: string, b: string)
    requires a != b && Leq(a, b)
    ensures !Covers(b, a)
  {
    hide Leq;
    if Covers(b, a) {
      assert b == (b + "/")[..|b|] == a[..|b|];
      PrefixLeq(b, a);
      LeqAntisymmetric(a, b);
    }
  }

  function IntentAt(standing: Standing, p: string): Intent {
    if p in standing then standing[p] else Delete(p)
  }

  // The standing intents in path order. The source orders by locale; either order puts a path before the
  // paths below it.
  function SortedIntents(standing: Standing): seq<Intent> {
    var keys := Sorted(standing.Keys);
    seq(|keys|, i requires 0 <= i < |keys| => IntentAt(standing, keys[i]))
  }

  lemma SortedLists(standing: Standing)
    requires Keyed(standing)
    ensures Lists(SortedIntents(standing), standing)
  {
    hide Leq, Covers, Sorted;
    var keys, list := Sorted(standing.Keys), SortedIntents(standing);
    forall i | 0 <= i < |keys|
      ensures keys[i] in standing && list[i].path == keys[i]
    {
      assert keys[i] in keys;
    }
    forall i, j | 0 <= i < j < |list|
      ensures !Covers(list[j].path, list[i].path)
    {
      SortedOrder(standing.Keys, i, j);
      NotAfter(keys[i], keys[j]);
    }
    forall x: Intent | x.path in standing && standing[x.path] == x
      ensures x in list
    {
      var i :| 0 <= i < |keys| && keys[i] == x.path;
      assert list[i] == x;
    }
  }

  // ----- The loops -----

  method DropUnder(standing: Standing, q: string) returns (left: Standing)
    ensures left == Drop(standing, q)
  {
    hide Covers;
    left := standing;
    var rest := standing.Keys;
    while rest != {}
      invariant rest <= standing.Keys
      invariant left == map p | p in standing && (p in rest || !Covers(q, p)) :: standing[p]
      decreases |rest|
    {
      var path := First(rest);
      if Covers(q, path) {
        left := left - {path};
      }
      rest := rest - {path};
    }
  }

  method CompactDirectoryIntents(intents: seq<Intent>) returns (list: seq<Intent>)
    ensures list == SortedIntents(Compact(intents, map[])) && Lists(list, Compact(intents, map[]))
  {
    hide Drop, Lists;
    var byPath: Standing := map[];
    var i := 0;
    while i < |intents|
      invariant 0 <= i <= |intents|
      invariant Compact(intents, map[]) == Compact(intents[i..], byPath)
    {
      assert intents[i..][1..] == intents[i + 1..];
      var intent := intents[i];
      if intent.Delete? {
        byPath := DropUnder(byPath, intent.path);
      }
      byPath := byPath[intent.path := intent];
      i := i + 1;
    }
    CompactKeyed(intents, map[]);
    SortedLists(byPath);
    return SortedIntents(byPath);
  }

  method DeleteUnder(dirs: set<string>, q: string) returns (left: set<string>)
    ensures left == Apply(dirs, Delete(q))
  {
    hide Covers;
    left := dirs;
    var rest := dirs;
    while rest != {}
      invariant rest <= dirs
      invariant left == set p | p in dirs && (p in rest || !Covers(q, p))
      decreases |rest|
    {
      var candidate := First(rest);
      if Covers(q, candidate) {
        left := left - {candidate};
      }
      rest := rest - {candidate};
    }
  }

  // The loop of both snapshot implementations: one feeds it the events' intents, the other their compaction.
  method ExplicitDirectories(intents: seq<Intent>, base: set<string>) returns (dirs: set<string>)
    ensures dirs == Replay(intents, base)
  {
    hide Apply;
    dirs := base;
    var i := 0;
    while i < |intents|
      invariant 0 <= i <= |intents|
      invariant Replay(intents, base) == Replay(intents[i..], dirs)
    {
      assert intents[i..][1..] == intents[i + 1..];
      if intents[i].Delete? {
        dirs := DeleteUnder(dirs, intents[i].path);
      } else {
        CreateAdds(dirs, intents[i]);
        dirs := dirs + {intents[i].path};
      }
      i := i + 1;
    }
  }

  lemma CreateAdds(dirs: set<string>, x: Intent)
    requires x.Create?
    ensures Apply(dirs, x) == dirs + {x.path}
  {
  }

  // The difference of two snapshots, as the source computes it.
  method DirectoryIntentsBetween(previous: seq<string>, current: seq<string>) returns (list: seq<Intent>)
    ensures Lists(list, Between(Members(previous), Members(current)))
  {
    hide Covers, Lists, Between, Topmost, Compact;
    var intents: seq<Intent> := [];
    var before, after := Members(previous), Members(current);
    var i := 0;
    while i < |previous|
      invariant 0 <= i <= |previous|
      invariant DeletesOf(intents, before, after, previous[..i])
    {
      if Topmost(before, after, previous[i]) {
        intents := intents + [Delete(previous[i])];
      }
      assert previous[..i + 1] == previous[..i] + [previous[i]];
      i := i + 1;
    }
    assert previous[..i] == previous;
    ghost var deletes := intents;
    i := 0;
    while i < |current|
      invariant 0 <= i <= |current|
      invariant intents == deletes + CreatesOf(before, current[..i])
    {
      assert current[..i + 1] == current[..i] + [current[i]];
      CreatesAppend(before, current[..i], current[i]);
      if current[i] !in before {
        intents := intents + [Create(current[i])];
      }
      i := i + 1;
    }
    assert current[..i] == current;
    CompactedDifference(deletes, previous, current);
    list := CompactDirectoryIntents(intents);
  }

  function Members(s: seq<string>): set<string> {
    set p | p in s
  }

  predicate DeletesOf(intents: seq<Intent>, before: set<string>, after: set<string>, paths: seq<string>) {
    && (forall x :: x in intents ==> x.Delete? && x.path in paths && Topmost(before, after, x.path))
    && (forall p :: p in paths && Topmost(before, after, p) ==> Delete(p) in intents)
  }

  function CreatesOf(before: set<string>, paths: seq<string>): seq<Intent> {
    if paths == [] then [] else (if paths[0] !in before then [Create(paths[0])] else []) + CreatesOf(before, paths[1..])
  }

  lemma {:induction false} CreatesAppend(before: set<string>, paths: seq<string>, p: string)
    ensures CreatesOf(before, paths + [p]) == CreatesOf(before, paths) + (if p !in before then [Create(p)] else [])
  {
    if paths == [] {
      assert [] + [p] == [p];
    } else {
      CreatesAppend(before, paths[1..], p);
      assert (paths + [p])[1..] == paths[1..] + [p];
    }
  }

  lemma {:induction false} CompactConcat(a: seq<Intent>, b: seq<Intent>, standing: Standing)
    ensures Compact(a + b, standing) == Compact(b, Compact(a, standing))
    decreases |a|
  {
    hide Stand;
    if a == [] {
      assert a + b == b;
    } else {
      CompactConcat(a[1..], b, Stand(standing, a[0]));
      assert (a + b)[1..] == a[1..] + b;
    }
  }

  // Deletes of which none lies below another all stand.
  lemma {:induction false} CompactDeletes(deletes: seq<Intent>, all: set<string>, standing: Standing)
    requires forall x :: x in deletes ==> x.Delete? && x.path in all
    requires forall p :: p in standing ==> p in all && standing[p] == Delete(p)
    requires forall p, q :: p in all && q in all && p != q ==> !Covers(q, p)
    ensures var end := Compact(deletes, standing);
      && (forall p :: p in end <==> p in standing || Delete(p) in deletes)
      && forall p :: p in end ==> end[p] == Delete(p)
    decreases |deletes|
  {
    hide Covers;
    if deletes != [] {
      var x, rest := deletes[0], deletes[1..];
      assert deletes == [x] + rest;
      assert Stand(standing, x) == standing[x.path := x];
      CompactDeletes(rest, all, standing[x.path := x]);
    }
  }

  lemma {:induction false} CompactCreates(before: set<string>, paths: seq<string>, standing: Standing)
    ensures var end := Compact(CreatesOf(before, paths), standing);
      && (forall p :: p in end <==> p in standing || (p in paths && p !in before))
      && (forall p :: p in paths && p !in before ==> p in end && end[p] == Create(p))
      && (forall p :: p in standing && !(p in paths && p !in before) ==> p in end && end[p] == standing[p])
    decreases |paths|
  {
    hide Covers;
    if paths != [] {
      var p, rest := paths[0], paths[1..];
      assert paths == [p] + rest;
      if p !in before {
        assert CreatesOf(before, paths) == [Create(p)] + CreatesOf(before, rest);
        assert ([Create(p)] + CreatesOf(before, rest))[1..] == CreatesOf(before, rest);
        CompactCreates(before, rest, standing[p := Create(p)]);
      } else {
        assert CreatesOf(before, paths) == CreatesOf(before, rest);
        CompactCreates(before, rest, standing);
      }
    }
  }

  lemma CompactedDifference(deletes: seq<Intent>, previous: seq<string>, current: seq<string>)
    requires DeletesOf(deletes, Members(previous), Members(current), previous)
    ensures Compact(deletes + CreatesOf(Members(previous), current), map[]) == Between(Members(previous), Members(current))
  {
    hide Covers, Compact, CreatesOf;
    var before, after := Members(previous), Members(current);
    var all := set p | p in before && Topmost(before, after, p);
    CompactConcat(deletes, CreatesOf(before, current), map[]);
    CompactDeletes(deletes, all, map[]);
    var standing := Compact(deletes, map[]);
    CompactCreates(before, current, standing);
    var end := Compact(CreatesOf(before, current), standing);
    forall p
      ensures p in end <==> p in Between(before, after)
      ensures p in end && p in Between(before, after) ==> end[p] == Between(before, after)[p]
    {
    }
    SameStanding(end, Between(before, after));
  }

  lemma SameStanding(a: Standing, b: Standing)
    requires forall p :: p in a <==> p in b
    requires forall p :: p in a && p in b ==> a[p] == b[p]
    ensures a == b
  {
  }
}
