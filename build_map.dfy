/**
 * `build_map` and its inner `build`: for every unit being compiled and every
 * kind, the packages whose build-script output that unit must see (their
 * `-L` flags and the like are propagated transitively along linkable
 * dependency edges).
 *
 * The dependency graph and the facts `build` asks of it (`dep_targets`,
 * `get_requirement`, `linkable`, `has_custom_build`, `Kind::for_target`) are
 * the fields of a `Context`; `rank` numbers the units so that every
 * dependency edge goes down, which is how acyclicity is stated.
 */
module ScriptDeps {
  import opened Kinds

  /** A unit of compilation: a target of a package, under a profile. */
  datatype Unit = Unit(pkg: PackageId, target: TargetId, profile: ProfileId)

  /** A memo key of `build`: `(id, target, profile, kind)`. */
  type Key = (Unit, Kind)

  /** The memo table of `build`, and the map `build_map` stores. */
  type ScriptMap = map<Key, seq<PackageId>>

  /** What `build` asks of the dependency graph. */
  datatype Context = Context(
    depTargets: (Unit, Kind) -> seq<Unit>,            // `cx.dep_targets(pkg, target, kind, profile)`
    requirement: (PackageId, TargetId) -> Platform,  // `cx.get_requirement(pkg, target)`
    linkable: TargetId -> bool,                       // `target.linkable()`
    hasCustomBuild: PackageId -> bool,                // `pkg.has_custom_build()`
    forTarget: (Kind, TargetId) -> Kind,              // `kind.for_target(target)`
    rank: Unit -> nat)                                // a numbering every edge goes down

  /** The dependency graph has no cycles: every edge goes to a lower rank. */
  ghost predicate Acyclic(cx: Context) {
    forall u, kind, d :: d in cx.depTargets(u, kind) ==> cx.rank(d) < cx.rank(u)
  }

  /**
   * The kind `build` recurses with along an edge whose requirement is `req`:
   * the current kind when the requirement includes it, the other one
   * otherwise.
   */
  function DepKind(kind: Kind, req: Platform): (r: Kind)
    ensures r == kind <==> Includes(req, kind)
    ensures r != kind ==> r == Flip(kind)
  {
    if Includes(req, kind) then kind else Flip(kind)
  }

  /** The key `build` recurses on for dependency `d` of a unit built for `kind`. */
  function DepKey(cx: Context, kind: Kind, d: Unit): Key {
    (d, cx.forTarget(DepKind(kind, cx.requirement(d.pkg, d.target)), d.target))
  }

  // ---------------------------------------------------------------------------
  // The lists `build` computes, as functions
  // ---------------------------------------------------------------------------

  /** The list `build` stores under `key` (before `build_map` sorts it). */
  function ScriptsOf(cx: Context, key: Key): seq<PackageId>
    requires Acyclic(cx)
    decreases cx.rank(key.0), 2
  {
    Collect(cx, key, cx.depTargets(key.0, key.1))
  }

  /** What the dependencies `ds` of `key` add, in order. */
  function Collect(cx: Context, key: Key, ds: seq<Unit>): seq<PackageId>
    requires Acyclic(cx)
    requires forall d :: d in ds ==> cx.rank(d) < cx.rank(key.0)
    decreases cx.rank(key.0), 1, |ds|
  {
    if ds == [] then []
    else
      var init := ds[..|ds| - 1];
      assert forall d :: d in init ==> d in ds;
      Collect(cx, key, init) + Contribution(cx, key.1, ds[|ds| - 1])
  }

  /**
   * What dependency `d` adds to a list for `kind`: nothing unless its target
   * is linkable and the edge keeps the kind; then `d`'s package if it has a
   * build script, followed by `d`'s own list.
   */
  function Contribution(cx: Context, kind: Kind, d: Unit): seq<PackageId>
    requires Acyclic(cx)
    decreases cx.rank(d), 3
  {
    var depKind := DepKind(kind, cx.requirement(d.pkg, d.target));
    if cx.linkable(d.target) && kind == depKind then
      (if cx.hasCustomBuild(d.pkg) then [d.pkg] else [])
      + ScriptsOf(cx, (d, cx.forTarget(depKind, d.target)))
    else []
  }

  /** Every entry of the memo table is the list its key calls for. */
  ghost predicate MemoValid(cx: Context, out: ScriptMap)
    requires Acyclic(cx)
  {
    forall key {:trigger out[key]} :: key in out ==> out[key] == ScriptsOf(cx, key)
  }

  /**
   * The keys of the memo table are closed under the recursion: with every
   * key, the keys of all its dependencies are there too.
   */
  ghost predicate MemoClosed(cx: Context, keys: set<Key>) {
    forall key, d :: key in keys && d in cx.depTargets(key.0, key.1) ==> DepKey(cx, key.1, d) in keys
  }

  // ---------------------------------------------------------------------------
  // `build`
  // ---------------------------------------------------------------------------

  /**
   * `build(out, kind, unit)`: the memoised depth-first traversal.  It
   * returns the list for `(unit, kind.for_target(unit.target))`, taking it
   * from the memo table when it is there and computing and storing it (and
   * the lists of everything below it) otherwise.
   */
  method Build(cx: Context, out: ScriptMap, kind: Kind, u: Unit) returns (out': ScriptMap, scripts: seq<PackageId>)
    requires Acyclic(cx) && MemoValid(cx, out) && MemoClosed(cx, out.Keys)
    ensures MemoValid(cx, out') && MemoClosed(cx, out'.Keys)
    ensures var key := (u, cx.forTarget(kind, u.target));
      key in out' && scripts == out'[key] && scripts == ScriptsOf(cx, key)
    ensures (u, cx.forTarget(kind, u.target)) in out ==> out' == out
    ensures forall key :: key in out ==> key in out'
    ensures forall key :: key in out' && key !in out ==> cx.rank(key.0) <= cx.rank(u)
    decreases cx.rank(u), 1
  {
    var k := cx.forTarget(kind, u.target);
    var key := (u, k);
    if key in out {
      return out, out[key];
    }
    var ret;
    out', ret := BuildDeps(cx, out, u, k);
    // `out.entry(key).or_insert(vec![])` finds no entry: everything stored
    // since the lookup above is of a lower rank.
    assert key !in out';
    StoreClosed(cx, out'.Keys, key);
    out' := out'[key := ret];
    scripts := ret;
  }

  /**
   * The loop of `build` over the dependencies of `u` built for `k`: it
   * recurses on each with the kind `DepKind` gives, and adds what the linkable
   * ones with the same kind contribute.  Everything it stores is of a lower
   * rank than `u`, and the keys of all the dependencies end up stored.
   */
  method BuildDeps(cx: Context, out: ScriptMap, u: Unit, k: Kind) returns (out': ScriptMap, ret: seq<PackageId>)
    requires Acyclic(cx) && MemoValid(cx, out) && MemoClosed(cx, out.Keys)
    ensures MemoValid(cx, out') && MemoClosed(cx, out'.Keys)
    ensures forall d :: d in cx.depTargets(u, k) ==> DepKey(cx, k, d) in out'
    ensures ret == ScriptsOf(cx, (u, k))
    ensures forall key :: key in out ==> key in out'
    ensures forall key :: key in out' && key !in out ==> cx.rank(key.0) < cx.rank(u)
    decreases cx.rank(u), 0
  {
    var key := (u, k);
    ret := [];
    var deps := cx.depTargets(u, k);
    out' := out;
    var i := 0;
    while i < |deps|
      invariant 0 <= i <= |deps|
      invariant MemoValid(cx, out') && MemoClosed(cx, out'.Keys)
      invariant forall d :: d in deps[..i] ==> DepKey(cx, k, d) in out'
      invariant forall key' :: key' in out ==> key' in out'
      invariant forall key' :: key' in out' && key' !in out ==> cx.rank(key'.0) < cx.rank(u)
      invariant ret == Collect(cx, key, deps[..i])
    {
      var d := deps[i];
      var req := cx.requirement(d.pkg, d.target);
      var depKind := if Includes(req, k) then k else if k == Kind.Target then Host else Kind.Target;
      assert depKind == DepKind(k, req);
      var depScripts;
      ghost var keys := out'.Keys;
      out', depScripts := Build(cx, out', depKind, d);
      DepKeysStep(cx, k, deps, i, keys, out'.Keys);
      ghost var before := ret;
      if cx.linkable(d.target) && k == depKind {
        if cx.hasCustomBuild(d.pkg) {
          ret := ret + [d.pkg];
        }
        ret := ret + depScripts;
      }
      CollectStep(cx, key, deps, i, before, depScripts);
      i := i + 1;
    }
    assert deps[..i] == deps;
  }

  /**
   * One turn of `build`'s loop: the list for the first `i + 1` dependencies
   * is the list for the first `i`, followed by what dependency `i` adds, given
   * that dependency's own list.
   */
  lemma CollectStep(cx: Context, key: Key, deps: seq<Unit>, i: nat, before: seq<PackageId>, depScripts: seq<PackageId>)
    requires Acyclic(cx) && deps == cx.depTargets(key.0, key.1) && i < |deps|
    requires before == Collect(cx, key, deps[..i])
    requires depScripts == ScriptsOf(cx, DepKey(cx, key.1, deps[i]))
    ensures var d, k := deps[i], key.1;
      Collect(cx, key, deps[..i + 1])
      == if cx.linkable(d.target) && k == DepKind(k, cx.requirement(d.pkg, d.target)) then
           (if cx.hasCustomBuild(d.pkg) then before + [d.pkg] + depScripts else before + depScripts)
         else before
  {
    var d := deps[i];
    assert deps[..i + 1][..i] == deps[..i];
    assert Collect(cx, key, deps[..i + 1]) == before + Contribution(cx, key.1, d);
  }

  /** One turn of `build`'s loop stores the key of dependency `i`, and keeps the earlier ones. */
  lemma DepKeysStep(cx: Context, k: Kind, deps: seq<Unit>, i: nat, keys: set<Key>, keys': set<Key>)
    requires i < |deps| && keys <= keys' && DepKey(cx, k, deps[i]) in keys'
    requires forall d :: d in deps[..i] ==> DepKey(cx, k, d) in keys
    ensures forall d :: d in deps[..i + 1] ==> DepKey(cx, k, d) in keys'
  {
    assert deps[..i + 1] == deps[..i] + [deps[i]];
  }

  /** Storing a key whose dependencies' keys are all stored keeps the table closed. */
  lemma StoreClosed(cx: Context, keys: set<Key>, key: Key)
    requires MemoClosed(cx, keys)
    requires forall d :: d in cx.depTargets(key.0, key.1) ==> DepKey(cx, key.1, d) in keys
    ensures MemoClosed(cx, keys + {key})
  {
  }

  // ---------------------------------------------------------------------------
  // Sorting and deduplicating a slot
  // ---------------------------------------------------------------------------

  predicate Sorted(s: seq<PackageId>) {
    forall i, j :: 0 <= i < j < |s| ==> s[i] <= s[j]
  }

  predicate StrictlySorted(s: seq<PackageId>) {
    forall i, j :: 0 <= i < j < |s| ==> s[i] < s[j]
  }

  /** `x` placed into sorted `s` after every element not greater than it. */
  method InsertSorted(s: seq<PackageId>, x: PackageId) returns (r: seq<PackageId>)
    requires Sorted(s)
    ensures Sorted(r) && multiset(r) == multiset(s) + multiset{x}
  {
    var j := 0;
    while j < |s| && s[j] <= x
      invariant 0 <= j <= |s|
      invariant forall m :: 0 <= m < j ==> s[m] <= x
    {
      j := j + 1;
    }
    r := s[..j] + [x] + s[j..];
    assert multiset(r) == multiset(s) + multiset{x} by {
      assert s == s[..j] + s[j..];
    }
    SortedInsertAt(s, j, x);
  }

  /** Placing `x` between the elements not above it and those above it keeps a list sorted. */
  lemma SortedInsertAt(s: seq<PackageId>, j: nat, x: PackageId)
    requires Sorted(s) && j <= |s|
    requires forall m :: 0 <= m < j ==> s[m] <= x
    requires j == |s| || x < s[j]
    ensures Sorted(s[..j] + [x] + s[j..])
  {
    var r := s[..j] + [x] + s[j..];
    assert forall i :: 0 <= i < j ==> r[i] == s[i];
    assert r[j] == x;
    assert forall i :: j < i < |r| ==> r[i] == s[i - 1];
  }

  /** `slot.sort()`: the same elements, in ascending order. */
  method Sort(s: seq<PackageId>) returns (r: seq<PackageId>)
    ensures Sorted(r) && multiset(r) == multiset(s)
  {
    r := [];
    var i := 0;
    while i < |s|
      invariant 0 <= i <= |s|
      invariant Sorted(r) && multiset(r) == multiset(s[..i])
    {
      r := InsertSorted(r, s[i]);
      assert s[..i + 1] == s[..i] + [s[i]];
      i := i + 1;
    }
    assert s[..i] == s;
  }

  /**
   * `Vec::dedup`: every element equal to the one before it dropped.  The
   * same elements remain, and a sorted list comes out strictly sorted.
   */
  function Dedup(s: seq<PackageId>): (r: seq<PackageId>)
    ensures forall x :: x in r <==> x in s
    ensures |r| <= |s|
    ensures |s| > 0 ==> |r| > 0 && r[|r| - 1] == s[|s| - 1]
    ensures Sorted(s) ==> StrictlySorted(r)
  {
    if |s| <= 1 then s
    else
      var init := s[..|s| - 1];
      var last := s[|s| - 1];
      var r := Dedup(init);
      assert forall x :: x in s <==> x in init || x == last;
      assert Sorted(s) ==> Sorted(init);
      if last == s[|s| - 2] then r else r + [last]
  }

  /** `slot.dedup()`: one pass keeping each element that differs from its predecessor. */
  method DedupSlot(s: seq<PackageId>) returns (r: seq<PackageId>)
    ensures r == Dedup(s)
  {
    if |s| == 0 {
      return [];
    }
    r := [s[0]];
    var i := 1;
    while i < |s|
      invariant 1 <= i <= |s|
      invariant r == Dedup(s[..i])
    {
      DedupStep(s, i);
      if s[i] != s[i - 1] {
        r := r + [s[i]];
      }
      i := i + 1;
    }
    assert s[..i] == s;
  }

  /** Extending the input by one element extends `Dedup` by it unless it repeats the last. */
  lemma DedupStep(s: seq<PackageId>, i: nat)
    requires 1 <= i < |s|
    ensures Dedup(s[..i + 1]) == if s[i] != s[i - 1] then Dedup(s[..i]) + [s[i]] else Dedup(s[..i])
  {
    var t := s[..i + 1];
    assert t[..|t| - 1] == s[..i] && t[|t| - 1] == s[i] && t[|t| - 2] == s[i - 1];
    assert Dedup(t) == if t[|t| - 1] == t[|t| - 2] then Dedup(t[..|t| - 1])
                       else Dedup(t[..|t| - 1]) + [t[|t| - 1]];
  }

  /** A slot after sorting and deduplicating: strictly ascending, the same elements. */
  ghost predicate Normalized(slot: seq<PackageId>, original: seq<PackageId>) {
    StrictlySorted(slot) && forall p :: p in slot <==> p in original
  }

  /** Two strictly sorted lists with the same elements are the same list. */
  lemma {:induction false} StrictlySortedUnique(a: seq<PackageId>, b: seq<PackageId>)
    requires StrictlySorted(a) && StrictlySorted(b)
    requires forall p :: p in a <==> p in b
    ensures a == b
    decreases |a|
  {
    if a != [] {
      assert a[0] in b;
    }
    if b != [] {
      assert b[0] in a;
    }
    if a != [] && b != [] {
      HeadIsLeast(a, b[0]);
      HeadIsLeast(b, a[0]);
      TailMembers(a);
      TailMembers(b);
      StrictlySortedUnique(a[1..], b[1..]);
      assert a == [a[0]] + a[1..];
      assert b == [b[0]] + b[1..];
    }
  }

  /** The head of a sorted list is its least element. */
  lemma HeadIsLeast(a: seq<PackageId>, p: PackageId)
    requires StrictlySorted(a) && p in a
    ensures a[0] <= p
  {
    var k :| 0 <= k < |a| && a[k] == p;
  }

  /** The tail of a strictly sorted list: strictly sorted, all but the head. */
  lemma TailMembers(a: seq<PackageId>)
    requires StrictlySorted(a) && a != []
    ensures StrictlySorted(a[1..])
    ensures forall p :: p in a[1..] <==> p in a && p != a[0]
  {
    forall p
      ensures p in a[1..] <==> p in a && p != a[0]
    {
      if p in a && p != a[0] {
        var k :| 0 <= k < |a| && a[k] == p;
        assert a[1..][k - 1] == p;
      }
    }
  }

  // ---------------------------------------------------------------------------
  // Which scripts a unit sees
  // ---------------------------------------------------------------------------

  /**
   * One edge `build` propagates along: `to` is a dependency of `from` whose
   * target is linkable and whose requirement includes `from`'s kind, taken
   * with the kind that kind becomes for its target.
   */
  ghost predicate LinkStep(cx: Context, from: Key, to: Key) {
    to.0 in cx.depTargets(from.0, from.1)
    && cx.linkable(to.0.target)
    && Includes(cx.requirement(to.0.pkg, to.0.target), from.1)
    && to.1 == cx.forTarget(from.1, to.0.target)
  }

  ghost predicate LinkPath(cx: Context, path: seq<Key>) {
    forall i :: 0 <= i < |path| - 1 ==> LinkStep(cx, path[i], path[i + 1])
  }

  /**
   * Package `p` has a build script and is reached from `key` by a chain of
   * one or more link steps.
   */
  ghost predicate Visible(cx: Context, key: Key, p: PackageId) {
    cx.hasCustomBuild(p)
    && exists path: seq<Key> :: |path| >= 2 && path[0] == key && LinkPath(cx, path) && path[|path| - 1].0.pkg == p
  }

  /** A package is in the list of some dependencies exactly when one of them contributes it. */
  lemma {:induction false} CollectContains(cx: Context, key: Key, ds: seq<Unit>, p: PackageId)
    requires Acyclic(cx)
    requires forall d :: d in ds ==> cx.rank(d) < cx.rank(key.0)
    ensures p in Collect(cx, key, ds) <==> exists d :: d in ds && p in Contribution(cx, key.1, d)
    decreases |ds|
  {
    if ds != [] {
      var init := ds[..|ds| - 1];
      var last := ds[|ds| - 1];
      assert forall d :: d in ds <==> d in init || d == last;
      assert Collect(cx, key, ds) == Collect(cx, key, init) + Contribution(cx, key.1, last);
      CollectContains(cx, key, init, p);
      if exists d :: d in ds && p in Contribution(cx, key.1, d) {
        var d :| d in ds && p in Contribution(cx, key.1, d);
        assert d in init || d == last;
      }
    }
  }

  /**
   * What a dependency contributes: its package when it has a build script,
   * and everything in its own list, provided its target is linkable and the
   * edge keeps the kind.
   */
  lemma ContributionContains(cx: Context, kind: Kind, d: Unit, p: PackageId)
    requires Acyclic(cx)
    ensures p in Contribution(cx, kind, d)
            <==> cx.linkable(d.target) && Includes(cx.requirement(d.pkg, d.target), kind)
                 && ((p == d.pkg && cx.hasCustomBuild(d.pkg))
                     || p in ScriptsOf(cx, (d, cx.forTarget(kind, d.target))))
  {
  }

  /** Everything in the list for `key` is visible from `key`. */
  lemma {:induction false} ScriptsAreVisible(cx: Context, key: Key, p: PackageId)
    requires Acyclic(cx) && p in ScriptsOf(cx, key)
    ensures Visible(cx, key, p)
    decreases cx.rank(key.0)
  {
    var deps := cx.depTargets(key.0, key.1);
    CollectContains(cx, key, deps, p);
    var d :| d in deps && p in Contribution(cx, key.1, d);
    var dk := (d, cx.forTarget(key.1, d.target));
    ContributionContains(cx, key.1, d, p);
    assert LinkStep(cx, key, dk);
    if p == d.pkg && cx.hasCustomBuild(d.pkg) {
      var path := [key, dk];
      assert LinkPath(cx, path);
    } else {
      ScriptsAreVisible(cx, dk, p);
      var rest: seq<Key> :| |rest| >= 2 && rest[0] == dk && LinkPath(cx, rest) && rest[|rest| - 1].0.pkg == p;
      var path := [key] + rest;
      assert forall i :: 1 <= i < |path| ==> path[i] == rest[i - 1];
      assert LinkPath(cx, path);
      assert path[|path| - 1] == rest[|rest| - 1];
    }
  }

  /** Everything visible from `key` is in its list. */
  lemma {:induction false} VisibleAreScripts(cx: Context, key: Key, p: PackageId)
    requires Acyclic(cx) && Visible(cx, key, p)
    ensures p in ScriptsOf(cx, key)
    decreases cx.rank(key.0)
  {
    var deps := cx.depTargets(key.0, key.1);
    var path: seq<Key> :| |path| >= 2 && path[0] == key && LinkPath(cx, path) && path[|path| - 1].0.pkg == p;
    var dk := path[1];
    assert LinkStep(cx, key, dk);
    var d := dk.0;
    ContributionContains(cx, key.1, d, p);
    if |path| > 2 {
      var rest := path[1..];
      assert forall i :: 0 <= i < |rest| ==> rest[i] == path[i + 1];
      assert LinkPath(cx, rest);
      assert Visible(cx, dk, p);
      VisibleAreScripts(cx, dk, p);
    }
    assert p in Contribution(cx, key.1, d);
    CollectContains(cx, key, deps, p);
  }

  /**
   * The list `build` computes for `key` holds exactly the packages with a
   * build script reachable from `key` along link steps.
   */
  lemma ScriptsOfVisible(cx: Context, key: Key, p: PackageId)
    requires Acyclic(cx)
    ensures p in ScriptsOf(cx, key) <==> Visible(cx, key, p)
  {
    if p in ScriptsOf(cx, key) {
      ScriptsAreVisible(cx, key, p);
    }
    if Visible(cx, key, p) {
      VisibleAreScripts(cx, key, p);
    }
  }

  // ---------------------------------------------------------------------------
  // `build_map`
  // ---------------------------------------------------------------------------

  /** Both keys `build_map` starts from for a package's target and profile. */
  predicate HasRoots(cx: Context, pkg: PackageId, tp: (TargetId, ProfileId), m: ScriptMap) {
    var u := Unit(pkg, tp.0, tp.1);
    (u, cx.forTarget(Kind.Target, tp.0)) in m && (u, cx.forTarget(Host, tp.0)) in m
  }

  /** The sorting loop of `build_map`: every slot sorted and deduplicated, in no particular order. */
  method SortSlots(ret: ScriptMap) returns (scripts: ScriptMap)
    ensures scripts.Keys == ret.Keys
    ensures forall key :: key in scripts ==> Normalized(scripts[key], ret[key])
  {
    scripts := ret;
    var todo := ret.Keys;
    while todo != {}
      invariant todo <= ret.Keys && scripts.Keys == ret.Keys
      invariant forall key :: key in scripts && key in todo ==> scripts[key] == ret[key]
      invariant forall key :: key in scripts && key !in todo ==> Normalized(scripts[key], ret[key])
      decreases todo
    {
      var key :| key in todo;
      var slot := Sort(scripts[key]);
      slot := DedupSlot(slot);
      assert forall p :: p in slot <==> p in multiset(ret[key]);
      scripts := scripts[key := slot];
      todo := todo - {key};
    }
  }

  /**
   * `build_map`: runs `build` for the target and the host kind of every
   * requested package, target and profile, then sorts and deduplicates
   * every list.  Every requested unit has its two entries; every entry is
   * strictly ascending and holds exactly the packages of the list `build`
   * computed for its key.
   */
  method BuildMap(cx: Context, pkgs: seq<(PackageId, seq<(TargetId, ProfileId)>)>) returns (scripts: ScriptMap)
    requires Acyclic(cx)
    ensures forall i, j :: 0 <= i < |pkgs| && 0 <= j < |pkgs[i].1| ==> HasRoots(cx, pkgs[i].0, pkgs[i].1[j], scripts)
    ensures MemoClosed(cx, scripts.Keys)
    ensures forall key :: key in scripts ==> Normalized(scripts[key], ScriptsOf(cx, key))
    ensures forall key, p :: key in scripts ==> (p in scripts[key] <==> Visible(cx, key, p))
  {
    var ret: ScriptMap := map[];
    var i := 0;
    while i < |pkgs|
      invariant 0 <= i <= |pkgs|
      invariant MemoValid(cx, ret) && MemoClosed(cx, ret.Keys)
      invariant forall i', j :: 0 <= i' < i && 0 <= j < |pkgs[i'].1| ==> HasRoots(cx, pkgs[i'].0, pkgs[i'].1[j], ret)
    {
      var (pkg, targets) := pkgs[i];
      var j := 0;
      while j < |targets|
        invariant 0 <= j <= |targets|
        invariant MemoValid(cx, ret) && MemoClosed(cx, ret.Keys)
        invariant forall i', j' :: 0 <= i' < i && 0 <= j' < |pkgs[i'].1| ==> HasRoots(cx, pkgs[i'].0, pkgs[i'].1[j'], ret)
        invariant forall j' :: 0 <= j' < j ==> HasRoots(cx, pkg, targets[j'], ret)
      {
        var (target, profile) := targets[j];
        var u := Unit(pkg, target, profile);
        var listed;
        ret, listed := Build(cx, ret, Kind.Target, u);
        ret, listed := Build(cx, ret, Host, u);
        j := j + 1;
      }
      i := i + 1;
    }
    scripts := SortSlots(ret);
    forall key, p | key in scripts
      ensures p in scripts[key] <==> Visible(cx, key, p)
    {
      ScriptsOfVisible(cx, key, p);
    }
  }
}
