/** The package resolver: dependencies first, by recursion over the registry. */
module Resolver {
  import opened Wrappers

  datatype Version = Version(major: int, minor: int, patch: int, prerelease: Option<string>)

  datatype Dependency = Dependency(name: string, spec: string)

  datatype Package = Package(name: string, version: Version, deps: seq<Dependency>)

  const MAX_DEPTH := 100

  // --- Versions ---

  /** The sign of `strcmp`. */
  function StrCmp(a: string, b: string): int {
    if a == "" && b == "" then 0
    else if a == "" then -1
    else if b == "" then 1
    else if a[0] != b[0] then (if a[0] < b[0] then -1 else 1)
    else StrCmp(a[1..], b[1..])
  }

  function Sign(a: int, b: int): int {
    if a < b then -1 else if a > b then 1 else 0
  }

  function ComparePrerelease(a: Option<string>, b: Option<string>): int {
    match (a, b)
    case (Some(x), Some(y)) => StrCmp(x, y)
    case (Some(_), None) => -1
    case (None, Some(_)) => 1
    case (None, None) => 0
  }

  /** `pkg_version_compare`. */
  function Compare(a: Version, b: Version): int {
    if a.major != b.major then Sign(a.major, b.major)
    else if a.minor != b.minor then Sign(a.minor, b.minor)
    else if a.patch != b.patch then Sign(a.patch, b.patch)
    else ComparePrerelease(a.prerelease, b.prerelease)
  }

  lemma {:induction false} StrCmpIsOrder(a: string, b: string)
    ensures (StrCmp(a, b) == 0 <==> a == b) && StrCmp(a, b) == -StrCmp(b, a)
  {
    if a != "" && b != "" && a[0] == b[0] {
      StrCmpIsOrder(a[1..], b[1..]);
      assert a == [a[0]] + a[1..] && b == [b[0]] + b[1..];
    }
  }

  lemma {:induction false} StrCmpTransitive(a: string, b: string, c: string)
    requires StrCmp(a, b) <= 0 && StrCmp(b, c) <= 0
    ensures StrCmp(a, c) <= 0
  {
    if a != "" && b != "" && c != "" && a[0] == b[0] == c[0] { StrCmpTransitive(a[1..], b[1..], c[1..]); }
  }

  /** Comparing versions is a total order: zero exactly for equal ones, antisymmetric, transitive. */
  lemma CompareIsOrder(a: Version, b: Version, c: Version)
    ensures (Compare(a, b) == 0 <==> a == b) && Compare(a, b) == -Compare(b, a)
    ensures Compare(a, b) <= 0 && Compare(b, c) <= 0 ==> Compare(a, c) <= 0
  {
    if a.prerelease.Some? && b.prerelease.Some? {
      StrCmpIsOrder(a.prerelease.value, b.prerelease.value);
      if c.prerelease.Some? && StrCmp(a.prerelease.value, b.prerelease.value) <= 0 && StrCmp(b.prerelease.value, c.prerelease.value) <= 0 {
        StrCmpTransitive(a.prerelease.value, b.prerelease.value, c.prerelease.value);
      }
    }
  }

  /** `a` comes before `b` for what stands at place `k`: it ends there, or has the smaller character. */
  predicate BeforeAt(a: string, b: string, k: nat) {
    && k <= |a| && k < |b| && (k == |a| || a[k] < b[k])
    && forall j | 0 <= j < k :: a[j] == b[j]
  }

  /** Before the other string in the dictionary: at the first difference, or as a proper prefix. */
  ghost predicate Before(a: string, b: string) {
    exists k: nat :: BeforeAt(a, b, k)
  }

  lemma BeforeRest(a: string, b: string, k: nat)
    requires a != "" && b != "" && a[0] == b[0]
    ensures BeforeAt(a, b, k + 1) <==> BeforeAt(a[1..], b[1..], k)
  {
    if BeforeAt(a, b, k + 1) {
      forall j | 0 <= j < k ensures a[1..][j] == b[1..][j] { assert a[j + 1] == b[j + 1]; }
    }
  }

  lemma {:induction false} StrCmpSays(a: string, b: string)
    ensures StrCmp(a, b) < 0 <==> Before(a, b)
  {
    if a == "" || b == "" || a[0] != b[0] {
      assert StrCmp(a, b) < 0 <==> BeforeAt(a, b, 0);
    } else {
      StrCmpSays(a[1..], b[1..]);
      if k: nat :| BeforeAt(a[1..], b[1..], k) { BeforeRest(a, b, k); }
      if k: nat :| BeforeAt(a, b, k) { BeforeRest(a, b, k - 1); }
    }
  }

  /** Which of two versions is the older: the numbers decide from the left, then a prerelease comes before its release,
      and two prereleases stand in dictionary order. */
  lemma CompareSays(a: Version, b: Version)
    ensures Compare(a, b) < 0 <==>
      || a.major < b.major
      || (a.major == b.major && a.minor < b.minor)
      || (a.major == b.major && a.minor == b.minor && a.patch < b.patch)
      || (a.major == b.major && a.minor == b.minor && a.patch == b.patch && a.prerelease.Some?
          && (b.prerelease.None? || Before(a.prerelease.value, b.prerelease.value)))
  {
    if a.prerelease.Some? && b.prerelease.Some? { StrCmpSays(a.prerelease.value, b.prerelease.value); }
  }

  // --- The registry ---

  /** `packages` in registry order; `satisfies` is the test of a version against a specification. */
  datatype Registry = Registry(packages: seq<Package>, satisfies: (Version, string) -> bool)

  /** `pkg_registry_info`: the first package of that name whose version will do. */
  function Info(r: Registry, name: string, spec: Option<string>, from: nat): (p: Option<Package>)
    requires from <= |r.packages|
    ensures p.Some? ==> p.value in r.packages && p.value.name == name && (spec.None? || r.satisfies(p.value.version, spec.value))
    decreases |r.packages| - from
  {
    if from == |r.packages| then None
    else
      var p := r.packages[from];
      if p.name == name && (spec.None? || r.satisfies(p.version, spec.value)) then Some(p) else Info(r, name, spec, from + 1)
  }

  /** The lookup gives the first package of that name whose version meets the specification, where there is one. */
  lemma {:induction false} InfoIsFirst(r: Registry, name: string, spec: Option<string>, from: nat, i: nat)
    requires from <= i < |r.packages|
    requires r.packages[i].name == name && (spec.None? || r.satisfies(r.packages[i].version, spec.value))
    requires forall j | from <= j < i && r.packages[j].name == name ::
               spec.Some? && !r.satisfies(r.packages[j].version, spec.value)
    ensures Info(r, name, spec, from) == Some(r.packages[i])
    decreases i - from
  {
    if from < i { InfoIsFirst(r, name, spec, from + 1, i); }
  }

  /** And none only if no package of that name will do; without a specification, only if the name is not there. */
  lemma {:induction false} InfoIsNone(r: Registry, name: string, spec: Option<string>, from: nat)
    requires from <= |r.packages|
    ensures Info(r, name, spec, from).None? <==>
      forall j | from <= j < |r.packages| && r.packages[j].name == name ::
        spec.Some? && !r.satisfies(r.packages[j].version, spec.value)
    decreases |r.packages| - from
  {
    if from < |r.packages| { InfoIsNone(r, name, spec, from + 1); }
  }

  /** Every dependency in the registry can be found, and ranks below the package that has it. */
  ghost predicate Layered(r: Registry, rank: string -> nat) {
    forall p, d | p in r.packages && d in p.deps :: DependencyOk(r, rank, p, d)
  }

  ghost predicate DependencyOk(r: Registry, rank: string -> nat, p: Package, d: Dependency) {
    rank(d.name) < rank(p.name) && Info(r, d.name, Some(d.spec), 0).Some?
  }

  // --- The resolved list ---

  ghost predicate Listed(s: seq<Package>, name: string, n: int) {
    exists j :: 0 <= j < n && j < |s| && s[j].name == name
  }

  ghost predicate EntryOk(r: Registry, s: seq<Package>, i: int)
    requires 0 <= i < |s|
  {
    s[i] in r.packages && forall d | d in s[i].deps :: Listed(s, d.name, i)
  }

  /** Each entry is a package of the registry, after all its dependencies. */
  ghost predicate Ordered(r: Registry, s: seq<Package>) {
    forall i | 0 <= i < |s| :: EntryOk(r, s, i)
  }

  lemma ListedStays(s: seq<Package>, t: seq<Package>, name: string, n: int)
    requires Listed(s, name, n) && s <= t
    ensures Listed(t, name, n) && Listed(t, name, |t|)
  {
    var j :| 0 <= j < n && j < |s| && s[j].name == name;
    assert t[j].name == name;
  }

  lemma OrderedAppend(r: Registry, s: seq<Package>, p: Package)
    requires Ordered(r, s) && p in r.packages && forall d | d in p.deps :: Listed(s, d.name, |s|)
    ensures Ordered(r, s + [p])
  {
    var t := s + [p];
    forall i | 0 <= i < |t| ensures EntryOk(r, t, i) {
      if i < |s| { assert EntryOk(r, s, i); }
      forall d | d in t[i].deps ensures Listed(t, d.name, i) {
        if i < |s| { assert t[i] == s[i]; ListedStays(s, t, d.name, i); } else { ListedStays(s, t, d.name, |s|); }
      }
    }
  }

  /** What a call does to the list `s`, as a function. */
  ghost function Resolves(r: Registry, s: seq<Package>, package: string, spec: Option<string>, depth: nat): (bool, seq<Package>)
    decreases MAX_DEPTH + 1 - depth, 1, 0
  {
    if depth > MAX_DEPTH then (false, s)
    else if Listed(s, package, |s|) then (true, s)
    else
      var info := Info(r, package, spec, 0);
      if info.None? then (false, s)
      else
        var (ok, t) := ResolvesAll(r, s, info.value.deps, 0, depth);
        if ok then (true, t + [info.value]) else (false, t)
  }

  /** The dependencies from the `k`-th on, in order, up to the first that fails. */
  ghost function ResolvesAll(r: Registry, s: seq<Package>, deps: seq<Dependency>, k: nat, depth: nat): (bool, seq<Package>)
    requires k <= |deps| && depth <= MAX_DEPTH
    decreases MAX_DEPTH + 1 - depth, 0, |deps| - k
  {
    if k == |deps| then (true, s)
    else
      var (ok, t) := Resolves(r, s, deps[k].name, Some(deps[k].spec), depth + 1);
      if ok then ResolvesAll(r, t, deps, k + 1, depth) else (false, t)
  }

  ghost predicate AllListed(s: seq<Package>, deps: seq<Dependency>, k: nat) {
    forall i | k <= i < |deps| :: Listed(s, deps[i].name, |s|)
  }

  /** Whatever the outcome the list only grows and stays in order; on success it holds the package. */
  lemma {:induction false} Grows(r: Registry, s: seq<Package>, package: string, spec: Option<string>, depth: nat)
    requires Ordered(r, s)
    ensures Ordered(r, Resolves(r, s, package, spec, depth).1) && s <= Resolves(r, s, package, spec, depth).1
    ensures var out := Resolves(r, s, package, spec, depth); out.0 ==> Listed(out.1, package, |out.1|)
    decreases MAX_DEPTH + 1 - depth, 1, 0
  {
    var info := Info(r, package, spec, 0);
    if depth <= MAX_DEPTH && !Listed(s, package, |s|) && info.Some? {
      var p := info.value;
      GrowsAll(r, s, p.deps, 0, depth);
      var (ok, t) := ResolvesAll(r, s, p.deps, 0, depth);
      if ok {
        OrderedAppend(r, t, p);
        assert (t + [p])[|t|].name == package;
      }
    }
  }

  lemma {:induction false} GrowsAll(r: Registry, s: seq<Package>, deps: seq<Dependency>, k: nat, depth: nat)
    requires k <= |deps| && depth <= MAX_DEPTH && Ordered(r, s)
    ensures Ordered(r, ResolvesAll(r, s, deps, k, depth).1) && s <= ResolvesAll(r, s, deps, k, depth).1
    ensures ResolvesAll(r, s, deps, k, depth).0 ==> AllListed(ResolvesAll(r, s, deps, k, depth).1, deps, k)
    decreases MAX_DEPTH + 1 - depth, 0, |deps| - k
  {
    if k < |deps| {
      Grows(r, s, deps[k].name, Some(deps[k].spec), depth + 1);
      var (ok, t) := Resolves(r, s, deps[k].name, Some(deps[k].spec), depth + 1);
      if ok {
        GrowsAll(r, t, deps, k + 1, depth);
        ListedStays(t, ResolvesAll(r, t, deps, k + 1, depth).1, deps[k].name, |t|);
      }
    }
  }

  /** Success is certain when the registry below the package is layered and not too deep. */
  lemma {:induction false} LayeredSucceeds(r: Registry, s: seq<Package>, package: string, spec: Option<string>, depth: nat,
      rank: string -> nat)
    requires Layered(r, rank) && Info(r, package, spec, 0).Some? && rank(package) + depth <= 100
    ensures Resolves(r, s, package, spec, depth).0
    decreases MAX_DEPTH + 1 - depth, 1, 0
  {
    if !Listed(s, package, |s|) { LayeredSucceedsAll(r, s, Info(r, package, spec, 0).value, 0, depth, rank); }
  }

  lemma {:induction false} LayeredSucceedsAll(r: Registry, s: seq<Package>, p: Package, k: nat, depth: nat, rank: string -> nat)
    requires Layered(r, rank) && p in r.packages && rank(p.name) + depth <= 100 && k <= |p.deps|
    ensures ResolvesAll(r, s, p.deps, k, depth).0
    decreases MAX_DEPTH + 1 - depth, 0, |p.deps| - k
  {
    if k < |p.deps| {
      var d := p.deps[k];
      assert DependencyOk(r, rank, p, d);
      LayeredSucceeds(r, s, d.name, Some(d.spec), depth + 1, rank);
      LayeredSucceedsAll(r, Resolves(r, s, d.name, Some(d.spec), depth + 1).1, p, k + 1, depth, rank);
    }
  }

  /** A chain of packages from `names[i]` on, each with the next as its first dependency, none listed. */
  ghost predicate ChainFrom(r: Registry, s: seq<Package>, names: seq<string>, specs: seq<Option<string>>, i: nat) {
    && |names| == |specs| && (forall j | i <= j < |names| :: !Listed(s, names[j], |s|))
    && forall j | i <= j < |names| - 1 :: LinkAt(r, names, specs, j)
  }

  ghost predicate LinkAt(r: Registry, names: seq<string>, specs: seq<Option<string>>, j: nat) {
    && j + 1 < |names| == |specs| && Info(r, names[j], specs[j], 0).Some?
    && var deps := Info(r, names[j], specs[j], 0).value.deps;
       deps != [] && deps[0].name == names[j + 1] && Some(deps[0].spec) == specs[j + 1]
  }

  lemma {:induction false} ChainFails(r: Registry, s: seq<Package>, names: seq<string>, specs: seq<Option<string>>, i: nat)
    requires ChainFrom(r, s, names, specs, i) && i < |names| == 102
    ensures Resolves(r, s, names[i], specs[i], i) == (false, s)
    decreases |names| - i
  {
    if i < 101 {
      assert LinkAt(r, names, specs, i);
      ChainFails(r, s, names, specs, i + 1);
      assert ResolvesAll(r, s, Info(r, names[i], specs[i], 0).value.deps, 0, i) == (false, s);
    }
  }

  /** Dependencies that go 101 deep are too many, and nothing is added; `LayeredSucceeds` takes care of up to 100. */
  lemma TooDeep(r: Registry, s: seq<Package>, names: seq<string>, specs: seq<Option<string>>)
    requires ChainFrom(r, s, names, specs, 0) && |names| == 102
    ensures Resolves(r, s, names[0], specs[0], 0) == (false, s)
  {
    ChainFails(r, s, names, specs, 0);
  }

  // --- What is added for whom ---

  ghost predicate Meets(r: Registry, p: Package, name: string, spec: Option<string>) {
    p.name == name && (spec.None? || r.satisfies(p.version, spec.value))
  }

  /** Some package of the list depends on `p`, in the version it has. */
  ghost predicate Needed(r: Registry, s: seq<Package>, p: Package) {
    exists q, d :: q in s && d in q.deps && Meets(r, p, d.name, Some(d.spec))
  }

  lemma StillNeeded(r: Registry, s: seq<Package>, t: seq<Package>, p: Package)
    requires Needed(r, s, p) && forall q | q in s :: q in t
    ensures Needed(r, t, p)
  {
    var q, d :| q in s && d in q.deps && Meets(r, p, d.name, Some(d.spec));
    assert q in t;
  }

  /** What a call that succeeds adds to the list is a package that meets the specification of the call, or one that a
      package on the list depends on in that version. */
  lemma {:induction false} AddedIsNeeded(r: Registry, s: seq<Package>, package: string, spec: Option<string>, depth: nat, i: nat)
    requires Resolves(r, s, package, spec, depth).0
    requires Ordered(r, s) && |s| <= i < |Resolves(r, s, package, spec, depth).1|
    ensures var t := Resolves(r, s, package, spec, depth).1; Meets(r, t[i], package, spec) || Needed(r, t, t[i])
    decreases MAX_DEPTH + 1 - depth, 1, 0
  {
    var p, t := Info(r, package, spec, 0).value, ResolvesAll(r, s, Info(r, package, spec, 0).value.deps, 0, depth).1;
    var u := Resolves(r, s, package, spec, depth).1;
    assert u == t + [p];
    if i < |t| {
      AddedForDeps(r, s, p.deps, 0, depth, i);
      if Needed(r, t, t[i]) {
        StillNeeded(r, t, u, t[i]);
      } else {
        var d :| d in p.deps && Meets(r, t[i], d.name, Some(d.spec));
        assert p in u;
      }
      assert u[i] == t[i];
    }
  }

  lemma {:induction false} AddedForDeps(r: Registry, s: seq<Package>, deps: seq<Dependency>, k: nat, depth: nat, i: nat)
    requires k <= |deps| && depth <= MAX_DEPTH && ResolvesAll(r, s, deps, k, depth).0
    requires Ordered(r, s) && |s| <= i < |ResolvesAll(r, s, deps, k, depth).1|
    ensures var t := ResolvesAll(r, s, deps, k, depth).1;
      Needed(r, t, t[i]) || exists d :: d in deps && Meets(r, t[i], d.name, Some(d.spec))
    decreases MAX_DEPTH + 1 - depth, 0, |deps| - k
  {
    var d, t := deps[k], ResolvesAll(r, s, deps, k, depth).1;
    var first := Resolves(r, s, d.name, Some(d.spec), depth + 1).1;
    Grows(r, s, d.name, Some(d.spec), depth + 1);
    GrowsAll(r, first, deps, k + 1, depth);
    assert t == ResolvesAll(r, first, deps, k + 1, depth).1 && first <= t;
    if i < |first| {
      AddedIsNeeded(r, s, d.name, Some(d.spec), depth + 1, i);
      assert t[i] == first[i];
      if Needed(r, first, first[i]) { StillNeeded(r, first, t, first[i]); }
    } else {
      AddedForDeps(r, first, deps, k + 1, depth, i);
    }
  }

  // --- Names listed once ---

  ghost predicate UniqueNames(s: seq<Package>) {
    forall i, j | 0 <= i < j < |s| :: s[i].name != s[j].name
  }

  /** Names that need each other: every package so named, in any version, depends on one of them. A cycle
      of dependencies is such a set. */
  ghost predicate Stuck(r: Registry, names: set<string>) {
    forall p | p in r.packages && p.name in names :: exists d :: d in p.deps && d.name in names
  }

  /** No member of a dependency cycle is ever added, in any number of calls, failed ones included. */
  lemma {:induction false} CyclesAreNeverAdded(r: Registry, s: seq<Package>, names: set<string>, i: nat)
    requires Ordered(r, s) && Stuck(r, names) && i < |s|
    ensures s[i].name !in names
  {
    assert EntryOk(r, s, i);
    if s[i].name in names {
      var d :| d in s[i].deps && d.name in names;
      assert Listed(s, d.name, i);
      var j :| 0 <= j < i && s[j].name == d.name;
      CyclesAreNeverAdded(r, s, names, j);
    }
  }

  /** Some call of the run finds its own name listed once its dependencies are in: it was asked for, and
      added, below itself. */
  ghost predicate Overtaken(r: Registry, s: seq<Package>, package: string, spec: Option<string>, depth: nat)
    decreases MAX_DEPTH + 1 - depth, 1, 0
  {
    var info := Info(r, package, spec, 0);
    depth <= MAX_DEPTH && !Listed(s, package, |s|) && info.Some?
    && (OvertakenAll(r, s, info.value.deps, 0, depth)
        || (var out := ResolvesAll(r, s, info.value.deps, 0, depth); out.0 && Listed(out.1, package, |out.1|)))
  }

  ghost predicate OvertakenAll(r: Registry, s: seq<Package>, deps: seq<Dependency>, k: nat, depth: nat)
    requires k <= |deps| && depth <= MAX_DEPTH
    decreases MAX_DEPTH + 1 - depth, 0, |deps| - k
  {
    k < |deps|
    && (Overtaken(r, s, deps[k].name, Some(deps[k].spec), depth + 1)
        || (var out := Resolves(r, s, deps[k].name, Some(deps[k].spec), depth + 1);
            out.0 && OvertakenAll(r, out.1, deps, k + 1, depth)))
  }

  lemma UniquePrefix(s: seq<Package>, t: seq<Package>)
    requires s <= t && UniqueNames(t)
    ensures UniqueNames(s)
  {
    forall i, j | 0 <= i < j < |s| ensures s[i].name != s[j].name { assert t[i] == s[i] && t[j] == s[j]; }
  }

  lemma UniqueAppend(t: seq<Package>, p: Package)
    ensures UniqueNames(t + [p]) <==> UniqueNames(t) && !Listed(t, p.name, |t|)
  {
    var u := t + [p];
    if UniqueNames(u) { UniquePrefix(t, u); }
    assert u[|t|] == p && forall j | 0 <= j < |t| :: u[j] == t[j];
    assert UniqueNames(t) && !Listed(t, p.name, |t|) ==> UniqueNames(u);
  }

  /** A run lists some name twice if and only if a call of it is overtaken. */
  lemma {:induction false} TwiceIffOvertaken(r: Registry, s: seq<Package>, package: string, spec: Option<string>, depth: nat)
    requires Ordered(r, s) && UniqueNames(s)
    ensures UniqueNames(Resolves(r, s, package, spec, depth).1) <==> !Overtaken(r, s, package, spec, depth)
    decreases MAX_DEPTH + 1 - depth, 1, 0
  {
    var info := Info(r, package, spec, 0);
    if depth <= MAX_DEPTH && !Listed(s, package, |s|) && info.Some? {
      TwiceIffOvertakenAll(r, s, info.value.deps, 0, depth);
      UniqueAppend(ResolvesAll(r, s, info.value.deps, 0, depth).1, info.value);
    }
  }

  lemma {:induction false} TwiceIffOvertakenAll(r: Registry, s: seq<Package>, deps: seq<Dependency>, k: nat, depth: nat)
    requires k <= |deps| && depth <= MAX_DEPTH && Ordered(r, s) && UniqueNames(s)
    ensures UniqueNames(ResolvesAll(r, s, deps, k, depth).1) <==> !OvertakenAll(r, s, deps, k, depth)
    decreases MAX_DEPTH + 1 - depth, 0, |deps| - k
  {
    if k < |deps| {
      TwiceIffOvertaken(r, s, deps[k].name, Some(deps[k].spec), depth + 1);
      Grows(r, s, deps[k].name, Some(deps[k].spec), depth + 1);
      var out := Resolves(r, s, deps[k].name, Some(deps[k].spec), depth + 1);
      if out.0 {
        GrowsAll(r, out.1, deps, k + 1, depth);
        if UniqueNames(out.1) { TwiceIffOvertakenAll(r, out.1, deps, k + 1, depth); }
        if UniqueNames(ResolvesAll(r, out.1, deps, k + 1, depth).1) { UniquePrefix(out.1, ResolvesAll(r, out.1, deps, k + 1, depth).1); }
      }
    }
  }

  /** A package named `a` depends on the name `b`. */
  ghost predicate Requests(r: Registry, a: string, b: string) {
    exists p, d :: p in r.packages && p.name == a && d in p.deps && d.name == b
  }

  ghost predicate NameWalk(r: Registry, w: seq<string>) {
    forall k | 0 <= k < |w| - 1 :: Requests(r, w[k], w[k + 1])
  }

  function Names(w: seq<string>): set<string> {
    set k | 0 <= k < |w| :: w[k]
  }

  /** Every cycle of names is one of which nothing can be added: there is no way out of it by another version. */
  ghost predicate CyclesBind(r: Registry) {
    forall w | NameWalk(r, w) && |w| > 1 && w[0] == w[|w| - 1] :: Stuck(r, Names(w))
  }

  lemma {:induction false} RanksFall(r: Registry, rank: string -> nat, w: seq<string>)
    requires Layered(r, rank) && NameWalk(r, w) && |w| > 1
    ensures rank(w[|w| - 1]) < rank(w[0])
  {
    var rest := w[1..];
    assert Requests(r, w[0], w[1]);
    var p, d :| p in r.packages && p.name == w[0] && d in p.deps && d.name == w[1];
    assert DependencyOk(r, rank, p, d);
    if |w| > 2 {
      forall k | 0 <= k < |rest| - 1 ensures Requests(r, rest[k], rest[k + 1]) {
        assert Requests(r, w[k + 1], w[(k + 1) + 1]);
      }
      RanksFall(r, rank, rest);
    }
  }

  /** No cycles of names at all. */
  lemma LayeredBinds(r: Registry, rank: string -> nat)
    requires Layered(r, rank)
    ensures CyclesBind(r)
  {
    forall w ensures !(NameWalk(r, w) && |w| > 1 && w[0] == w[|w| - 1]) {
      if NameWalk(r, w) && |w| > 1 { RanksFall(r, rank, w); }
    }
  }

  /** One version of each name. */
  lemma OneVersionBinds(r: Registry)
    requires UniqueNames(r.packages)
    ensures CyclesBind(r)
  {
    forall w | NameWalk(r, w) && |w| > 1 && w[0] == w[|w| - 1] ensures Stuck(r, Names(w)) {
      forall p | p in r.packages && p.name in Names(w) ensures exists d :: d in p.deps && d.name in Names(w) {
        var i :| 0 <= i < |w| && w[i] == p.name;
        var k := if i == |w| - 1 then 0 else i;
        assert Requests(r, w[k], w[k + 1]);
        var q, d :| q in r.packages && q.name == w[k] && d in q.deps && d.name == w[k + 1];
        assert q == p && d.name in Names(w);
      }
    }
  }

  /** None of the names is listed. */
  ghost predicate Absent(s: seq<Package>, names: seq<string>) {
    forall c | 0 <= c < |names| :: !Listed(s, names[c], |s|)
  }

  /** A name on its way in is not added below itself: that would be a cycle with a way out. */
  lemma NotItself(r: Registry, t: seq<Package>, chain: seq<string>)
    requires CyclesBind(r) && Ordered(r, t) && NameWalk(r, chain) && chain != [] && t != []
    requires t[|t| - 1].name == chain[|chain| - 1]
    ensures chain[|chain| - 1] !in chain[..|chain| - 1]
  {
    var n := |chain| - 1;
    forall c | 0 <= c < n ensures chain[c] != chain[n] {
      WalkFrom(r, chain, c);
      if chain[c] == chain[n] { NoWayRound(r, t, chain[c..]); }
    }
  }

  lemma WalkFrom(r: Registry, chain: seq<string>, c: nat)
    requires NameWalk(r, chain) && c < |chain|
    ensures NameWalk(r, chain[c..])
  {
    var w := chain[c..];
    forall k | 0 <= k < |w| - 1 ensures Requests(r, w[k], w[k + 1]) { assert Requests(r, chain[c + k], chain[(c + k) + 1]); }
  }

  /** What was added last is on no cycle of names. */
  lemma NoWayRound(r: Registry, t: seq<Package>, w: seq<string>)
    requires CyclesBind(r) && Ordered(r, t) && t != [] && NameWalk(r, w) && |w| > 1 && t[|t| - 1].name == w[|w| - 1]
    ensures w[0] != w[|w| - 1]
  {
    assert w[|w| - 1] in Names(w);
    if w[0] == w[|w| - 1] { CyclesAreNeverAdded(r, t, Names(w), |t| - 1); }
  }

  lemma AbsentFewer(t: seq<Package>, chain: seq<string>)
    requires Absent(t, chain) && chain != []
    ensures Absent(t, chain[..|chain| - 1]) && !Listed(t, chain[|chain| - 1], |t|)
  {
    var init := chain[..|chain| - 1];
    forall c | 0 <= c < |init| ensures !Listed(t, init[c], |t|) { assert init[c] == chain[c]; }
  }

  lemma AppendsOnce(r: Registry, t: seq<Package>, p: Package, chain: seq<string>)
    requires CyclesBind(r) && Ordered(r, t) && UniqueNames(t) && Absent(t, chain)
    requires NameWalk(r, chain) && chain != [] && p.name == chain[|chain| - 1]
    requires p in r.packages && AllListed(t, p.deps, 0)
    ensures UniqueNames(t + [p]) && Absent(t + [p], chain[..|chain| - 1])
  {
    AbsentFewer(t, chain);
    OrderedAppend(r, t, p);
    var u, init := t + [p], chain[..|chain| - 1];
    NotItself(r, u, chain);
    forall i, j | 0 <= i < j < |u| ensures u[i].name != u[j].name {
      assert j == |t| && u[i].name == p.name ==> Listed(t, p.name, |t|);
    }
    forall c | 0 <= c < |init| ensures !Listed(u, init[c], |u|) {
      assert !Listed(t, init[c], |t|) && init[c] in init;
    }
  }

  /** One call keeps names unique if cycles bind. `chain`: the names on their way in, each asked for by the
      one before; none of them is added before its turn. */
  lemma {:induction false} NoneTwice(r: Registry, s: seq<Package>, package: string, spec: Option<string>, depth: nat, chain: seq<string>)
    requires CyclesBind(r) && Ordered(r, s) && UniqueNames(s) && Absent(s, chain) && NameWalk(r, chain + [package])
    ensures UniqueNames(Resolves(r, s, package, spec, depth).1) && Absent(Resolves(r, s, package, spec, depth).1, chain)
    decreases MAX_DEPTH + 1 - depth, 1, 0
  {
    var info := Info(r, package, spec, 0);
    if depth <= MAX_DEPTH && !Listed(s, package, |s|) && info.Some? {
      var p := info.value;
      var inner := chain + [package];
      assert inner[|chain|] == package && inner[..|chain|] == chain;
      NoneTwiceAll(r, s, p, 0, depth, inner);
      GrowsAll(r, s, p.deps, 0, depth);
      var t := ResolvesAll(r, s, p.deps, 0, depth).1;
      AbsentFewer(t, inner);
      if ResolvesAll(r, s, p.deps, 0, depth).0 { AppendsOnce(r, t, p, inner); }
    }
  }

  lemma {:induction false} NoneTwiceAll(r: Registry, s: seq<Package>, p: Package, k: nat, depth: nat, chain: seq<string>)
    requires k <= |p.deps| && depth <= MAX_DEPTH && p in r.packages
    requires CyclesBind(r) && Ordered(r, s) && UniqueNames(s) && Absent(s, chain)
    requires NameWalk(r, chain) && chain != [] && chain[|chain| - 1] == p.name
    ensures UniqueNames(ResolvesAll(r, s, p.deps, k, depth).1) && Absent(ResolvesAll(r, s, p.deps, k, depth).1, chain)
    decreases MAX_DEPTH + 1 - depth, 0, |p.deps| - k
  {
    if k < |p.deps| {
      var d := p.deps[k];
      assert Requests(r, p.name, d.name);
      var next := chain + [d.name];
      forall i | 0 <= i < |next| - 1 ensures Requests(r, next[i], next[i + 1]) {
        if i < |chain| - 1 { assert Requests(r, chain[i], chain[i + 1]); }
      }
      NoneTwice(r, s, d.name, Some(d.spec), depth + 1, chain);
      Grows(r, s, d.name, Some(d.spec), depth + 1);
      var (ok, t) := Resolves(r, s, d.name, Some(d.spec), depth + 1);
      if ok { NoneTwiceAll(r, t, p, k + 1, depth, chain); }
    }
  }

  /** Entry `i` depends on entry `j`. */
  ghost predicate DependsOn(s: seq<Package>, i: int, j: int) {
    0 <= i < |s| && 0 <= j < |s| && exists d :: d in s[i].deps && d.name == s[j].name
  }

  /** A walk along dependencies. */
  ghost predicate Walk(s: seq<Package>, path: seq<int>) {
    |path| > 0 && forall k | 0 <= k < |path| - 1 :: DependsOn(s, path[k], path[k + 1])
  }

  /** What one call does to the list, whatever its outcome: the list only grows; on success it holds the
      package; success is certain when the registry below the package is layered and not too deep; and
      names stay unique if cycles bind. */
  ghost predicate CallOk(r: Registry, s: seq<Package>, package: string, spec: Option<string>, depth: nat, rank: string -> nat,
      ok: bool, t: seq<Package>)
  {
    && s <= t
    && (ok ==> Listed(t, package, |t|))
    && (depth > MAX_DEPTH ==> !ok && t == s)
    && (Layered(r, rank) && Info(r, package, spec, 0).Some? && rank(package) + depth <= 100 ==> ok)
    && (CyclesBind(r) && UniqueNames(s) ==> UniqueNames(t))
  }

  lemma CallIsOk(r: Registry, s: seq<Package>, package: string, spec: Option<string>, depth: nat, rank: string -> nat)
    requires Ordered(r, s)
    ensures Ordered(r, Resolves(r, s, package, spec, depth).1)
    ensures CallOk(r, s, package, spec, depth, rank, Resolves(r, s, package, spec, depth).0, Resolves(r, s, package, spec, depth).1)
  {
    Grows(r, s, package, spec, depth);
    if CyclesBind(r) && UniqueNames(s) { NoneTwice(r, s, package, spec, depth, []); }
    if Layered(r, rank) && Info(r, package, spec, 0).Some? && rank(package) + depth <= 100 {
      LayeredSucceeds(r, s, package, spec, depth, rank);
    }
  }

  /** With unique names every walk along dependencies goes strictly down the list: there are no cycles. */
  lemma {:induction false} WalksDescend(r: Registry, s: seq<Package>, path: seq<int>)
    requires Ordered(r, s) && UniqueNames(s) && Walk(s, path) && |path| > 1
    ensures path[|path| - 1] < path[0]
  {
    var i, j := path[0], path[1];
    assert DependsOn(s, i, j) && EntryOk(r, s, i);
    var d :| d in s[i].deps && d.name == s[j].name;
    assert Listed(s, d.name, i);
    assert j < i;
    if |path| > 2 {
      var rest := path[1..];
      forall k | 0 <= k < |rest| - 1 ensures DependsOn(s, rest[k], rest[k + 1]) {
        assert DependsOn(s, path[k + 1], path[(k + 1) + 1]);
      }
      WalksDescend(r, s, rest);
    }
  }

  /** If cycles bind, a call leaves unique names, so every walk along dependencies goes down the new list. */
  lemma ResolvedIsAcyclic(r: Registry, s: seq<Package>, package: string, spec: Option<string>, depth: nat, path: seq<int>)
    requires CyclesBind(r) && Ordered(r, s) && UniqueNames(s)
    ensures var t := Resolves(r, s, package, spec, depth).1;
      UniqueNames(t) && (Walk(t, path) && |path| > 1 ==> path[|path| - 1] < path[0])
  {
    NoneTwice(r, s, package, spec, depth, []);
    Grows(r, s, package, spec, depth);
    var t := Resolves(r, s, package, spec, depth).1;
    if Walk(t, path) && |path| > 1 { WalksDescend(r, t, path); }
  }

  class Resolver {
    const registry: Registry
    var resolved: seq<Package>

    ghost predicate Valid()
      reads this
    {
      Ordered(registry, resolved)
    }

    constructor (registry: Registry)
      ensures Valid() && this.registry == registry && resolved == []
    {
      this.registry, resolved := registry, [];
    }

    /** `is_resolved`: by name only. */
    method IsResolved(name: string) returns (r: bool)
      ensures r == Listed(resolved, name, |resolved|)
    {
      for i := 0 to |resolved|
        invariant forall j | 0 <= j < i :: resolved[j].name != name
      {
        if resolved[i].name == name { return true; }
      }
      r := false;
    }

    /** `resolve_recursive`. */
    method ResolveRecursive(package: string, spec: Option<string>, depth: nat, ghost rank: string -> nat) returns (ok: bool)
      requires Valid()
      modifies `resolved
      ensures Valid() && (ok, resolved) == Resolves(registry, old(resolved), package, spec, depth)
      ensures CallOk(registry, old(resolved), package, spec, depth, rank, ok, resolved)
      decreases MAX_DEPTH + 1 - depth, 1
    {
      CallIsOk(registry, resolved, package, spec, depth, rank);
      if depth > MAX_DEPTH { return false; }
      var already := IsResolved(package);
      if already { return true; }
      var info := Info(registry, package, spec, 0);
      if info.None? { return false; }
      ok := ResolveDependencies(info.value, depth, rank);
      if ok { resolved := resolved + [info.value]; }
    }

    /** Its loop over the dependencies. */
    method ResolveDependencies(p: Package, depth: nat, ghost rank: string -> nat) returns (ok: bool)
      requires Valid() && depth <= MAX_DEPTH
      modifies `resolved
      ensures Valid() && (ok, resolved) == ResolvesAll(registry, old(resolved), p.deps, 0, depth)
      decreases MAX_DEPTH + 1 - depth, 0
    {
      for i := 0 to |p.deps|
        invariant Valid()
        invariant ResolvesAll(registry, old(resolved), p.deps, 0, depth) == ResolvesAll(registry, resolved, p.deps, i, depth)
      {
        ok := ResolveRecursive(p.deps[i].name, Some(p.deps[i].spec), depth + 1, rank);
        if !ok { return; }
      }
      ok := true;
    }

    /** `pkg_resolver_resolve`. */
    method Resolve(package: string, spec: Option<string>, ghost rank: string -> nat) returns (ok: bool)
      requires Valid()
      modifies `resolved
      ensures Valid() && old(resolved) <= resolved
      ensures (ok, resolved) == Resolves(registry, old(resolved), package, spec, 0)
      ensures ok ==> Listed(resolved, package, |resolved|)
      ensures Layered(registry, rank) && Info(registry, package, spec, 0).Some? && rank(package) <= 100 ==> ok
      ensures CyclesBind(registry) && UniqueNames(old(resolved)) ==> UniqueNames(resolved)
    {
      ok := ResolveRecursive(package, spec, 0, rank);
    }

    /** `pkg_resolver_check_conflicts`: passes exactly if equal names carry equal versions. */
    method CheckConflicts() returns (ok: bool)
      ensures ok <==> forall i, j | 0 <= i < j < |resolved| && resolved[i].name == resolved[j].name ::
                        resolved[i].version == resolved[j].version
    {
      for i := 0 to |resolved|
        invariant forall a, b | 0 <= a < i && a < b < |resolved| && resolved[a].name == resolved[b].name ::
                    resolved[a].version == resolved[b].version
      {
        for j := i + 1 to |resolved|
          invariant forall b | i < b < j && resolved[i].name == resolved[b].name :: resolved[i].version == resolved[b].version
        {
          if resolved[i].name == resolved[j].name {
            CompareIsOrder(resolved[i].version, resolved[j].version, resolved[i].version);
            if Compare(resolved[i].version, resolved[j].version) != 0 { return false; }
          }
        }
      }
      ok := true;
    }
  }

  /** Names alone are compared when looking for what is already resolved: when a package is on its way in,
      a dependency on another version of it is added first, and the list ends up with both. */
  lemma TwoVersions(r: Registry, a1: Package, a2: Package, b: Package, one: string, two: string)
    requires r.packages == [a1, a2, b] && a1.name == a2.name != b.name && a1.version != a2.version
    requires r.satisfies(a1.version, one) && !r.satisfies(a1.version, two) && r.satisfies(a2.version, two)
    requires r.satisfies(b.version, one)
    requires a1.deps == [Dependency(b.name, one)] && b.deps == [Dependency(a2.name, two)] && a2.deps == []
    ensures Resolves(r, [], a1.name, Some(one), 0) == (true, [a2, b, a1]) && !UniqueNames([a2, b, a1])
    ensures !CyclesBind(r)
  {
    assert Info(r, a1.name, Some(one), 0) == Some(a1);
    assert Info(r, a1.name, Some(two), 1) == Some(a2);
    assert Info(r, a1.name, Some(two), 0) == Some(a2);
    assert Info(r, b.name, Some(one), 2) == Some(b);
    assert Info(r, b.name, Some(one), 1) == Some(b);
    assert Info(r, b.name, Some(one), 0) == Some(b);
    Adds(r, [], a2.name, Some(two), 2, a2, [], [a2]);
    OneDependency(r, [], b.deps, 1, [a2]);
    Adds(r, [], b.name, Some(one), 1, b, [a2], [a2, b]);
    OneDependency(r, [], a1.deps, 0, [a2, b]);
    Adds(r, [], a1.name, Some(one), 0, a1, [a2, b], [a2, b, a1]);
    var s := [a2, b, a1];
    assert s[0].name == s[2].name;
    if CyclesBind(r) { NoneTwice(r, [], a1.name, Some(one), 0, []); }
  }

  lemma Adds(r: Registry, s: seq<Package>, package: string, spec: Option<string>, depth: nat, p: Package, t: seq<Package>,
      u: seq<Package>)
    requires u == t + [p] && depth <= MAX_DEPTH && !Listed(s, package, |s|) && Info(r, package, spec, 0) == Some(p)
    requires ResolvesAll(r, s, p.deps, 0, depth) == (true, t)
    ensures Resolves(r, s, package, spec, depth) == (true, u)
  {
  }

  lemma OneDependency(r: Registry, s: seq<Package>, deps: seq<Dependency>, depth: nat, t: seq<Package>)
    requires depth <= MAX_DEPTH && |deps| == 1
    requires Resolves(r, s, deps[0].name, Some(deps[0].spec), depth + 1) == (true, t)
    ensures ResolvesAll(r, s, deps, 0, depth) == (true, t)
  {
    assert ResolvesAll(r, t, deps, 1, depth) == (true, t);
  }
}
