/** Transitive package requirements (c7n/mu.py: _package_deps, generate_requirements). */
module PackageDeps {

  type Package = string

  // ----- Requirement strings

  predicate IsNameChar(c: char) {
    'a' <= c <= 'z' || 'A' <= c <= 'Z' || '0' <= c <= '9' || c == '-' || c == '_' || c == '.'
  }

  predicate Contains(s: string, part: string) {
    |s| >= |part| && (s[..|part|] == part || (s != "" && Contains(s[1..], part)))
  }

  /** Requirements of an extra are skipped. */
  predicate Optional(r: string) {
    ';' in r && Contains(r, "extra")
  }

  /** How many leading characters belong to a name. */
  function NameLength(r: string): (n: nat)
    ensures n <= |r|
    ensures forall i | 0 <= i < n :: IsNameChar(r[i])
    ensures n < |r| ==> !IsNameChar(r[n])
  {
    if r == "" || !IsNameChar(r[0]) then 0
    else
      var n := NameLength(r[1..]);
      assert forall i | 1 <= i < n + 1 :: r[i] == r[1..][i - 1];
      n + 1
  }

  /** The scan for the end of the name: it stops on the first other character, and takes the
      whole string if that is the last one. */
  method ScanName(r: string) returns (name: string)
    requires r != ""
    ensures name == NameOf(r)
  {
    var idx := 0;
    while true
      invariant idx < |r| && idx <= NameLength(r)
      decreases |r| - idx
    {
      if !IsNameChar(r[idx]) {
        break;
      }
      if idx + 1 == |r| {
        break;
      }
      idx := idx + 1;
    }
    if idx + 1 == |r| {
      idx := idx + 1;
    }
    name := r[..idx];
  }

  function NameOf(r: string): string {
    if NameLength(r) + 1 >= |r| then r else r[..NameLength(r)]
  }

  /** The name is the leading run of name characters, unless exactly one other character
      follows it at the very end. */
  lemma NameIsLeadingRun(r: string)
    requires r != ""
    ensures NameOf(r) == r[..NameLength(r)] <==> NameLength(r) + 1 != |r|
    ensures (forall c | c in NameOf(r) :: IsNameChar(c)) <==> NameLength(r) + 1 != |r|
  {
    assert r[..|r|] == r;
    if NameLength(r) + 1 == |r| {
      assert r[NameLength(r)] in r;
    }
  }

  ghost predicate HasAt(s: string, part: string, i: nat) {
    i + |part| <= |s| && s[i..i + |part|] == part
  }

  lemma SliceOfRest(s: string, i: nat, n: nat)
    requires s != ""
    ensures i + n <= |s| - 1 ==> s[1..][i..i + n] == s[i + 1..i + 1 + n]
  {}

  lemma {:induction false} ContainsExact(s: string, part: string)
    ensures Contains(s, part) <==> exists i: nat :: HasAt(s, part, i)
  {
    assert HasAt(s, part, 0) <==> |s| >= |part| && s[..|part|] == part;
    if s != "" {
      var rest := s[1..];
      ContainsExact(rest, part);
      forall i: nat
        ensures HasAt(rest, part, i) <==> HasAt(s, part, i + 1)
      {
        SliceOfRest(s, i, |part|);
      }
      if i: nat :| HasAt(s, part, i) {
        assert i == 0 || HasAt(rest, part, i - 1);
      }
    }
  }

  /** A requirement is skipped exactly when it has a semicolon and the word extra. */
  lemma OptionalExact(r: string)
    ensures Optional(r) <==> (exists i :: 0 <= i < |r| && r[i] == ';') && exists i: nat :: HasAt(r, "extra", i)
  {
    ContainsExact(r, "extra");
  }

  ghost predicate OfNames(c: char) {
    'a' <= c <= 'z' || 'A' <= c <= 'Z' || '0' <= c <= '9' || c in "-_."
  }

  /** A requirement that starts with a name is for that name, whatever else follows; a single
      other character at the end is taken for a part of the name. */
  lemma NameOfRequirement(name: string, rest: string)
    requires forall c | c in name :: OfNames(c)
    requires rest != "" ==> !OfNames(rest[0])
    ensures NameOf(name + rest) == if |rest| == 1 then name + rest else name
  {
    var r := name + rest;
    var n := NameLength(r);
    forall c
      ensures IsNameChar(c) <==> OfNames(c)
    {}
    assert forall i | 0 <= i < |name| :: r[i] == name[i] && name[i] in name;
    if |name| < |r| {
      assert r[|name|] == rest[0];
    }
    assert n == |name| && r[..n] == name;
    if rest == "" {
      assert r == name;
    }
  }

  // ----- The requirement graph

  /** The installed packages and their requirement strings. */
  type Metadata = map<Package, seq<string>>

  ghost predicate WellFormed(md: Metadata) {
    forall p, i | p in md && 0 <= i < |md[p]| :: md[p][i] != ""
  }

  function Wanted(rs: seq<string>, ignore: seq<Package>): seq<Package> {
    if rs == [] then []
    else (if Optional(rs[0]) || NameOf(rs[0]) in ignore then [] else [NameOf(rs[0])]) + Wanted(rs[1..], ignore)
  }

  /** The requirements of p that count; a package that is not installed has none. */
  function Requires(md: Metadata, ignore: seq<Package>, p: Package): seq<Package> {
    if p in md then Wanted(md[p], ignore) else []
  }

  /** A numbering that goes down along every requirement. */
  ghost predicate Ranked(md: Metadata, ignore: seq<Package>, rank: Package -> nat) {
    forall p, q | q in Requires(md, ignore, p) :: rank(q) < rank(p)
  }

  /** A chain of requirements. */
  ghost predicate Path(md: Metadata, ignore: seq<Package>, ps: seq<Package>) {
    |ps| >= 2 && forall i | 0 <= i < |ps| - 1 :: ps[i + 1] in Requires(md, ignore, ps[i])
  }

  /** q is required by p, directly or not. */
  ghost predicate Reaches(md: Metadata, ignore: seq<Package>, p: Package, q: Package) {
    exists ps :: Path(md, ignore, ps) && ps[0] == p && ps[|ps| - 1] == q
  }

  /** Each package once, after all its own requirements. */
  ghost predicate Ordered(md: Metadata, ignore: seq<Package>, deps: seq<Package>) {
    && (forall i, j | 0 <= i < j < |deps| :: deps[i] != deps[j])
    && (forall i, q | 0 <= i < |deps| && q in Requires(md, ignore, deps[i]) :: q in deps[..i])
  }

  /** No package requires itself, however indirectly. */
  ghost predicate Acyclic(md: Metadata, ignore: seq<Package>) {
    forall p :: !Reaches(md, ignore, p, p)
  }

  lemma {:induction false} WantedMeans(rs: seq<string>, ignore: seq<Package>, q: Package)
    ensures q in Wanted(rs, ignore) <==>
      exists i | 0 <= i < |rs| :: !Optional(rs[i]) && NameOf(rs[i]) == q && q !in ignore
  {
    if rs != [] {
      WantedMeans(rs[1..], ignore, q);
      if i :| 0 <= i < |rs| && !Optional(rs[i]) && NameOf(rs[i]) == q && q !in ignore {
        if i > 0 {
          assert rs[i] == rs[1..][i - 1];
        }
      }
    }
  }

  lemma EdgeReaches(md: Metadata, ignore: seq<Package>, p: Package, q: Package)
    requires q in Requires(md, ignore, p)
    ensures Reaches(md, ignore, p, q)
  {
    var ps := [p, q];
    assert Path(md, ignore, ps);
  }

  lemma PathCons(md: Metadata, ignore: seq<Package>, p: Package, ps: seq<Package>)
    requires Path(md, ignore, ps) && ps[0] in Requires(md, ignore, p)
    ensures Path(md, ignore, [p] + ps)
  {
    var longer := [p] + ps;
    forall i | 0 <= i < |longer| - 1
      ensures longer[i + 1] in Requires(md, ignore, longer[i])
    {
      if i > 0 {
        var j := i - 1;
        assert longer[i] == ps[j] && longer[i + 1] == ps[j + 1];
      }
    }
  }

  lemma ReachesThrough(md: Metadata, ignore: seq<Package>, p: Package, m: Package, q: Package)
    requires m in Requires(md, ignore, p) && Reaches(md, ignore, m, q)
    ensures Reaches(md, ignore, p, q)
  {
    var ps :| Path(md, ignore, ps) && ps[0] == m && ps[|ps| - 1] == q;
    PathCons(md, ignore, p, ps);
    assert ([p] + ps)[|ps|] == q;
  }

  /** Everything installed or required. */
  function Known(md: Metadata, ignore: seq<Package>): set<Package> {
    md.Keys + set p, q | p in md && q in Requires(md, ignore, p) :: q
  }

  ghost function Reached(md: Metadata, ignore: seq<Package>, p: Package): set<Package> {
    set q | q in Known(md, ignore) && Reaches(md, ignore, p, q)
  }

  lemma FewerReached(md: Metadata, ignore: seq<Package>, p: Package, q: Package)
    requires q in Requires(md, ignore, p) && !Reaches(md, ignore, q, q)
    ensures |Reached(md, ignore, q)| < |Reached(md, ignore, p)|
  {
    EdgeReaches(md, ignore, p, q);
    assert p in md && q in Known(md, ignore);
    forall r | r in Reached(md, ignore, q)
      ensures r in Reached(md, ignore, p)
    {
      ReachesThrough(md, ignore, p, q, r);
    }
    var more := Reached(md, ignore, p);
    assert Reached(md, ignore, q) <= more - {q};
    Subset(Reached(md, ignore, q), more - {q});
  }

  lemma {:induction false} Subset(a: set<Package>, b: set<Package>)
    requires a <= b
    ensures |a| <= |b|
    decreases |a|
  {
    if a != {} {
      var x :| x in a;
      Subset(a - {x}, b - {x});
    }
  }

  lemma {:induction false} RankFalls(md: Metadata, ignore: seq<Package>, rank: Package -> nat, ps: seq<Package>)
    requires Ranked(md, ignore, rank) && Path(md, ignore, ps)
    ensures rank(ps[|ps| - 1]) < rank(ps[0])
    decreases |ps|
  {
    assert ps[0 + 1] in Requires(md, ignore, ps[0]);
    if |ps| > 2 {
      var rest := ps[1..];
      forall i | 0 <= i < |rest| - 1
        ensures rest[i + 1] in Requires(md, ignore, rest[i])
      {
        assert ps[i + 1 + 1] in Requires(md, ignore, ps[i + 1]);
      }
      RankFalls(md, ignore, rank, rest);
    }
  }

  /** No package requires itself, however indirectly, exactly when packages can be numbered so
      that every requirement has the smaller number. */
  lemma AcyclicMeansRanked(md: Metadata, ignore: seq<Package>)
    ensures Acyclic(md, ignore) <==> exists rank: Package -> nat :: Ranked(md, ignore, rank)
  {
    if Acyclic(md, ignore) {
      var rank: Package -> nat := p => |Reached(md, ignore, p)|;
      forall p, q | q in Requires(md, ignore, p)
        ensures rank(q) < rank(p)
      {
        FewerReached(md, ignore, p, q);
      }
      assert Ranked(md, ignore, rank);
    }
    if rank: Package -> nat :| Ranked(md, ignore, rank) {
      forall p
        ensures !Reaches(md, ignore, p, p)
      {
        if ps :| Path(md, ignore, ps) && ps[0] == p && ps[|ps| - 1] == p {
          RankFalls(md, ignore, rank, ps);
        }
      }
    }
  }

  /** An ordered list that has a package's requirements has all it reaches. */
  lemma {:induction false} ClosedUnderPaths(md: Metadata, ignore: seq<Package>, deps: seq<Package>, ps: seq<Package>)
    requires Ordered(md, ignore, deps) && Path(md, ignore, ps)
    requires forall q | q in Requires(md, ignore, ps[0]) :: q in deps
    ensures ps[|ps| - 1] in deps
    decreases |ps|
  {
    assert ps[0 + 1] in Requires(md, ignore, ps[0]);
    if |ps| > 2 {
      var rest := ps[1..];
      forall i | 0 <= i < |rest| - 1
        ensures rest[i + 1] in Requires(md, ignore, rest[i])
      {
        assert ps[i + 1 + 1] in Requires(md, ignore, ps[i + 1]);
      }
      var at :| 0 <= at < |deps| && deps[at] == ps[1];
      assert forall q | q in Requires(md, ignore, deps[at]) :: q in deps[..at];
      ClosedUnderPaths(md, ignore, deps, rest);
    }
  }

  lemma Append(md: Metadata, ignore: seq<Package>, deps: seq<Package>, p: Package)
    requires Ordered(md, ignore, deps) && p !in deps
    requires forall q | q in Requires(md, ignore, p) :: q in deps
    ensures Ordered(md, ignore, deps + [p])
  {
    var more := deps + [p];
    forall i, q | 0 <= i < |more| && q in Requires(md, ignore, more[i])
      ensures q in more[..i]
    {
      if i < |deps| {
        assert more[..i] == deps[..i];
      } else {
        assert more[..i] == deps;
      }
    }
  }

  // ----- The recursion over one shared list

  class DepList {
    var deps: seq<Package>

    constructor ()
      ensures deps == []
    {
      deps := [];
    }
  }

  /** What a call on p may have added since the list was `before`. */
  ghost predicate Grown(md: Metadata, ignore: seq<Package>, rank: Package -> nat, p: Package,
                        before: seq<Package>, after: seq<Package>) {
    && before <= after && Ordered(md, ignore, after)
    && forall q | q in after && q !in before :: Reaches(md, ignore, p, q) && rank(q) < rank(p)
  }

  /** The requirements among the first k of pdeps that count are listed. */
  ghost predicate Covered(pdeps: seq<string>, ignore: seq<Package>, k: nat, deps: seq<Package>)
    requires k <= |pdeps|
  {
    forall j | 0 <= j < k && !Optional(pdeps[j]) && NameOf(pdeps[j]) !in ignore :: NameOf(pdeps[j]) in deps
  }

  lemma CoveredStays(pdeps: seq<string>, ignore: seq<Package>, k: nat, before: seq<Package>, after: seq<Package>)
    requires k < |pdeps| && Covered(pdeps, ignore, k, before) && before <= after
    requires Optional(pdeps[k]) || NameOf(pdeps[k]) in ignore || NameOf(pdeps[k]) in after
    ensures Covered(pdeps, ignore, k + 1, after)
  {
    forall j | 0 <= j < k + 1 && !Optional(pdeps[j]) && NameOf(pdeps[j]) !in ignore
      ensures NameOf(pdeps[j]) in after
    {
      if j < k {
        var at :| 0 <= at < |before| && before[at] == NameOf(pdeps[j]);
        assert after[at] == before[at];
      }
    }
  }

  lemma CoveredIsRequired(md: Metadata, ignore: seq<Package>, p: Package, deps: seq<Package>)
    requires p in md && Covered(md[p], ignore, |md[p]|, deps)
    ensures forall q | q in Requires(md, ignore, p) :: q in deps
  {
    forall q | q in Requires(md, ignore, p)
      ensures q in deps
    {
      WantedMeans(md[p], ignore, q);
    }
  }

  lemma GrownAgain(md: Metadata, ignore: seq<Package>, rank: Package -> nat, p: Package,
                   before: seq<Package>, mid: seq<Package>, after: seq<Package>)
    requires Grown(md, ignore, rank, p, before, mid) && Grown(md, ignore, rank, p, mid, after)
    ensures Grown(md, ignore, rank, p, before, after)
  {}

  /** The recursive call on a requirement m of p, followed by its append. */
  lemma GrownByRequirement(md: Metadata, ignore: seq<Package>, rank: Package -> nat, p: Package, m: Package,
                           before: seq<Package>, mid: seq<Package>)
    requires Ranked(md, ignore, rank) && m in Requires(md, ignore, p) && m !in before
    requires Grown(md, ignore, rank, m, before, mid)
    requires forall q | q in Requires(md, ignore, m) :: q in mid
    ensures Grown(md, ignore, rank, p, before, mid + [m])
  {
    Append(md, ignore, mid, m);
    EdgeReaches(md, ignore, p, m);
    forall q | q in mid && q !in before
      ensures Reaches(md, ignore, p, q)
    {
      ReachesThrough(md, ignore, p, m, q);
    }
  }

  /** _package_deps: what it adds is reached from the package, and what the package requires
      is listed when it returns. */
  method PackageDeps(md: Metadata, package: Package, list: DepList, ignore: seq<Package>, ghost rank: Package -> nat)
    requires WellFormed(md) && Ranked(md, ignore, rank) && Ordered(md, ignore, list.deps)
    modifies list
    ensures Grown(md, ignore, rank, package, old(list.deps), list.deps)
    ensures forall q | q in Requires(md, ignore, package) :: q in list.deps
    decreases rank(package), 1
  {
    if package !in md {
      return;
    }
    var pdeps := md[package];
    ghost var start := list.deps;
    for i := 0 to |pdeps|
      invariant Grown(md, ignore, rank, package, start, list.deps)
      invariant Covered(pdeps, ignore, i, list.deps)
    {
      ghost var before := list.deps;
      VisitRequirement(md, package, i, list, ignore, rank);
      GrownAgain(md, ignore, rank, package, start, before, list.deps);
      CoveredStays(pdeps, ignore, i, before, list.deps);
    }
    CoveredIsRequired(md, ignore, package, list.deps);
  }

  /** The body of the loop over the requirements, for the one at index i. */
  method VisitRequirement(md: Metadata, package: Package, i: nat, list: DepList, ignore: seq<Package>,
                          ghost rank: Package -> nat)
    requires WellFormed(md) && Ranked(md, ignore, rank) && Ordered(md, ignore, list.deps)
    requires package in md && i < |md[package]|
    modifies list
    ensures Grown(md, ignore, rank, package, old(list.deps), list.deps)
    ensures Optional(md[package][i]) || NameOf(md[package][i]) in ignore || NameOf(md[package][i]) in list.deps
    decreases rank(package), 0
  {
    var r := md[package][i];
    if Optional(r) {
      return;
    }
    var name := ScanName(r);
    if name in ignore {
      return;
    }
    if name !in list.deps {
      ghost var before := list.deps;
      WantedMeans(md[package], ignore, name);
      PackageDeps(md, name, list, ignore, rank);
      GrownByRequirement(md, ignore, rank, package, name, before, list.deps);
      list.deps := list.deps + [name];
    }
  }

  /** The list after the roots up to k: it has their requirements, and nothing that no root
      reaches. */
  ghost predicate Gathered(md: Metadata, ignore: seq<Package>, packages: seq<Package>, k: nat, deps: seq<Package>)
    requires k <= |packages|
  {
    && Ordered(md, ignore, deps)
    && (forall q | q in deps :: ReachedBySome(md, ignore, packages, q))
    && (forall j, q | 0 <= j < k && q in Requires(md, ignore, packages[j]) :: q in deps)
  }

  ghost predicate ReachedBySome(md: Metadata, ignore: seq<Package>, packages: seq<Package>, q: Package) {
    exists p | p in packages :: Reaches(md, ignore, p, q)
  }

  lemma GatheredMore(md: Metadata, ignore: seq<Package>, rank: Package -> nat, packages: seq<Package>, k: nat,
                     before: seq<Package>, after: seq<Package>)
    requires k < |packages| && Gathered(md, ignore, packages, k, before)
    requires Grown(md, ignore, rank, packages[k], before, after)
    requires forall q | q in Requires(md, ignore, packages[k]) :: q in after
    ensures Gathered(md, ignore, packages, k + 1, after)
  {
    forall q | q in before
      ensures q in after
    {
      var at :| 0 <= at < |before| && before[at] == q;
      assert after[at] == q;
    }
    forall q | q in after
      ensures ReachedBySome(md, ignore, packages, q)
    {
      if q !in before {
        assert packages[k] in packages;
      }
    }
  }

  lemma AllGathered(md: Metadata, ignore: seq<Package>, packages: seq<Package>, deps: seq<Package>, q: Package)
    requires Gathered(md, ignore, packages, |packages|, deps)
    ensures q in deps <==> ReachedBySome(md, ignore, packages, q)
  {
    if ReachedBySome(md, ignore, packages, q) {
      var p :| p in packages && Reaches(md, ignore, p, q);
      var ps :| Path(md, ignore, ps) && ps[0] == p && ps[|ps| - 1] == q;
      var j :| 0 <= j < |packages| && packages[j] == p;
      ClosedUnderPaths(md, ignore, deps, ps);
    }
  }

  /** generate_requirements, up to the version lookup: one list shared by all the roots
      collects exactly what they reach, once each, every package after its requirements. */
  method GenerateRequirements(md: Metadata, packages: seq<Package>, ignore: seq<Package>) returns (deps: seq<Package>)
    requires WellFormed(md) && Acyclic(md, ignore)
    ensures Ordered(md, ignore, deps)
    ensures forall q :: q in deps <==> ReachedBySome(md, ignore, packages, q)
  {
    AcyclicMeansRanked(md, ignore);
    ghost var rank: Package -> nat :| Ranked(md, ignore, rank);
    var list := new DepList();
    for i := 0 to |packages|
      invariant Gathered(md, ignore, packages, i, list.deps)
    {
      ghost var before := list.deps;
      PackageDeps(md, packages[i], list, ignore, rank);
      GatheredMore(md, ignore, rank, packages, i, before, list.deps);
    }
    deps := list.deps;
    forall q: Package
      ensures q in deps <==> ReachedBySome(md, ignore, packages, q)
    {
      AllGathered(md, ignore, packages, deps, q);
    }
  }
}
