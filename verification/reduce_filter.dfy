/** Grouping, ordering and limiting resources (c7n/filters/core.py: ReduceFilter). */
module ReduceFilter {
  import opened Sequences
  import opened Wrappers

  datatype Order = Asc | Desc | Reverse | Randomize

  /** The filter's data; a zero stands for an option that is not given, as it does there. */
  datatype Config = Config(
    groupBy: bool, sortBy: bool, order: Option<Order>,
    limit: nat, limitPercent: real, discard: nat, discardPercent: real)

  function OrderOf(cfg: Config): Order {
    if cfg.order.Some? then cfg.order.value else Asc
  }

  /** Sort keys are only ever compared, so integers stand for them. `name` is the group value
      as a string, which identifies the group. */
  datatype Keys<!T> = Keys(name: T -> string, groupKey: T -> int, sortKey: T -> int)

  datatype Group<T> = Group(sortKey: int, members: seq<T>)

  function Named<T>(keys: Keys<T>, name: string): T -> bool {
    x => keys.name(x) == name
  }

  // ----- reorder

  function Negated<T>(key: T -> int): T -> int {
    x => -key(x)
  }

  /** What reorder makes of a list, unless the order is random. */
  function Reordered<T>(xs: seq<T>, key: T -> int, order: Order): seq<T> {
    match order
    case Asc => Sort(xs, key)
    case Desc => Sort(xs, Negated(key))
    case Reverse => Reversed(xs)
    case Randomize => xs
  }

  lemma ReorderedMultiset<T>(xs: seq<T>, key: T -> int, order: Order)
    ensures multiset(Reordered(xs, key, order)) == multiset(xs)
  {
    SortInOrder(xs, key);
    SortInOrder(xs, Negated(key));
    ReversedMultiset(xs);
  }

  method Sample<T>(xs: seq<T>) returns (r: seq<T>)
    ensures multiset(r) == multiset(xs)
  {
    r := [];
    var rest := xs;
    while rest != []
      invariant multiset(r) + multiset(rest) == multiset(xs)
      decreases |rest|
    {
      var i: nat :| i < |rest|;
      assert rest == rest[..i] + [rest[i]] + rest[i + 1..];
      r := r + [rest[i]];
      rest := rest[..i] + rest[i + 1..];
    }
  }

  method Reorder<T>(xs: seq<T>, key: T -> int, order: Order) returns (r: seq<T>)
    ensures multiset(r) == multiset(xs)
    ensures !order.Randomize? ==> r == Reordered(xs, key, order)
  {
    ReorderedMultiset(xs, key, order);
    if order == Randomize {
      r := Sample(xs);
    } else {
      r := Reordered(xs, key, order);
    }
  }

  // ----- limit

  function PercentOf(percent: real, n: nat): nat
    requires percent >= 0.0
  {
    (percent * n as real / 100.0).Floor
  }

  predicate ValidConfig(cfg: Config) {
    0.0 <= cfg.limitPercent <= 100.0 && 0.0 <= cfg.discardPercent <= 100.0
  }

  function Max(a: nat, b: nat): nat {
    if a < b then b else a
  }

  function Min(a: nat, b: nat): nat {
    if a < b then a else b
  }

  /** How many of a group of n are skipped. */
  function Discarded(cfg: Config, n: nat): nat
    requires ValidConfig(cfg)
  {
    Min(n, Max(cfg.discard, PercentOf(cfg.discardPercent, n)))
  }

  /** How many of the rest are kept: a limit of zero is no limit. */
  function Kept(cfg: Config, n: nat): (k: nat)
    requires ValidConfig(cfg)
    ensures k <= n - Discarded(cfg, n)
    ensures cfg.limit > 0 ==> k <= cfg.limit
    ensures cfg.limit == 0 && cfg.limitPercent == 0.0 ==> k == n - Discarded(cfg, n)
  {
    var left := n - Discarded(cfg, n);
    PercentWithin(cfg.limitPercent, left);
    var share := if cfg.limitPercent > 0.0 then PercentOf(cfg.limitPercent, left) else left;
    if cfg.limit > 0 then Min(cfg.limit, share) else share
  }

  lemma PercentWithin(percent: real, n: nat)
    requires 0.0 <= percent <= 100.0
    ensures PercentOf(percent, n) <= n
  {
    assert percent * n as real <= 100.0 * n as real;
  }

  /** A percentage is rounded down. */
  lemma PercentExact(percent: real, n: nat, k: nat)
    requires percent >= 0.0
    ensures PercentOf(percent, n) == k <==> 100.0 * k as real <= percent * n as real < 100.0 * (k as real + 1.0)
  {}

  /** d of a group of n may be discarded, by the number or by the percentage. */
  ghost predicate MayDiscard(cfg: Config, n: nat, d: nat) {
    d <= n && (d <= cfg.discard || 100.0 * d as real <= cfg.discardPercent * n as real)
  }

  /** k of a group of n may be kept behind d; what is not given does not limit. */
  ghost predicate MayKeep(cfg: Config, n: nat, d: nat, k: nat) {
    && d + k <= n && (cfg.limit > 0 ==> k <= cfg.limit)
    && (cfg.limitPercent > 0.0 ==> 100.0 * k as real <= cfg.limitPercent * (n - d) as real)
  }

  lemma PercentLargest(percent: real, n: nat, k: nat)
    requires percent >= 0.0
    ensures k <= PercentOf(percent, n) <==> 100.0 * k as real <= percent * n as real
  {
    PercentExact(percent, n, PercentOf(percent, n));
  }

  lemma LargestDiscard(cfg: Config, n: nat, x: nat)
    requires ValidConfig(cfg)
    ensures x <= Discarded(cfg, n) <==> MayDiscard(cfg, n, x)
  {
    PercentLargest(cfg.discardPercent, n, x);
  }

  /** As many are discarded as may be, and then as many kept. */
  lemma LargestSlice(cfg: Config, n: nat, x: nat)
    requires ValidConfig(cfg)
    ensures x <= Discarded(cfg, n) <==> MayDiscard(cfg, n, x)
    ensures x <= Kept(cfg, n) <==> MayKeep(cfg, n, Discarded(cfg, n), x)
  {
    LargestDiscard(cfg, n, x);
    LargestKept(cfg, n, Discarded(cfg, n), x);
  }

  lemma LargestKept(cfg: Config, n: nat, d: nat, x: nat)
    requires ValidConfig(cfg) && d == Discarded(cfg, n)
    ensures x <= Kept(cfg, n) <==> MayKeep(cfg, n, d, x)
  {
    LargestShare(cfg.limitPercent, n - d, x);
  }

  /** What the percentage leaves, when it is given. */
  lemma LargestShare(percent: real, left: nat, x: nat)
    requires 0.0 <= percent <= 100.0
    ensures x <= (if percent > 0.0 then PercentOf(percent, left) else left) <==>
              x <= left && (percent > 0.0 ==> 100.0 * x as real <= percent * left as real)
  {
    PercentLargest(percent, left, x);
    PercentWithin(percent, left);
  }

  function Taken<T>(cfg: Config, members: seq<T>): seq<T>
    requires ValidConfig(cfg)
  {
    var d := Discarded(cfg, |members|);
    members[d..d + Kept(cfg, |members|)]
  }

  /** limit's treatment of one group. */
  method LimitGroup<T>(cfg: Config, members: seq<T>) returns (rest: seq<T>, taken: seq<T>)
    requires ValidConfig(cfg)
    ensures rest == members[Discarded(cfg, |members|)..]
    ensures taken == Taken(cfg, members)
  {
    var drop := cfg.discard;
    if cfg.discardPercent > 0.0 {
      var n := PercentOf(cfg.discardPercent, |members|);
      if n > drop {
        drop := n;
      }
    }
    rest := members;
    if drop > 0 {
      rest := members[Min(drop, |members|)..];
    }
    var count := |rest|;
    if cfg.limitPercent > 0.0 {
      count := PercentOf(cfg.limitPercent, |rest|);
      PercentWithin(cfg.limitPercent, |rest|);
    }
    if cfg.limit > 0 && cfg.limit < count {
      count := cfg.limit;
    }
    taken := rest[..count];
  }

  /** The members taken, group by group. */
  function Joined<T>(cfg: Config, names: seq<string>, groups: map<string, Group<T>>): seq<T>
    requires ValidConfig(cfg) && forall n | n in names :: n in groups
  {
    if names == [] then []
    else Joined(cfg, names[..|names| - 1], groups) + Taken(cfg, groups[names[|names| - 1]].members)
  }

  /** The slices follow each other as the groups do. */
  lemma SlicesFollow<T>(cfg: Config, names: seq<string>, groups: map<string, Group<T>>, i: nat)
    requires ValidConfig(cfg) && i < |names| && forall n | n in names :: n in groups
    ensures Joined(cfg, names[..0], groups) == []
    ensures Joined(cfg, names[..i + 1], groups) ==
            Joined(cfg, names[..i], groups) + Taken(cfg, groups[names[i]].members)
    ensures Joined(cfg, names[..|names|], groups) == Joined(cfg, names, groups)
  {
    assert names[..i + 1][..i] == names[..i] && names[..|names|] == names;
  }

  predicate Distinct(names: seq<string>) {
    forall i, j | 0 <= i < j < |names| :: names[i] != names[j]
  }

  function NameKey<T>(groups: map<string, Group<T>>): string -> int {
    name => if name in groups then groups[name].sortKey else 0
  }

  /** limit; it also cuts the discarded members off the groups. */
  method Limit<T>(cfg: Config, names: seq<string>, groups: map<string, Group<T>>)
    returns (results: seq<T>, ordered: seq<string>)
    requires ValidConfig(cfg) && Distinct(names) && forall n :: n in names <==> n in groups
    ensures multiset(ordered) == multiset(names) && forall n | n in ordered :: n in groups
    ensures results == Joined(cfg, ordered, groups)
    ensures OrderOf(cfg) != Randomize ==>
              ordered == if cfg.groupBy || cfg.order.Some? then Reordered(names, NameKey(groups), OrderOf(cfg))
                         else names
  {
    var order := names;
    if cfg.groupBy || cfg.order.Some? {
      order := Reorder(names, NameKey(groups), OrderOf(cfg));
    }
    ordered := order;
    assert forall n | n in ordered :: n in multiset(ordered);
    SameDistinct(names, order);
    results := LimitAll(cfg, order, groups);
  }

  /** limit's loop over the groups. */
  method LimitAll<T>(cfg: Config, order: seq<string>, groups: map<string, Group<T>>) returns (results: seq<T>)
    requires ValidConfig(cfg) && Distinct(order) && forall n | n in order :: n in groups
    ensures results == Joined(cfg, order, groups)
  {
    results := [];
    var left := groups;
    for i := 0 to |order|
      invariant results == Joined(cfg, order[..i], groups)
      invariant left.Keys == groups.Keys && forall j | i <= j < |order| :: left[order[j]] == groups[order[j]]
    {
      var g := order[i];
      var rest, taken := LimitGroup(cfg, left[g].members);
      left := left[g := left[g].(members := rest)];
      results := results + taken;
      assert order[..i + 1][..i] == order[..i];
    }
    assert order[..|order|] == order;
  }

  lemma {:induction false} DistinctCounts(names: seq<string>)
    ensures Distinct(names) <==> forall n :: multiset(names)[n] <= 1
  {
    if names != [] {
      var front, last := names[..|names| - 1], names[|names| - 1];
      DistinctCounts(front);
      assert names == front + [last];
      assert multiset(names) == multiset(front) + multiset{last};
      if Distinct(names) {
        assert last !in front;
        assert multiset(front)[last] == 0;
      } else if Distinct(front) {
        assert last in front;
        assert multiset(names)[last] >= 2;
      } else {
        var n :| multiset(front)[n] > 1;
        assert multiset(names)[n] > 1;
      }
    }
  }

  lemma SameDistinct(a: seq<string>, b: seq<string>)
    requires multiset(a) == multiset(b) && Distinct(a)
    ensures Distinct(b)
  {
    DistinctCounts(a);
    DistinctCounts(b);
  }

  // ----- group

  /** The group names, in the order they first occur. */
  function Names<T>(keys: Keys<T>, rs: seq<T>): seq<string> {
    if rs == [] then []
    else
      var front, name := Names(keys, rs[..|rs| - 1]), keys.name(rs[|rs| - 1]);
      if name in front then front else front + [name]
  }

  /** Every name once; those of the first i resources come first. */
  lemma {:induction false} NamesInFirstOrder<T>(keys: Keys<T>, rs: seq<T>, i: nat)
    requires i <= |rs|
    ensures Distinct(Names(keys, rs)) && Names(keys, rs[..i]) <= Names(keys, rs)
    ensures forall n :: n in Names(keys, rs) <==> exists r | r in rs :: keys.name(r) == n
  {
    if rs != [] {
      var front, last := rs[..|rs| - 1], rs[|rs| - 1];
      assert rs == front + [last];
      if i == |rs| {
        assert rs[..i] == rs;
        NamesInFirstOrder(keys, front, 0);
      } else {
        assert rs[..i] == front[..i];
        NamesInFirstOrder(keys, front, i);
      }
    }
  }

  /** Each group has the resources of its name, in order, and the group key of the first. */
  ghost predicate AreGroups<T>(keys: Keys<T>, rs: seq<T>, names: seq<string>, groups: map<string, Group<T>>) {
    && names == Names(keys, rs) && Distinct(names)
    && (forall n :: n in names <==> n in groups)
    && (forall r | r in rs :: keys.name(r) in groups)
    && (forall n | n in groups :: groups[n].members == Select(rs, Named(keys, n)) != [] &&
          groups[n].sortKey == keys.groupKey(groups[n].members[0]))
  }

  lemma JoinsGroup<T>(keys: Keys<T>, rs: seq<T>, r: T, names: seq<string>, groups: map<string, Group<T>>)
    requires AreGroups(keys, rs, names, groups) && keys.name(r) in groups
    ensures var g := groups[keys.name(r)];
            AreGroups(keys, rs + [r], names, groups[keys.name(r) := g.(members := g.members + [r])])
  {
    assert (rs + [r])[..|rs|] == rs;
  }

  lemma StartsGroup<T>(keys: Keys<T>, rs: seq<T>, r: T, names: seq<string>, groups: map<string, Group<T>>)
    requires AreGroups(keys, rs, names, groups) && keys.name(r) !in groups
    ensures AreGroups(keys, rs + [r], names + [keys.name(r)], groups[keys.name(r) := Group(keys.groupKey(r), [r])])
  {
    assert (rs + [r])[..|rs|] == rs;
    SelectUniform(rs, Named(keys, keys.name(r)));
  }

  /** The body of group's loop. */
  method AddResource<T>(keys: Keys<T>, ghost rs: seq<T>, r: T, names: seq<string>, groups: map<string, Group<T>>)
    returns (moreNames: seq<string>, more: map<string, Group<T>>)
    requires AreGroups(keys, rs, names, groups)
    ensures AreGroups(keys, rs + [r], moreNames, more)
  {
    var name := keys.name(r);
    moreNames, more := names, groups;
    if name !in groups {
      StartsGroup(keys, rs, r, names, groups);
      moreNames, more := names + [name], groups[name := Group(keys.groupKey(r), [])];
      assert more[name := Group(keys.groupKey(r), [r])] == groups[name := Group(keys.groupKey(r), [r])];
    } else {
      JoinsGroup(keys, rs, r, names, groups);
    }
    more := more[name := more[name].(members := more[name].members + [r])];
  }

  method GroupResources<T>(keys: Keys<T>, rs: seq<T>) returns (names: seq<string>, groups: map<string, Group<T>>)
    ensures AreGroups(keys, rs, names, groups)
  {
    names, groups := [], map[];
    for i := 0 to |rs|
      invariant AreGroups(keys, rs[..i], names, groups)
    {
      names, groups := AddResource(keys, rs[..i], rs[i], names, groups);
      assert rs[..i + 1] == rs[..i] + [rs[i]];
    }
    assert rs[..|rs|] == rs;
  }

  // ----- process

  predicate Sorts(cfg: Config) {
    cfg.sortBy || cfg.order.Some?
  }

  /** A group's members when limit sees them. */
  ghost predicate Arranged<T>(cfg: Config, keys: Keys<T>, members: seq<T>, seen: seq<T>) {
    && multiset(seen) == multiset(members)
    && (!Sorts(cfg) ==> seen == members)
    && (Sorts(cfg) && OrderOf(cfg) != Randomize ==> seen == Reordered(members, keys.sortKey, OrderOf(cfg)))
  }

  ghost predicate AllArranged<T>(cfg: Config, keys: Keys<T>, rs: seq<T>, groups: map<string, Group<T>>) {
    forall n | n in groups :: Arranged(cfg, keys, Select(rs, Named(keys, n)), groups[n].members)
  }

  /** sort_groups when it has still to sort the groups in waiting. */
  ghost predicate Sorting<T>(cfg: Config, keys: Keys<T>, rs: seq<T>, groups: map<string, Group<T>>,
                             sorted: map<string, Group<T>>, waiting: set<string>) {
    && sorted.Keys == groups.Keys && waiting <= groups.Keys
    && (forall n | n in groups :: sorted[n].sortKey == groups[n].sortKey)
    && (forall n | n in waiting :: sorted[n] == groups[n])
    && (forall n | n in groups && n !in waiting :: Arranged(cfg, keys, Select(rs, Named(keys, n)), sorted[n].members))
  }

  lemma OneMoreSorted<T>(cfg: Config, keys: Keys<T>, rs: seq<T>, groups: map<string, Group<T>>,
                         sorted: map<string, Group<T>>, waiting: set<string>, n: string, members: seq<T>)
    requires Sorting(cfg, keys, rs, groups, sorted, waiting) && n in waiting
    requires Arranged(cfg, keys, Select(rs, Named(keys, n)), members)
    ensures Sorting(cfg, keys, rs, groups, sorted[n := sorted[n].(members := members)], waiting - {n})
  {
    var more := sorted[n := sorted[n].(members := members)];
    forall m | m in groups && m !in waiting - {n}
      ensures Arranged(cfg, keys, Select(rs, Named(keys, m)), more[m].members)
    {
      if m != n {
        assert more[m] == sorted[m];
      }
    }
  }

  /** sort_groups, for the groups of rs. */
  method SortGroups<T>(cfg: Config, keys: Keys<T>, rs: seq<T>, ghost names: seq<string>, groups: map<string, Group<T>>)
    returns (sorted: map<string, Group<T>>)
    requires Sorts(cfg) && AreGroups(keys, rs, names, groups)
    ensures Sorting(cfg, keys, rs, groups, sorted, {})
  {
    sorted := groups;
    var waiting := groups.Keys;
    while waiting != {}
      invariant Sorting(cfg, keys, rs, groups, sorted, waiting)
      decreases |waiting|
    {
      var g :| g in waiting;
      var members := Reorder(sorted[g].members, keys.sortKey, OrderOf(cfg));
      OneMoreSorted(cfg, keys, rs, groups, sorted, waiting, g, members);
      sorted := sorted[g := sorted[g].(members := members)];
      waiting := waiting - {g};
    }
  }

  /** The groups of rs as limit sees them, and the order in which it takes them. */
  ghost predicate Prepared<T>(cfg: Config, keys: Keys<T>, rs: seq<T>, ordered: seq<string>, groups: map<string,
                              Group<T>>) {
    && AllArranged(cfg, keys, rs, groups)
    && (forall r | r in rs :: keys.name(r) in groups)
    && (forall n | n in groups :: Select(rs, Named(keys, n)) != [] &&
          groups[n].sortKey == keys.groupKey(Select(rs, Named(keys, n))[0]))
    && Distinct(ordered) && (forall n :: n in ordered <==> n in groups)
    && (OrderOf(cfg) != Randomize ==>
          ordered == if cfg.groupBy || cfg.order.Some? then Reordered(Names(keys, rs), NameKey(groups), OrderOf(cfg))
                     else Names(keys, rs))
  }

  /** process; the order of the groups and the groups as limit sees them are given out too. */
  method Process<T>(cfg: Config, keys: Keys<T>, rs: seq<T>)
    returns (results: seq<T>, ordered: seq<string>, groups: map<string, Group<T>>)
    requires ValidConfig(cfg)
    ensures Prepared(cfg, keys, rs, ordered, groups)
    ensures results == Joined(cfg, ordered, groups)
  {
    var names, table := GroupResources(keys, rs);
    ghost var listed := table;
    if Sorts(cfg) {
      table := SortGroups(cfg, keys, rs, names, table);
    }
    results, ordered := Limit(cfg, names, table);
    groups := table;
    SameDistinct(names, ordered);
    forall n: string
      ensures n in ordered <==> n in groups
    {
      assert n in multiset(ordered) <==> n in multiset(names);
    }
    assert forall n | n in groups :: groups[n].sortKey == listed[n].sortKey;
  }

  lemma {:induction false} JoinedByName<T>(cfg: Config, keys: Keys<T>, names: seq<string>, groups: map<string,
                                           Group<T>>, n: string)
    requires ValidConfig(cfg) && Distinct(names) && forall m | m in names :: m in groups
    requires forall m, x | m in names && x in groups[m].members :: keys.name(x) == m
    ensures Select(Joined(cfg, names, groups), Named(keys, n)) ==
            if n in names then Taken(cfg, groups[n].members) else []
  {
    if names != [] {
      var front, last := names[..|names| - 1], names[|names| - 1];
      assert names == front + [last];
      JoinedByName(cfg, keys, front, groups, n);
      var taken := Taken(cfg, groups[last].members);
      SelectAppend(Joined(cfg, front, groups), taken, Named(keys, n));
      forall x | x in taken
        ensures keys.name(x) == last
      {
        assert x in groups[last].members;
      }
      SelectUniform(taken, Named(keys, n));
    }
  }

  /** What is returned of one group is the slice its own size calls for, of its own members
      as they are arranged. */
  ghost predicate SliceOf<T(!new)>(cfg: Config, keys: Keys<T>, rs: seq<T>, results: seq<T>, n: string)
    requires ValidConfig(cfg)
  {
    exists seen | Arranged(cfg, keys, Select(rs, Named(keys, n)), seen) ::
      Select(results, Named(keys, n)) == Taken(cfg, seen)
  }

  lemma EveryGroupSliced<T(!new)>(cfg: Config, keys: Keys<T>, rs: seq<T>, ordered: seq<string>,
                                  groups: map<string, Group<T>>, n: string)
    requires ValidConfig(cfg) && Prepared(cfg, keys, rs, ordered, groups)
    ensures SliceOf(cfg, keys, rs, Joined(cfg, ordered, groups), n)
  {
    forall m, x | m in ordered && x in groups[m].members
      ensures keys.name(x) == m
    {
      assert x in multiset(groups[m].members);
      SelectHas(rs, Named(keys, m), x);
    }
    JoinedByName(cfg, keys, ordered, groups, n);
    if n in ordered {
      assert Arranged(cfg, keys, Select(rs, Named(keys, n)), groups[n].members);
    } else {
      SelectUniform(rs, Named(keys, n));
      ReorderedMultiset<T>([], keys.sortKey, OrderOf(cfg));
      assert Arranged(cfg, keys, [], []);
    }
  }

  lemma TakenWithin<T>(cfg: Config, seen: seq<T>, x: T)
    requires ValidConfig(cfg)
    ensures multiset(Taken(cfg, seen))[x] <= multiset(seen)[x]
  {
    var d := Discarded(cfg, |seen|);
    var k := Kept(cfg, |seen|);
    var before, taken, after := seen[..d], seen[d..d + k], seen[d + k..];
    assert seen == before + taken + after;
    assert multiset(seen) == multiset(before) + multiset(taken) + multiset(after);
  }

  /** No resource is returned more often than it was given. */
  lemma NoneTwice<T(!new)>(cfg: Config, keys: Keys<T>, rs: seq<T>, ordered: seq<string>,
                           groups: map<string, Group<T>>, x: T)
    requires ValidConfig(cfg) && Prepared(cfg, keys, rs, ordered, groups)
    ensures multiset(Joined(cfg, ordered, groups))[x] <= multiset(rs)[x]
  {
    var p, results := Named(keys, keys.name(x)), Joined(cfg, ordered, groups);
    EveryGroupSliced(cfg, keys, rs, ordered, groups, keys.name(x));
    var seen :| Arranged(cfg, keys, Select(rs, p), seen) && Select(results, p) == Taken(cfg, seen);
    SelectCount(results, p, x);
    SelectCount(rs, p, x);
    TakenWithin(cfg, seen, x);
    assert p(x);
  }

  /** x is not after y in the order asked for. */
  predicate NoLater<T>(cfg: Config, keys: Keys<T>, x: T, y: T) {
    if OrderOf(cfg) == Desc then keys.sortKey(x) >= keys.sortKey(y) else keys.sortKey(x) <= keys.sortKey(y)
  }

  lemma SortedPairs<T>(cfg: Config, keys: Keys<T>, members: seq<T>, seen: seq<T>, i: nat, j: nat)
    requires Arranged(cfg, keys, members, seen) && Sorts(cfg) && OrderOf(cfg) in {Asc, Desc}
    requires i < j < |seen|
    ensures NoLater(cfg, keys, seen[i], seen[j])
  {
    SortInOrder(members, keys.sortKey);
    SortInOrder(members, Negated(keys.sortKey));
    assert Negated(keys.sortKey)(seen[i]) == -keys.sortKey(seen[i]);
    assert Negated(keys.sortKey)(seen[j]) == -keys.sortKey(seen[j]);
  }

  lemma SliceSortsBetween<T>(cfg: Config, keys: Keys<T>, members: seq<T>, seen: seq<T>, d: nat, k: nat, x: T, y: T)
    requires Arranged(cfg, keys, members, seen) && Sorts(cfg) && OrderOf(cfg) in {Asc, Desc}
    requires d + k <= |seen| && x in seen[d..d + k]
    ensures y in seen[d + k..] ==> NoLater(cfg, keys, x, y)
    ensures y in seen[..d] ==> NoLater(cfg, keys, y, x)
  {
    var i :| d <= i < d + k && seen[i] == x;
    if y in seen[d + k..] {
      var j :| d + k <= j < |seen| && seen[j] == y;
      SortedPairs(cfg, keys, members, seen, i, j);
    }
    if y in seen[..d] {
      var j :| 0 <= j < d && seen[j] == y;
      SortedPairs(cfg, keys, members, seen, j, i);
    }
  }

  /** In a sorted group, every member that is kept sorts no later than every one cut after it,
      and no earlier than every one discarded before it. */
  lemma KeptSortFirst<T>(cfg: Config, keys: Keys<T>, members: seq<T>, seen: seq<T>, x: T, y: T)
    requires ValidConfig(cfg) && Arranged(cfg, keys, members, seen)
    requires Sorts(cfg) && OrderOf(cfg) in {Asc, Desc}
    requires x in Taken(cfg, seen)
    ensures y in seen[Discarded(cfg, |seen|) + Kept(cfg, |seen|)..] ==> NoLater(cfg, keys, x, y)
    ensures y in seen[..Discarded(cfg, |seen|)] ==> NoLater(cfg, keys, y, x)
  {
    SliceSortsBetween(cfg, keys, members, seen, Discarded(cfg, |seen|), Kept(cfg, |seen|), x, y);
  }
}
