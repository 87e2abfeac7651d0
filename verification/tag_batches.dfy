/** Writing tags whose values differ by resource (c7n/tags.py: TagValueResolver, Tag,
    _common_tag_processer; c7n/lookup.py; c7n/utils.py: chunks). */
module TagBatches {
  import opened Sequences
  import opened Wrappers

  type Id = string
  type Tags = map<string, string>
  type Store = map<Id, Tags>

  /** A tag's value: given, or looked up by key with an optional fallback. A lookup without a
      key is a conditional default. */
  datatype Spec = Scalar(value: string) | Lookup(key: Option<string>, fallback: Option<string>)

  /** A listed resource: its tag keys, and what every lookup expression yields on it. */
  datatype Resource = Resource(id: Id, tagKeys: set<string>, found: map<string, string>)

  datatype Resolution = Skip | Write(value: string) | Fail

  /** Lookup.resolve_value */
  function Resolve(spec: Spec, r: Resource, name: string): Resolution {
    match spec
    case Scalar(value) => Write(value)
    case Lookup(key, fallback) =>
      if key.None? && name in r.tagKeys then Skip
      else if key.Some? && key.value in r.found then Write(r.found[key.value])
      else if fallback.Some? then Write(fallback.value)
      else Fail
  }

  /** Replacing {account_id} and the like, the same for every resource of a run. */
  type Interpolation = string -> string

  predicate Resolvable(specs: map<string, Spec>, r: Resource) {
    forall name | name in specs :: !Resolve(specs[name], r, name).Fail?
  }

  /** The tags to write on one resource. */
  function Payload(specs: map<string, Spec>, format: Interpolation, r: Resource): Tags {
    map name | name in specs && Resolve(specs[name], r, name).Write? :: format(Resolve(specs[name], r, name).value)
  }

  // ----- The service

  function Tagging(s: Store, ids: set<Id>, tags: Tags): Store {
    map id | id in s :: if id in ids then s[id] + tags else s[id]
  }

  /** Call number n fails, with no effect, when down(n). */
  class Service {
    var store: Store
    var calls: nat
    const down: nat -> bool

    constructor (store: Store, down: nat -> bool)
      ensures this.store == store && this.down == down && calls == 0
    {
      this.store, this.down, calls := store, down, 0;
    }

    method CreateTags(ids: set<Id>, tags: Tags) returns (ok: bool)
      modifies this
      ensures calls == old(calls) + 1 && ok == !down(old(calls))
      ensures store == if ok then Tagging(old(store), ids, tags) else old(store)
    {
      ok := !down(calls);
      calls := calls + 1;
      if ok {
        store := Tagging(store, ids, tags);
      }
    }
  }

  ghost predicate FailedSince(client: Service, start: nat)
    reads client
  {
    exists n | start <= n < client.calls :: client.down(n)
  }

  /** The reference: every resource tagged alone, in listed order. */
  function TagEach(s: Store, specs: map<string, Spec>, format: Interpolation, rs: seq<Resource>): Store {
    if rs == [] then s
    else
      var last := rs[|rs| - 1];
      Tagging(TagEach(s, specs, format, rs[..|rs| - 1]), {last.id}, Payload(specs, format, last))
  }

  predicate DistinctIds(rs: seq<Resource>) {
    forall i, j | 0 <= i < j < |rs| :: rs[i].id != rs[j].id
  }

  function IdSet(rs: seq<Resource>): set<Id> {
    set r | r in rs :: r.id
  }

  lemma {:induction false} TagEachOne(s: Store, specs: map<string, Spec>, format: Interpolation,
                                      rs: seq<Resource>, id: Id)
    requires DistinctIds(rs) && id in s
    ensures id in TagEach(s, specs, format, rs)
    ensures id !in IdSet(rs) ==> TagEach(s, specs, format, rs)[id] == s[id]
    ensures forall r | r in rs && r.id == id :: TagEach(s, specs, format, rs)[id] == s[id] + Payload(specs, format, r)
  {
    if rs != [] {
      var front, last := rs[..|rs| - 1], rs[|rs| - 1];
      TagEachOne(s, specs, format, front, id);
      assert last in rs && forall r | r in front :: r in rs;
      forall r | r in rs && r.id == id
        ensures TagEach(s, specs, format, rs)[id] == s[id] + Payload(specs, format, r)
      {
        if r != last {
          assert r in front;
        } else {
          assert id !in IdSet(front);
        }
      }
    }
  }

  /** A conditional default never changes a tag that is already there, and writes one that is
      not. */
  lemma DefaultsNeverOverwrite(s: Store, specs: map<string, Spec>, format: Interpolation, rs: seq<Resource>,
                               r: Resource, name: string, fallback: string)
    requires DistinctIds(rs) && r in rs && r.id in s && s[r.id].Keys == r.tagKeys
    requires name in specs && specs[name] == Lookup(None, Some(fallback))
    ensures var after := TagEach(s, specs, format, rs);
            r.id in after && name in after[r.id] &&
            after[r.id][name] == if name in s[r.id] then s[r.id][name] else format(fallback)
  {
    TagEachOne(s, specs, format, rs, r.id);
  }

  /** Every tag gets its given value, or what is found for it, or else its fallback. */
  lemma FoundValueWins(s: Store, specs: map<string, Spec>, format: Interpolation, rs: seq<Resource>, r: Resource,
                       name: string)
    requires DistinctIds(rs) && r in rs && r.id in s
    ensures r.id in TagEach(s, specs, format, rs)
    ensures var after := TagEach(s, specs, format, rs)[r.id];
            if name !in specs then
              (name in after <==> name in s[r.id]) && (name in after ==> after[name] == s[r.id][name])
            else
              match specs[name]
              case Scalar(value) => name in after && after[name] == format(value)
              case Lookup(Some(key), fallback) =>
                && (key in r.found ==> name in after && after[name] == format(r.found[key]))
                && (key !in r.found && fallback.Some? ==> name in after && after[name] == format(fallback.value))
              case Lookup(None, _) => true
  {
    TagEachOne(s, specs, format, rs, r.id);
  }

  /** A resource has no payload exactly when some lookup finds nothing and has no fallback. */
  lemma ResolvableExact(specs: map<string, Spec>, r: Resource)
    ensures Resolvable(specs, r) <==> forall name, key | name in specs && specs[name] == Lookup(key, None) ::
              if key.Some? then key.value in r.found else name in r.tagKeys
  {
    forall name | name in specs
      ensures Resolve(specs[name], r, name).Fail? <==>
                (specs[name].Lookup? && specs[name].fallback.None? &&
                 if specs[name].key.Some? then specs[name].key.value !in r.found else name !in r.tagKeys)
    {}
    if !Resolvable(specs, r) {
      var name :| name in specs && Resolve(specs[name], r, name).Fail?;
      assert specs[name] == Lookup(specs[name].key, None);
    }
  }

  // ----- Batches

  function Flattened<T>(parts: seq<seq<T>>): seq<T> {
    if parts == [] then [] else Flattened(parts[..|parts| - 1]) + parts[|parts| - 1]
  }

  /** Batches of the given size, the last one possibly smaller but not empty. */
  ghost predicate AreChunks<T>(parts: seq<seq<T>>, xs: seq<T>, size: nat) {
    && Flattened(parts) == xs
    && (forall i | 0 <= i < |parts| :: 1 <= |parts[i]| <= size)
    && (forall i | 0 <= i < |parts| - 1 :: |parts[i]| == size)
  }

  lemma FlattenedSnoc<T>(parts: seq<seq<T>>, last: seq<T>)
    ensures Flattened(parts + [last]) == Flattened(parts) + last
  {
    assert (parts + [last])[..|parts|] == parts;
  }

  /** Whether a batch is complete; it never grows past the size. */
  method IsFull(n: nat, size: nat) returns (full: bool)
    requires 1 <= n <= size
    ensures full <==> n == size
  {
    full := n % size == 0;
  }

  /** chunks */
  method Chunks<T>(xs: seq<T>, size: nat) returns (parts: seq<seq<T>>)
    requires size >= 1
    ensures AreChunks(parts, xs, size)
  {
    parts := [];
    var batch: seq<T> := [];
    for i := 0 to |xs|
      invariant |batch| < size && Flattened(parts) + batch == xs[..i]
      invariant forall j | 0 <= j < |parts| :: |parts[j]| == size
    {
      assert xs[..i + 1] == xs[..i] + [xs[i]];
      batch := batch + [xs[i]];
      var full := IsFull(|batch|, size);
      if full {
        FlattenedSnoc(parts, batch);
        parts := parts + [batch];
        batch := [];
      }
    }
    assert xs[..|xs|] == xs;
    if batch != [] {
      FlattenedSnoc(parts, batch);
      parts := parts + [batch];
    }
  }

  lemma {:induction false} FlattenedHas<T>(parts: seq<seq<T>>, x: T)
    ensures x in Flattened(parts) <==> exists i | 0 <= i < |parts| :: x in parts[i]
  {
    if parts != [] {
      var front := parts[..|parts| - 1];
      FlattenedHas(front, x);
      if i :| 0 <= i < |parts| && x in parts[i] {
        assert i < |front| ==> front[i] == parts[i];
      }
      if i :| 0 <= i < |front| && x in front[i] {
        assert parts[i] == front[i];
      }
    }
  }

  lemma TaggingTwice(s: Store, a: set<Id>, b: set<Id>, tags: Tags)
    ensures Tagging(Tagging(s, a, tags), b, tags) == Tagging(s, a + b, tags)
  {
    forall id | id in s
      ensures (s[id] + tags) + tags == s[id] + tags
    {}
  }

  function Indices(n: nat): (r: set<nat>)
    ensures forall i :: i in r <==> 0 <= i < n
  {
    if n == 0 then {} else Indices(n - 1) + {n - 1}
  }

  /** The ids of some of the batches. */
  ghost function IdsOf(parts: seq<seq<Resource>>, which: set<nat>): set<Id> {
    set i, r | 0 <= i < |parts| && i in which && r in parts[i] :: r.id
  }

  lemma IdsOfAll(parts: seq<seq<Resource>>, which: set<nat>)
    ensures IdsOf(parts, which) <= IdSet(Flattened(parts))
    ensures which == Indices(|parts|) ==> IdsOf(parts, which) == IdSet(Flattened(parts))
  {
    forall r: Resource
      ensures r in Flattened(parts) <==> exists i | 0 <= i < |parts| :: r in parts[i]
    {
      FlattenedHas(parts, r);
    }
    if which == Indices(|parts|) {
      forall id | id in IdSet(Flattened(parts))
        ensures id in IdsOf(parts, which)
      {
        var r :| r in Flattened(parts) && r.id == id;
        var i :| 0 <= i < |parts| && r in parts[i];
      }
    }
  }

  lemma IdsOfOneMore(parts: seq<seq<Resource>>, which: set<nat>, i: nat)
    requires i < |parts|
    ensures IdsOf(parts, which + {i}) == IdsOf(parts, which) + IdSet(parts[i])
  {}

  /** The batches not in waiting have been tried, and those in written are. */
  ghost predicate Sending(client: Service, parts: seq<seq<Resource>>, tags: Tags, before: Store, start: nat,
                          waiting: set<nat>, written: set<nat>)
    reads client
  {
    && (forall i | i in waiting || i in written :: i < |parts|)
    && client.store == Tagging(before, IdsOf(parts, written), tags)
    && start <= client.calls && client.calls + |waiting| == start + |parts|
    && (!FailedSince(client, start) ==> forall i | 0 <= i < |parts| :: i in waiting || i in written)
  }

  method TagBatch(client: Service, parts: seq<seq<Resource>>, tags: Tags, ghost before: Store, ghost start: nat,
                  ghost waiting: set<nat>, ghost written: set<nat>, i: nat)
    returns (ok: bool)
    requires Sending(client, parts, tags, before, start, waiting, written) && i in waiting
    modifies client
    ensures Sending(client, parts, tags, before, start, waiting - {i}, if ok then written + {i} else written)
    ensures FailedSince(client, start) <==> !ok || old(FailedSince(client, start))
  {
    IdsOfOneMore(parts, written, i);
    TaggingTwice(before, IdsOf(parts, written), IdSet(parts[i]), tags);
    ok := client.CreateTags(IdSet(parts[i]), tags);
    assert client.down(client.calls - 1) == !ok;
  }

  /** _common_tag_processer: one payload written batch by batch, the batches in whatever order
      the workers take them. Every batch is tried, also after one has failed. */
  method TagSet(client: Service, rs: seq<Resource>, tags: Tags, batchSize: nat)
    returns (parts: seq<seq<Resource>>, written: set<nat>, ok: bool)
    requires batchSize >= 1
    modifies client
    ensures AreChunks(parts, rs, batchSize) && client.calls == old(client.calls) + |parts|
    ensures client.store == Tagging(old(client.store), IdsOf(parts, written), tags)
    ensures written <= Indices(|parts|) && (ok ==> written == Indices(|parts|))
    ensures ok <==> !FailedSince(client, old(client.calls))
  {
    ghost var before, start := client.store, client.calls;
    parts := Chunks(rs, batchSize);
    var waiting := Indices(|parts|);
    written, ok := {}, true;
    IndicesCount(|parts|);
    assert IdsOf(parts, written) == {} && Tagging(before, {}, tags) == before;
    while waiting != {}
      invariant Sending(client, parts, tags, before, start, waiting, written)
      invariant ok <==> !FailedSince(client, start)
      decreases |waiting|
    {
      var i :| i in waiting;
      var done := TagBatch(client, parts, tags, before, start, waiting, written, i);
      waiting := waiting - {i};
      if done {
        written := written + {i};
      } else {
        ok := false;
      }
    }
  }

  lemma {:induction false} IndicesCount(n: nat)
    ensures |Indices(n)| == n
  {
    if n > 0 {
      IndicesCount(n - 1);
    }
  }

  // ----- Groups

  function HasPayload(specs: map<string, Spec>, format: Interpolation, tags: Tags): Resource -> bool {
    (r: Resource) => Payload(specs, format, r) == tags
  }

  /** The resources with one payload, in listed order. */
  function WithPayload(specs: map<string, Spec>, format: Interpolation, rs: seq<Resource>, tags: Tags): seq<Resource> {
    Select(rs, HasPayload(specs, format, tags))
  }

  /** One group for each payload some resource has, except the empty one. */
  ghost predicate AreGroups(groups: map<Tags, seq<Resource>>, specs: map<string, Spec>, format: Interpolation,
                            rs: seq<Resource>) {
    forall tags ::
      && (tags in groups <==> tags != map[] && WithPayload(specs, format, rs, tags) != [])
      && (tags in groups ==> groups[tags] == WithPayload(specs, format, rs, tags))
  }

  /** resolve_resource_tags; None when a lookup yields nothing and has no fallback. */
  method ResolveResourceTags(specs: map<string, Spec>, format: Interpolation, r: Resource) returns (tags: Option<Tags>)
    ensures tags.Some? <==> Resolvable(specs, r)
    ensures tags.Some? ==> tags.value == Payload(specs, format, r)
  {
    var resolved: Tags := map[];
    var rest := specs.Keys;
    while rest != {}
      invariant rest <= specs.Keys
      invariant forall name | name in specs && name !in rest :: !Resolve(specs[name], r, name).Fail?
      invariant resolved == map name | name in specs && name !in rest && Resolve(specs[name], r, name).Write? ::
                              format(Resolve(specs[name], r, name).value)
      decreases |rest|
    {
      var name :| name in rest;
      rest := rest - {name};
      match Resolve(specs[name], r, name) {
        case Skip =>
        case Fail =>
          return None;
        case Write(value) =>
          resolved := resolved[name := format(value)];
      }
    }
    tags := Some(resolved);
  }

  /** The body of resolve_and_group's loop, for one more resource. */
  lemma OneMoreGrouped(groups: map<Tags, seq<Resource>>, specs: map<string, Spec>, format: Interpolation,
                       rs: seq<Resource>, r: Resource)
    requires AreGroups(groups, specs, format, rs)
    ensures var tags := Payload(specs, format, r);
            if tags == map[] then AreGroups(groups, specs, format, rs + [r])
            else AreGroups(groups[tags := (if tags in groups then groups[tags] else []) + [r]], specs, format, rs + [r])
  {
    assert (rs + [r])[..|rs|] == rs;
  }

  /** resolve_and_group; None when some resource cannot be resolved. */
  method ResolveAndGroup(specs: map<string, Spec>, format: Interpolation, rs: seq<Resource>)
    returns (groups: Option<map<Tags, seq<Resource>>>)
    ensures groups.Some? <==> forall r | r in rs :: Resolvable(specs, r)
    ensures groups.Some? ==> AreGroups(groups.value, specs, format, rs)
  {
    var found: map<Tags, seq<Resource>> := map[];
    for i := 0 to |rs|
      invariant forall j | 0 <= j < i :: Resolvable(specs, rs[j])
      invariant AreGroups(found, specs, format, rs[..i])
    {
      assert rs[..i + 1] == rs[..i] + [rs[i]];
      OneMoreGrouped(found, specs, format, rs[..i], rs[i]);
      var tags := ResolveResourceTags(specs, format, rs[i]);
      if tags.None? {
        return None;
      }
      if tags.value == map[] {
        continue;
      }
      found := found[tags.value := (if tags.value in found then found[tags.value] else []) + [rs[i]]];
    }
    assert rs[..|rs|] == rs;
    groups := Some(found);
  }

  predicate Dynamic(specs: map<string, Spec>) {
    exists name | name in specs :: specs[name].Lookup?
  }

  /** The resources whose payload's group has been written have their tags, the others do not. */
  ghost predicate Written(before: Store, s: Store, specs: map<string, Spec>, format: Interpolation,
                          rs: seq<Resource>, waiting: set<Tags>) {
    && s.Keys == before.Keys
    && (forall id | id in before && id !in IdSet(rs) :: s[id] == before[id])
    && (forall r | r in rs && r.id in before ::
          s[r.id] == if Payload(specs, format, r) in waiting then before[r.id]
                     else before[r.id] + Payload(specs, format, r))
  }

  lemma SameId(rs: seq<Resource>, a: Resource, b: Resource)
    requires DistinctIds(rs) && a in rs && b in rs && a.id == b.id
    ensures a == b
  {}

  lemma GroupIds(specs: map<string, Spec>, format: Interpolation, rs: seq<Resource>, tags: Tags)
    requires DistinctIds(rs)
    ensures IdSet(WithPayload(specs, format, rs, tags)) <= IdSet(rs)
    ensures forall r | r in rs ::
              r.id in IdSet(WithPayload(specs, format, rs, tags)) <==> Payload(specs, format, r) == tags
  {
    var group := WithPayload(specs, format, rs, tags);
    forall r | r in group
      ensures r in rs && Payload(specs, format, r) == tags
    {
      SelectHas(rs, HasPayload(specs, format, tags), r);
    }
    forall r | r in rs
      ensures r.id in IdSet(group) <==> Payload(specs, format, r) == tags
    {
      SelectHas(rs, HasPayload(specs, format, tags), r);
      if other :| other in group && other.id == r.id {
        SameId(rs, r, other);
      }
    }
  }

  lemma GroupWritten(before: Store, s: Store, specs: map<string, Spec>, format: Interpolation,
                     rs: seq<Resource>, waiting: set<Tags>, tags: Tags)
    requires DistinctIds(rs) && Written(before, s, specs, format, rs, waiting) && tags in waiting
    ensures var ids := IdSet(WithPayload(specs, format, rs, tags));
            Written(before, Tagging(s, ids, tags), specs, format, rs, waiting - {tags})
  {
    GroupIds(specs, format, rs, tags);
    var ids := IdSet(WithPayload(specs, format, rs, tags));
    var after := Tagging(s, ids, tags);
    forall r | r in rs && r.id in before
      ensures after[r.id] == if Payload(specs, format, r) in waiting - {tags} then before[r.id]
                             else before[r.id] + Payload(specs, format, r)
    {
      assert r.id in ids <==> Payload(specs, format, r) == tags;
    }
  }

  lemma AllAtOnce(before: Store, specs: map<string, Spec>, format: Interpolation, rs: seq<Resource>, tags: Tags,
                  ids: set<Id>)
    requires forall r | r in rs :: Payload(specs, format, r) == tags
    requires ids <= IdSet(rs)
    ensures PartlyWritten(before, Tagging(before, ids, tags), specs, format, rs)
    ensures ids == IdSet(rs) ==> Written(before, Tagging(before, ids, tags), specs, format, rs, {})
  {}

  lemma AllWritten(before: Store, s: Store, specs: map<string, Spec>, format: Interpolation, rs: seq<Resource>)
    requires DistinctIds(rs) && Written(before, s, specs, format, rs, {})
    ensures s == TagEach(before, specs, format, rs)
  {
    TagEachKeys(before, specs, format, rs);
    forall id | id in before
      ensures s[id] == TagEach(before, specs, format, rs)[id]
    {
      TagEachOne(before, specs, format, rs, id);
    }
  }

  lemma {:induction false} TagEachKeys(s: Store, specs: map<string, Spec>, format: Interpolation, rs: seq<Resource>)
    ensures TagEach(s, specs, format, rs).Keys == s.Keys
  {
    if rs != [] {
      TagEachKeys(s, specs, format, rs[..|rs| - 1]);
    }
  }

  datatype Outcome = Finished | Unresolved | ServiceFailed

  /** Every resource has its tags or does not yet; no other changes. */
  ghost predicate PartlyWritten(before: Store, s: Store, specs: map<string, Spec>, format: Interpolation,
                                rs: seq<Resource>) {
    && s.Keys == before.Keys
    && (forall id | id in before && id !in IdSet(rs) :: s[id] == before[id])
    && (forall r | r in rs && r.id in before ::
          s[r.id] == before[r.id] || s[r.id] == before[r.id] + Payload(specs, format, r))
  }

  /** Some of a group's batches are written. */
  lemma GroupPartlyWritten(before: Store, s: Store, specs: map<string, Spec>, format: Interpolation,
                           rs: seq<Resource>, waiting: set<Tags>, tags: Tags, ids: set<Id>)
    requires DistinctIds(rs) && Written(before, s, specs, format, rs, waiting)
    requires ids <= IdSet(WithPayload(specs, format, rs, tags)) && (tags in waiting || ids == {})
    ensures PartlyWritten(before, Tagging(s, ids, tags), specs, format, rs)
  {
    GroupIds(specs, format, rs, tags);
    forall r | r in rs && r.id in ids
      ensures Payload(specs, format, r) == tags
    {}
  }

  /** One group, batch by batch, stopping the whole action if some batch failed. */
  method TagGroup(client: Service, specs: map<string, Spec>, format: Interpolation, rs: seq<Resource>,
                  members: seq<Resource>, tags: Tags, batchSize: nat, ghost waiting: set<Tags>, ghost before: Store)
    returns (ok: bool)
    requires DistinctIds(rs) && batchSize >= 1 && tags in waiting && members == WithPayload(specs, format, rs, tags)
    requires Written(before, client.store, specs, format, rs, waiting)
    modifies client
    ensures ok ==> Written(before, client.store, specs, format, rs, waiting - {tags})
    ensures PartlyWritten(before, client.store, specs, format, rs)
    ensures old(client.calls) <= client.calls && (ok <==> !FailedSince(client, old(client.calls)))
  {
    ghost var s := client.store;
    var parts, written, done := TagSet(client, members, tags, batchSize);
    ok := done;
    IdsOfAll(parts, written);
    GroupPartlyWritten(before, s, specs, format, rs, waiting, tags, IdsOf(parts, written));
    if ok {
      GroupWritten(before, s, specs, format, rs, waiting, tags);
    }
  }

  /** process. When no call fails, groups and batches leave every resource with the tags it would
      have if it were tagged alone. When some lookup fails, nothing is written; when a call fails,
      every resource still has either all of its payload or none of it. */
  method Process(client: Service, specs: map<string, Spec>, format: Interpolation, rs: seq<Resource>, batchSize: nat)
    returns (outcome: Outcome)
    requires DistinctIds(rs) && batchSize >= 1
    modifies client
    ensures outcome.Unresolved? <==> exists r | r in rs :: !Resolvable(specs, r)
    ensures outcome.Unresolved? ==> client.store == old(client.store) && client.calls == old(client.calls)
    ensures outcome.Finished? ==> client.store == TagEach(old(client.store), specs, format, rs)
    ensures outcome.ServiceFailed? ==> PartlyWritten(old(client.store), client.store, specs, format, rs)
    ensures old(client.calls) <= client.calls && (outcome.ServiceFailed? <==> FailedSince(client, old(client.calls)))
  {
    ghost var before, start := client.store, client.calls;
    if !Dynamic(specs) {
      outcome := ProcessStatic(client, specs, format, rs, batchSize);
      return;
    }
    var groups := ResolveAndGroup(specs, format, rs);
    if groups.None? {
      return Unresolved;
    }
    var waiting := groups.value.Keys;
    NothingWritten(before, specs, format, rs, groups.value);
    while waiting != {}
      invariant waiting <= groups.value.Keys && Written(before, client.store, specs, format, rs, waiting)
      invariant start <= client.calls && !FailedSince(client, start)
      decreases |waiting|
    {
      var tags :| tags in waiting;
      var ok := TagGroup(client, specs, format, rs, groups.value[tags], tags, batchSize, waiting, before);
      if !ok {
        return ServiceFailed;
      }
      waiting := waiting - {tags};
    }
    AllWritten(before, client.store, specs, format, rs);
    outcome := Finished;
  }

  /** Without lookups there is one payload for all. */
  method ProcessStatic(client: Service, specs: map<string, Spec>, format: Interpolation, rs: seq<Resource>,
                       batchSize: nat)
    returns (outcome: Outcome)
    requires DistinctIds(rs) && batchSize >= 1 && !Dynamic(specs)
    modifies client
    ensures !outcome.Unresolved? && forall r | r in rs :: Resolvable(specs, r)
    ensures outcome.Finished? ==> client.store == TagEach(old(client.store), specs, format, rs)
    ensures outcome.ServiceFailed? ==> PartlyWritten(old(client.store), client.store, specs, format, rs)
    ensures old(client.calls) <= client.calls && (outcome.ServiceFailed? <==> FailedSince(client, old(client.calls)))
  {
    ghost var before := client.store;
    var tags := map name | name in specs && specs[name].Scalar? :: format(specs[name].value);
    StaticPayload(specs, format, rs, tags);
    var parts, written, ok := TagSet(client, rs, tags, batchSize);
    IdsOfAll(parts, written);
    AllAtOnce(before, specs, format, rs, tags, IdsOf(parts, written));
    if ok {
      AllWritten(before, client.store, specs, format, rs);
      return Finished;
    }
    outcome := ServiceFailed;
  }

  lemma StaticPayload(specs: map<string, Spec>, format: Interpolation, rs: seq<Resource>, tags: Tags)
    requires !Dynamic(specs) && tags == map name | name in specs && specs[name].Scalar? :: format(specs[name].value)
    ensures forall r: Resource :: Resolvable(specs, r) && Payload(specs, format, r) == tags
  {
    forall name | name in specs
      ensures specs[name].Scalar?
    {}
    forall r: Resource
      ensures Payload(specs, format, r) == tags
    {
      assert Payload(specs, format, r).Keys == tags.Keys;
    }
  }

  lemma NothingWritten(s: Store, specs: map<string, Spec>, format: Interpolation, rs: seq<Resource>,
                       groups: map<Tags, seq<Resource>>)
    requires AreGroups(groups, specs, format, rs)
    ensures Written(s, s, specs, format, rs, groups.Keys)
  {
    forall r | r in rs
      ensures Payload(specs, format, r) in groups || Payload(specs, format, r) == map[]
    {
      SelectHas(rs, HasPayload(specs, format, Payload(specs, format, r)), r);
    }
  }
}
