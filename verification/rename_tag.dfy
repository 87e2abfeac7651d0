/** Renaming a tag (c7n/tags.py: RenameTag): per-value resource sets, each moved by up to
    three service calls, with the sets running at the same time. */
module RenameTag {
  import opened Sequences

  type Id = string
  type Tags = map<string, string>

  /** What the service holds. */
  type Store = map<Id, Tags>

  datatype Tag = Tag(key: string, value: string)

  /** A resource as it was listed; a resource without a tag list has no tags. */
  datatype Resource = Resource(id: Id, tags: seq<Tag>)

  const TAG_COUNT_MAX := 50

  function TagsOf(ts: seq<Tag>): Tags {
    if ts == [] then map[]
    else
      var last := ts[|ts| - 1];
      TagsOf(ts[..|ts| - 1])[last.key := last.value]
  }

  predicate NamesKey(ts: seq<Tag>, key: string) {
    exists i | 0 <= i < |ts| :: ts[i].key == key
  }

  predicate DistinctKeys(ts: seq<Tag>) {
    forall i, j | 0 <= i < j < |ts| :: ts[i].key != ts[j].key
  }

  lemma {:induction false} TagsOfKeys(ts: seq<Tag>, key: string)
    ensures key in TagsOf(ts) <==> NamesKey(ts, key)
  {
    if ts != [] {
      var front := ts[..|ts| - 1];
      TagsOfKeys(front, key);
      if NamesKey(ts, key) && ts[|ts| - 1].key != key {
        var i :| 0 <= i < |ts| && ts[i].key == key;
        assert front[i].key == key;
      }
    }
  }

  /** A listing with distinct keys is as long as the tags it describes. */
  lemma {:induction false} TagsOfSize(ts: seq<Tag>)
    requires DistinctKeys(ts)
    ensures |TagsOf(ts)| == |ts|
  {
    if ts != [] {
      var front := ts[..|ts| - 1];
      TagsOfSize(front);
      TagsOfKeys(front, ts[|ts| - 1].key);
    }
  }

  /** The value of a key is the one listed for it last. */
  lemma {:induction false} TagsOfValue(ts: seq<Tag>, i: nat)
    requires i < |ts| && forall j | i < j < |ts| :: ts[j].key != ts[i].key
    ensures ts[i].key in TagsOf(ts) && TagsOf(ts)[ts[i].key] == ts[i].value
  {
    if i < |ts| - 1 {
      TagsOfValue(ts[..|ts| - 1], i);
    }
  }

  // ----- The service

  function Create(s: Store, ids: seq<Id>, key: string, value: string): Store {
    map id | id in s :: if id in ids then s[id][key := value] else s[id]
  }

  /** Only a tag that still has the named value is deleted. */
  function Delete(s: Store, ids: seq<Id>, key: string, value: string): Store {
    map id | id in s :: if id in ids && key in s[id] && s[id][key] == value then s[id] - {key} else s[id]
  }

  /** Call number n fails, with no effect, when down(n). */
  class Service {
    var store: Store
    var calls: nat
    const down: nat -> bool

    constructor (store: Store, down: nat -> bool)
      ensures this.store == store && this.down == down && calls == 0
    {
      this.store, this.down, calls := store, down, 0;
    }

    /** The service refuses a call that would leave a resource with more than fifty tags. */
    method CreateTags(ids: seq<Id>, key: string, value: string) returns (ok: bool)
      requires forall id | id in ids :: id in store && (key in store[id] || |store[id]| < TAG_COUNT_MAX)
      modifies this
      ensures calls == old(calls) + 1 && ok == !down(old(calls))
      ensures store == if ok then Create(old(store), ids, key, value) else old(store)
    {
      ok := !down(calls);
      calls := calls + 1;
      if ok {
        store := Create(store, ids, key, value);
      }
    }

    method DeleteTags(ids: seq<Id>, key: string, value: string) returns (ok: bool)
      requires forall id | id in ids :: id in store
      modifies this
      ensures calls == old(calls) + 1 && ok == !down(old(calls))
      ensures store == if ok then Delete(old(store), ids, key, value) else old(store)
    {
      ok := !down(calls);
      calls := calls + 1;
      if ok {
        store := Delete(store, ids, key, value);
      }
    }
  }

  // ----- One resource

  /** What the rename is for: the old key is gone, the new key holds its value, and nothing
      else changed. */
  function Renamed(t: Tags, oldKey: string, newKey: string): Tags
    requires oldKey in t
  {
    (t - {oldKey})[newKey := t[oldKey]]
  }

  /** The tags of a resource after k of the three calls of its set. */
  function Stage(t: Tags, oldKey: string, newKey: string, k: nat): Tags
    requires oldKey in t
  {
    var v := t[oldKey];
    var first := if k >= 1 && |t| < TAG_COUNT_MAX then t[newKey := v] else t;
    var second := if k >= 2 && oldKey in first && first[oldKey] == v then first - {oldKey} else first;
    if k >= 3 && |t| >= TAG_COUNT_MAX then second[newKey := v] else second
  }

  /** A resource with fewer than fifty tags gets the new tag first; a full one has the old tag
      deleted before that. */
  lemma StageIs(t: Tags, oldKey: string, newKey: string, k: nat)
    requires oldKey in t
    ensures k == 0 ==> Stage(t, oldKey, newKey, k) == t
    ensures |t| < 50 && k == 1 ==> Stage(t, oldKey, newKey, k) == t[newKey := t[oldKey]]
    ensures |t| < 50 && k >= 2 ==> Stage(t, oldKey, newKey, k) == t[newKey := t[oldKey]] - {oldKey}
    ensures |t| >= 50 && k == 1 ==> Stage(t, oldKey, newKey, k) == t
    ensures |t| >= 50 && k == 2 ==> Stage(t, oldKey, newKey, k) == t - {oldKey}
    ensures |t| >= 50 && k >= 3 ==> Stage(t, oldKey, newKey, k) == (t - {oldKey})[newKey := t[oldKey]]
  {}

  /** The new key has the old one's value, the old key is gone, and the rest is as before. */
  lemma RenamedIs(t: Tags, oldKey: string, newKey: string, key: string)
    requires oldKey in t
    ensures var after := Renamed(t, oldKey, newKey);
            if key == newKey then key in after && after[key] == t[oldKey]
            else if key == oldKey then key !in after
            else key in after <==> key in t
    ensures key != newKey && key != oldKey && key in t ==> Renamed(t, oldKey, newKey)[key] == t[key]
  {}

  /** The three calls rename the tag exactly when the keys differ, or the resource was full.
      Renaming a tag to itself deletes it from every other resource. */
  lemma StagesRename(t: Tags, oldKey: string, newKey: string)
    requires oldKey in t
    ensures Stage(t, oldKey, newKey, 3) == Renamed(t, oldKey, newKey) <==> oldKey != newKey || |t| >= 50
    ensures oldKey == newKey && |t| < 50 ==> Stage(t, oldKey, newKey, 3) == t - {oldKey}
  {
    if oldKey != newKey || |t| >= TAG_COUNT_MAX {
      assert Stage(t, oldKey, newKey, 3) == Renamed(t, oldKey, newKey);
    } else {
      assert t[newKey := t[oldKey]] == t;
      assert oldKey in Renamed(t, oldKey, newKey);
    }
  }

  /** Some tag of the two keys still has the value. */
  predicate HasValueStill(t: Tags, after: Tags, oldKey: string, newKey: string)
    requires oldKey in t
  {
    (oldKey in after && after[oldKey] == t[oldKey]) || (newKey in after && after[newKey] == t[oldKey])
  }

  /** A set that stops after some call has lost the value exactly when it was deleting a full
      resource's tag before creating the new one, or was renaming a tag to itself. */
  lemma ValueSurvives(t: Tags, oldKey: string, newKey: string, k: nat)
    requires oldKey in t
    ensures HasValueStill(t, Stage(t, oldKey, newKey, k), oldKey, newKey) <==>
              k < 2
              || (newKey != oldKey && newKey in t && t[newKey] == t[oldKey])
              || (if |t| < 50 then newKey != oldKey else k >= 3)
  {}

  lemma SizeWithout(t: Tags, key: string)
    requires key in t
    ensures |t - {key}| == |t| - 1
  {
    assert (t - {key})[key := t[key]] == t;
  }

  /** A resource within the limit stays within it after every call. */
  lemma StageFits(t: Tags, oldKey: string, newKey: string, k: nat)
    requires oldKey in t && |t| <= 50
    ensures |Stage(t, oldKey, newKey, k)| <= 50
    ensures k >= 2 && |t| >= 50 ==> |Stage(t, oldKey, newKey, 2)| < 50
  {
    if |t| < TAG_COUNT_MAX {
      var first := t[newKey := t[oldKey]];
      assert |first| <= |t| + 1;
      SizeWithout(first, oldKey);
    } else {
      SizeWithout(t, oldKey);
    }
  }

  // ----- Resource sets

  function Ids(rs: seq<Resource>): seq<Id> {
    if rs == [] then [] else [rs[0].id] + Ids(rs[1..])
  }

  function BelowMax(rs: seq<Resource>): seq<Id> {
    if rs == [] then []
    else (if |rs[0].tags| < TAG_COUNT_MAX then [rs[0].id] else []) + BelowMax(rs[1..])
  }

  function AtMax(rs: seq<Resource>): seq<Id> {
    if rs == [] then []
    else (if |rs[0].tags| > TAG_COUNT_MAX - 1 then [rs[0].id] else []) + AtMax(rs[1..])
  }

  lemma {:induction false} IdsMeaning(rs: seq<Resource>, id: Id)
    ensures id in Ids(rs) <==> exists r :: r in rs && r.id == id
    ensures id in BelowMax(rs) <==> exists r :: r in rs && r.id == id && |r.tags| < TAG_COUNT_MAX
    ensures id in AtMax(rs) <==> exists r :: r in rs && r.id == id && |r.tags| >= TAG_COUNT_MAX
  {
    if rs != [] {
      IdsMeaning(rs[1..], id);
      assert rs == [rs[0]] + rs[1..];
      assert rs[0] in rs;
    }
  }

  function Carries(oldKey: string): Resource -> bool {
    (r: Resource) => NamesKey(r.tags, oldKey)
  }

  /** The listed resources that carry the old key, which are the ones renamed. */
  function Carrying(rs: seq<Resource>, oldKey: string): seq<Resource> {
    Select(rs, Carries(oldKey))
  }

  ghost predicate AllCarry(rs: seq<Resource>, oldKey: string) {
    forall r | r in rs :: oldKey in TagsOf(r.tags)
  }

  function ValueOf(r: Resource, oldKey: string): string
    requires oldKey in TagsOf(r.tags)
  {
    TagsOf(r.tags)[oldKey]
  }

  function HasValue(oldKey: string, v: string): Resource -> bool {
    (r: Resource) => oldKey in TagsOf(r.tags) && ValueOf(r, oldKey) == v
  }

  /** The resources of one set, in listed order. */
  function WithValue(rs: seq<Resource>, oldKey: string, v: string): seq<Resource> {
    Select(rs, HasValue(oldKey, v))
  }

  /** The sets of create_set: one for each value the old key has. */
  ghost predicate IsPartition(sets: map<string, seq<Resource>>, rs: seq<Resource>, oldKey: string)
    requires AllCarry(rs, oldKey)
  {
    && (forall r | r in rs :: ValueOf(r, oldKey) in sets)
    && (forall v | v in sets :: sets[v] == WithValue(rs, oldKey, v) && sets[v] != [])
  }

  /** filter_resources */
  method FilterResources(rs: seq<Resource>, oldKey: string) returns (carrying: seq<Resource>)
    ensures carrying == Carrying(rs, oldKey)
  {
    carrying := [];
    for i := 0 to |rs|
      invariant carrying == Carrying(rs[..i], oldKey)
    {
      assert rs[..i + 1][..i] == rs[..i];
      if NamesKey(rs[i].tags, oldKey) {
        carrying := carrying + [rs[i]];
      }
    }
    assert rs[..|rs|] == rs;
  }

  /** create_set */
  method CreateSet(rs: seq<Resource>, oldKey: string) returns (sets: map<string, seq<Resource>>)
    requires AllCarry(rs, oldKey)
    ensures IsPartition(sets, rs, oldKey)
  {
    sets := map[];
    for i := 0 to |rs|
      invariant IsPartition(sets, rs[..i], oldKey)
      invariant forall v | v !in sets :: WithValue(rs[..i], oldKey, v) == []
    {
      assert rs[..i + 1][..i] == rs[..i];
      assert rs[..i + 1] == rs[..i] + [rs[i]];
      var v := ValueOf(rs[i], oldKey);
      if v !in sets {
        sets := sets[v := []];
      }
      sets := sets[v := sets[v] + [rs[i]]];
    }
    assert rs[..|rs|] == rs;
  }

  // ----- The sets at work

  /** The service agrees with the listing, whose ids are distinct and within the limit. */
  ghost predicate Listed(rs: seq<Resource>, s: Store) {
    && (forall i, j | 0 <= i < j < |rs| :: rs[i].id != rs[j].id)
    && (forall r | r in rs :: r.id in s && s[r.id] == TagsOf(r.tags))
    && (forall r | r in rs :: DistinctKeys(r.tags) && |r.tags| <= TAG_COUNT_MAX)
  }

  lemma ListedTwice(rs: seq<Resource>, s: Store, a: Resource, b: Resource)
    requires Listed(rs, s) && a in rs && b in rs && a.id == b.id
    ensures a == b
  {}

  /** The k-th call of a set, if it has anything to do. */
  function Call(s: Store, oldKey: string, newKey: string, v: string, rs: seq<Resource>, k: nat): Store {
    if k == 0 then Create(s, BelowMax(rs), newKey, v)
    else if k == 1 then Delete(s, Ids(rs), oldKey, v)
    else Create(s, AtMax(rs), newKey, v)
  }

  /** Where every set has got to: done[v] of its three calls have been made. */
  ghost predicate InProgress(rs: seq<Resource>, before: Store, oldKey: string, newKey: string,
                             s: Store, done: map<string, nat>)
    requires AllCarry(rs, oldKey)
  {
    && s.Keys == before.Keys
    && (forall r | r in rs :: ValueOf(r, oldKey) in done && r.id in s &&
          s[r.id] == Stage(TagsOf(r.tags), oldKey, newKey, done[ValueOf(r, oldKey)]))
    && (forall id | id in before && id !in Ids(rs) :: s[id] == before[id])
  }

  lemma OwnIds(rs: seq<Resource>, before: Store, oldKey: string, v: string, r: Resource)
    requires Listed(rs, before) && AllCarry(rs, oldKey) && r in rs && ValueOf(r, oldKey) == v
    ensures r.id in Ids(WithValue(rs, oldKey, v))
    ensures r.id in BelowMax(WithValue(rs, oldKey, v)) <==> |r.tags| < TAG_COUNT_MAX
    ensures r.id in AtMax(WithValue(rs, oldKey, v)) <==> |r.tags| >= TAG_COUNT_MAX
  {
    var members := WithValue(rs, oldKey, v);
    SelectHas(rs, HasValue(oldKey, v), r);
    IdsMeaning(members, r.id);
    forall other | other in members && other.id == r.id
      ensures other == r
    {
      SelectHas(rs, HasValue(oldKey, v), other);
      ListedTwice(rs, before, r, other);
    }
  }

  lemma CallOnOne(s: Store, oldKey: string, newKey: string, rs: seq<Resource>, before: Store,
                  v: string, k: nat, r: Resource)
    requires Listed(rs, before) && AllCarry(rs, oldKey) && r in rs && k < 3 && r.id in s
    requires s[r.id] == Stage(TagsOf(r.tags), oldKey, newKey, k) && ValueOf(r, oldKey) == v
    ensures Call(s, oldKey, newKey, v, WithValue(rs, oldKey, v), k)[r.id] ==
            Stage(TagsOf(r.tags), oldKey, newKey, k + 1)
  {
    var members := WithValue(rs, oldKey, v);
    OwnIds(rs, before, oldKey, v, r);
    TagsOfSize(r.tags);
    if k == 0 {
    } else if k == 1 {
      assert r.id in Ids(members);
    } else {
      assert r.id in AtMax(members) <==> |r.tags| >= TAG_COUNT_MAX;
    }
  }

  lemma CallOnOther(s: Store, oldKey: string, newKey: string, rs: seq<Resource>, v: string, k: nat, id: Id)
    requires AllCarry(rs, oldKey) && id in s
    requires forall r | r in rs && r.id == id :: ValueOf(r, oldKey) != v
    ensures Call(s, oldKey, newKey, v, WithValue(rs, oldKey, v), k)[id] == s[id]
  {
    var members := WithValue(rs, oldKey, v);
    IdsMeaning(members, id);
    forall r | r in members
      ensures r.id != id
    {
      SelectHas(rs, HasValue(oldKey, v), r);
    }
  }

  /** One call of any set moves that set's resources on and touches no others. */
  lemma CallKeeps(rs: seq<Resource>, before: Store, oldKey: string, newKey: string,
                  s: Store, done: map<string, nat>, v: string)
    requires Listed(rs, before) && AllCarry(rs, oldKey)
    requires InProgress(rs, before, oldKey, newKey, s, done) && v in done && done[v] < 3
    ensures InProgress(rs, before, oldKey, newKey,
                       Call(s, oldKey, newKey, v, WithValue(rs, oldKey, v), done[v]), done[v := done[v] + 1])
  {
    var after := Call(s, oldKey, newKey, v, WithValue(rs, oldKey, v), done[v]);
    forall r | r in rs
      ensures after[r.id] == Stage(TagsOf(r.tags), oldKey, newKey, done[v := done[v] + 1][ValueOf(r, oldKey)])
    {
      if ValueOf(r, oldKey) == v {
        CallOnOne(s, oldKey, newKey, rs, before, v, done[v], r);
      } else {
        forall other | other in rs && other.id == r.id
          ensures other == r
        {
          ListedTwice(rs, before, r, other);
        }
        CallOnOther(s, oldKey, newKey, rs, v, done[v], r.id);
      }
    }
    forall id | id in before && id !in Ids(rs)
      ensures after[id] == before[id]
    {
      IdsMeaning(rs, id);
      CallOnOther(s, oldKey, newKey, rs, v, done[v], id);
    }
  }

  /** However far the sets have got, no resource is over the limit. */
  lemma NeverOverLimit(rs: seq<Resource>, before: Store, oldKey: string, newKey: string,
                       s: Store, done: map<string, nat>, id: Id)
    requires Listed(rs, before) && AllCarry(rs, oldKey)
    requires InProgress(rs, before, oldKey, newKey, s, done)
    requires id in before && |before[id]| <= 50
    ensures id in s && |s[id]| <= 50
  {
    IdsMeaning(rs, id);
    if id in Ids(rs) {
      var r :| r in rs && r.id == id;
      StageFits(TagsOf(r.tags), oldKey, newKey, done[ValueOf(r, oldKey)]);
    }
  }

  /** What the service requires of a call holds whenever a set makes its next one. */
  lemma CallAllowed(rs: seq<Resource>, before: Store, oldKey: string, newKey: string,
                    s: Store, done: map<string, nat>, v: string, id: Id)
    requires Listed(rs, before) && AllCarry(rs, oldKey)
    requires InProgress(rs, before, oldKey, newKey, s, done) && v in done
    ensures id in Ids(WithValue(rs, oldKey, v)) ==> id in s
    ensures done[v] == 0 && id in BelowMax(WithValue(rs, oldKey, v)) ==> id in s && |s[id]| < TAG_COUNT_MAX
    ensures done[v] == 2 && id in AtMax(WithValue(rs, oldKey, v)) ==> id in s && |s[id]| < TAG_COUNT_MAX
  {
    var members := WithValue(rs, oldKey, v);
    IdsMeaning(members, id);
    if id in Ids(members) {
      forall r | r in members && r.id == id
        ensures r in rs && ValueOf(r, oldKey) == v && |TagsOf(r.tags)| == |r.tags|
        ensures |r.tags| >= 50 ==> |Stage(TagsOf(r.tags), oldKey, newKey, 2)| < 50
      {
        SelectHas(rs, HasValue(oldKey, v), r);
        TagsOfSize(r.tags);
        StageFits(TagsOf(r.tags), oldKey, newKey, 2);
      }
    }
  }

  // ----- Runs of the sets

  /** The tags of a resource after all the sets have made their calls. */
  predicate Finished(selected: bool, before: Tags, oldKey: string, newKey: string, after: Tags) {
    if selected then oldKey in before && after == Stage(before, oldKey, newKey, 3) else after == before
  }

  /** The tags of a resource after the calls its set made. */
  predicate Stopped(selected: bool, before: Tags, oldKey: string, newKey: string, done: map<string, nat>, after: Tags) {
    if selected then
      && oldKey in before && before[oldKey] in done
      && after == Stage(before, oldKey, newKey, done[before[oldKey]])
    else after == before
  }

  /** A run names, call by call, the set that makes its next call. */
  predicate IsRun(done: map<string, nat>, run: seq<string>) {
    run == [] || (run[0] in done && done[run[0]] < 3 && IsRun(done[run[0] := done[run[0]] + 1], run[1..]))
  }

  function DoneAfter(done: map<string, nat>, run: seq<string>): map<string, nat>
    requires IsRun(done, run)
  {
    if run == [] then done else DoneAfter(done[run[0] := done[run[0]] + 1], run[1..])
  }

  ghost function StoreAfter(rs: seq<Resource>, oldKey: string, newKey: string, s: Store,
                            done: map<string, nat>, run: seq<string>): Store
    requires AllCarry(rs, oldKey) && IsRun(done, run)
  {
    if run == [] then s
    else
      var v := run[0];
      StoreAfter(rs, oldKey, newKey, Call(s, oldKey, newKey, v, WithValue(rs, oldKey, v), done[v]),
                 done[v := done[v] + 1], run[1..])
  }

  lemma {:induction false} RunKeeps(rs: seq<Resource>, before: Store, oldKey: string, newKey: string,
                                    s: Store, done: map<string, nat>, run: seq<string>)
    requires Listed(rs, before) && AllCarry(rs, oldKey) && IsRun(done, run)
    requires InProgress(rs, before, oldKey, newKey, s, done)
    ensures InProgress(rs, before, oldKey, newKey, StoreAfter(rs, oldKey, newKey, s, done, run), DoneAfter(done, run))
    decreases |run|
  {
    if run != [] {
      var v := run[0];
      CallKeeps(rs, before, oldKey, newKey, s, done, v);
      RunKeeps(rs, before, oldKey, newKey, Call(s, oldKey, newKey, v, WithValue(rs, oldKey, v), done[v]),
               done[v := done[v] + 1], run[1..]);
    }
  }

  /** Every run keeps every resource within the limit at every point, and every complete run
      leaves the same tags: the third stage on the sets' resources, the old tags elsewhere. */
  lemma RunsAgree(rs: seq<Resource>, before: Store, oldKey: string, newKey: string,
                  done: map<string, nat>, run: seq<string>, id: Id)
    requires Listed(rs, before) && AllCarry(rs, oldKey) && IsRun(done, run) && id in before
    requires forall v | v in done :: done[v] == 0
    requires forall r | r in rs :: ValueOf(r, oldKey) in done
    ensures id in StoreAfter(rs, oldKey, newKey, before, done, run)
    ensures |before[id]| <= 50 ==> |StoreAfter(rs, oldKey, newKey, before, done, run)[id]| <= 50
    ensures (forall v | v in DoneAfter(done, run) :: DoneAfter(done, run)[v] == 3) ==>
              Finished(id in Ids(rs), before[id], oldKey, newKey, StoreAfter(rs, oldKey, newKey, before, done, run)[id])
  {
    assert InProgress(rs, before, oldKey, newKey, before, done);
    RunKeeps(rs, before, oldKey, newKey, before, done, run);
    var after := StoreAfter(rs, oldKey, newKey, before, done, run);
    if |before[id]| <= TAG_COUNT_MAX {
      NeverOverLimit(rs, before, oldKey, newKey, after, DoneAfter(done, run), id);
    }
    IdsMeaning(rs, id);
  }

  // ----- The action

  lemma ListedFront(rs: seq<Resource>, s: Store)
    requires Listed(rs, s) && rs != []
    ensures Listed(rs[..|rs| - 1], s)
    ensures forall r | r in rs[..|rs| - 1] :: r.id != rs[|rs| - 1].id
  {
    forall r | r in rs[..|rs| - 1]
      ensures r in rs && r.id != rs[|rs| - 1].id
    {
      var i :| 0 <= i < |rs| - 1 && rs[i] == r;
    }
  }

  lemma ListedSnoc(rs: seq<Resource>, last: Resource, s: Store)
    requires Listed(rs, s) && Listed([last], s) && forall r | r in rs :: r.id != last.id
    ensures Listed(rs + [last], s)
  {
    forall r | r in rs + [last]
      ensures r in rs || r in [last]
    {}
  }

  lemma {:induction false} CarryingIsListed(rs: seq<Resource>, s: Store, oldKey: string)
    requires Listed(rs, s)
    ensures AllCarry(Carrying(rs, oldKey), oldKey) && Listed(Carrying(rs, oldKey), s)
  {
    if rs != [] {
      var front, last := rs[..|rs| - 1], rs[|rs| - 1];
      var kept := Carrying(front, oldKey);
      ListedFront(rs, s);
      CarryingIsListed(front, s, oldKey);
      if NamesKey(last.tags, oldKey) {
        TagsOfKeys(last.tags, oldKey);
        forall r | r in kept
          ensures r.id != last.id
        {
          SelectHas(front, Carries(oldKey), r);
        }
        assert last in rs;
        ListedSnoc(kept, last, s);
      }
    }
  }

  /** One call of process_rename; an empty id list makes no create call. */
  method RenameCall(client: Service, v: string, members: seq<Resource>, oldKey: string, newKey: string, k: nat)
    returns (ok: bool)
    requires k < 3
    requires forall id | id in Ids(members) :: id in client.store
    requires k == 0 ==> forall id | id in BelowMax(members) :: id in client.store && |client.store[id]| < TAG_COUNT_MAX
    requires k == 2 ==> forall id | id in AtMax(members) :: id in client.store && |client.store[id]| < TAG_COUNT_MAX
    modifies client
    ensures client.store == if ok then Call(old(client.store), oldKey, newKey, v, members, k) else old(client.store)
    ensures old(client.calls) <= client.calls
    ensures !ok ==> FailedSince(client, old(client.calls))
  {
    ok := true;
    if k == 0 {
      var ids := BelowMax(members);
      if ids != [] {
        ok := client.CreateTags(ids, newKey, v);
      }
    } else if k == 1 {
      ok := client.DeleteTags(Ids(members), oldKey, v);
    } else {
      var ids := AtMax(members);
      if ids != [] {
        ok := client.CreateTags(ids, newKey, v);
      }
    }
    assert !ok ==> client.down(client.calls - 1);
  }

  ghost predicate FailedSince(client: Service, start: nat)
    reads client
  {
    exists n | start <= n < client.calls :: client.down(n)
  }

  /** One call of the set for v, between any calls of the others. */
  method RunOne(client: Service, rs: seq<Resource>, sets: map<string, seq<Resource>>, oldKey: string, newKey: string,
                v: string, done: map<string, nat>, ghost before: Store, ghost start: nat)
    returns (ok: bool)
    requires Listed(rs, before) && AllCarry(rs, oldKey) && IsPartition(sets, rs, oldKey)
    requires InProgress(rs, before, oldKey, newKey, client.store, done)
    requires v in sets && v in done && done[v] < 3 && start <= client.calls
    modifies client
    ensures InProgress(rs, before, oldKey, newKey, client.store, if ok then done[v := done[v] + 1] else done)
    ensures start <= client.calls
    ensures !ok || old(FailedSince(client, start)) ==> FailedSince(client, start)
  {
    ghost var s := client.store;
    forall id: Id
      ensures id in Ids(sets[v]) ==> id in s
      ensures done[v] == 0 && id in BelowMax(sets[v]) ==> id in s && |s[id]| < TAG_COUNT_MAX
      ensures done[v] == 2 && id in AtMax(sets[v]) ==> id in s && |s[id]| < TAG_COUNT_MAX
    {
      CallAllowed(rs, before, oldKey, newKey, s, done, v, id);
    }
    CallKeeps(rs, before, oldKey, newKey, s, done, v);
    ok := RenameCall(client, v, sets[v], oldKey, newKey, done[v]);
  }

  /** How many calls each set has made: three, or fewer if it is still at work or has failed. */
  ghost predicate Tallied(values: set<string>, calls: map<string, nat>, unfinished: set<string>, failed: set<string>,
                          left: multiset<string>) {
    && calls.Keys == values && unfinished <= values && failed <= values && unfinished !! failed
    && (forall v | v in calls :: calls[v] <= 3 && left[v] == 3 - calls[v])
    && (forall v | v in calls :: calls[v] < 3 <==> v in unfinished || v in failed)
  }

  lemma TallyOne(values: set<string>, calls: map<string, nat>, unfinished: set<string>, failed: set<string>,
                 left: multiset<string>, v: string)
    requires Tallied(values, calls, unfinished, failed, left) && v in unfinished
    ensures calls[v] < 3
    ensures calls[v] == 2 ==>
              Tallied(values, calls[v := calls[v] + 1], unfinished - {v}, failed, left - multiset{v})
    ensures calls[v] < 2 ==> Tallied(values, calls[v := calls[v] + 1], unfinished, failed, left - multiset{v})
    ensures Tallied(values, calls, unfinished - {v}, failed + {v}, left)
    ensures |left - multiset{v}| < |left| && |unfinished - {v}| < |unfinished|
  {
    assert v in left;
  }

  lemma TallyStart(values: set<string>)
    ensures var left := multiset(values) + multiset(values) + multiset(values);
            Tallied(values, map v | v in values :: 0, values, {}, left)
  {}

  lemma NothingDone(rs: seq<Resource>, s: Store, oldKey: string, newKey: string, values: set<string>)
    requires Listed(rs, s) && AllCarry(rs, oldKey) && forall r | r in rs :: ValueOf(r, oldKey) in values
    ensures InProgress(rs, s, oldKey, newKey, s, map v | v in values :: 0)
  {}

  /** The pool of workers: any unfinished set makes the next call. A set whose call fails stops
      there, and the others go on. */
  method RunSets(client: Service, rs: seq<Resource>, sets: map<string, seq<Resource>>, oldKey: string, newKey: string)
    returns (done: map<string, nat>)
    requires Listed(rs, client.store) && AllCarry(rs, oldKey) && IsPartition(sets, rs, oldKey)
    modifies client
    ensures InProgress(rs, old(client.store), oldKey, newKey, client.store, done)
    ensures done.Keys == sets.Keys && forall v | v in done :: done[v] <= 3
    ensures old(client.calls) <= client.calls
    ensures !FailedSince(client, old(client.calls)) ==> forall v | v in done :: done[v] == 3
  {
    ghost var before, start := client.store, client.calls;
    var unfinished := sets.Keys;
    done := map v | v in unfinished :: 0;
    TallyStart(unfinished);
    NothingDone(rs, before, oldKey, newKey, unfinished);
    ghost var failed: set<string>, left := {}, multiset(sets.Keys) + multiset(sets.Keys) + multiset(sets.Keys);
    while unfinished != {}
      invariant Tallied(sets.Keys, done, unfinished, failed, left)
      invariant InProgress(rs, before, oldKey, newKey, client.store, done)
      invariant start <= client.calls && (failed != {} ==> FailedSince(client, start))
      decreases |left| + |unfinished|
    {
      var v :| v in unfinished;
      TallyOne(sets.Keys, done, unfinished, failed, left, v);
      var ok := RunOne(client, rs, sets, oldKey, newKey, v, done, before, start);
      if !ok {
        unfinished, failed := unfinished - {v}, failed + {v};
        continue;
      }
      if done[v] == 2 {
        unfinished := unfinished - {v};
      }
      done, left := done[v := done[v] + 1], left - multiset{v};
    }
  }

  lemma WhereItStopped(rs: seq<Resource>, before: Store, oldKey: string, newKey: string,
                       s: Store, done: map<string, nat>, id: Id)
    requires Listed(rs, before) && AllCarry(rs, oldKey) && id in before
    requires InProgress(rs, before, oldKey, newKey, s, done)
    ensures id in s && Stopped(exists r :: r in rs && r.id == id, before[id], oldKey, newKey, done, s[id])
  {
    IdsMeaning(rs, id);
  }

  /** process: whatever order the sets' calls come in, and whichever of them fail, a resource
      that carries the old key ends after the calls its set made, and no other changes. When no
      call fails they have all made three, which rename the tag exactly when the keys differ or
      the resource was full. */
  method Process(client: Service, rs: seq<Resource>, oldKey: string, newKey: string)
    returns (renamed: seq<Resource>, done: map<string, nat>)
    requires Listed(rs, client.store)
    modifies client
    ensures renamed == Carrying(rs, oldKey)
    ensures client.store.Keys == old(client.store).Keys
    ensures forall v | v in done :: done[v] <= 3
    ensures !FailedSince(client, old(client.calls)) ==> forall v | v in done :: done[v] == 3
    ensures forall id | id in client.store ::
              Stopped(exists r :: r in rs && r.id == id && NamesKey(r.tags, oldKey), old(client.store)[id],
                      oldKey, newKey, done, client.store[id])
    ensures forall r | r in renamed :: r.id in client.store && oldKey in TagsOf(r.tags) && ValueOf(r, oldKey) in done &&
              (done[ValueOf(r, oldKey)] == 3 ==>
                (client.store[r.id] == Renamed(TagsOf(r.tags), oldKey, newKey) <==>
                  oldKey != newKey || |r.tags| >= 50))
  {
    renamed := FilterResources(rs, oldKey);
    ghost var before := client.store;
    CarryingIsListed(rs, before, oldKey);
    var sets := CreateSet(renamed, oldKey);
    done := RunSets(client, renamed, sets, oldKey, newKey);
    forall id | id in client.store
      ensures Stopped(exists r :: r in rs && r.id == id && NamesKey(r.tags, oldKey), before[id],
                      oldKey, newKey, done, client.store[id])
    {
      WhereItStopped(renamed, before, oldKey, newKey, client.store, done, id);
      forall r: Resource
        ensures r in renamed <==> r in rs && NamesKey(r.tags, oldKey)
      {
        SelectHas(rs, Carries(oldKey), r);
      }
    }
    forall r | r in renamed
      ensures done[ValueOf(r, oldKey)] == 3 ==>
                (client.store[r.id] == Renamed(TagsOf(r.tags), oldKey, newKey) <==>
                  oldKey != newKey || |r.tags| >= 50)
    {
      StagesRename(TagsOf(r.tags), oldKey, newKey);
      TagsOfSize(r.tags);
    }
  }
}
