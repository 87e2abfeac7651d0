/** Bulk evaluation of filter blocks over live resource dicts (c7n/filters/core.py,
    c7n/utils.py). Annotation lists are shared, mutable objects: a leaf extends them in
    place, and AnnotationSweeper rolls a block back from a deep copy. */
module FilterEngine {
  import opened FilterSpec
  import opened Sequences

  class MarkList {
    var items: seq<string>

    constructor (items: seq<string>)
      ensures this.items == items
    {
      this.items := items;
    }
  }

  datatype Value = Text(text: string) | Marks(list: MarkList)

  ghost function ListsIn(m: map<string, Value>): set<MarkList> {
    set k | k in m && m[k].Marks? :: m[k].list
  }

  /** No list sits under two keys. */
  ghost predicate Unshared(m: map<string, Value>) {
    forall k, l | k in m && l in m && m[k].Marks? && m[l].Marks? && m[k].list == m[l].list :: k == l
  }

  lemma ListsInOneMore(m: map<string, Value>, k: string, v: Value)
    requires k !in m
    ensures ListsIn(m[k := v]) == ListsIn(m) + if v.Marks? then {v.list} else {}
  {
    var n := m[k := v];
    assert forall l | l in m && m[l].Marks? :: n[l] == m[l];
    assert v.Marks? ==> n[k] == v;
  }

  function FrozenValue(v: Value): Plain
    reads if v.Marks? then {v.list} else {}
  {
    match v
    case Text(t) => FilterSpec.Text(t)
    case Marks(l) => FilterSpec.List(l.items)
  }

  /** The current contents of a dict of live values. */
  function Frozen(m: map<string, Value>): View
    reads ListsIn(m)
  {
    map k | k in m :: FrozenValue(m[k])
  }

  /** A resource dict. `id` is the field the resource model uses as identifier. */
  class Resource {
    const id: string
    var fields: map<string, Value>

    ghost function Lists(): set<MarkList>
      reads this
    {
      ListsIn(fields)
    }

    function View(): View
      reads this, Lists()
    {
      Frozen(fields)
    }

    constructor (id: string, fields: map<string, Value>)
      ensures this.id == id && this.fields == fields
    {
      this.id := id;
      this.fields := fields;
    }
  }

  // ----- The part of the heap a list of resources owns

  ghost function Objects(rs: seq<Resource>): set<Resource> {
    set r | r in rs
  }

  ghost function AllLists(rs: seq<Resource>): set<MarkList>
    reads rs
  {
    set r, l | r in rs && l in r.Lists() :: l
  }

  ghost predicate UniqueIds(rs: seq<Resource>) {
    forall i, j | 0 <= i < j < |rs| :: rs[i].id != rs[j].id
  }

  /** Distinct ids, and no list shared between two places. */
  ghost predicate Valid(rs: seq<Resource>)
    reads rs
  {
    && UniqueIds(rs)
    && (forall r | r in rs :: Unshared(r.fields))
    && (forall r, s | r in rs && s in rs && r != s :: r.Lists() !! s.Lists())
  }

  ghost predicate Within(sub: seq<Resource>, all: seq<Resource>) {
    UniqueIds(sub) && forall r | r in sub :: r in all
  }

  /** Nothing a list of resources is made of was touched. */
  twostate lemma ViewsKept(new rs: seq<Resource>)
    requires old(allocated(rs))
    requires forall r | r in rs :: r.fields == old(r.fields)
    requires forall l | l in old(AllLists(rs)) :: l.items == old(l.items)
    ensures AllLists(rs) == old(AllLists(rs))
    ensures forall r | r in rs :: r.View() == old(r.View())
    ensures old(Valid(rs)) ==> Valid(rs)
  {
    forall r, k | r in rs && k in r.fields
      ensures FrozenValue(r.fields[k]) == old(FrozenValue(r.fields[k]))
    {
      if r.fields[k].Marks? {
        assert r.fields[k].list in old(r.Lists());
      }
    }
    forall r | r in rs
      ensures r.Lists() == old(r.Lists())
    {
    }
  }

  twostate lemma OutsiderKept(new r: Resource, new sub: seq<Resource>, all: seq<Resource>)
    requires old(allocated(sub)) && Within(sub, all) && r in all && r !in sub
    requires old(Valid(all))
    requires forall r: Resource | old(allocated(r)) && r !in sub :: r.fields == old(r.fields)
    requires forall l: MarkList | old(allocated(l)) && l !in old(AllLists(sub)) :: l.items == old(l.items)
    requires forall l | l in AllLists(sub) && l !in old(AllLists(sub)) :: fresh(l)
    ensures r.fields == old(r.fields) && r.View() == old(r.View())
    ensures r.Lists() == old(r.Lists()) && forall l | l in r.Lists() :: l !in old(AllLists(sub))
  {
    assert r.Lists() == old(r.Lists());
    forall l | l in r.Lists()
      ensures l !in old(AllLists(sub))
      ensures l.items == old(l.items)
    {
    }
  }

  twostate lemma StillApart(new r: Resource, new s: Resource, new sub: seq<Resource>, all: seq<Resource>)
    requires old(allocated(sub)) && Within(sub, all) && r in all && s in all && r != s
    requires old(Valid(all)) && Valid(sub)
    requires forall r: Resource | old(allocated(r)) && r !in sub :: r.fields == old(r.fields)
    requires forall l: MarkList | old(allocated(l)) && l !in old(AllLists(sub)) :: l.items == old(l.items)
    requires forall l | l in AllLists(sub) && l !in old(AllLists(sub)) :: fresh(l)
    ensures r.Lists() !! s.Lists()
  {
    if r !in sub {
      OutsiderKept(r, sub, all);
    }
    if s !in sub {
      OutsiderKept(s, sub, all);
    }
    assert r in sub ==> r.Lists() <= AllLists(sub);
    assert s in sub ==> s.Lists() <= AllLists(sub);
  }

  /** Work on some of the resources leaves the whole list in order. */
  twostate lemma OthersKept(new sub: seq<Resource>, all: seq<Resource>)
    requires old(allocated(sub)) && Within(sub, all)
    requires old(Valid(all)) && Valid(sub)
    requires forall r: Resource | old(allocated(r)) && r !in sub :: r.fields == old(r.fields)
    requires forall l: MarkList | old(allocated(l)) && l !in old(AllLists(sub)) :: l.items == old(l.items)
    requires forall l | l in AllLists(sub) && l !in old(AllLists(sub)) :: fresh(l)
    ensures Valid(all)
    ensures fresh(AllLists(all) - old(AllLists(all)))
    ensures forall r | r in all && r !in sub :: r.View() == old(r.View())
  {
    forall r | r in all && r !in sub
      ensures r.View() == old(r.View()) && Unshared(r.fields) && r.Lists() == old(r.Lists())
    {
      OutsiderKept(r, sub, all);
    }
    forall r, s | r in all && s in all && r != s
      ensures r.Lists() !! s.Lists()
    {
      StillApart(r, s, sub, all);
    }
    forall l | l in AllLists(all) && l !in old(AllLists(all))
      ensures fresh(l)
    {
      var r :| r in all && l in r.Lists();
      assert r in sub && l in AllLists(sub);
      assert forall q | q in sub && l in old(q.Lists()) :: l in old(AllLists(all));
    }
  }

  // ----- Order: leaves, and `and` blocks of leaves, keep the order of the input

  function In(kept: seq<Resource>): Resource -> bool {
    (r: Resource) => r in kept
  }

  /** The resources kept, in the order they were given. */
  function Keep(rs: seq<Resource>, kept: seq<Resource>): seq<Resource> {
    Select(rs, In(kept))
  }

  /** `or` and `not` rebuild their result from a set of ids, in no particular order. */
  ghost predicate OrderKeeping(f: Filter) {
    match f
    case Leaf(_, _, _) => true
    case And(fs) => forall i | 0 <= i < |fs| :: OrderKeeping(fs[i])
    case Or(_) => false
    case Not(_) => false
  }

  lemma KeepIgnores(rs: seq<Resource>, kept: seq<Resource>, r: Resource)
    requires r !in rs
    ensures Keep(rs, kept + [r]) == Keep(rs, kept)
  {
    SelectSame(rs, In(kept + [r]), In(kept));
  }

  lemma KeepAll(rs: seq<Resource>, kept: seq<Resource>)
    requires forall r | r in rs :: r in kept
    ensures Keep(rs, kept) == rs
  {
    SelectUniform(rs, In(kept));
  }

  lemma KeepTwice(rs: seq<Resource>, mid: seq<Resource>, out: seq<Resource>)
    requires forall r | r in out :: r in mid
    ensures Keep(Keep(rs, mid), out) == Keep(rs, out)
  {
    SelectTwice(rs, In(mid), In(out));
  }

  // ----- set_annotation and the leaf filter

  /** c7n/utils.set_annotation for a single value. */
  method SetAnnotation(r: Resource, key: string)
    requires Unshared(r.fields)
    modifies r, r.Lists()
    ensures Unshared(r.fields) && fresh(r.Lists() - old(r.Lists()))
    ensures r.View() == Annotate(old(r.View()), key) && MarkedWith(old(r.View()), [key], r.View())
  {
    AnnotateMarks(r.View(), key);
    if ANNOTATION_KEY in r.fields {
      match r.fields[ANNOTATION_KEY]
      case Marks(ev) => ev.items := ev.items + [key];
      case Text(_) =>
    } else {
      var l := new MarkList([key]);
      r.fields := r.fields[ANNOTATION_KEY := Marks(l)];
    }
    assert r.View() == Annotate(old(r.View()), key);
  }

  /** ValueFilter.__call__ */
  method Call(key: string, annotate: bool, test: View -> bool, r: Resource) returns (matched: bool)
    requires Unshared(r.fields)
    modifies r, r.Lists()
    ensures Unshared(r.fields) && fresh(r.Lists() - old(r.Lists()))
    ensures Outcome(matched, r.View()) == Eval(Leaf(key, annotate, test), old(r.View()))
  {
    matched := test(r.View());
    if matched && annotate {
      SetAnnotation(r, key);
    }
  }

  /** One call among the resources of a block: the others are not affected. */
  method CallAmong(key: string, annotate: bool, test: View -> bool, r: Resource, ghost rs: seq<Resource>)
    returns (matched: bool)
    requires Valid(rs) && r in rs
    modifies r, r.Lists()
    ensures Valid(rs) && fresh(AllLists(rs) - old(AllLists(rs)))
    ensures Outcome(matched, r.View()) == Eval(Leaf(key, annotate, test), old(r.View()))
    ensures forall q | q in rs && q != r :: q.View() == old(q.View())
  {
    assert AllLists([r]) == r.Lists();
    matched := Call(key, annotate, test, r);
    assert AllLists([r]) == r.Lists();
    OthersKept([r], rs);
  }

  lemma IdsDistinguish(rs: seq<Resource>)
    requires UniqueIds(rs)
    ensures forall i, j | 0 <= i < |rs| && 0 <= j < |rs| && i != j :: rs[i] != rs[j]
  {
    forall i, j | 0 <= i < |rs| && 0 <= j < |rs| && i != j
      ensures rs[i] != rs[j]
    {
      assert if i < j then rs[i].id != rs[j].id else rs[j].id != rs[i].id;
    }
  }

  ghost function Views(rs: seq<Resource>): map<Resource, View>
    reads rs, AllLists(rs)
  {
    map r | r in rs :: r.View()
  }

  /** The first i resources have been through the leaf, the others are as before. */
  ghost predicate LeafUpTo(leaf: Filter, rs: seq<Resource>, i: nat, out: seq<Resource>, before: map<Resource, View>)
    requires i <= |rs|
    reads rs, AllLists(rs)
  {
    && UniqueIds(out) && (forall r | r in out :: r in rs[..i])
    && (forall j | 0 <= j < |rs| :: rs[j] in before)
    && (forall j | 0 <= j < i :: Outcome(rs[j] in out, rs[j].View()) == Eval(leaf, before[rs[j]]))
    && (forall j | i <= j < |rs| :: rs[j].View() == before[rs[j]])
  }

  method LeafStep(leaf: Filter, ghost rs: seq<Resource>, ghost i: nat, r: Resource, out: seq<Resource>,
                  ghost before: map<Resource, View>) returns (more: seq<Resource>)
    requires leaf.Leaf? && Valid(rs) && i < |rs| && r == rs[i]
    requires LeafUpTo(leaf, rs, i, out, before)
    modifies r, r.Lists()
    ensures Valid(rs) && fresh(AllLists(rs) - old(AllLists(rs)))
    ensures LeafUpTo(leaf, rs, i + 1, more, before)
    ensures more == out || more == out + [rs[i]]
  {
    IdsDistinguish(rs);
    var matched := CallAmong(leaf.key, leaf.annotate, leaf.match_, r, rs);
    more := out;
    if matched {
      assert forall o | o in out :: o.id != r.id;
      more := out + [r];
    }
  }

  lemma KeepOneMore(rs: seq<Resource>, i: nat, out: seq<Resource>, more: seq<Resource>)
    requires UniqueIds(rs) && i < |rs| && out == Keep(rs[..i], out)
    requires (forall r | r in out :: r in rs[..i]) && (more == out || more == out + [rs[i]])
    ensures more == Keep(rs[..i + 1], more)
  {
    IdsDistinguish(rs);
    assert rs[..i + 1][..i] == rs[..i];
    KeepIgnores(rs[..i], out, rs[i]);
  }

  /** Filter.process of a leaf: every resource is tried, and the matches keep their order. */
  method ProcessLeaf(leaf: Filter, rs: seq<Resource>) returns (out: seq<Resource>)
    requires leaf.Leaf? && Valid(rs)
    modifies Objects(rs), AllLists(rs)
    ensures Valid(rs) && fresh(AllLists(rs) - old(AllLists(rs)))
    ensures Within(out, rs)
    ensures forall r | r in rs :: Outcome(r in out, r.View()) == Eval(leaf, old(r.View()))
    ensures out == Keep(rs, out)
  {
    ghost var before := Views(rs);
    out := LeafLoop(leaf, rs, before);
  }

  method LeafLoop(leaf: Filter, rs: seq<Resource>, ghost before: map<Resource, View>) returns (out: seq<Resource>)
    requires leaf.Leaf? && Valid(rs) && before == Views(rs)
    modifies Objects(rs), AllLists(rs)
    ensures Valid(rs) && fresh(AllLists(rs) - old(AllLists(rs)))
    ensures LeafUpTo(leaf, rs, |rs|, out, before) && out == Keep(rs, out)
  {
    out := [];
    for i := 0 to |rs|
      invariant Valid(rs) && fresh(AllLists(rs) - old(AllLists(rs)))
      invariant LeafUpTo(leaf, rs, i, out, before)
      invariant out == Keep(rs[..i], out)
    {
      assert rs[i].Lists() <= AllLists(rs);
      ghost var sofar := out;
      out := LeafStep(leaf, rs, i, rs[i], out, before);
      KeepOneMore(rs, i, sofar, out);
    }
    assert rs[..|rs|] == rs;
  }

  // ----- Block filters

  /** The resources have been through the first i filters, and these are left. */
  ghost predicate AllUpTo(fs: seq<Filter>, i: nat, rs: seq<Resource>, out: seq<Resource>, before: map<Resource, View>)
    requires i <= |fs|
    reads rs, AllLists(rs)
  {
    && Within(out, rs)
    && (forall r | r in rs :: r in before && Outcome(r in out, r.View()) == EvalAll(fs[..i], before[r]))
    && (OrderKeeping(And(fs)) ==> out == Keep(rs, out))
  }

  /** And.process, Not.process_set and ResourceManager.filter_resources all narrow the
      resources filter by filter and stop once none is left. */
  method ProcessAll(fs: seq<Filter>, rs: seq<Resource>) returns (out: seq<Resource>)
    requires Valid(rs)
    modifies Objects(rs), AllLists(rs)
    ensures Valid(rs) && fresh(AllLists(rs) - old(AllLists(rs)))
    ensures Within(out, rs)
    ensures forall r | r in rs :: Outcome(r in out, r.View()) == EvalAll(fs, old(r.View()))
    ensures OrderKeeping(And(fs)) ==> out == Keep(rs, out)
    decreases fs, 1
  {
    ghost var before := Views(rs);
    out := NarrowAll(fs, rs, before);
  }

  method NarrowAll(fs: seq<Filter>, rs: seq<Resource>, ghost before: map<Resource, View>) returns (out: seq<Resource>)
    requires Valid(rs) && before == Views(rs)
    modifies Objects(rs), AllLists(rs)
    ensures Valid(rs) && fresh(AllLists(rs) - old(AllLists(rs)))
    ensures Within(out, rs)
    ensures forall r | r in rs :: Outcome(r in out, r.View()) == EvalAll(fs, before[r])
    ensures OrderKeeping(And(fs)) ==> out == Keep(rs, out)
    decreases fs, 0
  {
    ghost var own := AllLists(rs);
    out := rs;
    KeepAll(rs, rs);
    var i := 0;
    while i < |fs|
      invariant i <= |fs|
      invariant Valid(rs) && fresh(AllLists(rs) - own)
      invariant AllUpTo(fs, i, rs, out, before)
    {
      ghost var lists := AllLists(rs);
      out := Narrow(fs, i, rs, out, before);
      assert fresh(AllLists(rs) - lists);
      i := i + 1;
      if out == [] {
        break;
      }
    }
    AllFinished(fs, i, rs, out, before);
  }

  lemma AllFinished(fs: seq<Filter>, i: nat, rs: seq<Resource>, out: seq<Resource>, before: map<Resource, View>)
    requires i <= |fs| && (i < |fs| ==> out == [])
    requires AllUpTo(fs, i, rs, out, before)
    ensures forall r | r in rs :: Outcome(r in out, r.View()) == EvalAll(fs, before[r])
  {
    forall r | r in rs
      ensures EvalAll(fs[..i], before[r]) == EvalAll(fs, before[r])
    {
      assert Outcome(r in out, r.View()) == EvalAll(fs[..i], before[r]);
      EvalAllFinished(fs, i, before[r]);
    }
  }

  lemma EvalAllFinished(fs: seq<Filter>, i: nat, v: View)
    requires i <= |fs|
    requires i < |fs| ==> !EvalAll(fs[..i], v).matched
    ensures EvalAll(fs[..i], v) == EvalAll(fs, v)
  {
    if i < |fs| {
      EvalAllStopped(fs, i, v);
    } else {
      assert fs[..i] == fs;
    }
  }

  /** One filter over the resources kept so far. */
  method Narrow(fs: seq<Filter>, i: nat, ghost rs: seq<Resource>, kept: seq<Resource>,
                ghost before: map<Resource, View>) returns (out: seq<Resource>)
    requires i < |fs| && Valid(rs)
    requires AllUpTo(fs, i, rs, kept, before)
    modifies Objects(rs), AllLists(rs)
    ensures Valid(rs) && fresh(AllLists(rs) - old(AllLists(rs)))
    ensures AllUpTo(fs, i + 1, rs, out, before)
    decreases fs[i], 3
  {
    out := NarrowBy(fs[i], rs, kept);
    KeepTwice(rs, kept, out);
    forall r | r in rs
      ensures Outcome(r in out, r.View()) == EvalAll(fs[..i + 1], before[r])
    {
      EvalAllSnoc(fs, i, before[r]);
    }
  }

  method NarrowBy(f: Filter, ghost rs: seq<Resource>, kept: seq<Resource>) returns (out: seq<Resource>)
    requires Valid(rs) && Within(kept, rs)
    modifies Objects(rs), AllLists(rs)
    ensures Valid(rs) && fresh(AllLists(rs) - old(AllLists(rs)))
    ensures Within(out, kept)
    ensures forall r | r in kept :: Outcome(r in out, r.View()) == Eval(f, old(r.View()))
    ensures forall r | r in rs && r !in kept :: r !in out && r.View() == old(r.View())
    ensures OrderKeeping(f) ==> out == Keep(kept, out)
    decreases f, 2
  {
    assert AllLists(kept) <= AllLists(rs);
    assert Objects(kept) <= Objects(rs);
    out := Process(f, kept);
    OthersKept(kept, rs);
  }

  // ----- AnnotationSweeper

  /** The c7n keys of a resource, as references to its live lists. */
  function Annotations(fields: map<string, Value>): map<string, Value> {
    map k | k in fields && IsAnnotation(k) :: fields[k]
  }

  ghost function AnnotationsOf(v: View): View {
    map k | k in v && IsAnnotation(k) :: v[k]
  }

  /** copy.deepcopy of one resource's annotations. */
  method DeepCopy(m: map<string, Value>) returns (c: map<string, Value>)
    ensures c.Keys == m.Keys && Frozen(c) == Frozen(m)
    ensures Unshared(c) && fresh(ListsIn(c))
  {
    c := map[];
    var todo := m.Keys;
    while todo != {}
      invariant todo <= m.Keys && c.Keys == m.Keys - todo
      invariant forall k | k in c :: FrozenValue(c[k]) == FrozenValue(m[k])
      invariant Unshared(c) && fresh(ListsIn(c))
    {
      var k :| k in todo;
      match m[k] {
        case Text(t) =>
          ListsInOneMore(c, k, m[k]);
          c := c[k := m[k]];
        case Marks(l) =>
          var copy := new MarkList(l.items);
          ListsInOneMore(c, k, Marks(copy));
          c := c[k := Marks(copy)];
      }
      todo := todo - {k};
    }
  }

  type Saved = map<string, map<string, Value>>

  ghost function ListsOfAll(saved: Saved): set<MarkList> {
    set id, l | id in saved && l in ListsIn(saved[id]) :: l
  }

  /** Snapshots hold c7n keys only, and no list is used twice. */
  ghost predicate Separate(saved: Saved) {
    && (forall id | id in saved :: Unshared(saved[id]) && forall k | k in saved[id] :: IsAnnotation(k))
    && (forall i, j | i in saved && j in saved && i != j :: ListsIn(saved[i]) !! ListsIn(saved[j]))
  }

  lemma SeparateOneMore(saved: Saved, id: string, c: map<string, Value>)
    requires Separate(saved) && id !in saved
    requires Unshared(c) && (forall k | k in c :: IsAnnotation(k))
    requires ListsIn(c) !! ListsOfAll(saved)
    ensures Separate(saved[id := c])
    ensures ListsOfAll(saved[id := c]) == ListsOfAll(saved) + ListsIn(c)
  {
    var s := saved[id := c];
    forall l | l in ListsOfAll(saved) + ListsIn(c)
      ensures l in ListsOfAll(s)
    {
      if l in ListsIn(c) {
        assert s[id] == c;
      } else {
        var i :| i in saved && l in ListsIn(saved[i]);
        assert s[i] == saved[i];
      }
    }
    forall i, j | i in s && j in s && i != j
      ensures ListsIn(s[i]) !! ListsIn(s[j])
    {
      assert i != id ==> ListsIn(s[i]) <= ListsOfAll(saved);
      assert j != id ==> ListsIn(s[j]) <= ListsOfAll(saved);
    }
  }

  /** Each resource's snapshot shows its annotations as they are now. */
  ghost predicate Faithful(saved: Saved, rs: seq<Resource>)
    reads rs, AllLists(rs), ListsOfAll(saved)
  {
    forall r | r in rs :: r.id in saved && Frozen(saved[r.id]) == AnnotationsOf(r.View())
  }

  twostate lemma FaithfulKept(saved: Saved, new rs: seq<Resource>)
    requires old(allocated(rs)) && old(Faithful(saved, rs))
    requires forall r | r in rs :: r.fields == old(r.fields)
    requires forall l: MarkList | old(allocated(l)) :: l.items == old(l.items)
    ensures Faithful(saved, rs)
  {
    forall r | r in rs
      ensures Frozen(saved[r.id]) == AnnotationsOf(r.View())
    {
      assert Frozen(saved[r.id]) == old(Frozen(saved[r.id]));
      assert r.View() == old(r.View());
    }
  }

  lemma FaithfulOneMore(saved: Saved, done: seq<Resource>, r: Resource, c: map<string, Value>)
    requires Faithful(saved, done) && r.id !in saved
    requires Frozen(c) == AnnotationsOf(r.View())
    ensures Faithful(saved[r.id := c], done + [r])
  {
  }

  method SnapshotOneMore(saved: Saved, ghost done: seq<Resource>, r: Resource) returns (more: Saved)
    requires Separate(saved) && r.id !in saved && Faithful(saved, done)
    ensures Separate(more) && Faithful(more, done + [r])
    ensures fresh(ListsOfAll(more) - ListsOfAll(saved)) && more.Keys == saved.Keys + {r.id}
  {
    var copy := DeepCopy(Annotations(r.fields));
    FaithfulKept(saved, done);
    SeparateOneMore(saved, r.id, copy);
    FaithfulOneMore(saved, done, r, copy);
    more := saved[r.id := copy];
  }

  method Snapshot(rs: seq<Resource>) returns (saved: Saved)
    requires UniqueIds(rs)
    ensures Separate(saved) && Faithful(saved, rs) && fresh(ListsOfAll(saved)) && saved.Keys == Ids(rs)
  {
    saved := map[];
    for i := 0 to |rs|
      invariant Separate(saved) && Faithful(saved, rs[..i]) && fresh(ListsOfAll(saved))
      invariant saved.Keys == Ids(rs[..i])
    {
      saved := SnapshotOneMore(saved, rs[..i], rs[i]);
      assert rs[..i + 1] == rs[..i] + [rs[i]];
    }
    assert rs[..|rs|] == rs;
  }

  ghost function Ids(rs: seq<Resource>): set<string> {
    set r | r in rs :: r.id
  }

  class AnnotationSweeper {
    var saved: Saved
    var resources: map<string, Resource>

    constructor (rs: seq<Resource>)
      requires Valid(rs)
      ensures Separate(saved) && Faithful(saved, rs) && fresh(ListsOfAll(saved)) && saved.Keys == Ids(rs)
      ensures resources == ById(rs)
    {
      saved, resources := map[], ById(rs);
      new;
      var snapshot := Snapshot(rs);
      label L:
      saved := snapshot;
      FaithfulKept@L(saved, rs);
    }

    /** Roll back every resource the block did not keep. */
    method Sweep(kept: seq<Resource>, ghost rs: seq<Resource>)
      requires UniqueIds(rs) && Within(kept, rs)
      requires saved.Keys == Ids(rs) && resources == ById(rs)
      requires forall id, k | id in saved && k in saved[id] :: IsAnnotation(k)
      modifies Objects(rs)
      ensures forall r | r in rs ::
        r.fields == if r in kept then old(r.fields) else RestoredFields(old(r.fields), saved[r.id])
    {
      ghost var before := map r | r in rs :: r.fields;
      var diff := saved.Keys - set r | r in kept :: r.id;
      SameById(rs, kept);
      while diff != {}
        invariant diff <= Ids(rs)
        invariant forall r | r in kept :: r.id !in diff
        invariant SweptBut(rs, kept, saved, before, diff)
      {
        var id :| id in diff;
        SweepOne(rs, kept, saved, before, diff, resources[id]);
        diff := diff - {id};
      }
    }
  }

  /** The sweep has still to come to the resources with ids in diff. */
  ghost predicate SweptBut(rs: seq<Resource>, kept: seq<Resource>, saved: Saved,
                           before: map<Resource, map<string, Value>>, diff: set<string>)
    reads rs
  {
    forall r | r in rs :: r in before && r.id in saved &&
      r.fields == if r in kept || r.id in diff then before[r] else RestoredFields(before[r], saved[r.id])
  }

  method SweepOne(ghost rs: seq<Resource>, ghost kept: seq<Resource>, saved: Saved,
                  ghost before: map<Resource, map<string, Value>>, ghost diff: set<string>, r: Resource)
    requires UniqueIds(rs) && r in rs && r !in kept && r.id in diff
    requires SweptBut(rs, kept, saved, before, diff)
    modifies r
    ensures SweptBut(rs, kept, saved, before, diff - {r.id})
  {
    IdsDistinguish(rs);
    RestoreOne(r, saved[r.id]);
  }

  method RestoreOne(r: Resource, saved: map<string, Value>)
    modifies r
    ensures r.fields == RestoredFields(old(r.fields), saved)
  {
    var akeys := set k | k in r.fields && IsAnnotation(k);
    r.fields := r.fields - akeys;
    r.fields := r.fields + saved;
  }

  function ById(rs: seq<Resource>): map<string, Resource>
    requires UniqueIds(rs)
    ensures ById(rs).Keys == Ids(rs)
    ensures forall r | r in rs :: ById(rs)[r.id] == r
  {
    map r | r in rs :: r.id := r
  }

  function RestoredFields(fields: map<string, Value>, saved: map<string, Value>): map<string, Value> {
    (map k | k in fields && !IsAnnotation(k) :: fields[k]) + saved
  }

  /** What sweeping one resource does to its lists. */
  lemma RestoredOne(fields: map<string, Value>, saved: map<string, Value>)
    requires Unshared(fields) && Unshared(saved) && ListsIn(fields) !! ListsIn(saved)
    requires forall k | k in saved :: IsAnnotation(k)
    ensures Unshared(RestoredFields(fields, saved))
    ensures ListsIn(RestoredFields(fields, saved)) <= ListsIn(fields) + ListsIn(saved)
  {
    var m := RestoredFields(fields, saved);
    forall k, l | k in m && l in m && m[k].Marks? && m[l].Marks? && m[k].list == m[l].list
      ensures k == l
    {
      assert k in saved ==> m[k].list in ListsIn(saved);
      assert k !in saved ==> m[k].list in ListsIn(fields);
      assert l in saved ==> m[l].list in ListsIn(saved);
      assert l !in saved ==> m[l].list in ListsIn(fields);
    }
  }

  /** The snapshot still shows the annotations of `before`. */
  twostate lemma SnapshotShows(saved: map<string, Value>, new before: View)
    requires forall l: MarkList | l in ListsIn(saved) :: l.items == old(l.items)
    requires old(Frozen(saved)) == AnnotationsOf(before)
    ensures saved.Keys == AnnotationsOf(before).Keys
    ensures forall k | k in saved :: FrozenValue(saved[k]) == before[k]
  {
    assert saved.Keys == old(Frozen(saved)).Keys;
    forall k | k in saved
      ensures FrozenValue(saved[k]) == before[k]
    {
      assert old(Frozen(saved))[k] == AnnotationsOf(before)[k];
      assert saved[k].Marks? ==> saved[k].list in ListsIn(saved);
    }
  }

  /** Values the resource had still show what they did. */
  twostate lemma FieldsShow(new r: Resource)
    requires old(allocated(r))
    requires forall l: MarkList | l in old(r.Lists()) :: l.items == old(l.items)
    ensures forall k | k in old(r.fields) :: FrozenValue(old(r.fields)[k]) == old(r.View())[k]
  {
    forall k | k in old(r.fields)
      ensures FrozenValue(old(r.fields)[k]) == old(r.View())[k]
    {
      assert old(r.fields)[k].Marks? ==> old(r.fields)[k].list in old(r.Lists());
    }
  }

  /** What a resource shows after a sweep, given what its snapshot showed before. */
  twostate lemma SweptView(saved: map<string, Value>, new r: Resource, new before: View)
    requires old(allocated(r))
    requires forall k | k in saved :: IsAnnotation(k)
    requires forall l: MarkList | l in old(r.Lists()) || l in ListsIn(saved) :: l.items == old(l.items)
    requires old(Frozen(saved)) == AnnotationsOf(before)
    ensures r.fields == old(r.fields) ==> r.View() == old(r.View())
    ensures r.fields == RestoredFields(old(r.fields), saved) ==> r.View() == Restore(old(r.View()), before)
  {
    SnapshotShows(saved, before);
    FieldsShow(r);
    if r.fields == RestoredFields(old(r.fields), saved) {
      RestoredShows(old(r.fields), r, saved, old(r.View()), before);
    }
  }

  /** Restored fields show as the restored view, when their parts show as its parts. */
  lemma RestoredShows(fields: map<string, Value>, r: Resource, saved: map<string, Value>, v: View, before: View)
    requires r.fields == RestoredFields(fields, saved) && fields.Keys == v.Keys
    requires saved.Keys == AnnotationsOf(before).Keys && forall k | k in saved :: FrozenValue(saved[k]) == before[k]
    requires forall k | k in fields :: FrozenValue(fields[k]) == v[k]
    ensures r.View() == Restore(v, before)
  {
    var w := Restore(v, before);
    forall k: string
      ensures k in r.fields <==> k in w
    {
      assert k in saved <==> k in before && IsAnnotation(k);
    }
    forall k | k in w
      ensures r.View()[k] == w[k]
    {
      assert k in saved <==> k in before && IsAnnotation(k);
    }
  }

  /** The sweeper can bring back, for each resource, what `before` shows. */
  ghost predicate Armed(sweeper: AnnotationSweeper, rs: seq<Resource>, before: map<Resource, View>)
    reads sweeper, rs, AllLists(rs), ListsOfAll(sweeper.saved)
  {
    && Separate(sweeper.saved) && ListsOfAll(sweeper.saved) !! AllLists(rs)
    && UniqueIds(rs) && sweeper.saved.Keys == Ids(rs) && sweeper.resources == ById(rs)
    && forall r | r in rs :: r in before && Frozen(sweeper.saved[r.id]) == AnnotationsOf(before[r])
  }

  method Arm(rs: seq<Resource>, ghost before: map<Resource, View>) returns (sweeper: AnnotationSweeper)
    requires Valid(rs) && before == Views(rs)
    ensures Armed(sweeper, rs, before) && Valid(rs) && before == Views(rs)
    ensures AllLists(rs) == old(AllLists(rs))
    ensures fresh(sweeper) && fresh(ListsOfAll(sweeper.saved))
  {
    sweeper := new AnnotationSweeper(rs);
    ViewsKept(rs);
  }

  /** The loop over the filters of a block leaves the snapshot alone. */
  method ProcessArmed(fs: seq<Filter>, rs: seq<Resource>, sweeper: AnnotationSweeper, ghost before: map<Resource, View>)
    returns (out: seq<Resource>)
    requires Valid(rs) && Armed(sweeper, rs, before) && before == Views(rs)
    modifies Objects(rs), AllLists(rs)
    ensures Valid(rs) && fresh(AllLists(rs) - old(AllLists(rs)))
    ensures Within(out, rs)
    ensures forall r | r in rs :: Outcome(r in out, r.View()) == EvalAll(fs, before[r])
    ensures OrderKeeping(And(fs)) ==> out == Keep(rs, out)
    ensures Armed(sweeper, rs, before) && sweeper.saved == old(sweeper.saved)
    decreases fs, 2
  {
    out := ProcessAll(fs, rs);
    SavedKept(sweeper.saved);
  }

  twostate lemma SavedKept(saved: Saved)
    requires forall l | l in ListsOfAll(saved) :: l.items == old(l.items)
    ensures forall id | id in saved :: Frozen(saved[id]) == old(Frozen(saved[id]))
  {
    forall id, k | id in saved && k in saved[id]
      ensures FrozenValue(saved[id][k]) == old(FrozenValue(saved[id][k]))
    {
      if saved[id][k].Marks? {
        assert saved[id][k].list in ListsIn(saved[id]);
        assert saved[id][k].list in ListsOfAll(saved);
      }
    }
  }

  /** The list structure after a sweep: restored lists are the snapshot's own. */
  twostate lemma SweptLists(saved: Saved, new rs: seq<Resource>, new kept: seq<Resource>)
    requires old(allocated(rs)) && old(allocated(kept)) && old(Valid(rs))
    requires Separate(saved) && saved.Keys == Ids(rs) && ListsOfAll(saved) !! old(AllLists(rs))
    requires forall r | r in rs ::
      r.fields == if r in kept then old(r.fields) else RestoredFields(old(r.fields), saved[r.id])
    ensures Valid(rs) && AllLists(rs) <= old(AllLists(rs)) + ListsOfAll(saved)
  {
    forall r | r in rs
      ensures Unshared(r.fields)
      ensures r.Lists() <= old(r.Lists()) + ListsIn(saved[r.id])
    {
      assert old(r.Lists()) <= old(AllLists(rs));
      assert ListsIn(saved[r.id]) <= ListsOfAll(saved);
      RestoredOne(old(r.fields), saved[r.id]);
    }
    forall r, q | r in rs && q in rs && r != q
      ensures r.Lists() !! q.Lists()
    {
      IdsDistinguish(rs);
      assert r.id != q.id;
      assert old(r.Lists()) <= old(AllLists(rs)) && old(q.Lists()) <= old(AllLists(rs));
      assert ListsIn(saved[r.id]) <= ListsOfAll(saved) && ListsIn(saved[q.id]) <= ListsOfAll(saved);
      assert ListsIn(saved[r.id]) !! ListsIn(saved[q.id]);
      assert old(r.Lists()) !! old(q.Lists());
    }
  }

  /** AnnotationSweeper.sweep at the end of a block, in terms of what resources show. */
  method SweepBlock(sweeper: AnnotationSweeper, ghost rs: seq<Resource>, kept: seq<Resource>,
                    ghost before: map<Resource, View>, ghost mid: map<Resource, View>, ghost lists: set<MarkList>)
    requires Valid(rs) && Within(kept, rs) && Armed(sweeper, rs, before) && mid == Views(rs)
    requires lists == AllLists(rs) + ListsOfAll(sweeper.saved)
    modifies Objects(rs)
    ensures Valid(rs) && AllLists(rs) <= lists
    ensures forall r | r in rs :: r.View() == if r in kept then mid[r] else Restore(mid[r], before[r])
  {
    sweeper.Sweep(kept, rs);
    SweptLists(sweeper.saved, rs, kept);
    forall r | r in rs
      ensures r.View() == if r in kept then mid[r] else Restore(mid[r], before[r])
    {
      SweptView(sweeper.saved[r.id], r, before[r]);
    }
  }

  /** A block from its snapshot on; `own` and `copies` are the lists of the resources and of
      the snapshot, and `lists` those the resources end with. */
  method ProcessAndSweep(fs: seq<Filter>, rs: seq<Resource>, spare: bool, sweeper: AnnotationSweeper,
                         ghost before: map<Resource, View>, ghost own: set<MarkList>, ghost copies: set<MarkList>)
    returns (out: seq<Resource>, ghost mid: map<Resource, View>, ghost lists: set<MarkList>)
    requires Valid(rs) && Armed(sweeper, rs, before) && before == Views(rs)
    requires own == AllLists(rs) && copies == ListsOfAll(sweeper.saved)
    modifies Objects(rs), own
    ensures Valid(rs) && Within(out, rs)
    ensures lists == AllLists(rs) && fresh(lists - own - copies)
    ensures forall r | r in rs :: r in mid && Outcome(r in out, mid[r]) == EvalAll(fs, before[r])
    ensures forall r | r in rs :: r.View() == if spare && r in out then mid[r] else Restore(mid[r], before[r])
    ensures OrderKeeping(And(fs)) ==> out == Keep(rs, out)
    decreases fs, 3
  {
    out := ProcessArmed(fs, rs, sweeper, before);
    mid := Views(rs);
    SweepBlock(sweeper, rs, if spare then out else [], before, mid, AllLists(rs) + copies);
    lists := AllLists(rs);
  }

  /** A block up to its answer. An `and` spares what it keeps from the sweep, a `not` nothing. */
  method ProcessSwept(fs: seq<Filter>, rs: seq<Resource>, spare: bool, ghost before: map<Resource, View>)
    returns (out: seq<Resource>, ghost mid: map<Resource, View>)
    requires Valid(rs) && before == Views(rs)
    modifies Objects(rs), AllLists(rs)
    ensures Valid(rs) && Within(out, rs) && fresh(AllLists(rs) - old(AllLists(rs)))
    ensures forall r | r in rs :: r in mid && Outcome(r in out, mid[r]) == EvalAll(fs, before[r])
    ensures forall r | r in rs :: r.View() == if spare && r in out then mid[r] else Restore(mid[r], before[r])
    ensures OrderKeeping(And(fs)) ==> out == Keep(rs, out)
    decreases fs, 4
  {
    ghost var own, lists := AllLists(rs), {};
    var sweeper := Arm(rs, before);
    ghost var copies := ListsOfAll(sweeper.saved);
    out, mid, lists := ProcessAndSweep(fs, rs, spare, sweeper, before, own, copies);
    assert fresh(lists - own);
  }

  method ProcessAnd(fs: seq<Filter>, rs: seq<Resource>) returns (out: seq<Resource>)
    requires Valid(rs)
    modifies Objects(rs), AllLists(rs)
    ensures Valid(rs) && fresh(AllLists(rs) - old(AllLists(rs)))
    ensures Within(out, rs)
    ensures forall r | r in rs :: Outcome(r in out, r.View()) == Eval(And(fs), old(r.View()))
    ensures OrderKeeping(And(fs)) ==> out == Keep(rs, out)
    decreases fs, 5
  {
    ghost var before := Views(rs);
    ghost var mid;
    out, mid := ProcessSwept(fs, rs, true, before);
    forall r | r in rs
      ensures Outcome(r in out, r.View()) == Eval(And(fs), before[r])
    {
      EvalAnd(fs, before[r], r in out, mid[r]);
    }
  }

  lemma EvalAnd(fs: seq<Filter>, v: View, matched: bool, w: View)
    requires EvalAll(fs, v) == Outcome(matched, w)
    ensures Eval(And(fs), v) == Outcome(matched, if matched then w else Restore(w, v))
  {}

  /** The resources with some ids, in whatever order the set of ids yields them. */
  method Pick(ghost rs: seq<Resource>, byId: map<string, Resource>, ids: set<string>) returns (out: seq<Resource>)
    requires UniqueIds(rs) && byId == ById(rs) && ids <= byId.Keys
    ensures Within(out, rs)
    ensures forall r | r in rs :: r in out <==> r.id in ids
  {
    out := [];
    var todo := ids;
    while todo != {}
      invariant todo <= ids
      invariant Within(out, rs)
      invariant forall r | r in rs :: r in out <==> r.id in ids - todo
    {
      var id :| id in todo;
      assert forall r | r in rs && r.id == id :: r == byId[id];
      out := out + [byId[id]];
      todo := todo - {id};
    }
  }

  /** Membership by id is membership, when ids are unique. */
  lemma SameById(rs: seq<Resource>, kept: seq<Resource>)
    requires UniqueIds(rs) && Within(kept, rs)
    ensures forall r | r in rs :: r.id in Ids(kept) <==> r in kept
  {
    assert forall q, r | q in rs && r in rs && q.id == r.id :: ById(rs)[r.id] == q == r;
  }

  method PickRest(rs: seq<Resource>, byId: map<string, Resource>, kept: seq<Resource>) returns (out: seq<Resource>)
    requires Valid(rs) && byId == ById(rs) && Within(kept, rs)
    ensures Valid(rs) && AllLists(rs) == old(AllLists(rs)) && Views(rs) == old(Views(rs))
    ensures Within(out, rs)
    ensures forall r | r in rs :: r in out <==> r !in kept
  {
    var before := byId.Keys;
    var after := set r | r in kept :: r.id;
    SameById(rs, kept);
    out := Pick(rs, byId, before - after);
    ViewsKept(rs);
  }

  method ProcessNot(fs: seq<Filter>, rs: seq<Resource>) returns (out: seq<Resource>)
    requires Valid(rs)
    modifies Objects(rs), AllLists(rs)
    ensures Valid(rs) && fresh(AllLists(rs) - old(AllLists(rs)))
    ensures Within(out, rs)
    ensures forall r | r in rs :: Outcome(r in out, r.View()) == Eval(Not(fs), old(r.View()))
    decreases fs, 6
  {
    var resourceMap := ById(rs);
    var kept := ProcessNegated(fs, rs, Views(rs));
    out := PickRest(rs, resourceMap, kept);
  }

  /** The body of a `not`, rolled back on every resource. */
  method ProcessNegated(fs: seq<Filter>, rs: seq<Resource>, ghost before: map<Resource, View>)
    returns (kept: seq<Resource>)
    requires Valid(rs) && before == Views(rs)
    modifies Objects(rs), AllLists(rs)
    ensures Valid(rs) && fresh(AllLists(rs) - old(AllLists(rs)))
    ensures Within(kept, rs)
    ensures forall r | r in rs :: Outcome(r !in kept, r.View()) == Eval(Not(fs), before[r])
    decreases fs, 5
  {
    ghost var mid;
    kept, mid := ProcessSwept(fs, rs, false, before);
    forall r | r in rs
      ensures Outcome(r !in kept, r.View()) == Eval(Not(fs), before[r])
    {
      EvalNot(fs, before[r], r in kept, mid[r]);
    }
  }

  lemma EvalNot(fs: seq<Filter>, v: View, matched: bool, w: View)
    requires EvalAll(fs, v) == Outcome(matched, w)
    ensures Eval(Not(fs), v) == Outcome(!matched, Restore(w, v))
  {
  }

  method ProcessOr(fs: seq<Filter>, rs: seq<Resource>) returns (out: seq<Resource>)
    requires Valid(rs)
    modifies Objects(rs), AllLists(rs)
    ensures Valid(rs) && fresh(AllLists(rs) - old(AllLists(rs)))
    ensures Within(out, rs)
    ensures forall r | r in rs :: Outcome(r in out, r.View()) == Eval(Or(fs), old(r.View()))
    decreases fs, 3
  {
    var resourceMap := ById(rs);
    var results := ProcessBranches(fs, rs);
    out := Pick(rs, resourceMap, results);
  }

  /** The loop over the branches of an `or`, collecting ids. */
  method ProcessBranches(fs: seq<Filter>, rs: seq<Resource>) returns (results: set<string>)
    requires Valid(rs)
    modifies Objects(rs), AllLists(rs)
    ensures Valid(rs) && fresh(AllLists(rs) - old(AllLists(rs)))
    ensures results <= Ids(rs)
    ensures forall r | r in rs :: Outcome(r.id in results, r.View()) == EvalAny(fs, old(r.View()))
    decreases fs, 1
  {
    ghost var before := Views(rs);
    results := {};
    for i := 0 to |fs|
      invariant Valid(rs) && fresh(AllLists(rs) - old(AllLists(rs)))
      invariant results <= Ids(rs)
      invariant forall r | r in rs :: Outcome(r.id in results, r.View()) == EvalAny(fs[..i], before[r])
    {
      results := Branch(fs, i, rs, before, results);
    }
    assert fs[..|fs|] == fs;
  }

  /** One branch of an `or`, over all the resources. */
  method Branch(fs: seq<Filter>, i: nat, rs: seq<Resource>, ghost before: map<Resource, View>, results: set<string>)
    returns (more: set<string>)
    requires Valid(rs) && i < |fs| && results <= Ids(rs)
    requires forall r | r in rs ::
      r in before && Outcome(r.id in results, r.View()) == EvalAny(fs[..i], before[r])
    modifies Objects(rs), AllLists(rs)
    ensures Valid(rs) && fresh(AllLists(rs) - old(AllLists(rs)))
    ensures more <= Ids(rs)
    ensures forall r | r in rs :: Outcome(r.id in more, r.View()) == EvalAny(fs[..i + 1], before[r])
    decreases fs[i], 2
  {
    var kept := Process(fs[i], rs);
    SameById(rs, kept);
    more := results + set r | r in kept :: r.id;
    forall r | r in rs
      ensures Outcome(r.id in more, r.View()) == EvalAny(fs[..i + 1], before[r])
    {
      EvalAnySnoc(fs, i, before[r]);
      assert Outcome(r in kept, r.View()) == Eval(fs[i], old(r.View()));
      assert r.id in more <==> r.id in results || r in kept;
    }
  }

  method Process(f: Filter, rs: seq<Resource>) returns (out: seq<Resource>)
    requires Valid(rs)
    modifies Objects(rs), AllLists(rs)
    ensures Valid(rs) && fresh(AllLists(rs) - old(AllLists(rs)))
    ensures Within(out, rs)
    ensures forall r | r in rs :: Outcome(r in out, r.View()) == Eval(f, old(r.View()))
    ensures OrderKeeping(f) ==> out == Keep(rs, out)
    decreases f, 1
  {
    match f
    case Leaf(_, _, _) => out := ProcessLeaf(f, rs);
    case And(fs) => out := ProcessAnd(fs, rs);
    case Or(fs) => out := ProcessOr(fs, rs);
    case Not(fs) => out := ProcessNot(fs, rs);
  }

  /** ResourceManager.filter_resources with filters that do not read annotations: what is
      kept is what satisfies all the formulas, and each kept resource has its old marks, then
      the keys of the leaves that made it pass, and otherwise what it had. */
  method FilterResources(fs: seq<Filter>, rs: seq<Resource>) returns (out: seq<Resource>)
    requires Valid(rs)
    requires forall i | 0 <= i < |fs| :: Pointwise(fs[i])
    modifies Objects(rs), AllLists(rs)
    ensures Within(out, rs)
    ensures forall r | r in rs :: r in out <==> forall i | 0 <= i < |fs| :: Sat(fs[i], old(r.View()))
    ensures forall r | r in out :: MarkedWith(old(r.View()), KeysOf(fs, old(r.View())), r.View())
    ensures forall r | r in rs :: SamePlainFields(r.View(), old(r.View()))
    ensures OrderKeeping(And(fs)) ==> out == Keep(rs, out)
  {
    ghost var before := Views(rs);
    out := ProcessAll(fs, rs);
    forall r | r in rs
      ensures r in out <==> forall i | 0 <= i < |fs| :: Sat(fs[i], before[r])
      ensures r in out ==> MarkedWith(before[r], KeysOf(fs, before[r]), r.View())
      ensures SamePlainFields(r.View(), before[r])
    {
      EvalAllIsFormula(fs, before[r]);
      EvalAllKeeps(fs, before[r]);
      AnnotateAllMarks(before[r], KeysOf(fs, before[r]));
      assert Outcome(r in out, r.View()) == EvalAll(fs, before[r]);
    }
  }
}
