/** Merging and comparing policy documents (c7n/utils.py: merge_dict,
    compare_dicts_using_sets, format_to_set), and their use to decide whether one statement
    element contains another (c7n/filters/policystatement.py). */
module DictMerge {
  import opened Wrappers

  /** Values that can be members of a set. Booleans are numbers, as they are in the original. */
  datatype Atom = Str(text: string) | Num(number: real) | Null

  /** Who else can see a list or dict object: the caller it came from, or nobody. */
  datatype Owner = Input | Fresh

  datatype Value =
    | Scalar(atom: Atom)
    | List(owner: Owner, elems: seq<Atom>)
    | Dict(owner: Owner, items: map<string, Value>)
    | SetOf(members: set<Atom>)

  type Items = map<string, Value>

  /** A JSON document: no sets. */
  ghost predicate Json(v: Value) {
    match v
    case Scalar(_) => true
    case List(_, _) => true
    case Dict(_, items) => forall k | k in items :: Json(items[k])
    case SetOf(_) => false
  }

  /** copy.deepcopy */
  function DeepCopy(v: Value): Value {
    match v
    case Scalar(_) => v
    case List(_, elems) => List(Fresh, elems)
    case Dict(_, items) => Dict(Fresh, map k | k in items :: DeepCopy(items[k]))
    case SetOf(_) => v
  }

  function Members(elems: seq<Atom>): set<Atom> {
    set e | e in elems
  }

  // ----- merge_dict

  /** The first list, then what is new in the second, each once. */
  function AppendNew(elems: seq<Atom>, more: seq<Atom>): seq<Atom>
    decreases |more|
  {
    if more == [] then elems
    else AppendNew(if more[0] in elems then elems else elems + [more[0]], more[1..])
  }

  /** The value for a key that is in both; None is "not conformable". */
  function MergeValue(x: Value, v: Value): Option<Value>
    decreases v, 1, 0
  {
    if x.Dict? && v.Dict? then Merge(x, v)
    else if x.List? && v.List? then Some(List(x.owner, AppendNew(x.elems, v.elems)))
    else if v.Scalar? && v.atom.Str? && x.List? then
      Some(if v.atom in x.elems then x else List(x.owner, x.elems + [v.atom]))
    else if v.List? && x.Scalar? && x.atom.Str? then
      Some(if x.atom in v.elems then v else List(Fresh, [x.atom] + v.elems))
    else if v.Scalar? && !v.atom.Null? then Some(v)
    else None
  }

  /** The key by key meaning of merge_dict. */
  function Merge(a: Value, b: Value): Option<Value>
    requires a.Dict? && b.Dict?
    decreases b, 0, 1
  {
    if forall k | k in b.items && k in a.items :: MergeValue(DeepCopy(a.items[k]), b.items[k]).Some? then
      Some(Dict(Fresh, map k | k in a.items.Keys + b.items.Keys :: MergeAt(a, b, k)))
    else None
  }

  function MergeAt(a: Value, b: Value, k: string): Value
    requires a.Dict? && b.Dict? && k in a.items.Keys + b.items.Keys
    requires k in b.items && k in a.items ==> MergeValue(DeepCopy(a.items[k]), b.items[k]).Some?
    decreases b, 0, 0
  {
    if k !in b.items then DeepCopy(a.items[k])
    else if k !in a.items then b.items[k]
    else MergeValue(DeepCopy(a.items[k]), b.items[k]).value
  }

  // ----- Inclusion, and comparison with lists and strings read as sets

  ghost predicate IsSetLike(v: Value) {
    v.List? || (v.Scalar? && v.atom.Str?)
  }

  ghost function AsSet(v: Value): set<Atom>
    requires IsSetLike(v)
  {
    if v.List? then Members(v.elems) else {v.atom}
  }

  /** p is contained in r. */
  ghost predicate Included(p: Value, r: Value) {
    if p.Dict? then
      r.Dict? && forall k | k in p.items :: k in r.items && Included(p.items[k], r.items[k])
    else if IsSetLike(p) then IsSetLike(r) && AsSet(p) <= AsSet(r)
    else p == r
  }

  /** compare_dicts_using_sets on one value each. */
  ghost predicate SameSets(x: Value, v: Value)
    decreases v
  {
    if x.Dict? && v.Dict? then
      x.items.Keys == v.items.Keys && forall k | k in v.items :: SameSets(x.items[k], v.items[k])
    else if x.List? || v.List? then IsSetLike(x) && IsSetLike(v) && AsSet(x) == AsSet(v)
    else x == v
  }

  lemma {:induction false} AppendNewMembers(elems: seq<Atom>, more: seq<Atom>)
    ensures Members(AppendNew(elems, more)) == Members(elems) + Members(more)
    decreases |more|
  {
    if more != [] {
      var next := if more[0] in elems then elems else elems + [more[0]];
      AppendNewMembers(next, more[1..]);
      assert Members(next) == Members(elems) + {more[0]};
      assert Members(more) == {more[0]} + Members(more[1..]);
    }
  }

  lemma {:induction false} CopyIsSame(v: Value)
    requires Json(v)
    ensures SameSets(DeepCopy(v), v)
  {
    if v.Dict? {
      forall k | k in v.items
        ensures SameSets(DeepCopy(v.items[k]), v.items[k])
      {
        CopyIsSame(v.items[k]);
      }
    }
  }

  /** Where both sides have a key: what was merged in adds nothing exactly when it was included. */
  lemma {:induction false} MergedValueDecides(r: Value, p: Value)
    requires Json(r) && Json(p)
    requires MergeValue(DeepCopy(r), p).Some?
    ensures SameSets(MergeValue(DeepCopy(r), p).value, r) <==> Included(p, r)
    decreases p, 1
  {
    if r.Dict? && p.Dict? {
      CopyIsJson(r);
      MergeDecides(DeepCopy(r), p);
      CopyReadsSame(Merge(DeepCopy(r), p).value, r);
      CopyIncludesSame(p, r);
    } else if r.List? && p.List? {
      AppendNewMembers(r.elems, p.elems);
    } else if p.Scalar? && p.atom.Str? && r.List? {
      assert Members(r.elems + [p.atom]) == Members(r.elems) + {p.atom};
    } else if p.List? && r.Scalar? && r.atom.Str? {
      assert Members([r.atom] + p.elems) == {r.atom} + Members(p.elems);
    }
  }

  lemma {:induction false} CopyReadsSame(x: Value, r: Value)
    ensures SameSets(x, DeepCopy(r)) <==> SameSets(x, r)
    decreases r
  {
    if x.Dict? && r.Dict? {
      forall k | k in r.items && k in x.items
        ensures SameSets(x.items[k], DeepCopy(r.items[k])) <==> SameSets(x.items[k], r.items[k])
      {
        CopyReadsSame(x.items[k], r.items[k]);
      }
    }
  }

  lemma {:induction false} CopyIncludesSame(p: Value, r: Value)
    ensures Included(p, DeepCopy(r)) <==> Included(p, r)
    decreases r
  {
    if p.Dict? && r.Dict? {
      forall k | k in r.items && k in p.items
        ensures Included(p.items[k], DeepCopy(r.items[k])) <==> Included(p.items[k], r.items[k])
      {
        CopyIncludesSame(p.items[k], r.items[k]);
      }
    }
  }

  lemma {:induction false} CopyIsJson(v: Value)
    requires Json(v)
    ensures Json(DeepCopy(v))
  {
    if v.Dict? {
      forall k | k in v.items
        ensures Json(DeepCopy(v.items[k]))
      {
        CopyIsJson(v.items[k]);
      }
    }
  }

  /** The law this module is for: merging p into r changes nothing, read as sets, exactly
      when r already contains p. */
  lemma {:induction false} MergeDecides(r: Value, p: Value)
    requires r.Dict? && p.Dict? && Json(r) && Json(p)
    requires Merge(r, p).Some?
    ensures SameSets(Merge(r, p).value, r) <==> Included(p, r)
    decreases p, 0
  {
    var d := Merge(r, p).value;
    forall k | k in r.items && k in p.items
      ensures SameSets(d.items[k], r.items[k]) <==> Included(p.items[k], r.items[k])
    {
      MergedValueDecides(r.items[k], p.items[k]);
    }
    forall k | k in r.items && k !in p.items
      ensures SameSets(d.items[k], r.items[k])
    {
      CopyIsSame(r.items[k]);
    }
    assert d.items.Keys == r.items.Keys + p.items.Keys;
  }

  /** An empty overlay changes nothing, and merging a document into itself changes nothing,
      as long as it holds no null, which is never conformable with a present key. */
  ghost predicate NoNull(v: Value) {
    match v
    case Scalar(a) => !a.Null?
    case List(_, _) => true
    case Dict(_, items) => forall k | k in items :: NoNull(items[k])
    case SetOf(_) => false
  }

  lemma {:induction false} AppendOwnMembers(elems: seq<Atom>, more: seq<Atom>)
    requires forall e | e in more :: e in elems
    ensures AppendNew(elems, more) == elems
    decreases |more|
  {
    if more != [] {
      assert more[0] in more && forall e | e in more[1..] :: e in more;
      AppendOwnMembers(elems, more[1..]);
    }
  }

  lemma {:induction false} MergeSelf(c: Value, v: Value)
    requires v.Dict? && (c == v || c == DeepCopy(v)) && Json(v)
    ensures Merge(c, v).Some? <==> NoNull(v)
    ensures Merge(c, v).Some? ==> Merge(c, v).value == DeepCopy(v)
    decreases v
  {
    CopyTwice(v);
    forall k | k in v.items
      ensures DeepCopy(c.items[k]) == DeepCopy(v.items[k])
      ensures MergeValue(DeepCopy(v.items[k]), v.items[k]).Some? <==> NoNull(v.items[k])
      ensures var m := MergeValue(DeepCopy(v.items[k]), v.items[k]);
        m.Some? ==> m.value == DeepCopy(v.items[k])
    {
      var x := v.items[k];
      CopyTwice(x);
      if x.Dict? {
        MergeSelf(DeepCopy(x), x);
      } else if x.List? {
        AppendOwnMembers(x.elems, x.elems);
      }
    }
  }

  lemma {:induction false} CopyTwice(v: Value)
    ensures DeepCopy(DeepCopy(v)) == DeepCopy(v)
  {
    if v.Dict? {
      forall k | k in v.items
        ensures DeepCopy(DeepCopy(v.items[k])) == DeepCopy(v.items[k])
      {
        CopyTwice(v.items[k]);
      }
    }
  }

  // ----- Merging is associative on dicts and lists

  /** Built of dicts and lists only, all of them fresh: who owns an object is not part of what
      a merge means. */
  ghost predicate Structured(v: Value) {
    match v
    case List(owner, _) => owner == Fresh
    case Dict(owner, items) => owner == Fresh && forall k | k in items :: Structured(items[k])
    case _ => false
  }

  lemma {:induction false} StructuredCopy(v: Value)
    requires Structured(v)
    ensures DeepCopy(v) == v
  {
    if v.Dict? {
      forall k | k in v.items
        ensures DeepCopy(v.items[k]) == v.items[k]
      {
        StructuredCopy(v.items[k]);
      }
    }
  }

  lemma {:induction false} StructuredMerge(x: Value, y: Value)
    requires Structured(x) && Structured(y) && MergeValue(x, y).Some?
    ensures Structured(MergeValue(x, y).value)
    decreases y
  {
    StructuredCopy(x);
    if x.Dict? && y.Dict? {
      forall k | k in x.items.Keys + y.items.Keys
        ensures Structured(MergeAt(x, y, k))
      {
        if k in x.items {
          StructuredCopy(x.items[k]);
          if k in y.items {
            StructuredMerge(x.items[k], y.items[k]);
          }
        }
      }
    }
  }

  lemma {:induction false} AppendNewTwice(elems: seq<Atom>, more: seq<Atom>, last: Atom)
    ensures AppendNew(elems, more + [last]) ==
      if last in AppendNew(elems, more) then AppendNew(elems, more) else AppendNew(elems, more) + [last]
    decreases |more|
  {
    if more == [] {
      assert more + [last] == [last];
    } else {
      var next := if more[0] in elems then elems else elems + [more[0]];
      AppendNewTwice(next, more[1..], last);
      assert (more + [last])[1..] == more[1..] + [last];
    }
  }

  lemma {:induction false} AppendNewAssociative(x: seq<Atom>, y: seq<Atom>, z: seq<Atom>)
    ensures AppendNew(AppendNew(x, y), z) == AppendNew(x, AppendNew(y, z))
    decreases |z|
  {
    if z != [] {
      var front, last := z[..|z| - 1], z[|z| - 1];
      assert z == front + [last];
      AppendNewAssociative(x, y, front);
      AppendNewTwice(AppendNew(x, y), front, last);
      AppendNewTwice(y, front, last);
      AppendNewMembers(x, y);
      AppendNewMembers(y, front);
      AppendNewMembers(x, AppendNew(y, front));
      if last in AppendNew(y, front) {
        assert last in Members(AppendNew(x, AppendNew(y, front)));
      } else {
        AppendNewTwice(x, AppendNew(y, front), last);
      }
    }
  }

  /** (x then y) then z, and x then (y then z); None when some step is not conformable. */
  function MergeLeft(x: Value, y: Value, z: Value): Option<Value> {
    var xy := MergeValue(x, y);
    if xy.Some? then MergeValue(xy.value, z) else None
  }

  function MergeRight(x: Value, y: Value, z: Value): Option<Value> {
    var yz := MergeValue(y, z);
    if yz.Some? then MergeValue(x, yz.value) else None
  }

  /** The value for a key of a merge of structured dicts. */
  function ValueAt(x: Value, y: Value, k: string): Option<Value>
    requires x.Dict? && y.Dict? && k in x.items.Keys + y.items.Keys
  {
    if k !in y.items then Some(x.items[k])
    else if k !in x.items then Some(y.items[k])
    else MergeValue(x.items[k], y.items[k])
  }

  lemma StructuredMergeAt(x: Value, y: Value)
    requires Structured(x) && Structured(y) && x.Dict? && y.Dict?
    ensures Merge(x, y).Some? <==> forall k | k in x.items.Keys + y.items.Keys :: ValueAt(x, y, k).Some?
    ensures Merge(x, y).Some? ==> Merge(x, y).value.Dict? && Merge(x, y).value.owner == Fresh
    ensures Merge(x, y).Some? ==> Merge(x, y).value.items.Keys == x.items.Keys + y.items.Keys
    ensures Merge(x, y).Some? ==>
      forall k | k in x.items.Keys + y.items.Keys :: ValueAt(x, y, k) == Some(Merge(x, y).value.items[k])
  {
    forall k | k in x.items
      ensures DeepCopy(x.items[k]) == x.items[k]
    {
      StructuredCopy(x.items[k]);
    }
    if forall k | k in x.items.Keys + y.items.Keys :: ValueAt(x, y, k).Some? {
      forall k | k in y.items && k in x.items
        ensures MergeValue(DeepCopy(x.items[k]), y.items[k]).Some?
      {
        assert ValueAt(x, y, k).Some?;
      }
    }
  }

  /** Three documents can be merged in either grouping, with the same result or the same refusal. */
  lemma {:induction false} MergeAssociative(x: Value, y: Value, z: Value)
    requires Structured(x) && Structured(y) && Structured(z)
    ensures MergeLeft(x, y, z) == MergeRight(x, y, z)
    decreases x
  {
    if x.Dict? && y.Dict? && z.Dict? {
      forall k | k in x.items && k in y.items && k in z.items
        ensures MergeLeft(x.items[k], y.items[k], z.items[k]) == MergeRight(x.items[k], y.items[k], z.items[k])
      {
        MergeAssociative(x.items[k], y.items[k], z.items[k]);
      }
      MergeDictsAssociative(x, y, z);
    } else if x.List? && y.List? && z.List? {
      AppendNewAssociative(x.elems, y.elems, z.elems);
    } else {
      if x.Dict? && y.Dict? {
        StructuredMergeAt(x, y);
      }
      if y.Dict? && z.Dict? {
        StructuredMergeAt(y, z);
      }
    }
  }

  /** The value for a key when three dicts are merged, grouped to the left and to the right. */
  function LeftAt(x: Value, y: Value, z: Value, k: string): Option<Value>
    requires x.Dict? && y.Dict? && z.Dict? && k in x.items.Keys + y.items.Keys + z.items.Keys
  {
    if k !in z.items then ValueAt(x, y, k)
    else if k in x.items && k in y.items then MergeLeft(x.items[k], y.items[k], z.items[k])
    else if k in x.items then MergeValue(x.items[k], z.items[k])
    else ValueAt(y, z, k)
  }

  function RightAt(x: Value, y: Value, z: Value, k: string): Option<Value>
    requires x.Dict? && y.Dict? && z.Dict? && k in x.items.Keys + y.items.Keys + z.items.Keys
  {
    if k !in x.items then ValueAt(y, z, k)
    else if k in y.items && k in z.items then MergeRight(x.items[k], y.items[k], z.items[k])
    else if k in y.items then MergeValue(x.items[k], y.items[k])
    else ValueAt(x, z, k)
  }

  /** d is what the function `at` says, key by key, and None when it refuses some key. */
  ghost predicate Assembled(d: Option<Value>, keys: set<string>, at: string --> Option<Value>)
    requires forall k | k in keys :: at.requires(k)
  {
    && (d.Some? <==> forall k | k in keys :: at(k).Some?)
    && (d.Some? ==> d.value.Dict? && d.value.owner == Fresh && d.value.items.Keys == keys)
    && (d.Some? ==> forall k | k in keys :: at(k) == Some(d.value.items[k]))
  }

  lemma LeftAssembled(x: Value, y: Value, z: Value)
    requires Structured(x) && Structured(y) && Structured(z) && x.Dict? && y.Dict? && z.Dict?
    ensures Assembled(MergeLeft(x, y, z), x.items.Keys + y.items.Keys + z.items.Keys,
                      k requires k in x.items.Keys + y.items.Keys + z.items.Keys => LeftAt(x, y, z, k))
  {
    var keys := x.items.Keys + y.items.Keys + z.items.Keys;
    var xy := Merge(x, y);
    StructuredMergeAt(x, y);
    if xy.Some? {
      StructuredMerge(x, y);
      StructuredMergeAt(xy.value, z);
      forall k | k in keys
        ensures LeftAt(x, y, z, k) == ValueAt(xy.value, z, k)
      {
        assert k in x.items.Keys + y.items.Keys ==> ValueAt(x, y, k) == Some(xy.value.items[k]);
      }
    } else {
      var k :| k in x.items.Keys + y.items.Keys && ValueAt(x, y, k).None?;
      assert LeftAt(x, y, z, k).None?;
    }
  }

  lemma RightAssembled(x: Value, y: Value, z: Value)
    requires Structured(x) && Structured(y) && Structured(z) && x.Dict? && y.Dict? && z.Dict?
    ensures Assembled(MergeRight(x, y, z), x.items.Keys + y.items.Keys + z.items.Keys,
                      k requires k in x.items.Keys + y.items.Keys + z.items.Keys => RightAt(x, y, z, k))
  {
    var keys := x.items.Keys + y.items.Keys + z.items.Keys;
    var yz := Merge(y, z);
    StructuredMergeAt(y, z);
    if yz.Some? {
      StructuredMerge(y, z);
      StructuredMergeAt(x, yz.value);
      forall k | k in keys
        ensures RightAt(x, y, z, k) == ValueAt(x, yz.value, k)
      {
        assert k in y.items.Keys + z.items.Keys ==> ValueAt(y, z, k) == Some(yz.value.items[k]);
      }
    } else {
      var k :| k in y.items.Keys + z.items.Keys && ValueAt(y, z, k).None?;
      assert RightAt(x, y, z, k).None?;
    }
  }

  /** The step from the keys all three have to the whole dicts. */
  lemma MergeDictsAssociative(x: Value, y: Value, z: Value)
    requires Structured(x) && Structured(y) && Structured(z) && x.Dict? && y.Dict? && z.Dict?
    requires forall k | k in x.items && k in y.items && k in z.items ::
      MergeLeft(x.items[k], y.items[k], z.items[k]) == MergeRight(x.items[k], y.items[k], z.items[k])
    ensures MergeLeft(x, y, z) == MergeRight(x, y, z)
  {
    var keys := x.items.Keys + y.items.Keys + z.items.Keys;
    LeftAssembled(x, y, z);
    RightAssembled(x, y, z);
    forall k | k in keys
      ensures LeftAt(x, y, z, k) == RightAt(x, y, z, k)
    {}
    var left, right := MergeLeft(x, y, z), MergeRight(x, y, z);
    if left.Some? && right.Some? {
      assert left.value.items == right.value.items;
    }
  }

  // ----- The code: loops over live dicts, with a record of whose objects are written to

  /** One entry of merge_dict, on the copy d. None is the exception. */
  method MergeEntry(x: Value, v: Value) returns (r: Option<Value>, written: set<Owner>)
    ensures r == MergeValue(x, v)
    ensures (x.List? ==> x.owner == Fresh) ==> written <= {Fresh}
    decreases v, 1
  {
    written := {};
    if x.Dict? && v.Dict? {
      r, written := MergeDict(x, v);
    } else if x.List? && v.List? {
      var elems := x.elems;
      for i := 0 to |v.elems|
        invariant AppendNew(elems, v.elems[i..]) == AppendNew(x.elems, v.elems)
        invariant written <= {x.owner}
      {
        if v.elems[i] !in elems {
          elems := elems + [v.elems[i]];
          written := {x.owner};
        }
      }
      r := Some(List(x.owner, elems));
    } else if v.Scalar? && v.atom.Str? && x.List? {
      if v.atom in x.elems {
        r := Some(x);
      } else {
        r, written := Some(List(x.owner, x.elems + [v.atom])), {x.owner};
      }
    } else if v.List? && x.Scalar? && x.atom.Str? {
      r := Some(if x.atom in v.elems then v else List(Fresh, [x.atom] + v.elems));
    } else if v.Scalar? && !v.atom.Null? {
      r := Some(v);
    } else {
      r := None;
    }
  }

  /** merge_dict: fill a deep copy of a, entry by entry, in whatever order b yields its keys. */
  method MergeDict(a: Value, b: Value) returns (r: Option<Value>, written: set<Owner>)
    requires a.Dict? && b.Dict?
    ensures r == Merge(a, b)
    ensures written <= {Fresh}
    decreases b, 0
  {
    var d := DeepCopy(a).items;
    written := {};
    var todo := b.items.Keys;
    while todo != {}
      invariant todo <= b.items.Keys && written <= {Fresh}
      invariant d.Keys == a.items.Keys + (b.items.Keys - todo)
      invariant forall k | k in b.items.Keys - todo && k in a.items ::
                  MergeValue(DeepCopy(a.items[k]), b.items[k]).Some?
      invariant forall k | k in d :: d[k] == if k in todo then DeepCopy(a.items[k]) else MergeAt(a, b, k)
    {
      var k :| k in todo;
      var v := b.items[k];
      todo := todo - {k};
      written := written + {Fresh};
      if k !in d {
        d := d[k := v];
      } else {
        var m, w := MergeEntry(d[k], v);
        written := written + w;
        if m.None? {
          return None, written;
        }
        d := d[k := m.value];
      }
    }
    r := Some(Dict(Fresh, d));
    assert Merge(a, b).Some?;
    assert d == Merge(a, b).value.items;
  }

  /** Equality of contents: whose object it is does not matter. */
  ghost predicate Equal(x: Value, y: Value) {
    match (x, y)
    case (Scalar(a), Scalar(b)) => a == b
    case (List(_, a), List(_, b)) => a == b
    case (SetOf(a), SetOf(b)) => a == b
    case (Dict(_, a), Dict(_, b)) => a.Keys == b.Keys && forall k | k in a :: Equal(a[k], b[k])
    case _ => false
  }

  /** format_to_set */
  function FormatToSet(v: Value): Value {
    if v.List? then SetOf(Members(v.elems))
    else if v.Scalar? && v.atom.Str? then SetOf({v.atom})
    else v
  }

  /** The dicts compare may write to are nobody else's. */
  ghost predicate OwnSpine(a: Value, b: Value) {
    a.Dict? && b.Dict? ==>
      && a.owner == Fresh
      && (a.items.Keys == b.items.Keys ==> forall k | k in a.items :: OwnSpine(a.items[k], b.items[k]))
  }

  /** One entry of compare_dicts_using_sets; `after` is what it leaves in a. */
  method CompareEntry(x: Value, v: Value, owner: Owner) returns (same: bool, after: Value, written: set<Owner>)
    requires Json(x) && Json(v)
    ensures same <==> SameSets(x, v)
    ensures !same ==> !Equal(v, after)
    ensures owner == Fresh && OwnSpine(x, v) ==> written <= {Fresh}
    decreases v, 1
  {
    var w := v;
    after, written := x, {};
    if w.List? {
      w := FormatToSet(w);
      if after.Scalar? && after.atom.Str? {
        after, written := FormatToSet(after), {owner};
      }
    }
    if after.List? {
      after, written := FormatToSet(after), {owner};
      if w.Scalar? && w.atom.Str? {
        w := FormatToSet(w);
      }
    }
    if after.Dict? && w.Dict? {
      same, after, written := CompareDicts(after, w);
      return;
    }
    same := after == w;
  }

  /** compare_dicts_using_sets: a is overwritten as it goes, up to the first difference. */
  method CompareDicts(a: Value, b: Value) returns (same: bool, after: Value, written: set<Owner>)
    requires a.Dict? && b.Dict? && Json(a) && Json(b)
    ensures same <==> SameSets(a, b)
    ensures after.Dict? && (!same ==> !Equal(b, after))
    ensures OwnSpine(a, b) ==> written <= {Fresh}
    decreases b, 0
  {
    after, written := a, {};
    if a.items.Keys != b.items.Keys {
      return false, after, written;
    }
    var todo := b.items.Keys;
    while todo != {}
      invariant todo <= b.items.Keys
      invariant after.Dict? && after.items.Keys == a.items.Keys
      invariant forall k | k in todo :: after.items[k] == a.items[k]
      invariant forall k | k in b.items.Keys - todo :: SameSets(a.items[k], b.items[k])
      invariant OwnSpine(a, b) ==> written <= {Fresh}
    {
      var k :| k in todo;
      todo := todo - {k};
      var eq, x, w := CompareEntry(a.items[k], b.items[k], a.owner);
      after, written := after.(items := after.items[k := x]), written + w;
      if !eq {
        assert !Equal(b.items[k], after.items[k]);
        return false, after, written;
      }
    }
    same := true;
  }

  lemma {:induction false} CopyOwnsSpine(v: Value, w: Value)
    ensures OwnSpine(DeepCopy(v), w)
    decreases w
  {
    if v.Dict? && w.Dict? {
      forall k | k in v.items && k in w.items
        ensures OwnSpine(DeepCopy(v.items[k]), w.items[k])
      {
        CopyOwnsSpine(v.items[k], w.items[k]);
      }
    }
  }

  /** What merge_dict builds shares objects with its inputs only where compare will not write. */
  lemma {:induction false} MergeOwnsSpine(a: Value, p: Value, w: Value)
    requires a.Dict? && p.Dict? && w.Dict? && a.items.Keys == w.items.Keys
    requires SameShape(a, w)
    requires Merge(a, p).Some?
    ensures OwnSpine(Merge(a, p).value, w)
    decreases p
  {
    var d := Merge(a, p).value;
    if d.items.Keys == w.items.Keys {
      forall k | k in d.items
        ensures OwnSpine(d.items[k], w.items[k])
      {
        CopyOwnsSpine(a.items[k], w.items[k]);
        if k in p.items && a.items[k].Dict? && p.items[k].Dict? {
          CopyShape(a.items[k], w.items[k]);
          MergeOwnsSpine(DeepCopy(a.items[k]), p.items[k], w.items[k]);
        }
      }
    }
  }

  /** The same document, whoever owns its parts. */
  ghost predicate SameShape(a: Value, w: Value) {
    (a.Dict? <==> w.Dict?) &&
    (a.Dict? ==> a.items.Keys == w.items.Keys && forall k | k in a.items :: SameShape(a.items[k], w.items[k]))
  }

  lemma {:induction false} CopyShape(a: Value, w: Value)
    requires SameShape(a, w)
    ensures SameShape(DeepCopy(a), w)
    decreases a
  {
    if a.Dict? {
      forall k | k in a.items
        ensures SameShape(DeepCopy(a.items[k]), w.items[k])
      {
        CopyShape(a.items[k], w.items[k]);
      }
    }
  }

  lemma {:induction false} ShapeOfSelf(a: Value)
    ensures SameShape(a, a)
  {
    if a.Dict? {
      forall k | k in a.items
        ensures SameShape(a.items[k], a.items[k])
      {
        ShapeOfSelf(a.items[k]);
      }
    }
  }

  lemma {:induction false} MergeIsJson(a: Value, p: Value)
    requires a.Dict? && p.Dict? && Json(a) && Json(p) && Merge(a, p).Some?
    ensures Json(Merge(a, p).value)
    decreases p
  {
    var d := Merge(a, p).value;
    forall k | k in d.items
      ensures Json(d.items[k])
    {
      if k in a.items {
        CopyIsJson(a.items[k]);
        if k in p.items && a.items[k].Dict? && p.items[k].Dict? {
          MergeIsJson(DeepCopy(a.items[k]), p.items[k]);
        }
      }
    }
  }

  /** The dict branch of __match_partial_statement: merge the required element into the
      resource's, and compare. The answer is inclusion, and no object of either input is
      written to, although the comparison writes to its first argument. None is an exception:
      a resource's element that is no dict (a string or list is a set by now) has no keys. */
  method MatchPartial(required: Value, resource: Value) returns (matched: Option<bool>, written: set<Owner>)
    requires required.Dict? && Json(required) && Json(resource)
    ensures matched.Some? ==> (matched.value <==> Included(required, resource))
    ensures matched.None? <==> !resource.Dict? || Merge(resource, required).None?
    ensures Input !in written
  {
    if !resource.Dict? {
      return None, {};
    }
    var merged, w := MergeDict(resource, required);
    if merged.None? {
      return None, w;
    }
    MergeDecides(resource, required);
    MergeIsJson(resource, required);
    ShapeOfSelf(resource);
    MergeOwnsSpine(resource, required, resource);
    var same, after, w2 := CompareDicts(merged.value, resource);
    return Some(same), w + w2;
  }
}
