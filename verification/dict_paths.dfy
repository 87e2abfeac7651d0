/** What merge_dict puts where (c7n/utils.py: merge_dict), path by path through the documents
    and without the functions that compute the merge. */
module DictPaths {
  import opened DictMerge
  import opened Sequences
  import opened Wrappers

  type Path = seq<string>

  /** The value at a path of keys. */
  function At(v: Value, p: Path): Option<Value> {
    if p == [] then Some(v)
    else if v.Dict? && p[0] in v.items then At(v.items[p[0]], p[1..])
    else None
  }

  /** The same contents, or nothing. */
  ghost predicate SameAt(x: Option<Value>, y: Option<Value>) {
    (x.Some? <==> y.Some?) && (x.Some? ==> Equal(x.value, y.value))
  }

  // ----- Two values under one key

  predicate IsString(v: Value) {
    v.Scalar? && v.atom.Str?
  }

  /** The values a merge can put together: two dicts, lists and strings with one another, and
      anything but null over anything, if it is no list or dict. */
  predicate Conformable(x: Value, y: Value) {
    || (x.Dict? && y.Dict?)
    || (x.List? && y.List?)
    || (IsString(x) && y.List?)
    || (y.Scalar? && !y.atom.Null?)
  }

  function NotIn(xs: seq<Atom>): Atom -> bool {
    e => e !in xs
  }

  /** ys with only the first of equal elements. */
  function Firsts(ys: seq<Atom>): seq<Atom> {
    if ys == [] then []
    else
      var front, last := Firsts(ys[..|ys| - 1]), ys[|ys| - 1];
      if last in front then front else front + [last]
  }

  /** What a merge shows for two values that are not both dicts: a list keeps its members and is
      followed by the new ones of a list or string, a string comes before a list that lacks it,
      and any other scalar takes the place of what was there. */
  ghost predicate Shows(x: Value, y: Value, m: Value) {
    if x.List? && y.List? then m.List? && m.elems == x.elems + Firsts(Select(y.elems, NotIn(x.elems)))
    else if x.List? && IsString(y) then m.List? && m.elems == if y.atom in x.elems then x.elems else x.elems + [y.atom]
    else if IsString(x) && y.List? then m.List? && m.elems == if x.atom in y.elems then y.elems else [x.atom] + y.elems
    else m == y && y.Scalar?
  }

  lemma {:induction false} FirstsHas(ys: seq<Atom>, e: Atom)
    ensures e in Firsts(ys) <==> e in ys
  {
    if ys != [] {
      FirstsHas(ys[..|ys| - 1], e);
      assert ys == ys[..|ys| - 1] + [ys[|ys| - 1]];
    }
  }

  /** One more element of the second list. */
  lemma NewSnoc(xs: seq<Atom>, ys: seq<Atom>, e: Atom)
    ensures var new_ := Firsts(Select(ys, NotIn(xs)));
            Firsts(Select(ys + [e], NotIn(xs))) == if e in xs || e in new_ then new_ else new_ + [e]
  {
    var kept := Select(ys, NotIn(xs));
    assert (ys + [e])[..|ys|] == ys;
    if e in xs {
      assert Select(ys + [e], NotIn(xs)) == kept;
    } else {
      assert Select(ys + [e], NotIn(xs)) == kept + [e];
      assert (kept + [e])[..|kept|] == kept;
    }
  }

  lemma AppendSnoc(xs: seq<Atom>, ys: seq<Atom>, e: Atom, new_: seq<Atom>)
    requires AppendNew(xs, ys) == xs + new_
    ensures AppendNew(xs, ys + [e]) == xs + if e in xs || e in new_ then new_ else new_ + [e]
  {
    AppendNewTwice(xs, ys, e);
    assert (xs + new_) + [e] == xs + (new_ + [e]);
  }

  lemma {:induction false} AppendNewIs(xs: seq<Atom>, ys: seq<Atom>)
    ensures AppendNew(xs, ys) == xs + Firsts(Select(ys, NotIn(xs)))
    decreases |ys|
  {
    if ys == [] {
      assert xs + [] == xs;
    } else {
      var front, last := ys[..|ys| - 1], ys[|ys| - 1];
      assert ys == front + [last];
      AppendNewIs(xs, front);
      AppendSnoc(xs, front, last, Firsts(Select(front, NotIn(xs))));
      NewSnoc(xs, front, last);
    }
  }

  lemma MergeShows(x: Value, y: Value)
    requires Json(y) && !(x.Dict? && y.Dict?)
    ensures MergeValue(x, y).Some? <==> Conformable(x, y)
    ensures MergeValue(x, y).Some? ==> Shows(x, y, MergeValue(x, y).value)
  {
    if x.List? && y.List? {
      AppendNewIs(x.elems, y.elems);
    }
  }

  // ----- Paths

  lemma {:induction false} EqualSelf(v: Value)
    ensures Equal(v, v)
  {
    if v.Dict? {
      forall k | k in v.items
        ensures Equal(v.items[k], v.items[k])
      {
        EqualSelf(v.items[k]);
      }
    }
  }

  /** A deep copy has the same contents. */
  lemma {:induction false} EqualCopy(v: Value)
    ensures Equal(DeepCopy(v), v)
  {
    if v.Dict? {
      forall k | k in v.items
        ensures Equal(DeepCopy(v).items[k], v.items[k])
      {
        EqualCopy(v.items[k]);
      }
    }
  }

  lemma {:induction false} EqualTwice(x: Value, y: Value, z: Value)
    requires Equal(x, y) && Equal(y, z)
    ensures Equal(x, z)
  {
    if x.Dict? {
      forall k | k in x.items
        ensures Equal(x.items[k], z.items[k])
      {
        EqualTwice(x.items[k], y.items[k], z.items[k]);
      }
    }
  }

  lemma {:induction false} EqualAtPath(x: Value, y: Value, p: Path)
    requires Equal(x, y)
    ensures SameAt(At(x, p), At(y, p))
    decreases |p|
  {
    if p != [] && x.Dict? && p[0] in x.items {
      EqualAtPath(x.items[p[0]], y.items[p[0]], p[1..]);
    }
  }

  /** b has a scalar or list somewhere above the end of the path. */
  ghost predicate CutShort(b: Value, p: Path) {
    exists i | 0 <= i < |p| :: At(b, p[..i]).Some? && !At(b, p[..i]).value.Dict?
  }

  /** What is at a path of a merge, given what is there in the two documents. */
  ghost predicate PathLaw(a: Value, b: Value, p: Path, m: Option<Value>) {
    var x, y := At(a, p), At(b, p);
    if x.None? then SameAt(m, y)
    else if y.None? then (if CutShort(b, p) then m.None? else SameAt(m, x))
    else if x.value.Dict? && y.value.Dict? then m.Some? && m.value.Dict?
    else m.Some? && Shows(x.value, y.value, m.value)
  }

  lemma AtStep(v: Value, p: Path)
    requires p != [] && v.Dict?
    ensures At(v, p) == if p[0] in v.items then At(v.items[p[0]], p[1..]) else None
  {}

  lemma CutShortStep(b: Value, p: Path)
    requires p != [] && b.Dict?
    ensures CutShort(b, p) <==> p[0] in b.items && CutShort(b.items[p[0]], p[1..])
  {
    if CutShort(b, p) {
      var i :| 0 <= i < |p| && At(b, p[..i]).Some? && !At(b, p[..i]).value.Dict?;
      assert i > 0 && p[..i][1..] == p[1..][..i - 1];
      assert At(b.items[p[0]], p[1..][..i - 1]) == At(b, p[..i]);
    }
    if p[0] in b.items && CutShort(b.items[p[0]], p[1..]) {
      var c := b.items[p[0]];
      var i :| 0 <= i < |p| - 1 && At(c, p[1..][..i]).Some? && !At(c, p[1..][..i]).value.Dict?;
      assert p[..i + 1][1..] == p[1..][..i] && p[..i + 1][0] == p[0];
      assert At(b, p[..i + 1]) == At(c, p[1..][..i]);
    }
  }

  lemma CutShortHere(b: Value, p: Path)
    requires !b.Dict? && p != []
    ensures CutShort(b, p)
  {
    assert At(b, p[..0]) == Some(b);
  }

  /** The law for one key both have, whose values are not both dicts. */
  lemma LeafLaw(x: Value, y: Value, p: Path)
    requires Json(x) && Json(y) && !(x.Dict? && y.Dict?) && MergeValue(DeepCopy(x), y).Some?
    ensures PathLaw(x, y, p, At(MergeValue(DeepCopy(x), y).value, p))
  {
    var m := MergeValue(DeepCopy(x), y).value;
    MergeShows(DeepCopy(x), y);
    if p != [] {
      if x.Dict? {
        CutShortHere(y, p);
      }
    }
  }

  /** The law does not notice who owns the first document. */
  lemma LawOfCopy(x: Value, y: Value, p: Path, m: Option<Value>)
    requires PathLaw(DeepCopy(x), y, p, m)
    ensures PathLaw(x, y, p, m)
  {
    EqualCopy(x);
    EqualAtPath(DeepCopy(x), x, p);
    if At(x, p).Some? && m.Some? && Equal(m.value, At(DeepCopy(x), p).value) {
      EqualTwice(m.value, At(DeepCopy(x), p).value, At(x, p).value);
    }
  }

  /** Where a path leads in a successful merge, for every path: what only one document has is
      there as it was, what both have is there as Shows says, and nothing else is. */
  lemma {:induction false} MergePath(a: Value, b: Value, p: Path)
    requires a.Dict? && b.Dict? && Json(a) && Json(b) && Merge(a, b).Some?
    ensures PathLaw(a, b, p, At(Merge(a, b).value, p))
    decreases |p|
  {
    if p != [] {
      var k, rest, m := p[0], p[1..], Merge(a, b).value;
      AtStep(a, p);
      AtStep(b, p);
      AtStep(m, p);
      CutShortStep(b, p);
      if k in a.items && k in b.items {
        var x, y := a.items[k], b.items[k];
        if x.Dict? && y.Dict? {
          CopyIsJson(x);
          MergePath(DeepCopy(x), y, rest);
          LawOfCopy(x, y, rest, At(Merge(DeepCopy(x), y).value, rest));
        } else {
          LeafLaw(x, y, rest);
        }
      } else if k in a.items {
        EqualCopy(a.items[k]);
        EqualAtPath(DeepCopy(a.items[k]), a.items[k], rest);
      } else if k in b.items {
        EqualSelf(b.items[k]);
        EqualAtPath(b.items[k], b.items[k], rest);
      }
    }
  }

  // ----- When it does not raise

  ghost predicate ConformableAt(a: Value, b: Value, p: Path) {
    At(a, p).Some? && At(b, p).Some? ==> Conformable(At(a, p).value, At(b, p).value)
  }

  lemma {:induction false} MergedConforms(a: Value, b: Value, p: Path)
    requires a.Dict? && b.Dict? && Json(a) && Json(b) && Merge(a, b).Some?
    ensures ConformableAt(a, b, p)
    decreases |p|
  {
    if p != [] && p[0] in a.items && p[0] in b.items {
      var x, y := a.items[p[0]], b.items[p[0]];
      if x.Dict? && y.Dict? {
        CopyIsJson(x);
        MergedConforms(DeepCopy(x), y, p[1..]);
        EqualCopy(x);
        EqualAtPath(DeepCopy(x), x, p[1..]);
      } else {
        MergeShows(DeepCopy(x), y);
      }
    }
  }

  /** A merge that raises comes to a path where the two values do not fit. */
  lemma {:induction false} RefusedAt(a: Value, b: Value) returns (p: Path)
    requires a.Dict? && b.Dict? && Json(a) && Json(b) && Merge(a, b).None?
    ensures !ConformableAt(a, b, p)
    decreases b
  {
    var k :| k in b.items && k in a.items && MergeValue(DeepCopy(a.items[k]), b.items[k]).None?;
    var x, y := a.items[k], b.items[k];
    if x.Dict? && y.Dict? {
      CopyIsJson(x);
      var rest := RefusedAt(DeepCopy(x), y);
      p := [k] + rest;
      assert p[1..] == rest;
      EqualCopy(x);
      EqualAtPath(DeepCopy(x), x, rest);
    } else {
      MergeShows(DeepCopy(x), y);
      p := [k];
      assert p[1..] == [] && At(x, []) == Some(x) && At(y, []) == Some(y);
    }
    AtStep(a, p);
    AtStep(b, p);
  }

  /** A merge is possible exactly when the two documents fit wherever a path leads in both. */
  lemma MergesExactlyWhen(a: Value, b: Value)
    requires a.Dict? && b.Dict? && Json(a) && Json(b)
    ensures Merge(a, b).Some? <==> forall p :: ConformableAt(a, b, p)
  {
    if Merge(a, b).Some? {
      forall p
        ensures ConformableAt(a, b, p)
      {
        MergedConforms(a, b, p);
      }
    } else {
      var p := RefusedAt(a, b);
    }
  }

  /** The empty dict is an identity on both sides. */
  lemma EmptyIsIdentity(v: Value, owner: Owner)
    requires v.Dict?
    ensures Merge(v, Dict(owner, map[])).Some? && Equal(Merge(v, Dict(owner, map[])).value, v)
    ensures Merge(Dict(owner, map[]), v).Some? && Equal(Merge(Dict(owner, map[]), v).value, v)
  {
    forall k | k in v.items
      ensures Equal(DeepCopy(v.items[k]), v.items[k]) && Equal(v.items[k], v.items[k])
    {
      EqualCopy(v.items[k]);
      EqualSelf(v.items[k]);
    }
  }
}
