/** What a tree of And/Or/Not blocks over value filters means for one resource
    (c7n/filters/core.py). The bulk, in-place evaluation is in FilterEngine. */
module FilterSpec {

  const ANNOTATION_KEY := "c7n:MatchedFilters"

  /** A resource attribute as a value: a list (with its items) or anything else. */
  datatype Plain = Text(text: string) | List(items: seq<string>)

  type View = map<string, Plain>

  /** A leaf stands for a value filter: `match` is its test on one resource and
      `key` is what it records on a match. */
  datatype Filter =
    | Leaf(key: string, annotate: bool, match_: View -> bool)
    | And(filters: seq<Filter>)
    | Or(filters: seq<Filter>)
    | Not(filters: seq<Filter>)

  predicate IsAnnotation(k: string) { "c7n" <= k }

  /** set_annotation with the matched-filters key. */
  function Annotate(v: View, key: string): View {
    if ANNOTATION_KEY !in v then v[ANNOTATION_KEY := List([key])]
    else match v[ANNOTATION_KEY]
      case List(items) => v[ANNOTATION_KEY := List(items + [key])]
      case Text(_) => v
  }

  /** AnnotationSweeper.sweep on one resource that the block did not keep. */
  function Restore(v: View, saved: View): View {
    (map k | k in v && !IsAnnotation(k) :: v[k]) + (map k | k in saved && IsAnnotation(k) :: saved[k])
  }

  datatype Outcome = Outcome(matched: bool, view: View)

  /** One resource through one filter. */
  function Eval(f: Filter, v: View): Outcome
    decreases f, 1
  {
    match f
    case Leaf(key, annotate, m) =>
      if m(v) then Outcome(true, if annotate then Annotate(v, key) else v) else Outcome(false, v)
    case And(fs) =>
      var o := EvalAll(fs, v);
      if o.matched then o else Outcome(false, Restore(o.view, v))
    case Or(fs) => EvalAny(fs, v)
    case Not(fs) =>
      var o := EvalAll(fs, v);
      Outcome(!o.matched, Restore(o.view, v))
  }

  /** The implicit `and` of a list of filters: a rejected resource is not shown to the rest. */
  function EvalAll(fs: seq<Filter>, v: View): Outcome
    decreases fs, 0
  {
    if fs == [] then Outcome(true, v)
    else
      var o := Eval(fs[0], v);
      if o.matched then EvalAll(fs[1..], o.view) else o
  }

  /** Every branch of an `or` sees the resource, whatever the earlier ones said. */
  function EvalAny(fs: seq<Filter>, v: View): Outcome
    decreases fs, 0
  {
    if fs == [] then Outcome(false, v)
    else
      var o := Eval(fs[0], v);
      var rest := EvalAny(fs[1..], o.view);
      Outcome(o.matched || rest.matched, rest.view)
  }

  // ----- What evaluation does to a resource: annotations of rejected resources survive

  ghost predicate SamePlainFields(v: View, w: View) {
    forall k | !("c7n" <= k) :: (k in v <==> k in w) && (k in v ==> v[k] == w[k])
  }

  lemma RestoreIsIdentity(v: View, saved: View)
    requires SamePlainFields(v, saved)
    ensures Restore(v, saved) == saved
  {
    var r := Restore(v, saved);
    assert forall k :: k in r <==> k in saved;
    assert forall k :: k in r ==> r[k] == saved[k];
  }

  /** No key outside the c7n namespace is ever written, a rejected resource is left
      exactly as it was, and a `not` block leaves every resource as it was. */
  lemma {:induction false} EvalKeeps(f: Filter, v: View)
    ensures SamePlainFields(Eval(f, v).view, v)
    ensures !Eval(f, v).matched || f.Not? ==> Eval(f, v).view == v
    decreases f, 1
  {
    match f
    case Leaf(key, annotate, m) =>
    case And(fs) =>
      EvalAllKeeps(fs, v);
      RestoreIsIdentity(EvalAll(fs, v).view, v);
    case Or(fs) => EvalAnyKeeps(fs, v);
    case Not(fs) =>
      EvalAllKeeps(fs, v);
      RestoreIsIdentity(EvalAll(fs, v).view, v);
  }

  lemma {:induction false} EvalAllKeeps(fs: seq<Filter>, v: View)
    ensures SamePlainFields(EvalAll(fs, v).view, v)
    decreases fs, 0
  {
    if fs != [] {
      EvalKeeps(fs[0], v);
      var o := Eval(fs[0], v);
      if o.matched {
        EvalAllKeeps(fs[1..], o.view);
      }
    }
  }

  lemma {:induction false} EvalAnyKeeps(fs: seq<Filter>, v: View)
    ensures SamePlainFields(EvalAny(fs, v).view, v)
    ensures !EvalAny(fs, v).matched ==> EvalAny(fs, v).view == v
    decreases fs, 0
  {
    if fs != [] {
      EvalKeeps(fs[0], v);
      EvalAnyKeeps(fs[1..], Eval(fs[0], v).view);
    }
  }

  // ----- What evaluation means: the boolean formula, and the keys it records

  /** The propositional reading of a filter tree. */
  ghost predicate Sat(f: Filter, v: View)
    decreases f
  {
    match f
    case Leaf(_, _, m) => m(v)
    case And(fs) => forall i | 0 <= i < |fs| :: Sat(fs[i], v)
    case Or(fs) => exists i | 0 <= i < |fs| :: Sat(fs[i], v)
    case Not(fs) => exists i | 0 <= i < |fs| :: !Sat(fs[i], v)
  }

  /** No leaf of the tree looks at annotations. */
  ghost predicate Pointwise(f: Filter)
    decreases f
  {
    match f
    case Leaf(_, _, m) => forall v, w | SamePlainFields(v, w) :: m(v) == m(w)
    case And(fs) => forall i | 0 <= i < |fs| :: Pointwise(fs[i])
    case Or(fs) => forall i | 0 <= i < |fs| :: Pointwise(fs[i])
    case Not(fs) => forall i | 0 <= i < |fs| :: Pointwise(fs[i])
  }

  /** The keys a resource should end up annotated with: those of the leaves that hold,
      in order, outside every `not` and outside every `and` that fails. */
  ghost function Keys(f: Filter, v: View): seq<string>
    decreases f, 1
  {
    match f
    case Leaf(key, annotate, m) => if m(v) && annotate then [key] else []
    case And(fs) => if Sat(f, v) then KeysOf(fs, v) else []
    case Or(fs) => KeysOf(fs, v)
    case Not(_) => []
  }

  ghost function KeysOf(fs: seq<Filter>, v: View): seq<string>
    decreases fs, 0
  {
    if fs == [] then [] else Keys(fs[0], v) + KeysOf(fs[1..], v)
  }

  ghost function AnnotateAll(v: View, keys: seq<string>): View
    decreases |keys|
  {
    if keys == [] then v else AnnotateAll(Annotate(v, keys[0]), keys[1..])
  }

  lemma {:induction false} AnnotateAllKeeps(v: View, keys: seq<string>)
    ensures SamePlainFields(AnnotateAll(v, keys), v)
    decreases |keys|
  {
    if keys != [] {
      AnnotateAllKeeps(Annotate(v, keys[0]), keys[1..]);
    }
  }

  lemma {:induction false} AnnotateAllAppend(v: View, a: seq<string>, b: seq<string>)
    ensures AnnotateAll(v, a + b) == AnnotateAll(AnnotateAll(v, a), b)
    decreases |a|
  {
    if a == [] {
      assert a + b == b;
    } else {
      assert (a + b)[1..] == a[1..] + b;
      AnnotateAllAppend(Annotate(v, a[0]), a[1..], b);
    }
  }

  /** The keys a resource is marked with already. */
  function MarksOf(v: View): seq<string> {
    if "c7n:MatchedFilters" in v && v["c7n:MatchedFilters"].List? then v["c7n:MatchedFilters"].items else []
  }

  /** w is v with some keys put behind the marks it has, and nothing else changed. A value that
      is no list is left alone. */
  ghost predicate MarkedWith(v: View, keys: seq<string>, w: View) {
    && (forall k | k != "c7n:MatchedFilters" :: (k in w <==> k in v) && (k in v ==> w[k] == v[k]))
    && (if "c7n:MatchedFilters" in v && !v["c7n:MatchedFilters"].List? then
          "c7n:MatchedFilters" in w && w["c7n:MatchedFilters"] == v["c7n:MatchedFilters"]
        else
          && ("c7n:MatchedFilters" in w <==> "c7n:MatchedFilters" in v || keys != [])
          && ("c7n:MatchedFilters" in w ==> w["c7n:MatchedFilters"] == List(MarksOf(v) + keys)))
  }

  /** Annotating with several keys appends them all, in order, to the marks. */
  lemma {:induction false} AnnotateAllMarks(v: View, keys: seq<string>)
    ensures MarkedWith(v, keys, AnnotateAll(v, keys))
    decreases |keys|
  {
    if keys == [] {
      assert MarksOf(v) + keys == MarksOf(v);
    } else {
      var w := Annotate(v, keys[0]);
      AnnotateAllMarks(w, keys[1..]);
      assert MarksOf(v) + keys == (MarksOf(v) + [keys[0]]) + keys[1..];
      assert MarkedWith(v, [keys[0]], w);
    }
  }

  lemma AnnotateMarks(v: View, key: string)
    ensures MarkedWith(v, [key], Annotate(v, key))
  {
    assert [key][1..] == [];
    AnnotateAllMarks(v, [key]);
  }

  lemma {:induction false} SatIgnoresAnnotations(f: Filter, v: View, w: View)
    requires Pointwise(f) && SamePlainFields(v, w)
    ensures Sat(f, v) == Sat(f, w)
    ensures Keys(f, v) == Keys(f, w)
    decreases f, 1
  {
    match f
    case Leaf(_, _, _) =>
    case And(fs) => SatIgnoresAnnotationsAll(fs, v, w);
    case Or(fs) => SatIgnoresAnnotationsAll(fs, v, w);
    case Not(fs) => SatIgnoresAnnotationsAll(fs, v, w);
  }

  lemma {:induction false} SatIgnoresAnnotationsAll(fs: seq<Filter>, v: View, w: View)
    requires forall i | 0 <= i < |fs| :: Pointwise(fs[i])
    requires SamePlainFields(v, w)
    ensures forall i | 0 <= i < |fs| :: Sat(fs[i], v) == Sat(fs[i], w)
    ensures KeysOf(fs, v) == KeysOf(fs, w)
    decreases fs, 0
  {
    if fs != [] {
      SatIgnoresAnnotations(fs[0], v, w);
      SatIgnoresAnnotationsAll(fs[1..], v, w);
      assert forall i | 0 < i < |fs| :: fs[i] == fs[1..][i - 1];
    }
  }

  /** When no leaf reads annotations, a filter keeps exactly the resources that satisfy the
      formula, and what it adds to each is exactly the keys of the leaves that made it hold. */
  lemma {:induction false} EvalIsFormula(f: Filter, v: View)
    requires Pointwise(f)
    ensures Eval(f, v).matched == Sat(f, v)
    ensures Eval(f, v).view == AnnotateAll(v, Keys(f, v))
    ensures MarkedWith(v, Keys(f, v), Eval(f, v).view)
    decreases f, 1
  {
    EvalKeeps(f, v);
    AnnotateAllMarks(v, Keys(f, v));
    match f
    case Leaf(key, _, m) =>
    case And(fs) => EvalAllIsFormula(fs, v);
    case Or(fs) => EvalAnyIsFormula(fs, v);
    case Not(fs) => EvalAllIsFormula(fs, v);
  }

  lemma {:induction false} EvalAllIsFormula(fs: seq<Filter>, v: View)
    requires forall i | 0 <= i < |fs| :: Pointwise(fs[i])
    ensures EvalAll(fs, v).matched == (forall i | 0 <= i < |fs| :: Sat(fs[i], v))
    ensures EvalAll(fs, v).matched ==> EvalAll(fs, v).view == AnnotateAll(v, KeysOf(fs, v))
    decreases fs, 0
  {
    if fs != [] {
      var o := Eval(fs[0], v);
      EvalIsFormula(fs[0], v);
      EvalKeeps(fs[0], v);
      assert forall i | 0 < i < |fs| :: fs[i] == fs[1..][i - 1];
      if o.matched {
        EvalAllIsFormula(fs[1..], o.view);
        SatIgnoresAnnotationsAll(fs[1..], v, o.view);
        AnnotateAllAppend(v, Keys(fs[0], v), KeysOf(fs[1..], v));
        assert forall i | 0 <= i < |fs[1..]| :: Sat(fs[1..][i], v) == Sat(fs[i + 1], v);
      }
    }
  }

  lemma {:induction false} EvalAnyIsFormula(fs: seq<Filter>, v: View)
    requires forall i | 0 <= i < |fs| :: Pointwise(fs[i])
    ensures EvalAny(fs, v).matched == (exists i | 0 <= i < |fs| :: Sat(fs[i], v))
    ensures EvalAny(fs, v).view == AnnotateAll(v, KeysOf(fs, v))
    decreases fs, 0
  {
    if fs != [] {
      var o := Eval(fs[0], v);
      EvalIsFormula(fs[0], v);
      EvalKeeps(fs[0], v);
      assert forall i | 0 < i < |fs| :: fs[i] == fs[1..][i - 1];
      EvalAnyIsFormula(fs[1..], o.view);
      SatIgnoresAnnotationsAll(fs[1..], v, o.view);
      AnnotateAllAppend(v, Keys(fs[0], v), KeysOf(fs[1..], v));
      assert forall i | 0 <= i < |fs[1..]| :: Sat(fs[1..][i], v) == Sat(fs[i + 1], v);
    }
  }

  // ----- Evaluating a list of filters one at a time, as the blocks do

  lemma {:induction false} EvalAllSnoc(fs: seq<Filter>, i: nat, v: View)
    requires i < |fs|
    ensures EvalAll(fs[..i + 1], v) ==
            (var o := EvalAll(fs[..i], v); if o.matched then Eval(fs[i], o.view) else o)
    decreases fs
  {
    assert fs[..i + 1] != [];
    if i == 0 {
      assert fs[..1] == [fs[0]];
      assert [fs[0]][1..] == [];
    } else {
      assert fs[..i + 1][1..] == fs[1..][..i];
      assert fs[..i][1..] == fs[1..][..i - 1];
      EvalAllSnoc(fs[1..], i - 1, Eval(fs[0], v).view);
    }
  }

  lemma {:induction false} EvalAnySnoc(fs: seq<Filter>, i: nat, v: View)
    requires i < |fs|
    ensures EvalAny(fs[..i + 1], v) ==
            (var o := EvalAny(fs[..i], v);
             var p := Eval(fs[i], o.view);
             Outcome(o.matched || p.matched, p.view))
    decreases fs
  {
    if i == 0 {
      assert fs[..1] == [fs[0]];
      assert [fs[0]][1..] == [];
    } else {
      assert fs[..i + 1][1..] == fs[1..][..i];
      assert fs[..i][1..] == fs[1..][..i - 1];
      EvalAnySnoc(fs[1..], i - 1, Eval(fs[0], v).view);
    }
  }

  /** Once nothing is left of a resource's chances, the remaining filters do not matter. */
  lemma {:induction false} EvalAllStopped(fs: seq<Filter>, i: nat, v: View)
    requires i <= |fs| && !EvalAll(fs[..i], v).matched
    ensures EvalAll(fs, v) == EvalAll(fs[..i], v)
    decreases fs
  {
    if i > 0 {
      assert fs[..i][1..] == fs[1..][..i - 1];
      if Eval(fs[0], v).matched {
        EvalAllStopped(fs[1..], i - 1, Eval(fs[0], v).view);
      }
    }
  }
}
