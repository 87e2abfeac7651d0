/** Selecting from lists and sorting them. */
module Sequences {

  // ----- Selecting

  function Select<T>(xs: seq<T>, p: T -> bool): seq<T> {
    if xs == [] then []
    else Select(xs[..|xs| - 1], p) + (if p(xs[|xs| - 1]) then [xs[|xs| - 1]] else [])
  }

  function Not<T>(p: T -> bool): T -> bool {
    x => !p(x)
  }

  lemma {:induction false} SelectHas<T>(xs: seq<T>, p: T -> bool, x: T)
    ensures x in Select(xs, p) <==> x in xs && p(x)
  {
    if xs != [] {
      SelectHas(xs[..|xs| - 1], p, x);
      assert xs == xs[..|xs| - 1] + [xs[|xs| - 1]];
    }
  }

  lemma {:induction false} SelectCount<T>(xs: seq<T>, p: T -> bool, x: T)
    ensures multiset(Select(xs, p))[x] == if p(x) then multiset(xs)[x] else 0
  {
    if xs != [] {
      SelectCount(xs[..|xs| - 1], p, x);
      assert xs == xs[..|xs| - 1] + [xs[|xs| - 1]];
    }
  }

  lemma {:induction false} SelectPartitions<T>(xs: seq<T>, p: T -> bool)
    ensures multiset(Select(xs, Not(p))) + multiset(Select(xs, p)) == multiset(xs)
  {
    if xs != [] {
      var front, last := xs[..|xs| - 1], xs[|xs| - 1];
      SelectPartitions(front, p);
      assert xs == front + [last];
      assert multiset(xs) == multiset(front) + multiset{last};
      if p(last) {
        assert Select(xs, p) == Select(front, p) + [last] && Select(xs, Not(p)) == Select(front, Not(p));
      } else {
        assert Select(xs, p) == Select(front, p) && Select(xs, Not(p)) == Select(front, Not(p)) + [last];
      }
    }
  }

  lemma {:induction false} SelectAppend<T>(xs: seq<T>, ys: seq<T>, p: T -> bool)
    ensures Select(xs + ys, p) == Select(xs, p) + Select(ys, p)
  {
    if ys == [] {
      assert xs + ys == xs;
    } else {
      SelectAppend(xs, ys[..|ys| - 1], p);
      assert (xs + ys)[..|xs + ys| - 1] == xs + ys[..|ys| - 1];
    }
  }

  lemma {:induction false} SelectUniform<T>(xs: seq<T>, p: T -> bool)
    ensures (forall x | x in xs :: p(x)) ==> Select(xs, p) == xs
    ensures (forall x | x in xs :: !p(x)) ==> Select(xs, p) == []
  {
    if xs != [] {
      SelectUniform(xs[..|xs| - 1], p);
      assert xs == xs[..|xs| - 1] + [xs[|xs| - 1]];
    }
  }

  lemma {:induction false} SelectSame<T>(xs: seq<T>, p: T -> bool, q: T -> bool)
    requires forall x | x in xs :: p(x) == q(x)
    ensures Select(xs, p) == Select(xs, q)
  {
    if xs != [] {
      assert xs[|xs| - 1] in xs;
      SelectSame(xs[..|xs| - 1], p, q);
    }
  }

  lemma {:induction false} SelectTwice<T>(xs: seq<T>, p: T -> bool, q: T -> bool)
    requires forall x | x in xs :: q(x) ==> p(x)
    ensures Select(Select(xs, p), q) == Select(xs, q)
  {
    if xs != [] {
      var front, last := xs[..|xs| - 1], xs[|xs| - 1];
      assert last in xs;
      SelectTwice(front, p, q);
      var kept := Select(front, p);
      if p(last) {
        assert Select(xs, p) == kept + [last] && (kept + [last])[..|kept|] == kept;
      } else {
        assert Select(xs, p) == kept;
      }
    }
  }

  /** xs is what is left of ys when some elements are taken out. */
  ghost predicate Subsequence<T>(xs: seq<T>, ys: seq<T>) {
    if xs == [] then true
    else if ys == [] then false
    else
      (xs[|xs| - 1] == ys[|ys| - 1] && Subsequence(xs[..|xs| - 1], ys[..|ys| - 1])) ||
      Subsequence(xs, ys[..|ys| - 1])
  }

  lemma {:induction false} SelectLess<T>(xs: seq<T>, p: T -> bool, q: T -> bool)
    requires forall x | x in xs :: p(x) ==> q(x)
    ensures Subsequence(Select(xs, p), Select(xs, q))
  {
    if xs != [] {
      var front, last := xs[..|xs| - 1], xs[|xs| - 1];
      SelectLess(front, p, q);
      var less, more := Select(front, p), Select(front, q);
      assert last in xs;
      if p(last) {
        assert (less + [last])[..|less|] == less && (more + [last])[..|more|] == more;
      } else if q(last) {
        assert Select(xs, q) == more + [last] && (more + [last])[..|more|] == more;
        assert Select(xs, p) == less;
      } else {
        assert Select(xs, p) == less && Select(xs, q) == more;
      }
    }
  }

  // ----- Reversing

  function Reversed<T>(xs: seq<T>): seq<T> {
    if xs == [] then [] else Reversed(xs[1..]) + [xs[0]]
  }

  lemma {:induction false} ReversedSnoc<T>(xs: seq<T>, x: T)
    ensures Reversed(xs + [x]) == [x] + Reversed(xs)
  {
    if xs == [] {
      assert Reversed([x]) == Reversed<T>([]) + [x];
      assert xs + [x] == [x];
    } else {
      assert (xs + [x])[1..] == xs[1..] + [x];
      ReversedSnoc(xs[1..], x);
    }
  }

  lemma {:induction false} ReversedAt<T>(xs: seq<T>, i: nat)
    requires i < |xs|
    ensures |Reversed(xs)| == |xs| && Reversed(xs)[i] == xs[|xs| - 1 - i]
  {
    if |xs| > 1 {
      ReversedAt(xs[1..], if i < |xs| - 1 then i else 0);
    }
  }

  lemma {:induction false} ReversedMultiset<T>(xs: seq<T>)
    ensures multiset(Reversed(xs)) == multiset(xs)
  {
    if xs != [] {
      ReversedMultiset(xs[1..]);
      assert xs == [xs[0]] + xs[1..];
    }
  }

  // ----- Sorting, which is stable

  /** After every element whose key is no larger. */
  function Insert<T>(xs: seq<T>, x: T, key: T -> int): seq<T> {
    if xs == [] || key(xs[|xs| - 1]) <= key(x) then xs + [x]
    else Insert(xs[..|xs| - 1], x, key) + [xs[|xs| - 1]]
  }

  function Sort<T>(xs: seq<T>, key: T -> int): seq<T> {
    if xs == [] then [] else Insert(Sort(xs[..|xs| - 1], key), xs[|xs| - 1], key)
  }

  ghost predicate InOrder<T>(xs: seq<T>, key: T -> int) {
    forall i, j | 0 <= i < j < |xs| :: key(xs[i]) <= key(xs[j])
  }

  function HasKey<T>(key: T -> int, k: int): T -> bool {
    x => key(x) == k
  }

  lemma {:induction false} InsertMultiset<T>(xs: seq<T>, x: T, key: T -> int)
    ensures multiset(Insert(xs, x, key)) == multiset(xs) + multiset{x}
  {
    if xs != [] && key(xs[|xs| - 1]) > key(x) {
      InsertMultiset(xs[..|xs| - 1], x, key);
      assert xs == xs[..|xs| - 1] + [xs[|xs| - 1]];
    }
  }

  lemma {:induction false} InsertInOrder<T>(xs: seq<T>, x: T, key: T -> int)
    requires InOrder(xs, key)
    ensures InOrder(Insert(xs, x, key), key)
  {
    if xs != [] && key(xs[|xs| - 1]) > key(x) {
      var front, last := xs[..|xs| - 1], xs[|xs| - 1];
      InsertInOrder(front, x, key);
      InsertMultiset(front, x, key);
      forall y | y in Insert(front, x, key)
        ensures key(y) <= key(last)
      {
        assert y in multiset(Insert(front, x, key));
        assert y in multiset(front) || y == x;
      }
    }
  }

  lemma {:induction false} InsertIsStable<T>(xs: seq<T>, x: T, key: T -> int, k: int)
    ensures Select(Insert(xs, x, key), HasKey(key, k)) == Select(xs + [x], HasKey(key, k))
  {
    var p := HasKey(key, k);
    if xs != [] && key(xs[|xs| - 1]) > key(x) {
      var front, last := xs[..|xs| - 1], xs[|xs| - 1];
      InsertIsStable(front, x, key, k);
      SelectAppend(Insert(front, x, key), [last], p);
      SelectAppend(front, [x], p);
      SelectAppend(front, [last], p);
      SelectAppend(front + [last], [x], p);
      assert front + [last] == xs;
      OneOfTwo(Select(front, p), x, last, p);
    } else {
      assert Insert(xs, x, key) == xs + [x];
    }
  }

  lemma OneOfTwo<T>(before: seq<T>, x: T, y: T, p: T -> bool)
    requires !p(x) || !p(y)
    ensures before + Select([x], p) + Select([y], p) == before + Select([y], p) + Select([x], p)
  {
    if p(x) {
      SelectUniform([y], p);
    } else {
      SelectUniform([x], p);
    }
  }

  lemma {:induction false} SortInOrder<T>(xs: seq<T>, key: T -> int)
    ensures InOrder(Sort(xs, key), key)
    ensures multiset(Sort(xs, key)) == multiset(xs)
  {
    if xs != [] {
      var front, last := xs[..|xs| - 1], xs[|xs| - 1];
      SortInOrder(front, key);
      InsertMultiset(Sort(front, key), last, key);
      InsertInOrder(Sort(front, key), last, key);
      assert xs == front + [last];
    }
  }

  /** Sorting keeps the order of the elements of one key. */
  lemma {:induction false} SortIsStable<T>(xs: seq<T>, key: T -> int, k: int)
    ensures Select(Sort(xs, key), HasKey(key, k)) == Select(xs, HasKey(key, k))
  {
    if xs != [] {
      var front, last := xs[..|xs| - 1], xs[|xs| - 1];
      var sorted := Sort(front, key);
      SortIsStable(front, key, k);
      InsertIsStable(sorted, last, key, k);
      SelectAppend(sorted, [last], HasKey(key, k));
      SelectAppend(front, [last], HasKey(key, k));
      assert xs == front + [last];
    }
  }
}
