/** Walking and trimming live filter forests: iter_filters (c7n/manager.py),
    get_block_parent and trim_runtime (c7n/filters/core.py). */
module FilterWalk {
  import opened FilterTree
  import opened Sequences

  // ----- iter_filters

  /** What the generator yields: a filter, or the marker that closes a block. */
  datatype Item = End | At(node: Node)

  function Items(ns: seq<Node>): (q: seq<Item>)
    ensures |q| == |ns|
  {
    if ns == [] then [] else [At(ns[0])] + Items(ns[1..])
  }

  /** The queue once f has been taken off its front. */
  function Expanded(f: Item, members: seq<Node>, blockEnd: bool, rest: seq<Item>): seq<Item> {
    if f.At? && IsBlock(f.node.kind) then Items(Reversed(members)) + ((if blockEnd then [End] else []) + rest) else rest
  }

  /** The generator, suspended between two yields. */
  class FilterIterator {
    var queue: seq<Item>
    const blockEnd: bool

    constructor (filters: seq<Node>, blockEnd: bool)
      ensures queue == Items(filters) && this.blockEnd == blockEnd
    {
      queue := Items(filters);
      this.blockEnd := blockEnd;
    }

    /** Members are pushed in front one by one, so a block is walked from its last member. */
    method Next() returns (f: Item)
      requires queue != []
      modifies this
      ensures f == old(queue[0])
      ensures queue == Expanded(f, if f.At? then f.node.filters else [], blockEnd, old(queue[1..]))
    {
      f := queue[0];
      queue := queue[1..];
      if f.At? && IsBlock(f.node.kind) {
        if blockEnd {
          queue := [End] + queue;
        }
        AppendLeftEach(f.node.filters);
      }
    }

    method AppendLeftEach(members: seq<Node>)
      modifies this
      ensures queue == Items(Reversed(members)) + old(queue)
    {
      for i := 0 to |members|
        invariant queue == Items(Reversed(members[..i])) + old(queue)
      {
        queue := [At(members[i])] + queue;
        ReversedSnoc(members[..i], members[i]);
        assert members[..i + 1] == members[..i] + [members[i]];
      }
      assert members[..|members|] == members;
    }
  }

  // ----- The queue as a walk over frozen subtrees

  datatype Step = Close | Sub(tree: Tree)

  ghost function Shown(w: seq<Step>): (q: seq<Item>)
    ensures |q| == |w|
  {
    if w == [] then [] else [if w[0].Close? then End else At(w[0].tree.node)] + Shown(w[1..])
  }

  ghost function Forward(ts: seq<Tree>): seq<Step> {
    if ts == [] then [] else [Sub(ts[0])] + Forward(ts[1..])
  }

  /** The steps of a block's members, which are walked from the last. */
  ghost function Backward(ts: seq<Tree>): seq<Step> {
    Forward(Reversed(ts))
  }

  lemma {:induction false} ForwardAppend(a: seq<Tree>, b: seq<Tree>)
    ensures Forward(a + b) == Forward(a) + Forward(b)
  {
    if a == [] {
      assert a + b == b;
    } else {
      assert (a + b)[1..] == a[1..] + b;
      ForwardAppend(a[1..], b);
    }
  }

  lemma BackwardStep(ts: seq<Tree>)
    requires ts != []
    ensures Backward(ts) == Backward(ts[1..]) + [Sub(ts[0])]
  {
    ForwardAppend(Reversed(ts[1..]), [ts[0]]);
    assert [ts[0]][1..] == [];
  }

  lemma {:induction false} ShownAppend(a: seq<Step>, b: seq<Step>)
    ensures Shown(a + b) == Shown(a) + Shown(b)
  {
    if a == [] {
      assert a + b == b;
    } else {
      assert (a + b)[1..] == a[1..] + b;
      ShownAppend(a[1..], b);
    }
  }

  lemma {:induction false} ShownForward(ts: seq<Tree>)
    ensures Shown(Forward(ts)) == Items(Roots(ts))
  {
    if ts != [] {
      ShownForward(ts[1..]);
    }
  }

  lemma {:induction false} RootsAppend(a: seq<Tree>, b: seq<Tree>)
    ensures Roots(a + b) == Roots(a) + Roots(b)
  {
    if a == [] {
      assert a + b == b;
    } else {
      assert (a + b)[1..] == a[1..] + b;
      RootsAppend(a[1..], b);
    }
  }

  lemma {:induction false} RootsReversed(ts: seq<Tree>)
    ensures Roots(Reversed(ts)) == Reversed(Roots(ts))
  {
    if ts != [] {
      RootsReversed(ts[1..]);
      RootsAppend(Reversed(ts[1..]), [ts[0]]);
      assert [ts[0]][1..] == [] && Roots(ts)[1..] == Roots(ts[1..]);
    }
  }

  lemma ShownBackward(ts: seq<Tree>)
    ensures Shown(Backward(ts)) == Items(Reversed(Roots(ts)))
  {
    ShownForward(Reversed(ts));
    RootsReversed(ts);
  }

  ghost function Closes(w: seq<Step>): nat {
    if w == [] then 0 else (if w[0].Close? then 1 else 0) + Closes(w[1..])
  }

  lemma {:induction false} ClosesAppend(a: seq<Step>, b: seq<Step>)
    ensures Closes(a + b) == Closes(a) + Closes(b)
  {
    if a == [] {
      assert a + b == b;
    } else {
      assert (a + b)[1..] == a[1..] + b;
      ClosesAppend(a[1..], b);
    }
  }

  /** How much of the walk is left. */
  ghost function Weight(ts: seq<Tree>): nat
    decreases ts
  {
    if ts == [] then 0 else 2 + Weight(ts[0].kids) + Weight(ts[1..])
  }

  ghost function Left(w: seq<Step>): nat {
    if w == [] then 0 else (if w[0].Close? then 1 else Weight([w[0].tree])) + Left(w[1..])
  }

  lemma {:induction false} LeftAppend(a: seq<Step>, b: seq<Step>)
    ensures Left(a + b) == Left(a) + Left(b)
  {
    if a == [] {
      assert a + b == b;
    } else {
      assert (a + b)[1..] == a[1..] + b;
      LeftAppend(a[1..], b);
    }
  }

  lemma {:induction false} BackwardCounts(ts: seq<Tree>)
    ensures Left(Backward(ts)) == Weight(ts) && Closes(Backward(ts)) == 0
    decreases |ts|
  {
    if ts != [] {
      BackwardCounts(ts[1..]);
      BackwardStep(ts);
      LeftAppend(Backward(ts[1..]), [Sub(ts[0])]);
      ClosesAppend(Backward(ts[1..]), [Sub(ts[0])]);
      var one := [Sub(ts[0])];
      assert one[1..] == [];
      WeightOfOne(ts[0]);
      assert Left(one) == Weight([ts[0]]) + Left(one[1..]);
    }
  }

  lemma WeightOfOne(t: Tree)
    ensures Weight([t]) == 2 + Weight(t.kids)
  {
    assert [t][1..] == [];
  }

  // ----- get_block_parent: the block stack is the ancestor path

  /** Where the rest of the walk finds n, given the stack of open blocks. */
  ghost function FindIn(w: seq<Step>, stack: seq<Parent>, n: Node): Parent
    requires Closes(w) < |stack|
  {
    if w == [] then Missing
    else if w[0].Close? then FindIn(w[1..], stack[..|stack| - 1], n)
    else
      var p := ParentIn([w[0].tree], n, stack[|stack| - 1]);
      if p != Missing then p else FindIn(w[1..], stack, n)
  }

  lemma ParentInOne(t: Tree, n: Node, above: Parent)
    ensures ParentIn([t], n, above) == if t.node == n then above else ParentIn(t.kids, n, Block(t.node))
  {
    var one := [t];
    assert one[0] == t && one[1..] == [];
    assert ParentIn(one[1..], n, above) == Missing;
  }

  lemma ParentInHead(ts: seq<Tree>, n: Node, above: Parent)
    requires ts != [] && above != Missing
    ensures ParentIn(ts, n, above) ==
            var p := ParentIn([ts[0]], n, above); if p != Missing then p else ParentIn(ts[1..], n, above)
  {
    ParentInOne(ts[0], n, above);
  }

  lemma {:induction false} FindForward(ts: seq<Tree>, stack: seq<Parent>, n: Node)
    requires Closes(Forward(ts)) < |stack| && stack[|stack| - 1] != Missing
    ensures FindIn(Forward(ts), stack, n) == ParentIn(ts, n, stack[|stack| - 1])
  {
    if ts != [] {
      ParentInHead(ts, n, stack[|stack| - 1]);
      FindForward(ts[1..], stack, n);
    }
  }

  lemma {:induction false} FindBackward(ts: seq<Tree>, rest: seq<Step>, stack: seq<Parent>, n: Node)
    requires Distinct(ts) && |stack| > 0 && stack[|stack| - 1] != Missing
    requires Closes(Backward(ts) + rest) == Closes(rest) < |stack|
    ensures FindIn(Backward(ts) + rest, stack, n) ==
            var p := ParentIn(ts, n, stack[|stack| - 1]); if p != Missing then p else FindIn(rest, stack, n)
    decreases |ts|
  {
    if ts == [] {
      assert Backward(ts) + rest == rest;
    } else {
      var above := stack[|stack| - 1];
      var later := [Sub(ts[0])] + rest;
      BackwardStep(ts);
      assert Backward(ts) + rest == Backward(ts[1..]) + later;
      assert later[1..] == rest;
      ClosesAppend(Backward(ts[1..]), later);
      BackwardCounts(ts[1..]);
      FindBackward(ts[1..], later, stack, n);
      ParentInHead(ts, n, above);
      MissingMeansAbsent(ts[1..], n, above);
      MissingMeansAbsent([ts[0]], n, above);
      assert Nodes([ts[0]]) == {ts[0].node} + Nodes(ts[0].kids);
    }
  }

  // ----- Live forests

  ghost predicate Linked(ts: seq<Tree>)
    reads Nodes(ts)
  {
    forall n | n in Nodes(ts) :: n in Members(ts) && n.filters == Members(ts)[n]
  }

  lemma {:induction false} NodesExist(ts: seq<Tree>)
    ensures forall n | n in Nodes(ts) :: allocated(n)
    decreases ts
  {
    if ts != [] {
      NodesExist(ts[0].kids);
      NodesExist(ts[1..]);
    }
  }

  /** t is one of the subtrees of the forest ts. */
  ghost predicate Part(t: Tree, ts: seq<Tree>) {
    && Distinct([t]) && WellKinded([t])
    && forall n | n in Nodes([t]) :: n in Members([t]) && n in Members(ts) && Members(ts)[n] == Members([t])[n]
  }

  lemma NodesOfOne(t: Tree)
    ensures Nodes([t]) == {t.node} + Nodes(t.kids)
    ensures Distinct([t]) <==> t.node !in Nodes(t.kids) && Distinct(t.kids)
    ensures WellKinded([t]) <==> (IsBlock(t.node.kind) || t.kids == []) && WellKinded(t.kids)
  {
    var one := [t];
    assert one[0] == t && one[1..] == [];
  }

  lemma {:induction false} PartsOf(ts: seq<Tree>, all: seq<Tree>)
    requires Distinct(ts) && WellKinded(ts)
    requires forall n | n in Nodes(ts) :: n in Members(ts) && n in Members(all) && Members(all)[n] == Members(ts)[n]
    ensures forall t | t in ts :: Part(t, all)
    decreases |ts|
  {
    if ts != [] {
      MembersSplit(ts);
      NodesOfOne(ts[0]);
      MembersSplit([ts[0]]);
      PartsOf(ts[1..], all);
    }
  }

  lemma PartInside(t: Tree, ts: seq<Tree>)
    requires Part(t, ts)
    ensures t.node in Members(ts) && Members(ts)[t.node] == Roots(t.kids)
    ensures forall k | k in t.kids :: Part(k, ts)
    ensures t.kids == [] || IsBlock(t.node.kind)
    ensures Distinct(t.kids) && WellKinded(t.kids)
  {
    NodesOfOne(t);
    MembersSplit([t]);
    PartsOf(t.kids, ts);
  }

  lemma PartIsLive(t: Tree, ts: seq<Tree>)
    requires Part(t, ts) && Linked(ts)
    ensures t.node in Nodes(ts) && t.node.filters == Roots(t.kids)
  {
    PartInside(t, ts);
    MembersAreNodes(ts);
  }

  ghost predicate AllParts(w: seq<Step>, ts: seq<Tree>) {
    forall s | s in w && s.Sub? :: Part(s.tree, ts)
  }

  lemma {:induction false} SubsOf(ts: seq<Tree>)
    ensures forall s | s in Forward(ts) :: s.Sub? && s.tree in ts
    ensures forall s | s in Backward(ts) :: s.Sub? && s.tree in ts
    decreases |ts|
  {
    if ts != [] {
      SubsOf(ts[1..]);
      BackwardStep(ts);
    }
  }

  lemma {:induction false} ForwardCloses(ts: seq<Tree>)
    ensures Closes(Forward(ts)) == 0
  {
    if ts != [] {
      ForwardCloses(ts[1..]);
    }
  }

  lemma StartOfWalk(ts: seq<Tree>, n: Node)
    requires Distinct(ts) && WellKinded(ts)
    ensures Shown(Forward(ts)) == Items(Roots(ts)) && Closes(Forward(ts)) == 0
    ensures FindIn(Forward(ts), [Top], n) == ParentOf(ts, n)
    ensures AllParts(Forward(ts), ts)
  {
    ShownForward(ts);
    ForwardCloses(ts);
    FindForward(ts, [Top], n);
    SubsOf(ts);
    MembersAreNodes(ts);
    PartsOf(ts, ts);
  }

  /** The walk will find p for n, and the stack matches the markers still to come. */
  ghost predicate Walking(w: seq<Step>, stack: seq<Parent>, n: Node, p: Parent) {
    && |stack| == Closes(w) + 1
    && (forall i | 0 <= i < |stack| :: stack[i] != Missing)
    && FindIn(w, stack, n) == p
  }

  /** Passing a filter: it is the one looked for, or its members come next. */
  lemma PassOne(t: Tree, rest: seq<Step>, stack: seq<Parent>, n: Node, p: Parent)
    requires Walking([Sub(t)] + rest, stack, n, p) && Distinct(t.kids)
    ensures t.node == n ==> p == stack[|stack| - 1]
    ensures t.node != n ==>
      var w := Backward(t.kids) + ([Close] + rest);
      && Shown(w) == Items(Reversed(Roots(t.kids))) + ([End] + Shown(rest))
      && Walking(w, stack + [Block(t.node)], n, p)
      && Left(w) < Left([Sub(t)] + rest)
    ensures t.node != n && t.kids == [] ==> Walking(rest, stack, n, p)
    ensures Left(rest) < Left([Sub(t)] + rest)
  {
    var now := [Sub(t)] + rest;
    assert now[0] == Sub(t) && now[1..] == rest;
    ParentInOne(t, n, stack[|stack| - 1]);
    WeightOfOne(t);
    var close := [Close] + rest;
    var deeper := stack + [Block(t.node)];
    assert close[1..] == rest && deeper[..|deeper| - 1] == stack;
    ShownBackward(t.kids);
    ShownAppend(Backward(t.kids), close);
    BackwardCounts(t.kids);
    ClosesAppend(Backward(t.kids), close);
    LeftAppend(Backward(t.kids), close);
    FindBackward(t.kids, close, deeper, n);
  }

  lemma ParentMeaning(ts: seq<Tree>, f: Node)
    requires Distinct(ts)
    ensures Members(ts).Keys == Nodes(ts)
    ensures ParentOf(ts, f) == Missing <==> f !in Nodes(ts)
    ensures ParentOf(ts, f) == Top <==> f in Roots(ts)
    ensures forall b | b in Nodes(ts) :: ParentOf(ts, f) == Block(b) <==> f in Members(ts)[b]
    ensures ParentOf(ts, f).Block? ==> ParentOf(ts, f).node in Nodes(ts)
  {
    MembersAreNodes(ts);
    MissingMeansAbsent(ts, f, Top);
    if f in Nodes(ts) {
      ParentListsNode(ts, f, Top);
    }
    if f in Roots(ts) {
      ParentIsUnique(ts, f, Top, Top);
    }
    forall b | b in Nodes(ts) && f in Members(ts)[b]
      ensures ParentOf(ts, f) == Block(b)
    {
      ParentIsUnique(ts, f, Top, Block(b));
    }
  }

  /** Dropping a childless node shortens the list of its parent only. */
  lemma DroppedMembers(ts: seq<Tree>, f: Node)
    requires Distinct(ts) && WellKinded(ts) && Childless(ts, f)
    ensures var d, p := Drop(ts, f), ParentOf(ts, f);
      && Distinct(d) && WellKinded(d) && Nodes(d) == Nodes(ts) - {f} == Members(d).Keys
      && Roots(d) == (if p == Top then Without(Roots(ts), f) else Roots(ts))
      && (forall b | b in Nodes(d) ::
        b in Members(ts) && Members(d)[b] == if p == Block(b) then Without(Members(ts)[b], f) else Members(ts)[b])
      && |Nodes(d)| < |Nodes(ts)|
  {
    MembersAreNodes(ts);
    DropNodes(ts, f);
    DropShape(ts, f);
    DropKinds(ts, f);
    MembersAreNodes(Drop(ts, f));
    ParentMeaning(ts, f);
    if ParentOf(ts, f) != Top {
      WithoutAbsent(Roots(ts), f);
    }
    forall b | b in Nodes(Drop(ts, f)) && ParentOf(ts, f) != Block(b)
      ensures Without(Members(ts)[b], f) == Members(ts)[b]
    {
      WithoutAbsent(Members(ts)[b], f);
    }
  }

  /** The same, read off the parent. */
  lemma DroppedFrom(ts: seq<Tree>, f: Node, p: Parent)
    requires Distinct(ts) && WellKinded(ts) && Childless(ts, f) && p == ParentOf(ts, f)
    ensures var d := Drop(ts, f);
      && Distinct(d) && WellKinded(d) && Nodes(d) <= Nodes(ts)
      && (forall n | n in Nodes(d) :: n in Members(d) && n in Members(ts))
      && (p.Top? ==> f in Roots(ts) && Roots(d) == Without(Roots(ts), f))
      && (p.Block? ==> p.node in Nodes(d) && f in Members(ts)[p.node] && Roots(d) == Roots(ts))
      && (p.Block? ==> Members(d)[p.node] == Without(Members(ts)[p.node], f))
      && (forall n | n in Nodes(d) && p != Block(n) :: Members(d)[n] == Members(ts)[n])
  {
    DroppedMembers(ts, f);
    ParentMeaning(ts, f);
  }

  // ----- The walk of trim_runtime: a queue of subtrees nobody has touched yet

  ghost function Queued(ts: seq<Tree>): seq<Item> {
    Items(Roots(ts))
  }

  /** The forest a is inside the forest all. */
  ghost predicate Inside(a: seq<Tree>, all: seq<Tree>) {
    && Distinct(a) && WellKinded(a)
    && forall n | n in Nodes(a) :: n in Members(a) && n in Members(all) && Members(all)[n] == Members(a)[n]
  }

  /** Everything not seen is still to be walked, and sits below an entry of the queue. */
  ghost predicate Pending(ts: seq<Tree>, todo: seq<Tree>, seen: set<Node>) {
    && Inside(todo, ts)
    && Nodes(todo) !! seen && seen + Nodes(todo) == Nodes(ts)
  }

  lemma {:induction false} QueuedAppend(a: seq<Tree>, b: seq<Tree>)
    ensures Queued(a + b) == Queued(a) + Queued(b)
    ensures Weight(a + b) == Weight(a) + Weight(b)
    decreases |a|
  {
    if a == [] {
      assert a + b == b;
    } else {
      assert (a + b)[1..] == a[1..] + b;
      QueuedAppend(a[1..], b);
    }
  }

  lemma {:induction false} WeightReversed(ts: seq<Tree>)
    ensures Weight(Reversed(ts)) == Weight(ts)
    decreases |ts|
  {
    if ts != [] {
      WeightReversed(ts[1..]);
      QueuedAppend(Reversed(ts[1..]), [ts[0]]);
      WeightOfOne(ts[0]);
      assert [ts[0]][1..] == [];
    }
  }

  lemma {:induction false} DistinctAppend(a: seq<Tree>, b: seq<Tree>)
    requires Distinct(a) && WellKinded(a) && Distinct(b) && WellKinded(b) && Nodes(a) !! Nodes(b)
    ensures Distinct(a + b) && WellKinded(a + b) && Nodes(a + b) == Nodes(a) + Nodes(b)
    decreases |a|
  {
    if a == [] {
      assert a + b == b;
    } else {
      assert (a + b)[1..] == a[1..] + b;
      DistinctAppend(a[1..], b);
    }
  }

  lemma MapsAssociate(a: map<Node, seq<Node>>, b: map<Node, seq<Node>>, c: map<Node, seq<Node>>)
    ensures a + (b + c) == (a + b) + c
  {
    var l, m := a + (b + c), (a + b) + c;
    assert forall n :: n in l <==> n in m;
    assert forall n | n in l :: l[n] == m[n];
  }

  lemma {:induction false} MembersConcat(a: seq<Tree>, b: seq<Tree>)
    ensures Members(a + b) == Members(a) + Members(b)
    decreases |a|
  {
    if a == [] {
      assert a + b == b;
    } else {
      assert (a + b)[1..] == a[1..] + b && (a + b)[0] == a[0];
      MembersConcat(a[1..], b);
      MapsAssociate(map[a[0].node := Roots(a[0].kids)] + Members(a[0].kids), Members(a[1..]), Members(b));
    }
  }

  lemma MembersAppend(a: seq<Tree>, b: seq<Tree>)
    requires Nodes(a) !! Nodes(b)
    ensures forall n | n in Members(a) :: n in Members(a + b) && Members(a + b)[n] == Members(a)[n]
    ensures forall n | n in Members(b) :: n in Members(a + b) && Members(a + b)[n] == Members(b)[n]
  {
    MembersConcat(a, b);
    MembersAreNodes(a);
    MembersAreNodes(b);
  }

  lemma InsideAppend(a: seq<Tree>, b: seq<Tree>, all: seq<Tree>)
    requires Inside(a, all) && Inside(b, all) && Nodes(a) !! Nodes(b)
    ensures Inside(a + b, all) && Nodes(a + b) == Nodes(a) + Nodes(b)
  {
    DistinctAppend(a, b);
    MembersAppend(a, b);
    MembersAreNodes(a);
    MembersAreNodes(b);
    MembersAreNodes(a + b);
  }

  lemma InsideParts(a: seq<Tree>, all: seq<Tree>)
    requires a != [] && Inside(a, all)
    ensures Inside([a[0]], all) && Inside(a[0].kids, all) && Inside(a[1..], all)
    ensures Nodes([a[0]]) == {a[0].node} + Nodes(a[0].kids)
    ensures a[0].node in Members(all) && Members(all)[a[0].node] == Roots(a[0].kids)
  {
    MembersSplit(a);
    NodesOfOne(a[0]);
    MembersSplit([a[0]]);
  }

  lemma {:induction false} ReversedInside(a: seq<Tree>, all: seq<Tree>)
    requires Inside(a, all)
    ensures Inside(Reversed(a), all) && Nodes(Reversed(a)) == Nodes(a)
    decreases |a|
  {
    if a != [] {
      InsideParts(a, all);
      ReversedInside(a[1..], all);
      InsideAppend(Reversed(a[1..]), [a[0]], all);
    }
  }

  /** The head of the queue is still in the forest, with all its members. */
  lemma HeadIsIntact(ts: seq<Tree>, todo: seq<Tree>, seen: set<Node>)
    requires Distinct(ts) && WellKinded(ts)
    requires todo != [] && Pending(ts, todo, seen)
    ensures var n, cur := todo[0].node, TrimSeen(ts, seen);
      && n in Nodes(ts) && n !in seen && n in Nodes(cur)
      && n in Members(cur) && Members(cur)[n] == Roots(todo[0].kids)
      && (IsBlock(n.kind) || todo[0].kids == [])
      && (n.kind == Event ==> Childless(cur, n))
  {
    InsideParts(todo, ts);
    MembersAreNodes(TrimSeen(ts, seen));
    MembersAreNodes(ts);
    forall b | b in Nodes(todo)
      ensures b in Members(ts) && forall m | m in Members(ts)[b] :: m in Nodes(todo)
    {
      MembersAreInside(todo, b);
    }
    UnseenKept(ts, seen, Nodes(todo), todo[0].node);
  }

  /** One step of the walk. */
  lemma NextPending(ts: seq<Tree>, todo: seq<Tree>, seen: set<Node>)
    requires todo != [] && Pending(ts, todo, seen)
    ensures Pending(ts, Reversed(todo[0].kids) + todo[1..], seen + {todo[0].node})
  {
    var t, rest := todo[0], todo[1..];
    InsideParts(todo, ts);
    ReversedInside(t.kids, ts);
    InsideAppend(Reversed(t.kids), rest, ts);
  }

  lemma NextQueue(todo: seq<Tree>)
    requires todo != [] && (IsBlock(todo[0].node.kind) || todo[0].kids == [])
    ensures var next := Reversed(todo[0].kids) + todo[1..];
      && Queued(next) == Expanded(At(todo[0].node), Roots(todo[0].kids), false, Queued(todo[1..]))
      && Weight(next) < Weight(todo)
  {
    RootsReversed(todo[0].kids);
    WeightReversed(todo[0].kids);
    QueuedAppend(Reversed(todo[0].kids), todo[1..]);
    assert [] + Queued(todo[1..]) == Queued(todo[1..]);
  }

  lemma {:induction false} MembersAreInside(ts: seq<Tree>, b: Node)
    requires Distinct(ts) && b in Nodes(ts)
    ensures b in Members(ts) && forall m | m in Members(ts)[b] :: m in Nodes(ts)
    decreases ts
  {
    MembersSplit(ts);
    if b == ts[0].node {
      RootsAreNodes(ts[0].kids);
    } else if b in Nodes(ts[0].kids) {
      MembersAreInside(ts[0].kids, b);
    } else {
      MembersAreInside(ts[1..], b);
    }
  }

  class ResourceManager {
    var filters: seq<Node>

    ghost predicate Holds(ts: seq<Tree>)
      reads this, Nodes(ts)
    {
      filters == Roots(ts) && Linked(ts) && Distinct(ts) && WellKinded(ts)
    }

    /** Filter.get_block_parent of f. The answer is the one list the filter is on: the
        manager's, or that of a block. */
    method GetBlockParent(f: Node, ghost ts: seq<Tree>) returns (p: Parent)
      requires Holds(ts)
      ensures Holds(ts)
      ensures p == Missing <==> f !in Nodes(ts)
      ensures p == Top <==> f in filters
      ensures forall b | b in Nodes(ts) :: p == Block(b) <==> f in b.filters
      ensures p.Block? ==> p.node in Nodes(ts)
      ensures p == ParentOf(ts, f)
    {
      NodesExist(ts);
      ParentMeaning(ts, f);
      p := WalkToParent(f, ts);
    }

    method WalkToParent(f: Node, ghost ts: seq<Tree>) returns (p: Parent)
      requires Holds(ts)
      ensures Holds(ts) && p == ParentOf(ts, f)
    {
      NodesExist(ts);
      var stack := [Top];
      var it := new FilterIterator(filters, true);
      ghost var w := Forward(ts);
      StartOfWalk(ts, f);
      while it.queue != []
        invariant it.queue == Shown(w) && it.blockEnd
        invariant Walking(w, stack, f, ParentOf(ts, f))
        invariant AllParts(w, ts) && Holds(ts)
        decreases Left(w)
      {
        ghost var head, rest := w[0], w[1..];
        assert w == [head] + rest;
        assert it.queue[1..] == Shown(rest);
        var item := it.Next();
        if item == End {
          stack := stack[..|stack| - 1];
          w := rest;
        } else {
          ghost var t := head.tree;
          PartInside(t, ts);
          PartIsLive(t, ts);
          PassOne(t, rest, stack, f, ParentOf(ts, f));
          if item.node == f {
            return stack[|stack| - 1];
          } else if IsBlock(item.node.kind) {
            stack := stack + [Block(item.node)];
            w := Backward(t.kids) + ([Close] + rest);
            SubsOf(t.kids);
          } else {
            w := rest;
          }
        }
      }
      return Missing;
    }

    method TakeOffTop(f: Node, ghost ts: seq<Tree>)
      requires Holds(ts) && Childless(ts, f) && ParentOf(ts, f) == Top
      modifies this
      ensures Holds(Drop(ts, f))
    {
      DroppedFrom(ts, f, Top);
      assert f in filters;
      filters := Without(filters, f);
    }

    method TakeOffBlock(b: Node, f: Node, ghost ts: seq<Tree>)
      requires Holds(ts) && Childless(ts, f) && ParentOf(ts, f) == Block(b)
      modifies b
      ensures Holds(Drop(ts, f)) && b in Nodes(Drop(ts, f))
    {
      DroppedFrom(ts, f, Block(b));
      assert f in b.filters;
      b.filters := Without(b.filters, f);
    }

    /** Find the list a filter is on and take it off; the filter is always there. */
    method TakeOff(f: Node, ghost ts: seq<Tree>) returns (block: Parent)
      requires Holds(ts) && Childless(ts, f)
      modifies this, Nodes(ts)
      ensures Holds(Drop(ts, f))
      ensures block == ParentOf(ts, f) && !block.Missing?
      ensures block.Block? ==> block.node in Nodes(Drop(ts, f))
    {
      MembersAreNodes(ts);
      block := GetBlockParent(f, ts);
      match block
      case Top => TakeOffTop(f, ts);
      case Block(b) => TakeOffBlock(b, f, ts);
    }

    /** The inner remove_filter of trim_runtime. */
    method RemoveFilter(f: Node, ghost ts: seq<Tree>)
      requires Holds(ts) && Childless(ts, f)
      modifies this, Nodes(ts)
      ensures Holds(Cut(ts, f))
      decreases |Nodes(ts)|
    {
      MembersAreNodes(ts);
      CutStep(ts, f, Top);
      DroppedMembers(ts, f);
      var block := TakeOff(f, ts);
      if block.Block? && block.node.filters == [] {
        RemoveFilter(block.node, Drop(ts, f));
      }
    }

    /** One filter of the walk: only event filters are removed. */
    method TrimOne(f: Node, ghost ts: seq<Tree>, ghost seen: set<Node>)
      requires Distinct(ts) && WellKinded(ts) && Holds(TrimSeen(ts, seen))
      requires f in Nodes(ts) && f !in seen
      requires f.kind == Event ==> Childless(TrimSeen(ts, seen), f)
      modifies this, Nodes(ts)
      ensures Holds(TrimSeen(ts, seen + {f}))
    {
      TrimNodes(ts, seen);
      MembersAreNodes(TrimSeen(ts, seen));
      if f.kind == Event {
        TrimOneMore(ts, seen, f);
        RemoveFilter(f, TrimSeen(ts, seen));
      } else {
        TrimDepends(ts, seen, seen + {f});
      }
    }

    method NextFilter(it: FilterIterator, ghost ts: seq<Tree>, ghost todo: seq<Tree>, ghost seen: set<Node>)
      returns (f: Node)
      requires Distinct(ts) && WellKinded(ts) && Holds(TrimSeen(ts, seen))
      requires it.queue != [] && it.queue == Queued(todo) && !it.blockEnd && Pending(ts, todo, seen)
      modifies it
      ensures Holds(TrimSeen(ts, seen))
      ensures f == todo[0].node && f in Nodes(ts) && f !in seen
      ensures f.kind == Event ==> Childless(TrimSeen(ts, seen), f)
      ensures it.queue == Queued(Reversed(todo[0].kids) + todo[1..])
      ensures Weight(Reversed(todo[0].kids) + todo[1..]) < Weight(todo)
    {
      HeadIsIntact(ts, todo, seen);
      NextQueue(todo);
      NodesExist(TrimSeen(ts, seen));
      assert it.queue[1..] == Queued(todo[1..]);
      assert todo[0].node.filters == Roots(todo[0].kids);
      var item := it.Next();
      f := item.node;
    }

    ghost predicate Trimming(it: FilterIterator, ts: seq<Tree>, todo: seq<Tree>, seen: set<Node>)
      reads this, it, Nodes(TrimSeen(ts, seen))
    {
      && it.queue == Queued(todo) && !it.blockEnd
      && Holds(TrimSeen(ts, seen)) && Pending(ts, todo, seen)
    }

    method TrimStep(it: FilterIterator, ghost ts: seq<Tree>, ghost todo: seq<Tree>, ghost seen: set<Node>)
      requires Distinct(ts) && WellKinded(ts)
      requires Trimming(it, ts, todo, seen) && it.queue != []
      modifies it, this, Nodes(ts)
      ensures Trimming(it, ts, Reversed(todo[0].kids) + todo[1..], seen + {todo[0].node})
      ensures Weight(Reversed(todo[0].kids) + todo[1..]) < Weight(todo)
    {
      NextPending(ts, todo, seen);
      var f := NextFilter(it, ts, todo, seen);
      TrimOne(f, ts, seen);
    }

    /** trim_runtime: the walk goes on over a queue of references while members are removed. */
    method TrimRuntime(ghost ts: seq<Tree>)
      requires Holds(ts)
      modifies this, Nodes(ts)
      ensures Holds(Trim(ts))
      ensures forall n | n in Nodes(Trim(ts)) :: n.kind != Event
      ensures Paths(Trim(ts)) == NotToEvents(Paths(ts))
    {
      TrimKeepsPaths(ts, Nodes(ts));
      TrimHasNoEvent(ts, Nodes(ts));
      NodesExist(ts);
      var it := new FilterIterator(filters, false);
      ghost var todo := ts;
      ghost var seen := {};
      TrimNothing(ts);
      MembersAreNodes(ts);
      while it.queue != []
        invariant Trimming(it, ts, todo, seen)
        decreases Weight(todo)
      {
        TrimStep(it, ts, todo, seen);
        seen := seen + {todo[0].node};
        todo := Reversed(todo[0].kids) + todo[1..];
      }
      TrimDepends(ts, seen, Nodes(ts));
    }
  }
}
