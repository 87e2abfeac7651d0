/** Shapes of filter forests, as values: what iter_filters, get_block_parent and
    trim_runtime (c7n/manager.py, c7n/filters/core.py) mean. FilterWalk has the code. */
module FilterTree {

  datatype Kind = Event | Value | AndBlock | OrBlock | NotBlock

  predicate IsBlock(k: Kind) { k.AndBlock? || k.OrBlock? || k.NotBlock? }

  /** A filter object; blocks list their members in `filters`. */
  class Node {
    const kind: Kind
    var filters: seq<Node>

    constructor (kind: Kind, filters: seq<Node>)
      ensures this.kind == kind && this.filters == filters
    {
      this.kind := kind;
      this.filters := filters;
    }
  }

  /** A filter object with everything below it, frozen. */
  datatype Tree = Tree(node: Node, kids: seq<Tree>)

  ghost function Roots(ts: seq<Tree>): (ns: seq<Node>)
    ensures |ns| == |ts|
    decreases |ts|
  {
    if ts == [] then [] else [ts[0].node] + Roots(ts[1..])
  }

  /** Every node of the forest, with the members it has there. */
  ghost function Members(ts: seq<Tree>): map<Node, seq<Node>>
    decreases ts
  {
    if ts == [] then map[]
    else map[ts[0].node := Roots(ts[0].kids)] + Members(ts[0].kids) + Members(ts[1..])
  }

  ghost function Nodes(ts: seq<Tree>): set<Node>
    decreases ts
  {
    if ts == [] then {} else {ts[0].node} + Nodes(ts[0].kids) + Nodes(ts[1..])
  }

  ghost predicate Distinct(ts: seq<Tree>)
    decreases ts
  {
    ts == [] ||
    (&& ts[0].node !in Nodes(ts[0].kids) + Nodes(ts[1..])
     && Nodes(ts[0].kids) !! Nodes(ts[1..])
     && Distinct(ts[0].kids) && Distinct(ts[1..]))
  }

  ghost predicate WellKinded(ts: seq<Tree>)
    decreases ts
  {
    ts == [] || ((IsBlock(ts[0].node.kind) || ts[0].kids == []) && WellKinded(ts[0].kids) && WellKinded(ts[1..]))
  }

  lemma {:induction false} MembersAreNodes(ts: seq<Tree>)
    ensures Members(ts).Keys == Nodes(ts)
    decreases ts
  {
    if ts != [] {
      MembersAreNodes(ts[0].kids);
      MembersAreNodes(ts[1..]);
    }
  }

  lemma {:induction false} RootsAreNodes(ts: seq<Tree>)
    ensures forall i | 0 <= i < |ts| :: ts[i].node in Nodes(ts) && Nodes(ts[i].kids) <= Nodes(ts)
    ensures forall n | n in Roots(ts) :: n in Nodes(ts)
  {
    if ts != [] {
      RootsAreNodes(ts[1..]);
      assert forall i | 1 <= i < |ts| :: ts[i] == ts[1..][i - 1];
    }
  }

  // ----- The parent of a node

  datatype Parent = Top | Block(node: Node) | Missing

  ghost function ParentIn(ts: seq<Tree>, n: Node, above: Parent): Parent
    decreases ts
  {
    if ts == [] then Missing
    else if ts[0].node == n then above
    else
      var p := ParentIn(ts[0].kids, n, Block(ts[0].node));
      if p != Missing then p else ParentIn(ts[1..], n, above)
  }

  ghost function ParentOf(ts: seq<Tree>, n: Node): Parent {
    ParentIn(ts, n, Top)
  }

  lemma {:induction false} MissingMeansAbsent(ts: seq<Tree>, n: Node, above: Parent)
    requires above != Missing
    ensures ParentIn(ts, n, above) == Missing <==> n !in Nodes(ts)
    decreases ts
  {
    if ts != [] {
      MissingMeansAbsent(ts[0].kids, n, Block(ts[0].node));
      MissingMeansAbsent(ts[1..], n, above);
    }
  }

  lemma MembersSplit(ts: seq<Tree>)
    requires ts != [] && Distinct(ts)
    ensures Members(ts).Keys == Nodes(ts)
    ensures Members(ts[0].kids).Keys == Nodes(ts[0].kids) && Members(ts[1..]).Keys == Nodes(ts[1..])
    ensures Members(ts)[ts[0].node] == Roots(ts[0].kids)
    ensures forall b | b in Nodes(ts[0].kids) :: Members(ts)[b] == Members(ts[0].kids)[b]
    ensures forall b | b in Nodes(ts[1..]) :: Members(ts)[b] == Members(ts[1..])[b]
  {
    MembersAreNodes(ts);
    MembersAreNodes(ts[0].kids);
    MembersAreNodes(ts[1..]);
  }

  ghost predicate Lists(ts: seq<Tree>, above: Parent, p: Parent, n: Node) {
    if p == above then n in Roots(ts)
    else p.Block? && p.node in Members(ts) && n in Members(ts)[p.node]
  }

  /** The parent found is the block that lists the node, or the top level if that does. */
  lemma {:induction false} ParentListsNode(ts: seq<Tree>, n: Node, above: Parent)
    requires Distinct(ts) && n in Nodes(ts)
    requires above.Top? || (above.Block? && above.node !in Nodes(ts))
    ensures Lists(ts, above, ParentIn(ts, n, above), n)
    decreases ts
  {
    var h := ts[0];
    MembersSplit(ts);
    if h.node == n {
      assert Roots(ts)[0] == n;
    } else if n in Nodes(h.kids) {
      MissingMeansAbsent(h.kids, n, Block(h.node));
      ParentListsNode(h.kids, n, Block(h.node));
      var p := ParentIn(h.kids, n, Block(h.node));
      assert p == ParentIn(ts, n, above);
    } else {
      MissingMeansAbsent(h.kids, n, Block(h.node));
      ParentListsNode(ts[1..], n, above);
    }
  }

  /** And nothing else lists it. */
  lemma {:induction false} ParentIsUnique(ts: seq<Tree>, n: Node, above: Parent, p: Parent)
    requires Distinct(ts)
    requires above.Top? || (above.Block? && above.node !in Nodes(ts))
    requires Lists(ts, above, p, n)
    ensures n in Nodes(ts) && p == ParentIn(ts, n, above)
    decreases ts
  {
    MembersAreNodes(ts);
    RootsAreNodes(ts);
    var h := ts[0];
    MembersSplit(ts);
    RootsAreNodes(ts[1..]);
    RootsAreNodes(h.kids);
    MissingMeansAbsent(h.kids, n, Block(h.node));
    if p == above {
      if h.node != n {
        ParentIsUnique(ts[1..], n, above, p);
      }
    } else if p.node == h.node || p.node in Nodes(h.kids) {
      ParentIsUnique(h.kids, n, Block(h.node), p);
    } else {
      ParentIsUnique(ts[1..], n, above, p);
    }
  }

  // ----- Removing one node

  /** Take n out; a block this empties stays. */
  ghost function Drop(ts: seq<Tree>, n: Node): seq<Tree>
    decreases ts
  {
    if ts == [] then []
    else if ts[0].node == n then ts[1..]
    else if n in Nodes(ts[0].kids) then [Tree(ts[0].node, Drop(ts[0].kids, n))] + ts[1..]
    else [ts[0]] + Drop(ts[1..], n)
  }

  /** Take n out, and then every block this empties. */
  ghost function Cut(ts: seq<Tree>, n: Node): seq<Tree>
    decreases ts
  {
    if ts == [] then []
    else if ts[0].node == n then ts[1..]
    else if n in Nodes(ts[0].kids) then
      var k := Cut(ts[0].kids, n);
      if k == [] then ts[1..] else [Tree(ts[0].node, k)] + ts[1..]
    else [ts[0]] + Cut(ts[1..], n)
  }

  /** list.remove */
  function Without(ns: seq<Node>, n: Node): seq<Node> {
    if ns == [] then [] else if ns[0] == n then ns[1..] else [ns[0]] + Without(ns[1..], n)
  }

  lemma {:induction false} WithoutAbsent(ns: seq<Node>, n: Node)
    requires n !in ns
    ensures Without(ns, n) == ns
  {
    if ns != [] {
      WithoutAbsent(ns[1..], n);
    }
  }

  /** The node of the forest that has no members of its own. */
  ghost predicate Childless(ts: seq<Tree>, n: Node) {
    n in Members(ts) && Members(ts)[n] == []
  }

  /** d lists the same members as ts, except that n is on no list and has none. */
  ghost predicate ListsAllBut(ts: seq<Tree>, d: seq<Tree>, n: Node) {
    forall b | b in Nodes(d) ::
      b in Members(d) && b in Members(ts) && Members(d)[b] == Without(Members(ts)[b], n)
  }

  lemma {:induction false} NotListedInside(ts: seq<Tree>, n: Node)
    requires Distinct(ts) && n !in Nodes(ts)
    ensures Without(Roots(ts), n) == Roots(ts)
    ensures ListsAllBut(ts, ts, n)
    decreases ts
  {
    MembersAreNodes(ts);
    RootsAreNodes(ts);
    WithoutAbsent(Roots(ts), n);
    if ts != [] {
      MembersSplit(ts);
      RootsAreNodes(ts[0].kids);
      NotListedInside(ts[0].kids, n);
      NotListedInside(ts[1..], n);
      WithoutAbsent(Roots(ts[0].kids), n);
    }
  }

  lemma ListsAllButParts(ts: seq<Tree>, d: seq<Tree>, n: Node)
    requires ts != [] && d != [] && Distinct(ts) && Distinct(d)
    requires d[0].node == ts[0].node != n
    requires Roots(d[0].kids) == Without(Roots(ts[0].kids), n)
    requires ListsAllBut(ts[0].kids, d[0].kids, n) && ListsAllBut(ts[1..], d[1..], n)
    ensures ListsAllBut(ts, d, n)
  {
    MembersSplit(ts);
    MembersSplit(d);
    forall b | b in Nodes(d)
      ensures b in Members(ts) && Members(d)[b] == Without(Members(ts)[b], n)
    {
      if b != d[0].node {
        if b in Nodes(d[0].kids) {
          assert b in Members(ts[0].kids);
        } else {
          assert b in Members(ts[1..]);
        }
      }
    }
  }

  lemma {:induction false} DropNodes(ts: seq<Tree>, n: Node)
    requires Distinct(ts) && Childless(ts, n)
    ensures Distinct(Drop(ts, n)) && Nodes(Drop(ts, n)) == Nodes(ts) - {n}
    decreases ts
  {
    MembersSplit(ts);
    var h := ts[0];
    if h.node == n {
      assert |Roots(h.kids)| == |h.kids|;
    } else if n in Nodes(h.kids) {
      DropNodes(h.kids, n);
      assert Drop(ts, n)[1..] == ts[1..];
    } else {
      DropNodes(ts[1..], n);
      assert Drop(ts, n)[1..] == Drop(ts[1..], n);
    }
  }

  /** Dropping a childless node takes it off one list and changes nothing else. */
  lemma {:induction false} DropShape(ts: seq<Tree>, n: Node)
    requires Distinct(ts) && Childless(ts, n)
    ensures Roots(Drop(ts, n)) == Without(Roots(ts), n)
    ensures ListsAllBut(ts, Drop(ts, n), n)
    decreases ts
  {
    var h := ts[0];
    var d := Drop(ts, n);
    MembersSplit(ts);
    DropNodes(ts, n);
    if h.node == n {
      NotListedInside(ts[1..], n);
    } else if n in Nodes(h.kids) {
      DropShape(h.kids, n);
      assert d[0] == Tree(h.node, Drop(h.kids, n)) && d[1..] == ts[1..];
      NotListedInside(ts[1..], n);
      ListsAllButParts(ts, d, n);
    } else {
      DropShape(ts[1..], n);
      assert d[0] == h && d[1..] == Drop(ts[1..], n);
      NotListedInside(h.kids, n);
      ListsAllButParts(ts, d, n);
    }
  }

  lemma {:induction false} DropKinds(ts: seq<Tree>, n: Node)
    requires WellKinded(ts)
    ensures WellKinded(Drop(ts, n))
    decreases ts
  {
    if ts != [] {
      var d := Drop(ts, n);
      DropKinds(ts[0].kids, n);
      DropKinds(ts[1..], n);
      if ts[0].node == n {
        assert d == ts[1..];
      } else if n in Nodes(ts[0].kids) {
        assert d[1..] == ts[1..];
      } else {
        assert d[1..] == Drop(ts[1..], n);
      }
    }
  }

  ghost predicate CutsOnce(ts: seq<Tree>, n: Node, above: Parent) {
    var p := ParentIn(ts, n, above);
    Cut(ts, n) == if p != above && p.Block? && Childless(Drop(ts, n), p.node) then Cut(Drop(ts, n), p.node)
                  else Drop(ts, n)
  }

  /** A cascading removal is a plain one, followed by that of the parent if it is now empty. */
  lemma {:induction false} CutStep(ts: seq<Tree>, n: Node, above: Parent)
    requires Distinct(ts) && n in Nodes(ts) && Childless(ts, n)
    requires above.Top? || (above.Block? && above.node !in Nodes(ts))
    ensures CutsOnce(ts, n, above)
    decreases ts
  {
    var h := ts[0];
    MembersSplit(ts);
    if h.node == n {
    } else if n in Nodes(h.kids) {
      CutStep(h.kids, n, Block(h.node));
      CutStepBelow(ts, n, above);
    } else {
      CutStep(ts[1..], n, above);
      CutStepAfter(ts, n, above);
    }
  }

  /** The step from the members of the first tree. */
  lemma CutStepBelow(ts: seq<Tree>, n: Node, above: Parent)
    requires Distinct(ts) && Childless(ts, n) && ts != []
    requires above.Top? || (above.Block? && above.node !in Nodes(ts))
    requires ts[0].node != n && n in Nodes(ts[0].kids) && CutsOnce(ts[0].kids, n, Block(ts[0].node))
    ensures CutsOnce(ts, n, above)
  {
    var h, d := ts[0], Drop(ts, n);
    var within := Block(h.node);
    var p := ParentIn(ts, n, above);
    MembersSplit(ts);
    DropNodes(ts, n);
    MissingMeansAbsent(h.kids, n, within);
    DropNodes(h.kids, n);
    assert d[0] == Tree(h.node, Drop(h.kids, n)) && d[1..] == ts[1..];
    MembersSplit(d);
    if p != within {
      ParentListsNode(h.kids, n, within);
      assert p.node in Nodes(h.kids) && p.node != n;
    }
  }

  /** The step from the other trees. */
  lemma CutStepAfter(ts: seq<Tree>, n: Node, above: Parent)
    requires Distinct(ts) && Childless(ts, n) && ts != []
    requires above.Top? || (above.Block? && above.node !in Nodes(ts))
    requires ts[0].node != n && n in Nodes(ts[1..]) && n !in Nodes(ts[0].kids) && CutsOnce(ts[1..], n, above)
    ensures CutsOnce(ts, n, above)
  {
    var h, d := ts[0], Drop(ts, n);
    var p := ParentIn(ts, n, above);
    MembersSplit(ts);
    DropNodes(ts, n);
    MissingMeansAbsent(h.kids, n, Block(h.node));
    DropNodes(ts[1..], n);
    assert d[0] == h && d[1..] == Drop(ts[1..], n);
    MembersSplit(d);
    if p != above {
      ParentListsNode(ts[1..], n, above);
      assert p.node in Nodes(ts[1..]);
    }
  }

  // ----- Trimming

  /** The forest once the event filters in `seen` are gone, with every block that emptied. */
  ghost function TrimSeen(ts: seq<Tree>, seen: set<Node>): seq<Tree>
    decreases ts
  {
    if ts == [] then []
    else
      var rest := TrimSeen(ts[1..], seen);
      if ts[0].node.kind == Event && ts[0].node in seen then rest
      else if ts[0].kids == [] then [ts[0]] + rest
      else
        var k := TrimSeen(ts[0].kids, seen);
        if k == [] then rest else [Tree(ts[0].node, k)] + rest
  }

  /** What trim_runtime should leave. */
  ghost function Trim(ts: seq<Tree>): seq<Tree> {
    TrimSeen(ts, Nodes(ts))
  }

  lemma {:induction false} TrimNodes(ts: seq<Tree>, seen: set<Node>)
    requires Distinct(ts) && WellKinded(ts)
    ensures Nodes(TrimSeen(ts, seen)) <= Nodes(ts)
    ensures Distinct(TrimSeen(ts, seen)) && WellKinded(TrimSeen(ts, seen))
    decreases ts
  {
    if ts != [] {
      TrimNodes(ts[0].kids, seen);
      TrimNodes(ts[1..], seen);
      var t := TrimSeen(ts, seen);
      if t != TrimSeen(ts[1..], seen) {
        assert t[1..] == TrimSeen(ts[1..], seen);
      }
    }
  }

  /** Only the seen event filters of the forest matter. */
  lemma {:induction false} TrimDepends(ts: seq<Tree>, a: set<Node>, b: set<Node>)
    requires forall n | n in Nodes(ts) && n.kind == Event :: n in a <==> n in b
    ensures TrimSeen(ts, a) == TrimSeen(ts, b)
    decreases ts
  {
    if ts != [] {
      TrimDepends(ts[0].kids, a, b);
      TrimDepends(ts[1..], a, b);
    }
  }

  lemma {:induction false} TrimNothing(ts: seq<Tree>)
    ensures TrimSeen(ts, {}) == ts
    decreases ts
  {
    if ts != [] {
      TrimNothing(ts[0].kids);
      TrimNothing(ts[1..]);
    }
  }

  /** A set of nodes nobody has seen yet, with everything below them. */
  ghost predicate Unseen(ts: seq<Tree>, seen: set<Node>, s: set<Node>) {
    s !! seen && forall b | b in s && b in Members(ts) :: forall m | m in Members(ts)[b] :: m in s
  }

  lemma {:induction false} UnseenBelow(ts: seq<Tree>, seen: set<Node>, s: set<Node>)
    requires Distinct(ts) && Unseen(ts, seen, s)
    requires forall n | n in Roots(ts) :: n in s
    ensures Nodes(ts) <= s
    decreases ts
  {
    if ts != [] {
      MembersSplit(ts);
      assert ts[0].node in Roots(ts) && forall n | n in Roots(ts[1..]) :: n in Roots(ts);
      UnseenBelow(ts[0].kids, seen, s);
      UnseenBelow(ts[1..], seen, s);
    }
  }

  /** Trimming does not disturb what has not been seen. */
  lemma {:induction false} UnseenKept(ts: seq<Tree>, seen: set<Node>, s: set<Node>, n: Node)
    requires Distinct(ts) && WellKinded(ts) && Unseen(ts, seen, s)
    requires n in s && n in Nodes(ts)
    ensures n in Members(ts) && n in Members(TrimSeen(ts, seen))
    ensures Members(TrimSeen(ts, seen))[n] == Members(ts)[n]
    decreases ts
  {
    var h, t := ts[0], TrimSeen(ts, seen);
    MembersSplit(ts);
    TrimNodes(ts, seen);
    MembersAreNodes(TrimSeen(h.kids, seen));
    MembersAreNodes(TrimSeen(ts[1..], seen));
    if t != TrimSeen(ts[1..], seen) {
      assert t[1..] == TrimSeen(ts[1..], seen);
      MembersSplit(t);
    }
    if n == h.node {
      UnseenBelow(h.kids, seen, s);
      TrimDepends(h.kids, seen, {});
      TrimNothing(h.kids);
    } else if n in Nodes(h.kids) {
      UnseenKept(h.kids, seen, s, n);
    } else {
      UnseenKept(ts[1..], seen, s, n);
    }
  }

  /** Seeing one more event filter is cutting it out. */
  lemma {:induction false} TrimOneMore(ts: seq<Tree>, seen: set<Node>, e: Node)
    requires Distinct(ts) && WellKinded(ts)
    requires e in Nodes(ts) && e !in seen && e.kind == Event
    requires e in Nodes(TrimSeen(ts, seen))
    ensures TrimSeen(ts, seen + {e}) == Cut(TrimSeen(ts, seen), e)
    decreases ts
  {
    var h := ts[0];
    var more := seen + {e};
    TrimNodes(h.kids, seen);
    TrimNodes(ts[1..], seen);
    if e !in Nodes(h.kids) {
      TrimDepends(h.kids, seen, more);
    }
    if e !in Nodes(ts[1..]) {
      TrimDepends(ts[1..], seen, more);
    }
    if h.node == e {
      assert TrimSeen(ts, seen)[1..] == TrimSeen(ts[1..], seen);
    } else if e in Nodes(h.kids) {
      var k := TrimSeen(h.kids, seen);
      assert e in Nodes(k);
      TrimOneMore(h.kids, seen, e);
      assert TrimSeen(ts, seen)[1..] == TrimSeen(ts[1..], seen);
    } else {
      TrimOneMore(ts[1..], seen, e);
      if TrimSeen(ts, seen) != TrimSeen(ts[1..], seen) {
        assert TrimSeen(ts, seen)[1..] == TrimSeen(ts[1..], seen);
      }
    }
  }

  // ----- What trimming means

  /** The way down to every filter that has no members: its ancestors, outermost first, and itself. */
  ghost function Paths(ts: seq<Tree>): seq<seq<Node>>
    decreases ts
  {
    if ts == [] then []
    else (if ts[0].kids == [] then [[ts[0].node]] else Under(ts[0].node, Paths(ts[0].kids))) + Paths(ts[1..])
  }

  ghost function Under(n: Node, ps: seq<seq<Node>>): seq<seq<Node>> {
    if ps == [] then [] else [[n] + ps[0]] + Under(n, ps[1..])
  }

  ghost predicate EndsInEvent(p: seq<Node>) {
    p != [] && p[|p| - 1].kind == Event
  }

  ghost function NotToEvents(ps: seq<seq<Node>>): seq<seq<Node>> {
    if ps == [] then [] else (if EndsInEvent(ps[0]) then [] else [ps[0]]) + NotToEvents(ps[1..])
  }

  lemma {:induction false} NotToEventsAppend(a: seq<seq<Node>>, b: seq<seq<Node>>)
    ensures NotToEvents(a + b) == NotToEvents(a) + NotToEvents(b)
  {
    if a == [] {
      assert a + b == b;
    } else {
      assert (a + b)[1..] == a[1..] + b;
      NotToEventsAppend(a[1..], b);
    }
  }

  lemma {:induction false} NotToEventsUnder(n: Node, ps: seq<seq<Node>>)
    requires forall p | p in ps :: p != []
    ensures NotToEvents(Under(n, ps)) == Under(n, NotToEvents(ps))
  {
    if ps != [] {
      assert ps[0] in ps && forall p | p in ps[1..] :: p in ps;
      NotToEventsUnder(n, ps[1..]);
      assert EndsInEvent([n] + ps[0]) <==> EndsInEvent(ps[0]);
      assert Under(n, ps)[0] == [n] + ps[0] && Under(n, ps)[1..] == Under(n, ps[1..]);
      var rest := NotToEvents(ps[1..]);
      assert [] + rest == rest && ([ps[0]] + rest)[1..] == rest;
    }
  }

  lemma {:induction false} UnderHolds(n: Node, ps: seq<seq<Node>>)
    ensures forall p | p in Under(n, ps) :: p != [] && p[0] == n && p[1..] in ps
    ensures forall p | p in ps :: [n] + p in Under(n, ps)
  {
    if ps != [] {
      UnderHolds(n, ps[1..]);
      assert ([n] + ps[0])[1..] == ps[0];
    }
  }

  lemma {:induction false} PathsExist(ts: seq<Tree>)
    ensures forall p | p in Paths(ts) :: p != []
    ensures Paths(ts) == [] <==> ts == []
    decreases ts
  {
    if ts != [] {
      PathsExist(ts[0].kids);
      PathsExist(ts[1..]);
      UnderHolds(ts[0].node, Paths(ts[0].kids));
    }
  }

  lemma {:induction false} NodeOnPath(ts: seq<Tree>, n: Node)
    ensures n in Nodes(ts) <==> exists p | p in Paths(ts) :: n in p
    decreases ts
  {
    if ts != [] {
      var h := ts[0];
      NodeOnPath(h.kids, n);
      NodeOnPath(ts[1..], n);
      PathsExist(h.kids);
      var mine := if h.kids == [] then [[h.node]] else Under(h.node, Paths(h.kids));
      assert Paths(ts) == mine + Paths(ts[1..]);
      UnderHolds(h.node, Paths(h.kids));
      OnOwnPath(h, n, mine);
    }
  }

  lemma {:induction false} OnOwnPath(h: Tree, n: Node, mine: seq<seq<Node>>)
    requires n in Nodes(h.kids) <==> exists p | p in Paths(h.kids) :: n in p
    requires mine == if h.kids == [] then [[h.node]] else Under(h.node, Paths(h.kids))
    ensures (n == h.node || n in Nodes(h.kids)) <==> exists p | p in mine :: n in p
  {
    if h.kids == [] {
      assert [h.node] in mine;
    } else {
      UnderHolds(h.node, Paths(h.kids));
      PathsExist(h.kids);
      if n == h.node {
        var q := Paths(h.kids)[0];
        assert [n] + q in mine;
      } else if n in Nodes(h.kids) {
        var q :| q in Paths(h.kids) && n in q;
        assert [h.node] + q in mine;
      }
    }
  }

  /** Trimming keeps exactly the ways down to something other than an event filter, with the
      same ancestors and in the same order. */
  lemma {:induction false} TrimKeepsPaths(ts: seq<Tree>, seen: set<Node>)
    requires WellKinded(ts) && Nodes(ts) <= seen
    ensures Paths(TrimSeen(ts, seen)) == NotToEvents(Paths(ts))
    decreases ts
  {
    if ts != [] {
      var h, t := ts[0], TrimSeen(ts, seen);
      TrimKeepsPaths(h.kids, seen);
      TrimKeepsPaths(ts[1..], seen);
      var mine := if h.kids == [] then [[h.node]] else Under(h.node, Paths(h.kids));
      NotToEventsAppend(mine, Paths(ts[1..]));
      PathsExist(h.kids);
      PathsExist(TrimSeen(h.kids, seen));
      NotToEventsUnder(h.node, Paths(h.kids));
      if t != TrimSeen(ts[1..], seen) {
        assert t[1..] == TrimSeen(ts[1..], seen);
      }
    }
  }

  lemma {:induction false} TrimHasNoEvent(ts: seq<Tree>, seen: set<Node>)
    requires WellKinded(ts) && Nodes(ts) <= seen
    ensures forall n | n in Nodes(TrimSeen(ts, seen)) :: n.kind != Event
    decreases ts
  {
    if ts != [] {
      TrimHasNoEvent(ts[0].kids, seen);
      TrimHasNoEvent(ts[1..], seen);
      var t := TrimSeen(ts, seen);
      if t != TrimSeen(ts[1..], seen) {
        assert t[1..] == TrimSeen(ts[1..], seen);
      }
    }
  }

  /** A filter survives exactly when it leads to, or is, something other than an event filter;
      in particular a block goes exactly when it had members and only event filters at the bottom. */
  lemma TrimSurvivors(ts: seq<Tree>, n: Node)
    requires WellKinded(ts)
    ensures n in Nodes(Trim(ts)) <==> exists p | p in Paths(ts) :: n in p && !EndsInEvent(p)
  {
    TrimKeepsPaths(ts, Nodes(ts));
    NodeOnPath(Trim(ts), n);
    NotToEventsHolds(Paths(ts));
    assert Paths(Trim(ts)) == NotToEvents(Paths(ts));
    if n in Nodes(Trim(ts)) {
      var p :| p in Paths(Trim(ts)) && n in p;
      assert p in NotToEvents(Paths(ts));
    } else {
      forall p | p in Paths(ts) && n in p
        ensures EndsInEvent(p)
      {
        assert !EndsInEvent(p) ==> p in Paths(Trim(ts));
      }
    }
  }

  lemma {:induction false} NotToEventsHolds(ps: seq<seq<Node>>)
    ensures forall p :: p in NotToEvents(ps) <==> p in ps && !EndsInEvent(p)
  {
    if ps != [] {
      NotToEventsHolds(ps[1..]);
    }
  }
}
