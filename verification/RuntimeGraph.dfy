/** Blast radius over the runtime graph: a breadth-first search from every affected node along edges in
  * both directions, out to a bounded depth. */
module RuntimeGraph {
  import opened Domain

  datatype Node = Node(id: string, name: string, owner: string, criticality: Criticality)

  datatype Edge = Edge(from: string, to: string)

  datatype SystemRef = SystemRef(name: string, owner: string, criticality: Criticality)

  datatype Fragment = Fragment(nodes: seq<Node>, edges: seq<Edge>, affected: seq<string>)

  const DEFAULT_DEPTH: nat := 3

  function Bound(maxDepth: int): nat {
    if maxDepth <= 0 then DEFAULT_DEPTH else maxDepth
  }

  function CriticalityRank(value: Criticality): nat {
    match value
    case CriticalityTier0 => 4
    case CriticalityHigh => 3
    case CriticalityNormal => 2
    case _ => 1
  }

  function Ref(node: Node): SystemRef {
    SystemRef(node.name, node.owner, node.criticality)
  }

  // ---- What the traversal means ---------------------------------------------------------------------

  predicate Linked(edges: seq<Edge>, a: string, b: string) {
    Edge(a, b) in edges || Edge(b, a) in edges
  }

  /** A walk of |w| - 1 links. */
  predicate Walk(edges: seq<Edge>, w: seq<string>) {
    && w != []
    && forall i | 0 <= i < |w| - 1 :: Linked(edges, w[i], w[i + 1])
  }

  ghost predicate WalkFrom(edges: seq<Edge>, affected: seq<string>, id: string, w: seq<string>) {
    Walk(edges, w) && w[0] in affected && w[|w| - 1] == id
  }

  /** id is at most d links away from some affected id; the ends of an edge need not be known nodes. */
  ghost predicate Within(edges: seq<Edge>, affected: seq<string>, id: string, d: int) {
    exists w :: WalkFrom(edges, affected, id, w) && |w| <= d + 1
  }

  /** d is the least number of links from an affected id. */
  ghost predicate Distance(edges: seq<Edge>, affected: seq<string>, id: string, d: nat) {
    Within(edges, affected, id, d) && !Within(edges, affected, id, d - 1)
  }

  /** The system a node id stands for: that of the last node declared with it. */
  function SystemOf(nodes: seq<Node>, id: string): Option<SystemRef> {
    if nodes == [] then None
    else
      var last := nodes[|nodes| - 1];
      if last.id == id then Some(Ref(last)) else SystemOf(nodes[..|nodes| - 1], id)
  }

  /** The systems of the known ids in an order of visits. */
  function Emitted(nodes: seq<Node>, order: seq<string>): seq<SystemRef> {
    if order == [] then []
    else
      var last := order[|order| - 1];
      var before := Emitted(nodes, order[..|order| - 1]);
      if SystemOf(nodes, last).Some? then before + [SystemOf(nodes, last).value] else before
  }

  // ---- What is emitted, node by node ----------------------------------------------------------------

  /** The last node declared with its id: the one whose data count. */
  predicate Counts(nodes: seq<Node>, i: nat) {
    i < |nodes| && forall j | i < j < |nodes| :: nodes[j].id != nodes[i].id
  }

  predicate Declared(nodes: seq<Node>, id: string) {
    exists i | 0 <= i < |nodes| :: nodes[i].id == id
  }

  /** The system shows the data of the last node declared with the id. */
  ghost predicate Shows(nodes: seq<Node>, system: SystemRef, id: string) {
    exists i | 0 <= i < |nodes| ::
      Counts(nodes, i) && nodes[i].id == id
      && system.name == nodes[i].name && system.owner == nodes[i].owner && system.criticality == nodes[i].criticality
  }

  /** Each system shows the id at its place in the order, the places go up, and no place of a declared id is
    * left out. */
  ghost predicate Lists(systems: seq<SystemRef>, nodes: seq<Node>, order: seq<string>, places: seq<nat>) {
    && |places| == |systems|
    && (forall j, k | 0 <= j < k < |places| :: places[j] < places[k])
    && (forall j | 0 <= j < |places| :: places[j] < |order| && Shows(nodes, systems[j], order[places[j]]))
    && (forall n | 0 <= n < |order| && Declared(nodes, order[n]) :: n in places)
  }

  lemma {:induction false} SystemOfShows(nodes: seq<Node>, id: string)
    ensures SystemOf(nodes, id).Some? <==> Declared(nodes, id)
    ensures SystemOf(nodes, id).Some? ==> Shows(nodes, SystemOf(nodes, id).value, id)
  {
    if nodes != [] && nodes[|nodes| - 1].id != id {
      var before := nodes[..|nodes| - 1];
      SystemOfShows(before, id);
      if SystemOf(before, id).Some? {
        var i :| 0 <= i < |before| && Counts(before, i) && before[i].id == id
                 && SystemOf(before, id).value == SystemRef(before[i].name, before[i].owner, before[i].criticality);
        assert Counts(nodes, i) && nodes[i].id == id;
      }
      assert Declared(nodes, id) <==> Declared(before, id);
    } else if nodes != [] {
      assert Counts(nodes, |nodes| - 1);
    }
  }

  lemma {:induction false} EmittedLists(nodes: seq<Node>, order: seq<string>) returns (places: seq<nat>)
    ensures Lists(Emitted(nodes, order), nodes, order, places)
  {
    hide SystemOf, Shows, Declared;
    if order == [] {
      places := [];
    } else {
      var last := |order| - 1;
      places := EmittedLists(nodes, order[..last]);
      SystemOfShows(nodes, order[last]);
      if SystemOf(nodes, order[last]).Some? {
        places := places + [last];
      }
    }
  }

  /** So the systems are those of the declared ids in the order, one for each place. */
  lemma ListedSystems(systems: seq<SystemRef>, nodes: seq<Node>, order: seq<string>, places: seq<nat>,
                      system: SystemRef)
    requires Lists(systems, nodes, order, places)
    ensures system in systems <==> exists id | id in order :: Shows(nodes, system, id)
  {
    hide Counts;
    if id :| id in order && Shows(nodes, system, id) {
      var n :| 0 <= n < |order| && order[n] == id;
      assert Declared(nodes, order[n]);
      var j :| 0 <= j < |places| && places[j] == n;
      ShownOnce(nodes, system, systems[j], id);
    }
  }

  lemma ShownOnce(nodes: seq<Node>, a: SystemRef, b: SystemRef, id: string)
    requires Shows(nodes, a, id) && Shows(nodes, b, id)
    ensures a == b
  {
  }

  function TopRank(systems: seq<SystemRef>): (rank: nat)
    ensures 1 <= rank <= 4
  {
    if systems == [] then 1
    else
      var before := TopRank(systems[..|systems| - 1]);
      var last := CriticalityRank(systems[|systems| - 1].criticality);
      if last > before then last else before
  }

  /** The criticality of a rank; the lowest rank is what the result starts with, so it stays empty. */
  function OfRank(rank: nat): Criticality {
    match rank
    case 4 => CriticalityTier0
    case 3 => CriticalityHigh
    case 2 => CriticalityNormal
    case _ => CriticalityOther("")
  }

  lemma {:induction false} TopRankIsHighest(systems: seq<SystemRef>)
    ensures forall s | s in systems :: CriticalityRank(s.criticality) <= TopRank(systems)
    ensures TopRank(systems) == 1 || exists s | s in systems :: s.criticality == OfRank(TopRank(systems))
  {
    if systems != [] {
      TopRankIsHighest(systems[..|systems| - 1]);
      assert systems == systems[..|systems| - 1] + [systems[|systems| - 1]];
    }
  }

  // ---- Laws of distance -----------------------------------------------------------------------------

  lemma WithinExtends(edges: seq<Edge>, affected: seq<string>, a: string, b: string, d: nat)
    requires Within(edges, affected, a, d) && Linked(edges, a, b)
    ensures Within(edges, affected, b, d + 1)
  {
    var w :| WalkFrom(edges, affected, a, w) && |w| <= d + 1;
    assert WalkFrom(edges, affected, b, w + [b]);
  }

  lemma WithinMonotone(edges: seq<Edge>, affected: seq<string>, id: string, d: int, e: int)
    requires Within(edges, affected, id, d) && d <= e
    ensures Within(edges, affected, id, e)
  {
  }

  function Reversed(w: seq<string>): (r: seq<string>)
    ensures |r| == |w|
    ensures forall i | 0 <= i < |w| :: r[i] == w[|w| - 1 - i]
  {
    if w == [] then [] else Reversed(w[1..]) + [w[0]]
  }

  /** Reachability from a single source is symmetric. */
  lemma WithinSymmetric(edges: seq<Edge>, a: string, b: string, d: int)
    requires Within(edges, [a], b, d)
    ensures Within(edges, [b], a, d)
  {
    var w :| WalkFrom(edges, [a], b, w) && |w| <= d + 1;
    var r := Reversed(w);
    forall i | 0 <= i < |r| - 1
      ensures Linked(edges, r[i], r[i + 1])
    {
      assert Linked(edges, w[|w| - 2 - i], w[|w| - 2 - i + 1]);
    }
    assert WalkFrom(edges, [b], a, r);
  }

  /** It distributes over the union of affected ids. */
  lemma WithinUnion(edges: seq<Edge>, a: seq<string>, b: seq<string>, id: string, d: int)
    ensures Within(edges, a + b, id, d) <==> Within(edges, a, id, d) || Within(edges, b, id, d)
  {
    if Within(edges, a + b, id, d) {
      var w :| WalkFrom(edges, a + b, id, w) && |w| <= d + 1;
      assert WalkFrom(edges, a, id, w) || WalkFrom(edges, b, id, w);
    }
    if Within(edges, a, id, d) {
      var w :| WalkFrom(edges, a, id, w) && |w| <= d + 1;
      assert WalkFrom(edges, a + b, id, w);
    }
    if Within(edges, b, id, d) {
      var w :| WalkFrom(edges, b, id, w) && |w| <= d + 1;
      assert WalkFrom(edges, a + b, id, w);
    }
  }

  // ---- The search state -----------------------------------------------------------------------------

  /** Ids already handled, ids waiting, ids ever queued, and the recorded depths. A missing depth reads as
    * zero, as a Go map does. */
  datatype Search = Search(order: seq<string>, queue: seq<string>, visited: set<string>, depth: map<string, nat>) {
    function D(id: string): nat {
      if id in depth then depth[id] else 0
    }
  }

  ghost predicate Covered(s: Search) {
    forall id :: id in s.visited <==> id in s.order || id in s.queue
  }

  ghost predicate Witnessed(s: Search, edges: seq<Edge>, affected: seq<string>, bound: nat) {
    && (forall id | id in s.visited :: Within(edges, affected, id, s.D(id)) && s.D(id) <= bound)
    && (forall id | id in affected :: id in s.visited && s.D(id) == 0)
  }

  /** Depths never go down from the first id handled to the last one waiting, and the waiting ones span at
    * most two levels. */
  ghost predicate Layered(s: Search) {
    var all := s.order + s.queue;
    && (forall i, j | 0 <= i < j < |all| :: s.D(all[i]) <= s.D(all[j]))
    && (forall q | q in s.queue :: s.D(q) <= s.D(s.queue[0]) + 1)
  }

  /** Every link of a handled id above the bound leads to a queued id at most one level further. */
  ghost predicate Closed(s: Search, edges: seq<Edge>, bound: nat) {
    forall a, b | a in s.order && s.D(a) < bound && Linked(edges, a, b) :: b in s.visited && s.D(b) <= s.D(a) + 1
  }

  ghost function Elements(ids: seq<string>): set<string> {
    set id | id in ids
  }

  /** Affected ids are queued as often as they are listed, all others once. */
  ghost predicate Counted(s: Search, affected: seq<string>) {
    multiset(s.order) + multiset(s.queue) == multiset(affected) + multiset(s.visited - Elements(affected))
  }

  ghost predicate SearchInv(s: Search, edges: seq<Edge>, affected: seq<string>, bound: nat) {
    && Covered(s)
    && Witnessed(s, edges, affected, bound)
    && Layered(s)
    && Closed(s, edges, bound)
    && Counted(s, affected)
  }

  /** One iteration: the head of the queue is handled and its unvisited neighbours join the end, unless it
    * already sits at the bound. */
  ghost predicate Expands(s: Search, t: Search, found: seq<string>, edges: seq<Edge>, bound: nat) {
    && s.queue != []
    && var id := s.queue[0];
       && t.order == s.order + [id]
       && t.queue == s.queue[1..] + found
       && t.visited == s.visited + Elements(found)
       && (forall i, j | 0 <= i < j < |found| :: found[i] != found[j])
       && (forall x | x in found :: x !in s.visited)
       && (forall x :: t.D(x) == if x in found then s.D(id) + 1 else s.D(x))
       && (forall x :: x in found <==> s.D(id) < bound && Linked(edges, id, x) && x !in s.visited)
  }

  lemma ExpandsKeepsCovered(s: Search, t: Search, found: seq<string>, edges: seq<Edge>, bound: nat)
    requires Covered(s) && Expands(s, t, found, edges, bound)
    ensures Covered(t)
  {
    assert s.queue == [s.queue[0]] + s.queue[1..];
  }

  lemma ExpandsKeepsWitnessed(s: Search, t: Search, found: seq<string>, edges: seq<Edge>, affected: seq<string>,
                              bound: nat)
    requires Covered(s) && Witnessed(s, edges, affected, bound) && Expands(s, t, found, edges, bound)
    ensures Witnessed(t, edges, affected, bound)
  {
    hide Within, Linked;
    var id := s.queue[0];
    forall x | x in t.visited
      ensures Within(edges, affected, x, t.D(x)) && t.D(x) <= bound
    {
      if x in found {
        WithinExtends(edges, affected, id, x, s.D(id));
      }
    }
  }

  lemma ExpandsKeepsLayered(s: Search, t: Search, found: seq<string>, edges: seq<Edge>, bound: nat)
    requires Covered(s) && Layered(s) && Expands(s, t, found, edges, bound)
    ensures Layered(t)
  {
    hide Linked;
    var id := s.queue[0];
    var earlier, all := s.order + s.queue, t.order + t.queue;
    assert all == earlier + found;
    forall x | x in earlier
      ensures t.D(x) == s.D(x) && s.D(x) <= s.D(id) + 1
    {
      HeadBounds(s, x);
    }
    forall q | q in t.queue
      ensures t.D(q) <= t.D(t.queue[0]) + 1
    {
      QueueAboveHead(s, t.queue[0], found);
    }
  }

  lemma HeadBounds(s: Search, x: string)
    requires Layered(s) && s.queue != [] && x in s.order + s.queue
    ensures s.D(x) <= s.D(s.queue[0]) + 1
  {
    var all := s.order + s.queue;
    assert all[|s.order|] == s.queue[0];
    if x in s.order {
      var i :| 0 <= i < |s.order| && s.order[i] == x;
      assert all[i] == x;
    }
  }

  lemma QueueAboveHead(s: Search, x: string, found: seq<string>)
    requires Layered(s) && s.queue != [] && x in s.queue[1..] + found
    ensures x in found || s.D(s.queue[0]) <= s.D(x)
  {
    if x !in found {
      var i :| 0 < i < |s.queue| && s.queue[i] == x;
      var all := s.order + s.queue;
      assert all[|s.order|] == s.queue[0] && all[|s.order| + i] == x;
    }
  }

  lemma ExpandsKeepsClosed(s: Search, t: Search, found: seq<string>, edges: seq<Edge>, bound: nat)
    requires Covered(s) && Layered(s) && Closed(s, edges, bound) && Expands(s, t, found, edges, bound)
    ensures Closed(t, edges, bound)
  {
    hide Linked;
    var id := s.queue[0];
    forall a, b | a in t.order && t.D(a) < bound && Linked(edges, a, b)
      ensures b in t.visited && t.D(b) <= t.D(a) + 1
    {
      if a !in s.order {
        if b in s.visited {
          HeadBounds(s, b);
        }
      }
    }
  }

  lemma ExpandsKeepsCounted(s: Search, t: Search, found: seq<string>, edges: seq<Edge>, affected: seq<string>,
                            bound: nat)
    requires Covered(s) && Counted(s, affected) && Expands(s, t, found, edges, bound)
    requires forall x | x in affected :: x in s.visited
    ensures Counted(t, affected)
  {
    hide Linked, Covered;
    DistinctMultiset(found);
    CountMore(s.order, s.queue, s.visited, affected, found);
  }

  lemma CountMore(order: seq<string>, queue: seq<string>, visited: set<string>, affected: seq<string>,
                  found: seq<string>)
    requires queue != [] && multiset(found) == multiset(Elements(found))
    requires multiset(order) + multiset(queue) == multiset(affected) + multiset(visited - Elements(affected))
    requires (forall x | x in affected :: x in visited) && forall x | x in found :: x !in visited
    ensures multiset(order + [queue[0]]) + multiset(queue[1..] + found) ==
            multiset(affected) + multiset(visited + Elements(found) - Elements(affected))
  {
    var rest := visited - Elements(affected);
    assert queue == [queue[0]] + queue[1..];
    assert visited + Elements(found) - Elements(affected) == rest + Elements(found);
    assert rest !! Elements(found);
    assert multiset(rest + Elements(found)) == multiset(rest) + multiset(Elements(found));
    assert multiset(queue) == multiset{queue[0]} + multiset(queue[1..]);
    assert multiset(order + [queue[0]]) == multiset(order) + multiset{queue[0]};
    assert multiset(queue[1..] + found) == multiset(queue[1..]) + multiset(found);
    assert multiset(order + [queue[0]]) + multiset(queue[1..] + found) == multiset(order) + multiset(queue) +
           multiset(found);
  }

  lemma {:induction false} DistinctMultiset(ids: seq<string>)
    requires forall i, j | 0 <= i < j < |ids| :: ids[i] != ids[j]
    ensures multiset(ids) == multiset(Elements(ids))
  {
    if ids != [] {
      DistinctMultiset(ids[1..]);
      assert ids == [ids[0]] + ids[1..];
      assert Elements(ids) == {ids[0]} + Elements(ids[1..]);
    }
  }

  lemma ExpandsKeepsInv(s: Search, t: Search, found: seq<string>, edges: seq<Edge>, affected: seq<string>, bound: nat)
    requires SearchInv(s, edges, affected, bound) && Expands(s, t, found, edges, bound)
    ensures SearchInv(t, edges, affected, bound)
  {
    hide Covered, Layered, Closed, Counted, Expands, Within;
    ExpandsKeepsCovered(s, t, found, edges, bound);
    ExpandsKeepsWitnessed(s, t, found, edges, affected, bound);
    ExpandsKeepsLayered(s, t, found, edges, bound);
    ExpandsKeepsClosed(s, t, found, edges, bound);
    ExpandsKeepsCounted(s, t, found, edges, affected, bound);
  }

  lemma InitialInv(edges: seq<Edge>, affected: seq<string>, bound: nat)
    ensures SearchInv(Search([], affected, Elements(affected), map[]), edges, affected, bound)
  {
    hide Covered, Witnessed, Layered, Closed, Counted;
    InitialShape(edges, affected, bound);
    InitialWitnesses(edges, affected, bound);
  }

  lemma InitialShape(edges: seq<Edge>, affected: seq<string>, bound: nat)
    ensures var s := Search([], affected, Elements(affected), map[]);
            Covered(s) && Layered(s) && Closed(s, edges, bound) && Counted(s, affected)
  {
    hide Linked;
    assert [] + affected == affected;
    assert Elements(affected) - Elements(affected) == {};
  }

  lemma InitialWitnesses(edges: seq<Edge>, affected: seq<string>, bound: nat)
    ensures Witnessed(Search([], affected, Elements(affected), map[]), edges, affected, bound)
  {
    hide Within;
    forall id | id in affected
      ensures Within(edges, affected, id, 0)
    {
      WithinSelf(edges, affected, id);
    }
  }

  lemma WithinSelf(edges: seq<Edge>, affected: seq<string>, id: string)
    requires id in affected
    ensures Within(edges, affected, id, 0)
  {
    hide Linked;
    assert WalkFrom(edges, affected, id, [id]);
  }

  /** With an empty queue, every walk within the bound ends at a handled id of no greater depth. */
  lemma {:induction false} WalksAreCovered(s: Search, edges: seq<Edge>, affected: seq<string>, bound: nat,
                                           w: seq<string>)
    requires SearchInv(s, edges, affected, bound) && s.queue == []
    requires w != [] && WalkFrom(edges, affected, w[|w| - 1], w) && |w| <= bound + 1
    ensures w[|w| - 1] in s.order && s.D(w[|w| - 1]) <= |w| - 1
  {
    if |w| > 1 {
      var u := w[..|w| - 1];
      assert Linked(edges, w[|w| - 2], w[|w| - 2 + 1]);
      WalksAreCovered(s, edges, affected, bound, u);
    }
  }

  lemma FinalSearch(s: Search, edges: seq<Edge>, affected: seq<string>, bound: nat, id: string)
    requires SearchInv(s, edges, affected, bound) && s.queue == []
    ensures id in s.order <==> Within(edges, affected, id, bound)
    ensures id in s.order ==> Distance(edges, affected, id, s.D(id))
  {
    if Within(edges, affected, id, bound) {
      var w :| WalkFrom(edges, affected, id, w) && |w| <= bound + 1;
      WalksAreCovered(s, edges, affected, bound, w);
    }
    if id in s.order {
      assert Within(edges, affected, id, s.D(id)) && s.D(id) <= bound;
      WithinMonotone(edges, affected, id, s.D(id), bound);
      if Within(edges, affected, id, s.D(id) - 1) {
        var w :| WalkFrom(edges, affected, id, w) && |w| <= s.D(id);
        WalksAreCovered(s, edges, affected, bound, w);
      }
    }
  }

  // ---- The traversal --------------------------------------------------------------------------------

  method IndexNodes(nodes: seq<Node>) returns (index: map<string, SystemRef>)
    ensures forall id :: (if id in index then Some(index[id]) else None) == SystemOf(nodes, id)
  {
    index := map[];
    for i := 0 to |nodes|
      invariant forall id :: (if id in index then Some(index[id]) else None) == SystemOf(nodes[..i], id)
    {
      index := index[nodes[i].id := Ref(nodes[i])];
      assert nodes[..i + 1][..i] == nodes[..i];
    }
    assert nodes[..|nodes|] == nodes;
  }

  function Neighbours(adjacency: map<string, seq<string>>, id: string): seq<string> {
    if id in adjacency then adjacency[id] else []
  }

  /** Each edge is entered at both of its ends. */
  method IndexEdges(edges: seq<Edge>) returns (adjacency: map<string, seq<string>>)
    ensures forall a, b :: b in Neighbours(adjacency, a) <==> Linked(edges, a, b)
  {
    adjacency := map[];
    for i := 0 to |edges|
      invariant forall a, b :: b in Neighbours(adjacency, a) <==> Linked(edges[..i], a, b)
    {
      var edge := edges[i];
      var outward := adjacency[edge.from := Neighbours(adjacency, edge.from) + [edge.to]];
      ghost var before := adjacency;
      adjacency := outward[edge.to := Neighbours(outward, edge.to) + [edge.from]];
      assert edges[..i + 1] == edges[..i] + [edge];
      forall a, b
        ensures b in Neighbours(adjacency, a) <==> Linked(edges[..i + 1], a, b)
      {
        assert b in Neighbours(before, a) <==> Linked(edges[..i], a, b);
      }
    }
    assert edges[..|edges|] == edges;
  }

  /** Queues the neighbours not visited yet, in the order they are listed. */
  method VisitNeighbours(neighbours: seq<string>, level: nat, visited0: set<string>, depth0: map<string, nat>,
                         queue0: seq<string>)
    returns (visited: set<string>, depth: map<string, nat>, queue: seq<string>, ghost found: seq<string>)
    requires depth0.Keys <= visited0
    ensures queue == queue0 + found && visited == visited0 + Elements(found)
    ensures forall i, j | 0 <= i < j < |found| :: found[i] != found[j]
    ensures forall x :: x in found <==> x in neighbours && x !in visited0
    ensures depth.Keys == depth0.Keys + Elements(found)
    ensures forall x | x in depth :: depth[x] == if x in found then level else depth0[x]
  {
    visited, depth, queue, found := visited0, depth0, queue0, [];
    for i := 0 to |neighbours|
      invariant queue == queue0 + found && visited == visited0 + Elements(found)
      invariant forall k, l | 0 <= k < l < |found| :: found[k] != found[l]
      invariant forall x :: x in found <==> x in neighbours[..i] && x !in visited0
      invariant depth.Keys == depth0.Keys + Elements(found)
      invariant forall x | x in depth :: depth[x] == if x in found then level else depth0[x]
    {
      var next := neighbours[i];
      assert neighbours[..i + 1] == neighbours[..i] + [next];
      if next !in visited {
        visited := visited + {next};
        depth := depth[next := level];
        queue := queue + [next];
        found := found + [next];
      }
    }
    assert neighbours[..|neighbours|] == neighbours;
  }

  /** Emits the systems of exactly the known ids within the bound, nearest first; an id is handled once,
    * or as often as it is listed as affected; the criticality is the highest one among them, if above low. */
  method TraverseGraph(fragment: Fragment, maxDepth: int)
    returns (systems: seq<SystemRef>, criticality: Criticality, ghost order: seq<string>)
    ensures systems == Emitted(fragment.nodes, order)
    ensures exists places :: Lists(systems, fragment.nodes, order, places)
    ensures criticality == OfRank(TopRank(systems))
    ensures forall id :: id in order <==> Within(fragment.edges, fragment.affected, id, Bound(maxDepth))
    ensures forall i, j, d, e | 0 <= i < j < |order|
              && Distance(fragment.edges, fragment.affected, order[i], d)
              && Distance(fragment.edges, fragment.affected, order[j], e) :: d <= e
    ensures multiset(order) == multiset(fragment.affected) + multiset(Elements(order) - Elements(fragment.affected))
  {
    hide Within, Linked, SearchInv, Distance, Emitted, TopRank, Expands, SystemOf, Vertices;
    var bound := if maxDepth <= 0 then DEFAULT_DEPTH else maxDepth;
    var nodes := IndexNodes(fragment.nodes);
    var adjacency := IndexEdges(fragment.edges);
    var visited: set<string> := set id | id in fragment.affected;
    var queue := fragment.affected;
    var depth: map<string, nat> := map[];
    systems, criticality, order := [], CriticalityOther(""), [];
    StartOfSearch(fragment, bound);
    ghost var vertices := Vertices(fragment);
    while queue != []
      invariant SearchInv(Search(order, queue, visited, depth), fragment.edges, fragment.affected, bound)
      invariant depth.Keys <= visited <= vertices
      invariant systems == Emitted(fragment.nodes, order)
      invariant criticality == OfRank(TopRank(systems))
      decreases |vertices - visited| + |queue|
    {
      ghost var s := Search(order, queue, visited, depth);
      systems, criticality := Emit(nodes, systems, criticality, queue[0], fragment.nodes, order);
      ghost var found;
      queue, visited, depth, found := HandleHead(adjacency, bound, queue, visited, depth, fragment, order);
      order := order + [s.queue[0]];
      DropsByOne(vertices, s.visited, found);
      ExpandsKeepsInv(s, Search(order, queue, visited, depth), found, fragment.edges, fragment.affected, bound);
    }
    FinalAnswer(Search(order, queue, visited, depth), fragment, bound);
    ghost var places := EmittedLists(fragment.nodes, order);
  }

  /** Takes the head off the queue and, above the bound, queues its unvisited neighbours. */
  method HandleHead(adjacency: map<string, seq<string>>, bound: nat, queue0: seq<string>, visited0: set<string>,
                    depth0: map<string, nat>, ghost fragment: Fragment, ghost order0: seq<string>)
    returns (queue: seq<string>, visited: set<string>, depth: map<string, nat>, ghost found: seq<string>)
    requires queue0 != [] && depth0.Keys <= visited0
    requires forall a, b :: b in Neighbours(adjacency, a) <==> Linked(fragment.edges, a, b)
    ensures Expands(Search(order0, queue0, visited0, depth0), Search(order0 + [queue0[0]], queue, visited, depth),
                    found, fragment.edges, bound)
    ensures depth.Keys <= visited && visited == visited0 + Elements(found) && |queue| == |queue0| - 1 + |found|
    ensures Elements(found) <= Vertices(fragment)
    ensures forall i, j | 0 <= i < j < |found| :: found[i] != found[j]
    ensures forall x | x in found :: x !in visited0
  {
    hide Linked, Vertices, Expands;
    var id := queue0[0];
    queue, visited, depth, found := queue0[1..], visited0, depth0, [];
    var level := if id in depth then depth[id] else 0;
    if level < bound {
      visited, depth, queue, found := VisitNeighbours(Neighbours(adjacency, id), level + 1, visited, depth, queue);
    } else {
      assert Elements(found) == {};
    }
    NeighboursAreVertices(fragment, id, found);
    IterationExpands(Search(order0, queue0, visited0, depth0), Search(order0 + [id], queue, visited, depth), found,
                     fragment.edges, bound);
  }

  method Emit(index: map<string, SystemRef>, systems0: seq<SystemRef>, criticality0: Criticality, id: string,
              ghost nodes: seq<Node>, ghost before: seq<string>)
    returns (systems: seq<SystemRef>, criticality: Criticality)
    requires (if id in index then Some(index[id]) else None) == SystemOf(nodes, id)
    requires systems0 == Emitted(nodes, before) && criticality0 == OfRank(TopRank(systems0))
    ensures systems == Emitted(nodes, before + [id]) && criticality == OfRank(TopRank(systems))
  {
    hide Emitted, SystemOf, TopRank;
    systems, criticality := systems0, criticality0;
    EmittedNext(nodes, before, id);
    if id in index {
      var system := index[id];
      systems := systems + [system];
      TopRankNext(systems0, system);
      if CriticalityRank(system.criticality) > CriticalityRank(criticality) {
        criticality := system.criticality;
      }
    }
  }

  lemma EmittedNext(nodes: seq<Node>, order: seq<string>, id: string)
    ensures Emitted(nodes, order + [id]) ==
            Emitted(nodes, order) + if SystemOf(nodes, id).Some? then [SystemOf(nodes, id).value] else []
  {
    hide SystemOf;
    assert (order + [id])[..|order|] == order;
  }

  lemma TopRankNext(systems: seq<SystemRef>, system: SystemRef)
    ensures var before, rank := TopRank(systems), CriticalityRank(system.criticality);
            TopRank(systems + [system]) == if rank > before then rank else before
  {
    hide CriticalityRank;
    assert (systems + [system])[..|systems|] == systems;
  }

  lemma StartOfSearch(fragment: Fragment, bound: nat)
    ensures SearchInv(Search([], fragment.affected, Elements(fragment.affected), map[]), fragment.edges,
                      fragment.affected, bound)
    ensures Elements(fragment.affected) <= Vertices(fragment)
    ensures Emitted(fragment.nodes, []) == [] && TopRank([]) == 1
  {
    InitialInv(fragment.edges, fragment.affected, bound);
  }

  lemma IterationExpands(s: Search, t: Search, found: seq<string>, edges: seq<Edge>, bound: nat)
    requires s.queue != []
    requires t.order == s.order + [s.queue[0]] && t.queue == s.queue[1..] + found
    requires t.visited == s.visited + Elements(found)
    requires forall i, j | 0 <= i < j < |found| :: found[i] != found[j]
    requires forall x :: x in found <==> s.D(s.queue[0]) < bound && Linked(edges, s.queue[0], x) && x !in s.visited
    requires s.depth.Keys <= s.visited && t.depth.Keys == s.depth.Keys + Elements(found)
    requires forall x | x in t.depth :: t.depth[x] == if x in found then s.D(s.queue[0]) + 1 else s.depth[x]
    ensures Expands(s, t, found, edges, bound)
  {
  }

  lemma DistanceIsUnique(edges: seq<Edge>, affected: seq<string>, id: string, d: nat, e: nat)
    requires Distance(edges, affected, id, d) && Distance(edges, affected, id, e)
    ensures d == e
  {
    if d < e {
      WithinMonotone(edges, affected, id, d, e - 1);
    } else if e < d {
      WithinMonotone(edges, affected, id, e, d - 1);
    }
  }

  lemma FinalAnswer(s: Search, fragment: Fragment, bound: nat)
    requires SearchInv(s, fragment.edges, fragment.affected, bound) && s.queue == []
    ensures forall id :: id in s.order <==> Within(fragment.edges, fragment.affected, id, bound)
    ensures forall i, j, d, e | 0 <= i < j < |s.order|
              && Distance(fragment.edges, fragment.affected, s.order[i], d)
              && Distance(fragment.edges, fragment.affected, s.order[j], e) :: d <= e
    ensures multiset(s.order) ==
            multiset(fragment.affected) + multiset(Elements(s.order) - Elements(fragment.affected))
  {
    hide Within, Distance;
    forall id
      ensures id in s.order <==> Within(fragment.edges, fragment.affected, id, bound)
    {
      FinalSearch(s, fragment.edges, fragment.affected, bound, id);
    }
    forall i, j, d, e | 0 <= i < j < |s.order|
              && Distance(fragment.edges, fragment.affected, s.order[i], d)
              && Distance(fragment.edges, fragment.affected, s.order[j], e)
      ensures d <= e
    {
      FinalSearch(s, fragment.edges, fragment.affected, bound, s.order[i]);
      FinalSearch(s, fragment.edges, fragment.affected, bound, s.order[j]);
      DistanceIsUnique(fragment.edges, fragment.affected, s.order[i], d, s.D(s.order[i]));
      DistanceIsUnique(fragment.edges, fragment.affected, s.order[j], e, s.D(s.order[j]));
      assert s.order + s.queue == s.order;
    }
    assert s.visited == Elements(s.order);
    assert multiset(s.queue) == multiset{};
  }

  /** When no affected id is listed twice, no id is handled twice. */
  lemma NoRepeats(order: seq<string>, affected: seq<string>, i: nat, j: nat)
    requires multiset(order) == multiset(affected) + multiset(Elements(order) - Elements(affected))
    requires forall k, l | 0 <= k < l < |affected| :: affected[k] != affected[l]
    requires i < j < |order|
    ensures order[i] != order[j]
  {
    DistinctMultiset(affected);
    var x := order[i];
    assert multiset(order)[x] <= 1 by {
      assert multiset(affected)[x] == multiset(Elements(affected))[x];
      assert multiset(Elements(affected))[x] + multiset(Elements(order) - Elements(affected))[x] <= 1;
    }
    assert order == order[..i + 1] + order[i + 1..];
    assert multiset(order) == multiset(order[..i + 1]) + multiset(order[i + 1..]);
    assert order[..i + 1][i] == x && order[i + 1..][j - i - 1] == order[j];
  }

  /** Affected ids and the ends of edges. */
  ghost function Vertices(fragment: Fragment): set<string> {
    Elements(fragment.affected)
    + (set e | e in fragment.edges :: e.from)
    + (set e | e in fragment.edges :: e.to)
  }

  lemma NeighboursAreVertices(fragment: Fragment, id: string, found: seq<string>)
    requires forall x | x in found :: Linked(fragment.edges, id, x)
    ensures Elements(found) <= Vertices(fragment)
  {
  }

  /** Queueing the new ids takes as many out of the unvisited ones. */
  lemma DropsByOne(vertices: set<string>, visited: set<string>, found: seq<string>)
    requires visited <= vertices && Elements(found) <= vertices
    requires forall i, j | 0 <= i < j < |found| :: found[i] != found[j]
    requires forall x | x in found :: x !in visited
    ensures |vertices - (visited + Elements(found))| + |found| == |vertices - visited|
  {
    DistinctMultiset(found);
    assert |multiset(found)| == |found|;
    assert |Elements(found)| == |found|;
    assert vertices - visited == (vertices - (visited + Elements(found))) + Elements(found);
  }

  // ---- The answer without the search --------------------------------------------------------------------

  /** Exactly the systems of the declared ids within the depth, each showing the last node declared with it. */
  lemma SystemsAreThoseWithin(systems: seq<SystemRef>, order: seq<string>, places: seq<nat>, fragment: Fragment,
                              maxDepth: int, system: SystemRef)
    requires Lists(systems, fragment.nodes, order, places)
    requires forall id :: id in order <==> Within(fragment.edges, fragment.affected, id, Bound(maxDepth))
    ensures var depth := if maxDepth <= 0 then 3 else maxDepth;
            system in systems <==>
            exists id :: Within(fragment.edges, fragment.affected, id, depth) && Shows(fragment.nodes, system, id)
  {
    hide Lists, Within, Shows;
    ListedSystems(systems, fragment.nodes, order, places, system);
    if id :| Within(fragment.edges, fragment.affected, id, Bound(maxDepth)) && Shows(fragment.nodes, system, id) {
      assert id in order;
    }
  }

  /** An earlier system is at no greater distance than a later one. */
  lemma SystemsComeNearestFirst(systems: seq<SystemRef>, order: seq<string>, places: seq<nat>, fragment: Fragment,
                                j: nat, k: nat, d: nat, e: nat)
    requires Lists(systems, fragment.nodes, order, places) && j < k < |systems|
    requires forall a, b, x, y | 0 <= a < b < |order|
               && Distance(fragment.edges, fragment.affected, order[a], x)
               && Distance(fragment.edges, fragment.affected, order[b], y) :: x <= y
    requires Distance(fragment.edges, fragment.affected, order[places[j]], d)
    requires Distance(fragment.edges, fragment.affected, order[places[k]], e)
    ensures Shows(fragment.nodes, systems[j], order[places[j]]) && Shows(fragment.nodes, systems[k], order[places[k]])
    ensures d <= e
  {
    hide Distance, Shows, Declared;
  }

  /** There are as many systems as places in the order with a declared id. */
  lemma AsManyAsDeclared(systems: seq<SystemRef>, nodes: seq<Node>, order: seq<string>, places: seq<nat>)
    requires Lists(systems, nodes, order, places)
    ensures |systems| == |set n | 0 <= n < |order| && Declared(nodes, order[n])|
  {
    hide Counts;
    var declared := set n | 0 <= n < |order| && Declared(nodes, order[n]);
    forall n
      ensures n in declared <==> n in places
    {
      if n in places {
        var j :| 0 <= j < |places| && places[j] == n;
        assert Shows(nodes, systems[j], order[n]);
      }
    }
    IncreasingSize(places, declared);
  }

  lemma {:induction false} IncreasingSize(places: seq<nat>, members: set<int>)
    requires forall j, k | 0 <= j < k < |places| :: places[j] < places[k]
    requires forall n :: n in members <==> n in places
    ensures |places| == |members|
  {
    if places == [] {
      forall n
        ensures n !in members
      {
      }
      assert members == {};
    } else {
      var last := places[|places| - 1];
      assert places == places[..|places| - 1] + [last];
      IncreasingSize(places[..|places| - 1], members - {last});
      assert members == (members - {last}) + {last};
    }
  }

  /** The criticality found: tier 0 if any system has it, else high if any, else normal if any, else none. */
  lemma CriticalityFound(systems: seq<SystemRef>, criticality: Criticality)
    requires criticality == OfRank(TopRank(systems))
    ensures criticality == CriticalityTier0 <==> exists s | s in systems :: s.criticality == CriticalityTier0
    ensures criticality == CriticalityHigh <==>
              && (exists s | s in systems :: s.criticality == CriticalityHigh)
              && (forall s | s in systems :: s.criticality != CriticalityTier0)
    ensures criticality == CriticalityNormal <==>
              && (exists s | s in systems :: s.criticality == CriticalityNormal)
              && (forall s | s in systems :: s.criticality != CriticalityTier0 && s.criticality != CriticalityHigh)
    ensures criticality == CriticalityOther("") || criticality == CriticalityTier0
            || criticality == CriticalityHigh || criticality == CriticalityNormal
  {
    hide TopRank;
    TopRankIsHighest(systems);
  }
}
