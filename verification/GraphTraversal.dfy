/** Breadth-first traversal of the memory graph with a depth cut-off. */
module GraphTraversal {

  /** A row of memory_relationships. */
  datatype Relationship = Relationship(sourceId: string, targetId: string, kind: string, confidence: real)

  predicate Touches(rel: Relationship, id: string) {
    rel.sourceId == id || rel.targetId == id
  }

  /** The rows whose source or target is `id`, in table order. */
  function GetRelationships(table: seq<Relationship>, id: string): seq<Relationship> {
    if table == [] then []
    else (if Touches(table[0], id) then [table[0]] else []) + GetRelationships(table[1..], id)
  }

  lemma {:induction false} RowsTouch(table: seq<Relationship>, id: string, rel: Relationship)
    ensures rel in GetRelationships(table, id) <==> rel in table && Touches(rel, id)
  {
    if table != [] {
      RowsTouch(table[1..], id, rel);
      assert rel in table <==> rel == table[0] || rel in table[1..];
    }
  }

  function Neighbor(rel: Relationship, id: string): string {
    if rel.targetId == id then rel.sourceId else rel.targetId
  }

  // ---------------------------------------------------------------- distance

  /** For every memory, the other ends of its relationships. */
  type Graph = string -> seq<string>

  function NeighborsOf(rels: seq<Relationship>, id: string): seq<string> {
    seq(|rels|, i requires 0 <= i < |rels| => Neighbor(rels[i], id))
  }

  function LinksIn(table: seq<Relationship>): Graph {
    (id: string) => NeighborsOf(GetRelationships(table, id), id)
  }

  /** Two memories are linked when some relationship joins them, in either direction. */
  lemma LinksAreUndirected(table: seq<Relationship>, u: string, v: string)
    ensures v in LinksIn(table)(u) <==>
      exists rel ::
        && rel in table
        && ((rel.sourceId == u && rel.targetId == v) || (rel.sourceId == v && rel.targetId == u))
  {
    var rels := GetRelationships(table, u);
    var names := NeighborsOf(rels, u);
    if v in names {
      var i :| 0 <= i < |names| && names[i] == v;
      RowsTouch(table, u, rels[i]);
    }
    forall rel | rel in table && ((rel.sourceId == u && rel.targetId == v) || (rel.sourceId == v && rel.targetId == u))
      ensures v in names
    {
      RowsTouch(table, u, rel);
      var i :| 0 <= i < |rels| && rels[i] == rel;
      assert names[i] == v;
    }
  }

  ghost predicate IsWalk(g: Graph, walk: seq<string>, from: string, to: string) {
    && |walk| >= 1 && walk[0] == from && walk[|walk| - 1] == to
    && forall i :: 0 <= i < |walk| - 1 ==> walk[i + 1] in g(walk[i])
  }

  /** `v` is at most `n` hops away from `start`. */
  ghost predicate Near(g: Graph, start: string, n: nat, v: string) {
    if n == 0 then v == start
    else Near(g, start, n - 1, v) || exists u :: Near(g, start, n - 1, u) && v in g(u)
  }

  lemma {:induction false} NearGrows(g: Graph, start: string, m: nat, n: nat, v: string)
    requires m <= n && Near(g, start, m, v)
    ensures Near(g, start, n, v)
    decreases n
  {
    if m < n {
      NearGrows(g, start, m, n - 1, v);
    }
  }

  lemma {:induction false} WalkReaches(g: Graph, start: string, walk: seq<string>, v: string)
    requires IsWalk(g, walk, start, v)
    ensures Near(g, start, |walk| - 1, v)
    decreases |walk|
  {
    if |walk| > 1 {
      var u := walk[|walk| - 2];
      WalkReaches(g, start, walk[..|walk| - 1], u);
      assert v in g(u);
    }
  }

  lemma {:induction false} WalkOf(g: Graph, start: string, n: nat, v: string) returns (walk: seq<string>)
    requires Near(g, start, n, v)
    ensures IsWalk(g, walk, start, v) && |walk| <= n + 1
    decreases n
  {
    if n == 0 {
      walk := [start];
    } else if Near(g, start, n - 1, v) {
      walk := WalkOf(g, start, n - 1, v);
    } else {
      var u :| Near(g, start, n - 1, u) && v in g(u);
      var shorter := WalkOf(g, start, n - 1, u);
      walk := shorter + [v];
    }
  }

  /** `Near` is undirected distance: it holds exactly when a walk of at most `n` hops leads to `v`. */
  lemma NearIsDistance(g: Graph, start: string, n: nat, v: string)
    ensures Near(g, start, n, v) <==> exists walk :: IsWalk(g, walk, start, v) && |walk| <= n + 1
  {
    if Near(g, start, n, v) {
      var walk := WalkOf(g, start, n, v);
    }
    forall walk | IsWalk(g, walk, start, v) && |walk| <= n + 1
      ensures Near(g, start, n, v)
    {
      WalkReaches(g, start, walk, v);
      NearGrows(g, start, |walk| - 1, n, v);
    }
  }

  // ---------------------------------------------------------------- traversal

  datatype Entry = Entry(id: string, depth: nat)

  ghost predicate Enqueued(order: seq<Entry>, v: string) {
    exists i :: 0 <= i < |order| && order[i].id == v
  }

  /** Every entry carries its exact distance from the start. */
  ghost predicate Exact(g: Graph, start: string, order: seq<Entry>) {
    forall i :: 0 <= i < |order| ==>
      && Near(g, start, order[i].depth, order[i].id)
      && (order[i].depth > 0 ==> !Near(g, start, order[i].depth - 1, order[i].id))
  }

  /** The first `head` entries have been expanded, as far as the cut-off lets them be. */
  ghost predicate Expanded(g: Graph, maxDepth: int, order: seq<Entry>, head: nat) {
    forall i, v :: 0 <= i < head && i < |order| && order[i].depth < maxDepth && v in g(order[i].id) ==>
      Enqueued(order, v)
  }

  /** Once everything at distance less than `k` is expanded, nothing within distance `k` is missing. */
  lemma {:induction false} NothingMissed(g: Graph, start: string, order: seq<Entry>, k: nat, v: string)
    requires Exact(g, start, order) && Enqueued(order, start)
    requires Expanded(g, k, order, |order|)
    requires Near(g, start, k, v)
    ensures Enqueued(order, v)
    decreases k
  {
    if k > 0 {
      if Near(g, start, k - 1, v) {
        NothingMissed(g, start, order, k - 1, v);
      } else {
        var u :| Near(g, start, k - 1, u) && v in g(u);
        NothingMissed(g, start, order, k - 1, u);
        var i :| 0 <= i < |order| && order[i].id == u;
        if order[i].depth >= k {
          NearGrows(g, start, k - 1, order[i].depth - 1, u);
        }
      }
    }
  }

  /** What holds of the entries ever enqueued when `head` of them have been taken off the queue. */
  ghost predicate Progress(g: Graph, start: string, maxDepth: int, order: seq<Entry>, head: nat) {
    && 1 <= |order| && head <= |order| && order[0] == Entry(start, 0)
    && (forall i, j :: 0 <= i < j < |order| ==> order[i].id != order[j].id && order[i].depth <= order[j].depth)
    && Exact(g, start, order)
    && (forall i :: 1 <= i < |order| ==> order[i].depth <= maxDepth)
    && (if head == 0 then |order| == 1 else order[|order| - 1].depth <= order[head - 1].depth + 1)
  }

  lemma Discover(g: Graph, start: string, maxDepth: int, order: seq<Entry>, head: nat, w: string)
    requires Progress(g, start, maxDepth, order, head) && head > 0
    requires Expanded(g, maxDepth, order, head - 1)
    requires order[head - 1].depth < maxDepth && w in g(order[head - 1].id) && !Enqueued(order, w)
    ensures Progress(g, start, maxDepth, order + [Entry(w, order[head - 1].depth + 1)], head)
  {
    var u := order[head - 1];
    assert Enqueued(order, order[0].id);
    assert Expanded(g, u.depth, order, |order|);
    if Near(g, start, u.depth, w) {
      NothingMissed(g, start, order, u.depth, w);
    }
    assert Near(g, start, u.depth + 1, w);
  }

  /** The results list exactly the memories other than the start that are within `maxDepth` hops, each
      once, nearer ones before farther ones. */
  ghost predicate IsTraversal(g: Graph, start: string, maxDepth: int, results: seq<string>) {
    && (forall v :: v in results <==> v != start && maxDepth > 0 && Near(g, start, maxDepth, v))
    && (forall i, j :: 0 <= i < j < |results| ==> results[i] != results[j])
    && (forall i, j, n: nat ::
          0 <= i < j < |results| && Near(g, start, n, results[j]) ==> Near(g, start, n, results[i]))
  }

  ghost predicate ListsTail(order: seq<Entry>, results: seq<string>) {
    |results| == |order| - 1 && forall i :: 0 <= i < |results| ==> results[i] == order[i + 1].id
  }

  lemma Finished(g: Graph, start: string, maxDepth: int, order: seq<Entry>, results: seq<string>)
    requires Progress(g, start, maxDepth, order, |order|) && Expanded(g, maxDepth, order, |order|)
    requires ListsTail(order, results)
    ensures IsTraversal(g, start, maxDepth, results)
  {
    forall v | v in results
      ensures v != start && maxDepth > 0 && Near(g, start, maxDepth, v)
    {
      var i :| 0 <= i < |results| && results[i] == v;
      assert order[0].id != order[i + 1].id;
      NearGrows(g, start, order[i + 1].depth, maxDepth, v);
    }
    forall v | v != start && maxDepth > 0 && Near(g, start, maxDepth, v)
      ensures v in results
    {
      assert Enqueued(order, order[0].id);
      NothingMissed(g, start, order, maxDepth, v);
      var i :| 0 <= i < |order| && order[i].id == v;
      assert results[i - 1] == v;
    }
    forall i, j, n: nat | 0 <= i < j < |results| && Near(g, start, n, results[j])
      ensures Near(g, start, n, results[i])
    {
      var e, f := order[i + 1], order[j + 1];
      if n < f.depth {
        NearGrows(g, start, n, f.depth - 1, f.id);
      }
      NearGrows(g, start, e.depth, n, e.id);
    }
  }

  // ---------------------------------------------------------------- termination

  ghost function Universe(table: seq<Relationship>, start: string): set<string> {
    {start} + (set rel | rel in table :: rel.sourceId) + (set rel | rel in table :: rel.targetId)
  }

  ghost function Ids(order: seq<Entry>): set<string> {
    set e | e in order :: e.id
  }

  lemma {:induction false} DistinctCount(order: seq<Entry>)
    requires forall i, j :: 0 <= i < j < |order| ==> order[i].id != order[j].id
    ensures |Ids(order)| == |order|
  {
    if order != [] {
      var rest := order[..|order| - 1];
      DistinctCount(rest);
      assert order == rest + [order[|order| - 1]];
      assert Ids(order) == Ids(rest) + {order[|order| - 1].id};
      assert order[|order| - 1].id !in Ids(rest);
    }
  }

  lemma OrderFits(order: seq<Entry>, universe: set<string>)
    requires forall i, j :: 0 <= i < j < |order| ==> order[i].id != order[j].id
    requires forall i :: 0 <= i < |order| ==> order[i].id in universe
    ensures |order| <= |universe|
  {
    DistinctCount(order);
    var ids := Ids(order);
    assert universe == ids + (universe - ids);
  }

  // ---------------------------------------------------------------- the loop

  /** What the inner loop does to the entries ever enqueued: it appends the neighbours not yet among them. */
  ghost function Extend(order: seq<Entry>, neighbors: seq<string>, depth: nat): seq<Entry>
    decreases |neighbors|
  {
    if neighbors == [] then order
    else
      var order' := if Enqueued(order, neighbors[0]) then order else order + [Entry(neighbors[0], depth)];
      Extend(order', neighbors[1..], depth)
  }

  ghost predicate Known(universe: set<string>, order: seq<Entry>) {
    forall i :: 0 <= i < |order| ==> order[i].id in universe
  }

  lemma EnqueuedMore(order: seq<Entry>, e: Entry)
    ensures forall v :: Enqueued(order + [e], v) <==> Enqueued(order, v) || v == e.id
  {
    var order' := order + [e];
    forall v | Enqueued(order, v)
      ensures Enqueued(order', v)
    {
      var i :| 0 <= i < |order| && order[i].id == v;
      assert order'[i].id == v;
    }
    assert order'[|order|].id == e.id;
  }

  /** The entry before `head` is being expanded. */
  ghost predicate Expanding(g: Graph, start: string, maxDepth: int, universe: set<string>, order: seq<Entry>,
                            head: nat) {
    && Progress(g, start, maxDepth, order, head) && head > 0 && Known(universe, order)
    && Expanded(g, maxDepth, order, head - 1) && order[head - 1].depth < maxDepth
  }

  lemma ExpandingMore(g: Graph, start: string, maxDepth: int, universe: set<string>, order: seq<Entry>, head: nat,
                      w: string)
    requires Expanding(g, start, maxDepth, universe, order, head)
    requires w in g(order[head - 1].id) && w in universe && !Enqueued(order, w)
    ensures Expanding(g, start, maxDepth, universe, order + [Entry(w, order[head - 1].depth + 1)], head)
  {
    var e := Entry(w, order[head - 1].depth + 1);
    Discover(g, start, maxDepth, order, head, w);
    EnqueuedMore(order, e);
    var order' := order + [e];
    forall i, v | 0 <= i < head - 1 && order'[i].depth < maxDepth && v in g(order'[i].id)
      ensures Enqueued(order', v)
    {
      assert order'[i] == order[i];
    }
  }

  lemma {:induction false} ExtendKept(g: Graph, start: string, maxDepth: int, universe: set<string>,
                                      order: seq<Entry>, head: nat, u: Entry, neighbors: seq<string>)
    requires Expanding(g, start, maxDepth, universe, order, head) && order[head - 1] == u
    requires forall v :: v in neighbors ==> v in g(u.id) && v in universe
    ensures Expanding(g, start, maxDepth, universe, Extend(order, neighbors, u.depth + 1), head)
    decreases |neighbors|
  {
    if neighbors != [] {
      var w, rest := neighbors[0], neighbors[1..];
      assert forall v :: v in rest ==> v in neighbors;
      if Enqueued(order, w) {
        ExtendKept(g, start, maxDepth, universe, order, head, u, rest);
      } else {
        ExpandingMore(g, start, maxDepth, universe, order, head, w);
        ExtendKept(g, start, maxDepth, universe, order + [Entry(w, u.depth + 1)], head, u, rest);
      }
    }
  }

  lemma {:induction false} ExtendReaches(order: seq<Entry>, neighbors: seq<string>, depth: nat, v: string)
    requires Enqueued(order, v) || v in neighbors
    ensures Enqueued(Extend(order, neighbors, depth), v) && order <= Extend(order, neighbors, depth)
    decreases |neighbors|
  {
    if neighbors != [] {
      var w := neighbors[0];
      if !Enqueued(order, w) {
        EnqueuedMore(order, Entry(w, depth));
        ExtendReaches(order + [Entry(w, depth)], neighbors[1..], depth, v);
      } else {
        ExtendReaches(order, neighbors[1..], depth, v);
      }
    }
  }

  /** The loop's own variables, in terms of the entries ever enqueued. */
  ghost predicate Mirrors(order: seq<Entry>, head: nat, visited: set<string>, queue: seq<Entry>, results: seq<string>) {
    && 1 <= |order| && head <= |order| && queue == order[head..]
    && (forall v :: v in visited <==> Enqueued(order, v))
    && ListsTail(order, results)
  }

  lemma MirrorsMore(order: seq<Entry>, head: nat, visited: set<string>, queue: seq<Entry>, results: seq<string>,
                    e: Entry)
    requires Mirrors(order, head, visited, queue, results)
    ensures Mirrors(order + [e], head, visited + {e.id}, queue + [e], results + [e.id])
  {
    EnqueuedMore(order, e);
  }

  /** The invariant of the outer loop, apart from its own variables. */
  ghost predicate Outer(g: Graph, start: string, maxDepth: int, universe: set<string>, order: seq<Entry>, head: nat) {
    Progress(g, start, maxDepth, order, head) && Known(universe, order) && Expanded(g, maxDepth, order, head)
  }

  lemma ExpandedMore(g: Graph, maxDepth: int, order: seq<Entry>, head: nat)
    requires Expanded(g, maxDepth, order, head) && head < |order|
    requires forall v :: v in g(order[head].id) ==> Enqueued(order, v)
    ensures Expanded(g, maxDepth, order, head + 1)
  {
  }

  /** One turn of the outer loop: it takes entry `head` off the queue and enqueues that entry's
      neighbours, unless the cut-off says otherwise. */
  ghost function Turn(g: Graph, maxDepth: int, order: seq<Entry>, head: nat): seq<Entry> {
    if head >= |order| || order[head].depth >= maxDepth then order
    else Extend(order, g(order[head].id), order[head].depth + 1)
  }

  lemma TurnKept(g: Graph, start: string, maxDepth: int, universe: set<string>, order: seq<Entry>, head: nat)
    requires Outer(g, start, maxDepth, universe, order, head) && head < |order|
    requires forall u, v :: v in g(u) ==> v in universe
    ensures Outer(g, start, maxDepth, universe, Turn(g, maxDepth, order, head), head + 1)
  {
    if order[head].depth < maxDepth {
      Expand(g, start, maxDepth, universe, order, head, g(order[head].id));
    }
  }

  lemma AllReached(order: seq<Entry>, names: seq<string>, depth: nat)
    requires order != []
    ensures order <= Extend(order, names, depth)
    ensures forall v :: v in names ==> Enqueued(Extend(order, names, depth), v)
  {
    forall v | v in names
      ensures Enqueued(Extend(order, names, depth), v)
    {
      ExtendReaches(order, names, depth, v);
    }
    assert Enqueued(order, order[0].id);
    ExtendReaches(order, names, depth, order[0].id);
  }

  lemma Expand(g: Graph, start: string, maxDepth: int, universe: set<string>, order: seq<Entry>, head: nat,
               names: seq<string>)
    requires Outer(g, start, maxDepth, universe, order, head) && head < |order| && order[head].depth < maxDepth
    requires names == g(order[head].id)
    requires forall v :: v in names ==> v in universe
    ensures Outer(g, start, maxDepth, universe, Extend(order, names, order[head].depth + 1), head + 1)
  {
    var u := order[head];
    ExtendKept(g, start, maxDepth, universe, order, head + 1, u, names);
    AllReached(order, names, u.depth + 1);
    ExpandedMore(g, maxDepth, Extend(order, names, u.depth + 1), head);
  }

  /** The entries enqueued after `head` turns. */
  ghost function OrderAfter(g: Graph, start: string, maxDepth: int, head: nat): seq<Entry> {
    if head == 0 then [Entry(start, 0)]
    else Turn(g, maxDepth, OrderAfter(g, start, maxDepth, head - 1), head - 1)
  }

  lemma FirstOrder(g: Graph, start: string, maxDepth: int, universe: set<string>)
    requires start in universe
    ensures Outer(g, start, maxDepth, universe, [Entry(start, 0)], 0)
  {
  }

  lemma {:induction false} OrderAfterKept(g: Graph, start: string, maxDepth: int, universe: set<string>, head: nat)
    requires start in universe && forall u, v :: v in g(u) ==> v in universe
    requires head <= |OrderAfter(g, start, maxDepth, head)|
    ensures Outer(g, start, maxDepth, universe, OrderAfter(g, start, maxDepth, head), head)
  {
    if head == 0 {
      FirstOrder(g, start, maxDepth, universe);
    } else {
      OrderAfterKept(g, start, maxDepth, universe, head - 1);
      TurnKept(g, start, maxDepth, universe, OrderAfter(g, start, maxDepth, head - 1), head - 1);
    }
  }

  lemma UniverseIsClosed(table: seq<Relationship>, start: string)
    ensures forall u, v :: v in LinksIn(table)(u) ==> v in Universe(table, start)
  {
    forall u, v | v in LinksIn(table)(u)
      ensures v in Universe(table, start)
    {
      LinksAreUndirected(table, u, v);
    }
  }

  /** The order never outgrows the finite set of memories that the table mentions. */
  lemma OrderAfterFits(g: Graph, start: string, maxDepth: int, universe: set<string>, head: nat)
    requires start in universe && forall u, v :: v in g(u) ==> v in universe
    requires head <= |OrderAfter(g, start, maxDepth, head)|
    ensures |OrderAfter(g, start, maxDepth, head)| <= |universe|
  {
    OrderAfterKept(g, start, maxDepth, universe, head);
    OrderFits(OrderAfter(g, start, maxDepth, head), universe);
  }

  lemma FinalOrder(g: Graph, start: string, maxDepth: int, universe: set<string>, order: seq<Entry>,
                   results: seq<string>)
    requires start in universe && forall u, v :: v in g(u) ==> v in universe
    requires order == OrderAfter(g, start, maxDepth, |order|) && ListsTail(order, results)
    ensures IsTraversal(g, start, maxDepth, results)
  {
    OrderAfterKept(g, start, maxDepth, universe, |order|);
    Finished(g, start, maxDepth, order, results);
  }

  /** The order at the end of a turn of which `j` neighbours are done, `order` being that so far. */
  ghost function Continued(order: seq<Entry>, names: seq<string>, j: nat, depth: nat): seq<Entry>
    requires j <= |names|
  {
    Extend(order, names[j..], depth)
  }

  lemma ContinuedWithNext(order: seq<Entry>, names: seq<string>, j: nat, depth: nat)
    requires j < |names|
    ensures var order' := if Enqueued(order, names[j]) then order else order + [Entry(names[j], depth)];
            Continued(order, names, j, depth) == Continued(order', names, j + 1, depth)
  {
    assert names[j..][0] == names[j] && names[j..][1..] == names[j + 1..];
  }

  lemma ContinuedFromStart(g: Graph, start: string, maxDepth: int, head: nat, current: Entry)
    requires var order := OrderAfter(g, start, maxDepth, head);
             head < |order| && order[head] == current
    ensures OrderAfter(g, start, maxDepth, head + 1) ==
            if current.depth >= maxDepth then OrderAfter(g, start, maxDepth, head)
            else Continued(OrderAfter(g, start, maxDepth, head), g(current.id), 0, current.depth + 1)
  {
    assert g(current.id)[0..] == g(current.id);
  }

  method Traverse(table: seq<Relationship>, startId: string, maxDepth: int) returns (results: seq<string>)
    ensures IsTraversal(LinksIn(table), startId, maxDepth, results)
  {
    UniverseIsClosed(table, startId);
    results := Search(table, startId, maxDepth, LinksIn(table), Universe(table, startId));
  }

  /** The loop of `Traverse`, for the graph `g` that the rows of the table describe. */
  method Search(table: seq<Relationship>, startId: string, maxDepth: int, ghost g: Graph, ghost universe: set<string>)
      returns (results: seq<string>)
    requires forall id {:trigger GetRelationships(table, id)} :: g(id) == NeighborsOf(GetRelationships(table, id), id)
    requires startId in universe && forall u, v :: v in g(u) ==> v in universe
    ensures IsTraversal(g, startId, maxDepth, results)
  {
    var visited := {startId};
    var queue := [Entry(startId, 0)];
    results := [];
    ghost var order, head := queue, 0;
    assert order[0].id == startId;
    while queue != []
      invariant order == OrderAfter(g, startId, maxDepth, head)
      invariant Mirrors(order, head, visited, queue, results)
      decreases |universe| - head
    {
      OrderAfterFits(g, startId, maxDepth, universe, head);
      var current := queue[0];
      ContinuedFromStart(g, startId, maxDepth, head, current);
      queue := queue[1..];
      head := head + 1;
      if current.depth >= maxDepth {
        continue;
      }
      var rels := GetRelationships(table, current.id);
      ghost var names := g(current.id);
      for j := 0 to |rels|
        invariant Mirrors(order, head, visited, queue, results)
        invariant Continued(order, names, j, current.depth + 1) == OrderAfter(g, startId, maxDepth, head)
      {
        var neighbor := Neighbor(rels[j], current.id);
        ContinuedWithNext(order, names, j, current.depth + 1);
        if neighbor !in visited {
          MirrorsMore(order, head, visited, queue, results, Entry(neighbor, current.depth + 1));
          visited := visited + {neighbor};
          results := results + [neighbor];
          queue := queue + [Entry(neighbor, current.depth + 1)];
          order := order + [Entry(neighbor, current.depth + 1)];
        }
      }
    }
    FinalOrder(g, startId, maxDepth, universe, order, results);
  }
}
