/** The routing table of src/common/routing.py. */
module Routing {
  import opened Base
  import opened Ring

  datatype Port = Host | Gadget

  /** The fields of a RoutingTable as one value. */
  datatype Table = Table(id: NodeId, neighbors: map<NodeId, Port>, ring: seq<NodeId>, routes: map<NodeId, Port>)

  // ---- what each operation computes ----

  /** 'host' is clockwise; ties go clockwise. */
  function Direction(n: nat, my: nat, i: nat): Port
    requires my < n && i < n
  {
    if (i - my) % n <= (my - i) % n then Host else Gadget
  }

  /** The route loop after the first k ring positions. */
  function Assign(ring: seq<NodeId>, id: NodeId, k: nat, routes: map<NodeId, Port>): map<NodeId, Port>
    requires id in ring && k <= |ring|
  {
    if k == 0 then routes
    else
      var m := Assign(ring, id, k - 1, routes);
      if ring[k - 1] == id then m else m[ring[k - 1] := Direction(|ring|, IndexOf(ring, id), k - 1)]
  }

  function Append(ring: seq<NodeId>, x: NodeId): (r: seq<NodeId>)
    ensures x in r && ring <= r && forall y :: y in r <==> y in ring || y == x
    ensures Distinct(ring) ==> Distinct(r)
  {
    if x in ring then ring else ring + [x]
  }

  function Recomputed(t: Table): Table {
    if |t.ring| < 2 then t.(routes := t.neighbors)
    else
      var ring := Append(t.ring, t.id);
      t.(ring := ring, routes := Assign(ring, t.id, |ring|, t.routes))
  }

  function Added(t: Table, x: NodeId, port: Port): Table {
    Recomputed(t.(neighbors := t.neighbors[x := port], routes := t.routes[x := port],
                  ring := Append(Append(t.ring, x), t.id)))
  }

  function Removed(t: Table, x: NodeId): Table {
    Recomputed(t.(neighbors := t.neighbors - {x}, routes := t.routes - {x}, ring := Without(t.ring, x)))
  }

  /** Append every new member of `path`, in order. */
  function Merge(ring: seq<NodeId>, path: seq<NodeId>): (r: seq<NodeId>)
    decreases |path|
    ensures ring <= r && forall x :: x in r <==> x in ring || x in path
    ensures Distinct(ring) ==> Distinct(r)
  {
    if path == [] then ring else Merge(Append(ring, path[0]), path[1..])
  }

  /** From position n on r lists members of `path`, none of them twice or earlier in r, in the order of `path`. */
  predicate MergedTail(n: nat, path: seq<NodeId>, r: seq<NodeId>) {
    && (forall k :: n <= k < |r| ==> r[k] in path && r[k] !in r[..k])
    && (forall a, b, j :: n <= a < b < |r| && 0 <= j < |path| && path[j] == r[b] ==> r[a] in path[..j])
  }

  /** r is `ring`, then every member of `path` not in it, once, in the order in which they first occur in `path`. */
  predicate MergedInOrder(ring: seq<NodeId>, path: seq<NodeId>, r: seq<NodeId>) {
    ring <= r && (forall x :: x in path ==> x in r) && MergedTail(|ring|, path, r)
  }

  /** The ring a HELLO leaves behind: adopted if at least as long, merged otherwise. */
  function RingAfter(t: Table, path: seq<NodeId>): seq<NodeId> {
    Append(if |path| >= |t.ring| then path else Merge(t.ring, path), t.id)
  }

  function Heard(t: Table, path: seq<NodeId>): Table {
    Recomputed(t.(ring := RingAfter(t, path)))
  }

  function NextHop(t: Table, dst: NodeId): Option<Port> {
    if dst == BROADCAST || dst !in t.routes then None else Some(t.routes[dst])
  }

  // ---- the class ----

  /** The list comprehension of remove_neighbor. */
  method Keep(r: seq<NodeId>, x: NodeId) returns (kept: seq<NodeId>)
    ensures kept == Without(r, x)
  {
    kept := [];
    var i := 0;
    while i < |r|
      invariant i <= |r|
      invariant Without(r, x) == kept + Without(r[i..], x)
    {
      if r[i] != x {
        kept := kept + [r[i]];
      }
      i := i + 1;
    }
  }

  /** The merge loop of update_from_hello, with its running set of members. */
  method MergeNew(known: seq<NodeId>, path: seq<NodeId>) returns (ring: seq<NodeId>)
    ensures ring == Merge(known, path)
  {
    ring := known;
    var seen := set x | x in ring;
    var i := 0;
    while i < |path|
      invariant i <= |path|
      invariant forall x :: x in seen <==> x in ring
      invariant Merge(known, path) == Merge(ring, path[i..])
    {
      assert path[i..][1..] == path[i + 1..];
      if path[i] !in seen {
        ring := ring + [path[i]];
        seen := seen + {path[i]};
      }
      i := i + 1;
    }
  }

  lemma DirectionIsShorter(n: nat, my: nat, i: nat)
    requires my < n && i < n
    ensures Direction(n, my, i) == if Ahead(n, my, i) <= Ahead(n, i, my) then Host else Gadget
  {
    AheadIsMod(n, my, i);
    AheadIsMod(n, i, my);
  }

  /** The comparison inside the route loop of recompute picks the way with fewer links, the clockwise one on a tie. */
  method ShorterPort(n: nat, my: nat, i: nat) returns (port: Port)
    requires my < n && i < n
    ensures port == if Ahead(n, my, i) <= Ahead(n, i, my) then Host else Gadget
  {
    AheadIsMod(n, my, i);
    AheadIsMod(n, i, my);
    var cw, ccw := (i - my) % n, (my - i) % n;
    if cw <= ccw {
      port := Host;
    } else {
      port := Gadget;
    }
  }

  class RoutingTable {
    const nodeId: NodeId
    var neighbors: map<NodeId, Port>
    var ring: seq<NodeId>
    var routes: map<NodeId, Port>

    constructor (id: NodeId)
      ensures View() == Table(id, map[], [], map[])
    {
      nodeId := id;
      neighbors, ring, routes := map[], [], map[];
    }

    function View(): Table
      reads this
    {
      Table(nodeId, neighbors, ring, routes)
    }

    method AddNeighbor(x: NodeId, port: Port)
      modifies this
      ensures View() == Added(old(View()), x, port)
    {
      neighbors := neighbors[x := port];
      routes := routes[x := port];
      if x !in ring {
        ring := ring + [x];
      }
      if nodeId !in ring {
        ring := ring + [nodeId];
      }
      Recompute();
    }

    method RemoveNeighbor(x: NodeId)
      modifies this
      ensures View() == Removed(old(View()), x)
    {
      neighbors := neighbors - {x};
      routes := routes - {x};
      ring := Keep(ring, x);
      Recompute();
    }

    method UpdateFromHello(path: seq<NodeId>)
      modifies this
      ensures View() == Heard(old(View()), path)
    {
      if |path| >= |ring| {
        ring := path;
      } else {
        ring := MergeNew(ring, path);
      }
      if nodeId !in ring {
        ring := ring + [nodeId];
      }
      Recompute();
    }

    method Recompute()
      modifies this
      ensures View() == Recomputed(old(View()))
    {
      if |ring| < 2 {
        routes := neighbors;
        return;
      }
      if nodeId !in ring {
        ring := ring + [nodeId];
      }
      var n := |ring|;
      var my := IndexOf(ring, nodeId);
      var i := 0;
      while i < n
        invariant i <= n && ring == Append(old(ring), nodeId)
        invariant neighbors == old(neighbors)
        invariant routes == Assign(ring, nodeId, i, old(routes))
      {
        if ring[i] != nodeId {
          var port := ShorterPort(n, my, i);
          DirectionIsShorter(n, my, i);
          routes := routes[ring[i] := port];
        }
        i := i + 1;
      }
    }

    method GetNextHop(dst: NodeId) returns (port: Option<Port>)
      ensures port == NextHop(View(), dst)
      ensures port == if dst == 0xFF || dst !in routes then None else Some(routes[dst])
    {
      if dst == BROADCAST {
        return None;
      }
      port := if dst in routes then Some(routes[dst]) else None;
    }
  }

  // ---- what the route loop achieves ----

  /** The port of the shorter way from a to b; the clockwise one on a tie. */
  function Toward(ring: seq<NodeId>, a: NodeId, b: NodeId): Port
    requires a in ring && b in ring
  {
    var n, i, j := |ring|, IndexOf(ring, a), IndexOf(ring, b);
    if Ahead(n, i, j) <= Ahead(n, j, i) then Host else Gadget
  }

  lemma TowardIsDirection(ring: seq<NodeId>, a: NodeId, b: NodeId)
    requires a in ring && b in ring
    ensures Toward(ring, a, b) == Direction(|ring|, IndexOf(ring, a), IndexOf(ring, b))
  {
    DirectionIsShorter(|ring|, IndexOf(ring, a), IndexOf(ring, b));
  }

  /** Every other ring member is routed the shorter way. */
  predicate Shortest(t: Table) {
    t.id in t.ring
    && forall d :: d in t.ring && d != t.id ==> d in t.routes && t.routes[d] == Toward(t.ring, t.id, d)
  }

  predicate RoutedUpTo(ring: seq<NodeId>, id: NodeId, k: nat, m: map<NodeId, Port>)
    requires id in ring && k <= |ring|
  {
    forall i :: 0 <= i < k && ring[i] != id ==> ring[i] in m && m[ring[i]] == Toward(ring, id, ring[i])
  }

  lemma RoutedNext(ring: seq<NodeId>, id: NodeId, k: nat, m: map<NodeId, Port>, port: Port)
    requires Distinct(ring) && id in ring && k < |ring| && RoutedUpTo(ring, id, k, m)
    requires port == Toward(ring, id, ring[k])
    ensures RoutedUpTo(ring, id, k + 1, if ring[k] == id then m else m[ring[k] := port])
  {}

  lemma {:induction false} AssignRoutes(ring: seq<NodeId>, id: NodeId, k: nat, routes: map<NodeId, Port>)
    requires Distinct(ring) && id in ring && k <= |ring|
    ensures RoutedUpTo(ring, id, k, Assign(ring, id, k, routes))
  {
    if k > 0 {
      AssignRoutes(ring, id, k - 1, routes);
      TowardIsDirection(ring, id, ring[k - 1]);
      IndexUnique(ring, k - 1);
      RoutedNext(ring, id, k - 1, Assign(ring, id, k - 1, routes), Toward(ring, id, ring[k - 1]));
    }
  }

  /** Which destinations have a route after the loop: those that had one, and the ring. */
  lemma {:induction false} AssignKeys(ring: seq<NodeId>, id: NodeId, k: nat, routes: map<NodeId, Port>)
    requires id in ring && k <= |ring|
    ensures forall d :: d in Assign(ring, id, k, routes) <==> d in routes || (d in ring[..k] && d != id)
    ensures forall d :: d in routes && (d == id || d !in ring[..k]) ==> Assign(ring, id, k, routes)[d] == routes[d]
  {
    if k > 0 {
      AssignKeys(ring, id, k - 1, routes);
      assert ring[..k] == ring[..k - 1] + [ring[k - 1]];
    }
  }

  /** Recomputing over a duplicate-free ring of two or more routes every other member the shorter way. */
  lemma RecomputeShortest(t: Table)
    requires Distinct(t.ring) && |t.ring| >= 2
    ensures Shortest(Recomputed(t))
    ensures Distinct(Recomputed(t).ring)
  {
    var ring := Append(t.ring, t.id);
    AssignRoutes(ring, t.id, |ring|, t.routes);
  }
}
