/**
 * A ring of nodes, each with its own routing table. The cables follow the ring: a node's 'host' port
 * leads to the next node, its 'gadget' port to the previous one. Every node decides alone.
 */
module RingWalk {
  import opened Base
  import opened Ring
  import opened Routing
  import RoutingLaws

  type Tables = map<NodeId, Table>

  /** Every member's table holds a rotation of the ring and routes it the shorter way. */
  predicate Converged(r: seq<NodeId>, tables: Tables) {
    && Distinct(r) && |r| >= 2
    && forall x :: x in r ==> x in tables && Agrees(r, x, tables[x])
  }

  predicate Agrees(r: seq<NodeId>, x: NodeId, t: Table) {
    t.id == x && IsRotation(t.ring, r) && Shortest(t)
  }

  function Along(n: nat, p: nat, port: Port): (q: nat)
    requires p < n
    ensures q < n
  {
    match port
    case Host => if p + 1 == n then 0 else p + 1
    case Gadget => if p == 0 then n - 1 else p - 1
  }

  /** One hop: the node at position p asks its table and uses the cable it names. */
  function Hop(r: seq<NodeId>, tables: Tables, p: nat, dst: NodeId): (q: Option<nat>)
    requires p < |r|
    ensures q.Some? ==> q.value < |r|
  {
    if r[p] !in tables then None
    else
      match NextHop(tables[r[p]], dst)
      case None => None
      case Some(port) => Some(Along(|r|, p, port))
  }

  /** Position after k hops, if every node on the way has a route. */
  function After(r: seq<NodeId>, tables: Tables, p: nat, dst: NodeId, k: nat): Option<nat>
    requires p < |r|
    decreases k
  {
    if k == 0 then Some(p)
    else
      match Hop(r, tables, p, dst)
      case None => None
      case Some(q) => After(r, tables, q, dst, k - 1)
  }

  /** k links in one direction, k at most once round. */
  function Moved(n: nat, p: nat, port: Port, k: nat): (q: nat)
    requires p < n && k <= n
    ensures q < n
  {
    match port
    case Host => if p + k < n then p + k else p + k - n
    case Gadget => if k <= p then p - k else p + n - k
  }

  function Shorter(n: nat, p: nat, q: nat): Port
    requires p < n && q < n
  {
    if Ahead(n, p, q) <= Ahead(n, q, p) then Host else Gadget
  }

  lemma AgreedPort(s: seq<NodeId>, y: NodeId, t: Table, z: NodeId)
    requires Distinct(s) && y in s && z in s && y != z && z != BROADCAST && Agrees(s, y, t)
    ensures NextHop(t, z) == Some(Toward(s, y, z))
  {
    RotationMembers(t.ring, s);
    RoutingLaws.TowardRotation(t.ring, s, y, z);
  }

  lemma HopKept(r: seq<NodeId>, tables: Tables, p: nat, q: nat)
    requires Distinct(r) && |r| >= 2 && p < |r| && q < |r| && p != q && r[q] != BROADCAST
    requires r[p] in tables && Agrees(r, r[p], tables[r[p]])
    ensures Hop(r, tables, p, r[q]) == Some(Along(|r|, p, Shorter(|r|, p, q)))
  {
    AgreedPort(r, r[p], tables[r[p]], r[q]);
    IndexUnique(r, p);
    IndexUnique(r, q);
  }

  lemma HopTowards(r: seq<NodeId>, tables: Tables, p: nat, q: nat)
    requires Converged(r, tables) && p < |r| && q < |r| && p != q && r[q] != BROADCAST
    ensures Hop(r, tables, p, r[q]) == Some(Along(|r|, p, Shorter(|r|, p, q)))
  {
    assert r[p] in r;
    HopKept(r, tables, p, q);
  }

  /** Every other position leads towards q the shorter way. */
  ghost predicate Guided(r: seq<NodeId>, tables: Tables, q: nat)
    requires q < |r|
  {
    forall p :: 0 <= p < |r| && p != q ==>
      Hop(r, tables, p, r[q]) == Some(Along(|r|, p, Shorter(|r|, p, q))) && r[p] != r[q]
  }

  lemma ConvergedGuides(r: seq<NodeId>, tables: Tables, q: nat)
    requires Converged(r, tables) && q < |r| && r[q] != BROADCAST
    ensures Guided(r, tables, q)
  {
    forall p | 0 <= p < |r| && p != q
      ensures Hop(r, tables, p, r[q]) == Some(Along(|r|, p, Shorter(|r|, p, q))) && r[p] != r[q]
    {
      HopTowards(r, tables, p, q);
    }
  }

  /** One hop the shorter way: one link less to go, and the direction still the shorter one. */
  lemma Closer(n: nat, p: nat, q: nat)
    requires p < n && q < n && p != q
    ensures var port := Shorter(n, p, q);
            var p' := Along(n, p, port);
            && Distance(n, p, q) >= 1
            && Distance(n, p', q) == Distance(n, p, q) - 1
            && (p' == q <==> Distance(n, p, q) == 1)
            && (p' != q ==> Shorter(n, p', q) == port)
  {}

  lemma MovedStep(n: nat, p: nat, port: Port, k: nat)
    requires p < n && 0 < k <= n
    ensures Moved(n, Along(n, p, port), port, k - 1) == Moved(n, p, port, k)
  {}

  lemma MovedArrives(n: nat, p: nat, q: nat, k: nat)
    requires p < n && q < n && p != q && k <= Distance(n, p, q)
    ensures Moved(n, p, Shorter(n, p, q), k) == q <==> k == Distance(n, p, q)
  {}

  lemma {:induction false} StraightWalk(r: seq<NodeId>, tables: Tables, p: nat, q: nat, k: nat)
    requires p < |r| && q < |r| && p != q && Guided(r, tables, q)
    requires k <= Distance(|r|, p, q)
    ensures After(r, tables, p, r[q], k) == Some(Moved(|r|, p, Shorter(|r|, p, q), k))
    decreases k
  {
    if k > 0 {
      var n, port := |r|, Shorter(|r|, p, q);
      var p' := Along(n, p, port);
      assert After(r, tables, p, r[q], k) == After(r, tables, p', r[q], k - 1);
      MovedStep(n, p, port, k);
      Closer(n, p, q);
      if k > 1 {
        StraightWalk(r, tables, p', q, k - 1);
      }
    }
  }

  /**
   * From any source, node-by-node routing runs in one direction without reversing, and meets the
   * destination after exactly min(cw, ccw) links and not before; that is at most n / 2.
   */
  lemma ShortestDelivery(r: seq<NodeId>, tables: Tables, p: nat, q: nat)
    requires Converged(r, tables) && p < |r| && q < |r| && p != q && r[q] != BROADCAST
    ensures var n, d := |r|, Distance(|r|, p, q);
            && 1 <= d && 2 * d <= n
            && (forall k :: 0 <= k <= d ==> After(r, tables, p, r[q], k) == Some(Moved(n, p, Shorter(n, p, q), k)))
            && (forall k :: 0 <= k <= d ==> (Moved(n, p, Shorter(n, p, q), k) == q <==> k == d))
  {
    var n, d := |r|, Distance(|r|, p, q);
    ConvergedGuides(r, tables, q);
    forall k | 0 <= k <= d
      ensures After(r, tables, p, r[q], k) == Some(Moved(n, p, Shorter(n, p, q), k))
      ensures Moved(n, p, Shorter(n, p, q), k) == q <==> k == d
    {
      StraightWalk(r, tables, p, q, k);
      MovedArrives(n, p, q, k);
    }
  }

  // ---- with the hop test of a forwarding node ----

  datatype Fate =
    | Arrived(at: nat, hop: nat)
    | HopLimit(at: nat)
    | NoRoute(at: nat)

  /** A frame leaving position p with this hop count: delivered at its destination, forwarded while hop < 15. */
  function Carry(r: seq<NodeId>, tables: Tables, p: nat, dst: NodeId, hop: nat): Fate
    requires p < |r| && hop <= 15
    decreases 15 - hop
  {
    match Hop(r, tables, p, dst)
    case None => NoRoute(p)
    case Some(q) =>
      if r[q] == dst then Arrived(q, hop)
      else if hop >= 15 then HopLimit(q)
      else Carry(r, tables, q, dst, hop + 1)
  }

  /** Arrival after one hop counted per forward, if the hops left suffice; else death where they run out. */
  function FateFrom(n: nat, p: nat, q: nat, hop: nat): Fate
    requires p < n && q < n && hop <= 15
  {
    var d := Distance(n, p, q);
    if 1 <= d && hop + d <= 16 then Arrived(q, hop + d - 1)
    else if 16 - hop <= n then HopLimit(Moved(n, p, Shorter(n, p, q), 16 - hop))
    else NoRoute(p)
  }

  lemma FateStep(n: nat, p: nat, q: nat, hop: nat)
    requires p < n && q < n && p != q && hop <= 15
    ensures var p' := Along(n, p, Shorter(n, p, q));
            FateFrom(n, p, q, hop)
            == if p' == q then Arrived(q, hop) else if hop == 15 then HopLimit(p') else FateFrom(n, p', q, hop + 1)
  {
    Closer(n, p, q);
    if hop + Distance(n, p, q) > 16 {
      MovedStep(n, p, Shorter(n, p, q), 16 - hop);
    }
  }

  lemma {:induction false} CarryFrom(r: seq<NodeId>, tables: Tables, p: nat, q: nat, hop: nat)
    requires p < |r| && q < |r| && p != q && Guided(r, tables, q) && hop <= 15
    ensures Carry(r, tables, p, r[q], hop) == FateFrom(|r|, p, q, hop)
    decreases 15 - hop
  {
    var p' := Along(|r|, p, Shorter(|r|, p, q));
    assert Hop(r, tables, p, r[q]) == Some(p');
    FateStep(|r|, p, q, hop);
    if p' != q && hop < 15 {
      CarryFrom(r, tables, p', q, hop + 1);
    }
  }

  /** Within the remaining hops the frame arrives, having counted one hop per forward; otherwise it dies 16 links on. */
  lemma CarryFate(r: seq<NodeId>, tables: Tables, p: nat, q: nat, hop: nat)
    requires p < |r| && q < |r| && p != q && Guided(r, tables, q) && hop <= 15
    ensures var n, d := |r|, Distance(|r|, p, q);
            Carry(r, tables, p, r[q], hop)
            == if hop + d <= 16 then Arrived(q, hop + d - 1)
               else HopLimit(Moved(n, p, Shorter(n, p, q), 16 - hop))
  {
    CarryFrom(r, tables, p, q, hop);
    Closer(|r|, p, q);
  }

  /** With the hop limit every pair of members can still talk exactly in rings of at most 33 nodes. */
  lemma AllPairsIff(r: seq<NodeId>, tables: Tables)
    requires Converged(r, tables) && BROADCAST !in r
    ensures (forall p, q :: 0 <= p < |r| && 0 <= q < |r| && p != q ==> Carry(r, tables, p, r[q], 0).Arrived?)
            <==> |r| <= 33
  {
    var n := |r|;
    forall p, q | 0 <= p < n && 0 <= q < n && p != q
      ensures Carry(r, tables, p, r[q], 0).Arrived? <==> Distance(n, p, q) <= 16
    {
      ConvergedGuides(r, tables, q);
      CarryFate(r, tables, p, q, 0);
    }
    if n >= 34 {
      assert Distance(n, 0, 17) >= 17;
      assert !Carry(r, tables, 0, r[17], 0).Arrived?;
    }
  }

  // ---- removal everywhere ----

  function RemoveEverywhere(tables: Tables, x: NodeId): Tables {
    map y | y in tables && y != x :: Removed(tables[y], x)
  }

  lemma RemovedAgrees(r: seq<NodeId>, y: NodeId, t: Table, x: NodeId)
    requires Distinct(r) && |r| >= 3 && x in r && y in r && x != y && Agrees(r, y, t)
    ensures Agrees(Without(r, x), y, Removed(t, x))
  {
    RotationMembers(t.ring, r);
    var k :| 0 <= k <= |r| && t.ring == Rotate(r, k);
    RotateDistinct(r, k);
    WithoutRotation(t.ring, r, x);
    WithoutDistinct(t.ring, x);
    RecomputeShortest(t.(neighbors := t.neighbors - {x}, routes := t.routes - {x}, ring := Without(t.ring, x)));
  }

  /** Once every remaining node has removed x and the cables close the gap, the ring is converged again. */
  lemma RemovalReconverges(r: seq<NodeId>, tables: Tables, x: NodeId)
    requires Converged(r, tables) && x in r && |r| >= 3
    ensures Converged(Without(r, x), RemoveEverywhere(tables, x))
  {
    WithoutDistinct(r, x);
    forall y | y in Without(r, x) ensures Agrees(Without(r, x), y, Removed(tables[y], x)) {
      RemovedAgrees(r, y, tables[y], x);
    }
  }

  // ---- while a removal is under way ----

  /** Some members have removed x, some have not yet; x itself still forwards, and the cables still follow r. */
  predicate Transitional(r: seq<NodeId>, x: NodeId, tables: Tables) {
    && Distinct(r) && |r| >= 3 && x in r
    && forall y :: y in r ==>
         y in tables && (Agrees(r, y, tables[y]) || (y != x && Agrees(Without(r, x), y, tables[y])))
  }

  function RemovedBy(tables: Tables, x: NodeId, done: set<NodeId>): Tables {
    map y | y in tables :: if y in done then Removed(tables[y], x) else tables[y]
  }

  /** Whoever has removed x so far, the tables are in between. */
  lemma PartlyRemoved(r: seq<NodeId>, tables: Tables, x: NodeId, done: set<NodeId>)
    requires Converged(r, tables) && x in r && |r| >= 3 && x !in done
    ensures Transitional(r, x, RemovedBy(tables, x, done))
  {
    forall y | y in r && y in done ensures Agrees(Without(r, x), y, Removed(tables[y], x)) {
      RemovedAgrees(r, y, tables[y], x);
    }
  }

  /** The direction from p to q in the ring without position i. */
  function Leaning(n: nat, p: nat, q: nat, i: nat): Port
    requires p < n && q < n && i < n
  {
    var cw, ccw := Ahead(n, p, q), Ahead(n, q, p);
    if Ahead(n, p, i) < cw then (if cw - 1 <= ccw then Host else Gadget)
    else if cw <= ccw - 1 then Host else Gadget
  }

  lemma TowardWithout(r: seq<NodeId>, x: NodeId, a: NodeId, b: NodeId)
    requires Distinct(r) && x in r && a in r && b in r && a != b && x != a && x != b
    ensures Toward(Without(r, x), a, b) == Leaning(|r|, IndexOf(r, a), IndexOf(r, b), IndexOf(r, x))
  {
    RoutingLaws.ContractedArcs(r, a, b, x);
  }

  lemma HopRemoved(r: seq<NodeId>, x: NodeId, tables: Tables, p: nat, q: nat)
    requires Transitional(r, x, tables) && p < |r| && q < |r| && p != q && r[p] != x && r[q] != x && r[q] != BROADCAST
    requires Agrees(Without(r, x), r[p], tables[r[p]])
    ensures Hop(r, tables, p, r[q]) == Some(Along(|r|, p, Leaning(|r|, p, q, IndexOf(r, x))))
  {
    WithoutDistinct(r, x);
    AgreedPort(Without(r, x), r[p], tables[r[p]], r[q]);
    TowardWithout(r, x, r[p], r[q]);
    IndexUnique(r, p);
    IndexUnique(r, q);
  }

  /** Every position leads towards q by one of the two directions; i is where x stands. */
  ghost predicate Torn(r: seq<NodeId>, tables: Tables, i: nat, q: nat)
    requires i < |r| && q < |r|
  {
    forall p :: 0 <= p < |r| && p != q ==> TornAt(r, tables, i, q, p)
  }

  predicate TornAt(r: seq<NodeId>, tables: Tables, i: nat, q: nat, p: nat)
    requires i < |r| && q < |r| && p < |r|
  {
    || Hop(r, tables, p, r[q]) == Some(Along(|r|, p, Shorter(|r|, p, q)))
    || (p != i && Hop(r, tables, p, r[q]) == Some(Along(|r|, p, Leaning(|r|, p, q, i))))
  }

  lemma TransitionalTears(r: seq<NodeId>, x: NodeId, tables: Tables, q: nat)
    requires Transitional(r, x, tables) && q < |r| && r[q] != x && r[q] != BROADCAST
    ensures Torn(r, tables, IndexOf(r, x), q)
  {
    forall p | 0 <= p < |r| && p != q ensures TornAt(r, tables, IndexOf(r, x), q, p) {
      assert r[p] in r;
      if Agrees(r, r[p], tables[r[p]]) {
        HopKept(r, tables, p, q);
      } else {
        HopRemoved(r, x, tables, p, q);
        IndexUnique(r, p);
      }
    }
  }

  /** Links from p to q in one direction. */
  function LinksBy(n: nat, p: nat, q: nat, port: Port): (d: nat)
    requires p < n && q < n
    ensures d < n
  {
    if port == Host then Ahead(n, p, q) else Ahead(n, q, p)
  }

  /** So much shorter that no table would turn back. */
  predicate Decided(n: nat, p: nat, q: nat, port: Port)
    requires p < n && q < n
  {
    LinksBy(n, p, q, port) < LinksBy(n, p, q, if port == Host then Gadget else Host) - if port == Gadget then 1 else 0
  }

  lemma DecidedStays(n: nat, p: nat, q: nat, i: nat, port: Port)
    requires p < n && q < n && i < n && p != q && i != q && Decided(n, p, q, port)
    ensures Shorter(n, p, q) == port && (i != p ==> Leaning(n, p, q, i) == port)
  {}

  /** Either direction costs at most one link more than the shorter, and after one hop the walk is decided. */
  lemma FirstHop(n: nat, p: nat, q: nat, i: nat, port: Port)
    requires p < n && q < n && i < n && p != q && i != q
    requires port == Shorter(n, p, q) || (i != p && port == Leaning(n, p, q, i))
    ensures 1 <= LinksBy(n, p, q, port) <= Distance(n, p, q) + 1
    ensures var p' := Along(n, p, port);
            LinksBy(n, p', q, port) == LinksBy(n, p, q, port) - 1 && (p' != q ==> Decided(n, p', q, port))
  {}

  lemma MovedArrivesBy(n: nat, p: nat, q: nat, port: Port, k: nat)
    requires p < n && q < n && p != q && k <= LinksBy(n, p, q, port)
    ensures Moved(n, p, port, k) == q <==> k == LinksBy(n, p, q, port)
  {}

  lemma {:induction false} DecidedWalk(r: seq<NodeId>, tables: Tables, i: nat, p: nat, q: nat, port: Port, k: nat)
    requires p < |r| && q < |r| && i < |r| && i != q && Torn(r, tables, i, q)
    requires p == q || Decided(|r|, p, q, port)
    requires k <= LinksBy(|r|, p, q, port)
    ensures After(r, tables, p, r[q], k) == Some(Moved(|r|, p, port, k))
    decreases k
  {
    if k > 0 {
      var n := |r|;
      var p' := Along(n, p, port);
      DecidedStays(n, p, q, i, port);
      assert TornAt(r, tables, i, q, p);
      FirstHop(n, p, q, i, port);
      MovedStep(n, p, port, k);
      DecidedWalk(r, tables, i, p', q, port, k - 1);
    }
  }

  lemma TornWalk(r: seq<NodeId>, tables: Tables, i: nat, p: nat, q: nat, port: Port, k: nat)
    requires p < |r| && q < |r| && i < |r| && i != q && p != q && Torn(r, tables, i, q)
    requires Hop(r, tables, p, r[q]) == Some(Along(|r|, p, port))
    requires port == Shorter(|r|, p, q) || (i != p && port == Leaning(|r|, p, q, i))
    requires k <= LinksBy(|r|, p, q, port)
    ensures After(r, tables, p, r[q], k) == Some(Moved(|r|, p, port, k))
  {
    if k > 0 {
      FirstHop(|r|, p, q, i, port);
      MovedStep(|r|, p, port, k);
      DecidedWalk(r, tables, i, Along(|r|, p, port), q, port, k - 1);
    }
  }

  lemma TornPort(r: seq<NodeId>, tables: Tables, i: nat, p: nat, q: nat) returns (port: Port)
    requires p < |r| && q < |r| && i < |r| && p != q && TornAt(r, tables, i, q, p)
    ensures Hop(r, tables, p, r[q]) == Some(Along(|r|, p, port))
    ensures port == Shorter(|r|, p, q) || (i != p && port == Leaning(|r|, p, q, i))
  {
    port := Shorter(|r|, p, q);
    if Hop(r, tables, p, r[q]) != Some(Along(|r|, p, port)) {
      port := Leaning(|r|, p, q, i);
    }
  }

  lemma TornDelivery(r: seq<NodeId>, tables: Tables, i: nat, p: nat, q: nat) returns (port: Port)
    requires p < |r| && q < |r| && i < |r| && i != q && p != q && Torn(r, tables, i, q)
    ensures var n, d := |r|, LinksBy(|r|, p, q, port);
            && 1 <= d <= Distance(n, p, q) + 1
            && (forall k :: 0 <= k <= d ==> After(r, tables, p, r[q], k) == Some(Moved(n, p, port, k)))
            && (forall k :: 0 <= k <= d ==> (Moved(n, p, port, k) == q <==> k == d))
  {
    assert TornAt(r, tables, i, q, p);
    port := TornPort(r, tables, i, p, q);
    FirstHop(|r|, p, q, i, port);
    forall k | 0 <= k <= LinksBy(|r|, p, q, port)
      ensures After(r, tables, p, r[q], k) == Some(Moved(|r|, p, port, k))
      ensures Moved(|r|, p, port, k) == q <==> k == LinksBy(|r|, p, q, port)
    {
      MovedArrivesBy(|r|, p, q, port, k);
      TornWalk(r, tables, i, p, q, port, k);
    }
  }

  /**
   * While any of the members have removed x and the others have not, node-by-node routing to any remaining member still
   * runs in one direction without reversing, and meets it after at most min(cw, ccw) + 1 links and not before.
   */
  lemma RemovalUnderWay(r: seq<NodeId>, x: NodeId, tables: Tables, p: nat, q: nat) returns (port: Port)
    requires Transitional(r, x, tables) && p < |r| && q < |r| && p != q && r[q] != x && r[q] != BROADCAST
    ensures var n, d := |r|, LinksBy(|r|, p, q, port);
            && 1 <= d <= Distance(n, p, q) + 1
            && (forall k :: 0 <= k <= d ==> After(r, tables, p, r[q], k) == Some(Moved(n, p, port, k)))
            && (forall k :: 0 <= k <= d ==> (Moved(n, p, port, k) == q <==> k == d))
  {
    TransitionalTears(r, x, tables, q);
    port := TornDelivery(r, tables, IndexOf(r, x), p, q);
  }
}
