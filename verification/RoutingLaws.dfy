/** What the routing table keeps over every run of its operations, and how the operations relate. */
module RoutingLaws {
  import opened Base
  import opened Ring
  import opened Routing

  // ---- runs ----

  datatype Op =
    | Add(x: NodeId, port: Port)
    | Remove(x: NodeId)
    | Hello(path: seq<NodeId>)

  function Apply(t: Table, op: Op): (u: Table)
    ensures u.id == t.id
  {
    match op
    case Add(x, port) => Added(t, x, port)
    case Remove(x) => Removed(t, x)
    case Hello(path) => Heard(t, path)
  }

  /** The table after the first k operations. */
  function Run(t: Table, ops: seq<Op>, k: nat): (u: Table)
    requires k <= |ops|
    ensures u.id == t.id
  {
    if k == 0 then t else Apply(Run(t, ops, k - 1), ops[k - 1])
  }

  function Fresh(id: NodeId): Table { Table(id, map[], [], map[]) }

  predicate Sound(t: Table) {
    && (t.ring == [] || (Distinct(t.ring) && Shortest(t)))
    && (|t.ring| < 2 ==> t.routes == t.neighbors)
    && t.id !in t.routes && t.id !in t.neighbors
  }

  lemma AddedSound(t: Table, x: NodeId, port: Port)
    requires Sound(t) && x != t.id
    ensures Sound(Added(t, x, port))
  {
    var u := t.(neighbors := t.neighbors[x := port], routes := t.routes[x := port],
                ring := Append(Append(t.ring, x), t.id));
    RecomputedSound(u);
  }

  /** Not adding self, not removing self from a ring of two, not making a list with duplicates the ring. */
  predicate Keeps(t: Table, op: Op) {
    match op
    case Add(x, _) => x != t.id
    case Remove(x) => x != t.id || |t.ring| != 2
    case Hello(path) => |path| < |t.ring| || Distinct(path)
  }

  lemma RemovedSound(t: Table, x: NodeId)
    requires Sound(t)
    ensures Sound(Removed(t, x)) <==> x != t.id || |t.ring| != 2
  {
    var u := t.(neighbors := t.neighbors - {x}, routes := t.routes - {x}, ring := Without(t.ring, x));
    WithoutDistinct(t.ring, x);
    if x != t.id || |t.ring| != 2 {
      if |u.ring| == 1 {
        assert u.ring[0] in u.ring;
      }
      RecomputedSound(u);
    }
  }

  lemma {:induction false} MergeDistinct(ring: seq<NodeId>, path: seq<NodeId>)
    requires Distinct(ring)
    ensures Distinct(Merge(ring, path))
    decreases |path|
  {
    if path != [] {
      MergeDistinct(Append(ring, path[0]), path[1..]);
    }
  }

  lemma HeardKeeps(t: Table, path: seq<NodeId>)
    requires Sound(t) && (|path| < |t.ring| || Distinct(path))
    ensures Sound(Heard(t, path))
  {
    if |path| < |t.ring| {
      MergeDistinct(t.ring, path);
    }
    RecomputedSound(t.(ring := RingAfter(t, path)));
  }

  lemma AdoptedPrefix(t: Table, path: seq<NodeId>)
    requires |path| >= |t.ring|
    ensures path <= Heard(t, path).ring
  {}

  lemma HeardSound(t: Table, path: seq<NodeId>)
    requires Sound(t)
    ensures Sound(Heard(t, path)) <==> |path| < |t.ring| || Distinct(path)
  {
    if |path| < |t.ring| || Distinct(path) {
      HeardKeeps(t, path);
    } else {
      AdoptedPrefix(t, path);
      if Sound(Heard(t, path)) {
        PrefixDistinct(path, Heard(t, path).ring);
      }
    }
  }

  lemma PrefixDistinct(a: seq<NodeId>, b: seq<NodeId>)
    requires a <= b && Distinct(b)
    ensures Distinct(a)
  {
    forall i, j | 0 <= i < j < |a| ensures a[i] != a[j] {
      assert b[i] != b[j];
    }
  }

  lemma RecomputedSound(u: Table)
    requires Distinct(u.ring) && (|u.ring| == 1 ==> u.ring == [u.id])
    requires u.id !in u.routes && u.id !in u.neighbors
    ensures Sound(Recomputed(u))
  {
    if |u.ring| >= 2 {
      var ring := Append(u.ring, u.id);
      RecomputeShortest(u);
      AssignKeys(ring, u.id, |ring|, u.routes);
    }
  }

  /** One operation keeps a table sound exactly when `Keeps` says so. */
  lemma ApplySoundIff(t: Table, op: Op)
    requires Sound(t)
    ensures Sound(Apply(t, op)) <==> Keeps(t, op)
  {
    match op
    case Add(x, port) =>
      if x != t.id {
        AddedSound(t, x, port);
      }
    case Remove(x) => RemovedSound(t, x);
    case Hello(path) => HeardSound(t, path);
  }

  // ---- two patterns of induction over the steps of a run ----

  type Over = nat -> bool

  predicate KeepsStep(good: Over, kept: Over, k: nat) { good(k) ==> (good(k + 1) <==> kept(k)) }

  /** Good all along exactly when kept at each step. */
  lemma {:induction false} KeptIff(good: Over, kept: Over, n: nat)
    requires good(0) && forall k: nat :: k < n ==> KeepsStep(good, kept, k)
    ensures (forall k: nat :: k <= n ==> good(k)) <==> forall k: nat :: k < n ==> kept(k)
  {
    if n > 0 {
      KeptIff(good, kept, n - 1);
      assert KeepsStep(good, kept, n - 1);
      assert good(n) <==> good(n - 1 + 1);
    }
  }

  /** Given at some point, and spared at every step since. */
  ghost predicate Since(given: Over, spared: Over, n: nat) {
    exists k: nat :: k <= n && given(k) && forall j: nat :: k <= j < n ==> spared(j)
  }

  predicate SinceNext(holds: Over, given: Over, spared: Over, m: nat) {
    holds(m + 1) <==> given(m + 1) || (spared(m) && holds(m))
  }

  lemma SinceStep(given: Over, spared: Over, m: nat)
    ensures Since(given, spared, m + 1) <==> given(m + 1) || (spared(m) && Since(given, spared, m))
  {
    if given(m + 1) {
      assert m + 1 <= m + 1;
    } else if spared(m) && Since(given, spared, m) {
      var k: nat :| k <= m && given(k) && forall j: nat :: k <= j < m ==> spared(j);
      assert forall j: nat :: k <= j < m + 1 ==> spared(j);
    }
  }

  lemma {:induction false} SinceIff(holds: Over, given: Over, spared: Over, n: nat)
    requires holds(0) <==> given(0)
    requires forall m: nat :: m < n ==> SinceNext(holds, given, spared, m)
    ensures holds(n) <==> Since(given, spared, n)
  {
    if n == 0 {
      if given(0) {
        assert forall j: nat :: 0 <= j < 0 ==> spared(j);
      }
    } else {
      SinceIff(holds, given, spared, n - 1);
      SinceStep(given, spared, n - 1);
      assert SinceNext(holds, given, spared, n - 1);
    }
  }

  // ---- when a run stays sound ----

  function SoundAfter(t: Table, ops: seq<Op>): Over { (k: nat) => k <= |ops| && Sound(Run(t, ops, k)) }

  function KeptAt(t: Table, ops: seq<Op>): Over { (k: nat) => k < |ops| && Keeps(Run(t, ops, k), ops[k]) }

  lemma SoundNext(u: Table, v: Table, op: Op)
    requires Sound(u) && v == Apply(u, op)
    ensures Sound(v) <==> Keeps(u, op)
  {
    ApplySoundIff(u, op);
  }

  lemma SoundStep(t: Table, ops: seq<Op>, k: nat)
    requires k < |ops|
    ensures KeepsStep(SoundAfter(t, ops), KeptAt(t, ops), k)
  {
    var u, v := Run(t, ops, k), Run(t, ops, k + 1);
    if Sound(u) {
      SoundNext(u, v, ops[k]);
    }
  }

  /**
   * In a run of any operations, starting sound, every table is sound exactly when every operation keeps it so.
   * Sound: the ring is empty, or duplicate-free and containing self, with every other member routed the
   * shorter way, ties to 'host'; with fewer than two members the routes are exactly the registered
   * neighbours; self never has a route.
   */
  lemma RunSoundIff(t: Table, ops: seq<Op>, n: nat)
    requires Sound(t) && n <= |ops|
    ensures (forall k: nat :: k <= n ==> SoundAfter(t, ops)(k)) <==> forall k: nat :: k < n ==> KeptAt(t, ops)(k)
  {
    forall k: nat | k < n ensures KeepsStep(SoundAfter(t, ops), KeptAt(t, ops), k) {
      SoundStep(t, ops, k);
    }
    KeptIff(SoundAfter(t, ops), KeptAt(t, ops), n);
  }

  /** Ids other than self and duplicate-free lists. */
  predicate Legal(id: NodeId, op: Op) {
    match op
    case Add(x, _) => x != id
    case Remove(x) => x != id
    case Hello(path) => Distinct(path)
  }

  lemma LegalKeeps(t: Table, op: Op)
    requires Legal(t.id, op)
    ensures Keeps(t, op)
  {}

  /** In particular after any legal operations. */
  lemma RunSound(t: Table, ops: seq<Op>, n: nat)
    requires Sound(t) && n <= |ops| && forall k :: 0 <= k < n ==> Legal(t.id, ops[k])
    ensures Sound(Run(t, ops, n))
  {
    forall k: nat | k < n ensures KeptAt(t, ops)(k) {
      LegalKeeps(Run(t, ops, k), ops[k]);
    }
    RunSoundIff(t, ops, n);
    assert SoundAfter(t, ops)(n);
  }

  // ---- the registered neighbours ----

  predicate Registers(op: Op, x: NodeId) {
    match op
    case Add(y, _) => y == x
    case Remove(y) => y == x
    case Hello(_) => false
  }

  predicate RegisteredOn(t: Table, x: NodeId, port: Port) { x in t.neighbors && t.neighbors[x] == port }

  lemma RegistersLast(t: Table, op: Op, x: NodeId, port: Port)
    ensures RegisteredOn(Apply(t, op), x, port)
            <==> op == Add(x, port) || (RegisteredOn(t, x, port) && !Registers(op, x))
  {}

  /** The operation just done adds x on this port. */
  function JustAdded(ops: seq<Op>, x: NodeId, port: Port): Over {
    (k: nat) => 0 < k <= |ops| && ops[k - 1] == Add(x, port)
  }

  /** The next operation neither adds nor removes x. */
  function LeavesAlone(ops: seq<Op>, x: NodeId): Over { (j: nat) => j < |ops| && !Registers(ops[j], x) }

  function RegisteredAfter(id: NodeId, ops: seq<Op>, x: NodeId, port: Port): Over {
    (k: nat) => k <= |ops| && RegisteredOn(Run(Fresh(id), ops, k), x, port)
  }

  lemma RegisteredStep(id: NodeId, ops: seq<Op>, m: nat, x: NodeId, port: Port)
    requires m < |ops|
    ensures SinceNext(RegisteredAfter(id, ops, x, port), JustAdded(ops, x, port), LeavesAlone(ops, x), m)
  {
    RegistersLast(Run(Fresh(id), ops, m), ops[m], x, port);
  }

  /** A neighbour is registered on a port exactly when the last operation adding or removing it added it there. */
  lemma RegisteredIff(id: NodeId, ops: seq<Op>, n: nat, x: NodeId, port: Port)
    requires n <= |ops|
    ensures RegisteredAfter(id, ops, x, port)(n) <==> Since(JustAdded(ops, x, port), LeavesAlone(ops, x), n)
  {
    forall m: nat | m < n
      ensures SinceNext(RegisteredAfter(id, ops, x, port), JustAdded(ops, x, port), LeavesAlone(ops, x), m)
    {
      RegisteredStep(id, ops, m, x, port);
    }
    SinceIff(RegisteredAfter(id, ops, x, port), JustAdded(ops, x, port), LeavesAlone(ops, x), n);
  }

  /** x is named nowhere in the table. */
  predicate Unknown(t: Table, x: NodeId) {
    x !in t.neighbors && x !in t.ring && x !in t.routes
  }

  predicate Names(op: Op, x: NodeId) {
    match op
    case Add(y, _) => x == y
    case Remove(_) => false
    case Hello(path) => x in path
  }

  lemma RecomputedUnknown(u: Table, x: NodeId)
    requires Unknown(u, x) && x != u.id
    ensures Unknown(Recomputed(u), x)
  {
    if |u.ring| >= 2 {
      var ring := Append(u.ring, u.id);
      AssignKeys(ring, u.id, |ring|, u.routes);
    }
  }

  lemma ApplyUnknown(t: Table, op: Op, x: NodeId)
    requires x != t.id && !Names(op, x)
    requires Unknown(t, x) || op == Remove(x)
    ensures Unknown(Apply(t, op), x)
  {
    match op
    case Add(y, port) =>
      RecomputedUnknown(t.(neighbors := t.neighbors[y := port], routes := t.routes[y := port],
                           ring := Append(Append(t.ring, y), t.id)), x);
    case Remove(y) =>
      RecomputedUnknown(t.(neighbors := t.neighbors - {y}, routes := t.routes - {y}, ring := Without(t.ring, y)), x);
    case Hello(path) =>
      RecomputedUnknown(t.(ring := RingAfter(t, path)), x);
  }

  lemma {:induction false} StaysUnknown(t: Table, x: NodeId, ops: seq<Op>, n: nat)
    requires n <= |ops| && x != t.id && Unknown(t, x) && forall k :: 0 <= k < n ==> !Names(ops[k], x)
    ensures Unknown(Run(t, ops, n), x)
  {
    if n > 0 {
      StaysUnknown(t, x, ops, n - 1);
      ApplyUnknown(Run(t, ops, n - 1), ops[n - 1], x);
    }
  }

  /** A removed node has no route until an add or a HELLO names it again. */
  lemma RemovedStaysGone(t: Table, x: NodeId, ops: seq<Op>, n: nat)
    requires n <= |ops| && x != t.id && forall k :: 0 <= k < n ==> !Names(ops[k], x)
    ensures NextHop(Run(Removed(t, x), ops, n), x) == None
  {
    ApplyUnknown(t, Remove(x), x);
    StaysUnknown(Removed(t, x), x, ops, n);
  }

  // ---- the HELLO operation ----

  /** Recomputing overwrites: what was routed before matters only outside the ring. */
  lemma {:induction false} AssignForgets(
      ring: seq<NodeId>, id: NodeId, k: nat, m: map<NodeId, Port>, m': map<NodeId, Port>)
    requires id in ring && k <= |ring|
    ensures forall d :: d in ring[..k] && d != id ==>
              d in Assign(ring, id, k, m) && d in Assign(ring, id, k, m')
              && Assign(ring, id, k, m)[d] == Assign(ring, id, k, m')[d]
  {
    if k > 0 {
      AssignForgets(ring, id, k - 1, m, m');
      assert ring[..k] == ring[..k - 1] + [ring[k - 1]];
    }
  }

  lemma AssignTwice(ring: seq<NodeId>, id: NodeId, m: map<NodeId, Port>)
    requires id in ring
    ensures Assign(ring, id, |ring|, Assign(ring, id, |ring|, m)) == Assign(ring, id, |ring|, m)
  {
    var n := |ring|;
    var once := Assign(ring, id, n, m);
    var twice := Assign(ring, id, n, once);
    AssignKeys(ring, id, n, m);
    AssignKeys(ring, id, n, once);
    AssignForgets(ring, id, n, m, once);
    assert ring[..n] == ring;
    assert once.Keys == twice.Keys;
  }

  lemma {:induction false} MergeKnown(ring: seq<NodeId>, path: seq<NodeId>)
    requires forall x :: x in path ==> x in ring
    ensures Merge(ring, path) == ring
    decreases |path|
  {
    if path != [] {
      MergeKnown(ring, path[1..]);
    }
  }

  lemma RingAfterTwice(t: Table, path: seq<NodeId>)
    ensures RingAfter(t.(ring := RingAfter(t, path)), path) == RingAfter(t, path)
  {
    var r := RingAfter(t, path);
    if |path| < |r| {
      MergeKnown(r, path);
    } else {
      assert path <= r;
    }
  }

  /** Hearing the same HELLO again changes nothing, whatever the list. */
  lemma HeardTwice(t: Table, path: seq<NodeId>)
    ensures Heard(Heard(t, path), path) == Heard(t, path)
  {
    RingAfterTwice(t, path);
    var r := RingAfter(t, path);
    if |r| >= 2 {
      assert Append(r, t.id) == r;
      AssignTwice(r, t.id, t.routes);
    }
  }

  /** A HELLO never shortens the ring; a merge keeps it as a prefix and makes its members exactly the union. */
  lemma HeardRing(t: Table, path: seq<NodeId>)
    ensures var r := Heard(t, path).ring;
            && |r| >= |t.ring|
            && (|path| >= |t.ring| ==> path <= r && forall x :: x in r <==> x in path || x == t.id)
            && (|path| < |t.ring| ==> t.ring <= r && forall x :: x in r <==> x in t.ring || x in path || x == t.id)
  {
    assert |Merge(t.ring, path)| >= |t.ring|;
  }

  /**
   * Adoption does not clear the route map: after a HELLO the routed destinations are the ring's other members and
   * everything routed before. So no stale route is left exactly when the list names every destination routed so
   * far, or is shorter than the ring and the ring does.
   */
  lemma HeardRouteKeys(t: Table, path: seq<NodeId>)
    requires t.id !in t.routes && |RingAfter(t, path)| >= 2
    ensures var u := Heard(t, path);
            && (forall d :: d in u.routes
                  <==> d in t.routes || (d != t.id && (d in path || (|path| < |t.ring| && d in t.ring))))
            && ((forall d :: d in u.routes ==> d in u.ring)
                <==> forall d :: d in t.routes ==> d in path || (|path| < |t.ring| && d in t.ring))
  {
    var r := RingAfter(t, path);
    assert Append(r, t.id) == r && r[..|r|] == r;
    AssignKeys(r, t.id, |r|, t.routes);
    HeardRing(t, path);
  }

  // ---- which routes a run leaves behind ----

  /** The table gives d a route by itself: d is in the ring, or registered when there is no ring of two. */
  predicate Gives(t: Table, d: NodeId) {
    if |t.ring| < 2 then d in t.neighbors else d in t.ring
  }

  lemma RecomputedGives(u: Table, d: NodeId)
    requires d != u.id
    ensures d in Recomputed(u).routes
            <==> Gives(Recomputed(u), d) || (d in u.routes && |Recomputed(u).ring| >= 2)
  {
    if |u.ring| >= 2 {
      var ring := Append(u.ring, u.id);
      AssignKeys(ring, u.id, |ring|, u.routes);
      assert ring[..|ring|] == ring;
    }
  }

  lemma ApplyGives(t: Table, op: Op, d: NodeId)
    requires d != t.id
    ensures d in Apply(t, op).routes
            <==> Gives(Apply(t, op), d) || (d in t.routes && op != Remove(d) && |Apply(t, op).ring| >= 2)
  {
    match op
    case Add(x, port) =>
      RecomputedGives(t.(neighbors := t.neighbors[x := port], routes := t.routes[x := port],
                         ring := Append(Append(t.ring, x), t.id)), d);
    case Remove(x) =>
      RecomputedGives(t.(neighbors := t.neighbors - {x}, routes := t.routes - {x}, ring := Without(t.ring, x)), d);
    case Hello(path) =>
      RecomputedGives(t.(ring := RingAfter(t, path)), d);
  }

  function GivenAfter(id: NodeId, ops: seq<Op>, d: NodeId): Over {
    (k: nat) => k <= |ops| && Gives(Run(Fresh(id), ops, k), d)
  }

  /** The next operation takes no route of d away: it does not remove d and leaves a ring of two or more. */
  function Spares(id: NodeId, ops: seq<Op>, d: NodeId): Over {
    (j: nat) => j < |ops| && ops[j] != Remove(d) && |Run(Fresh(id), ops, j + 1).ring| >= 2
  }

  function RoutedAfter(id: NodeId, ops: seq<Op>, d: NodeId): Over {
    (k: nat) => k <= |ops| && d in Run(Fresh(id), ops, k).routes
  }

  lemma RoutedStep(id: NodeId, ops: seq<Op>, d: NodeId, m: nat)
    requires m < |ops| && d != id
    ensures SinceNext(RoutedAfter(id, ops, d), GivenAfter(id, ops, d), Spares(id, ops, d), m)
  {
    ApplyGives(Run(Fresh(id), ops, m), ops[m], d);
  }

  /**
   * The routes of any reachable table, stale ones included: d is routed exactly when at some point it was in the
   * ring (or registered, below two members) and since then nobody removed it and the ring never fell below two.
   */
  lemma RoutedIff(id: NodeId, ops: seq<Op>, d: NodeId, n: nat)
    requires n <= |ops| && d != id
    ensures RoutedAfter(id, ops, d)(n) <==> Since(GivenAfter(id, ops, d), Spares(id, ops, d), n)
  {
    forall m: nat | m < n ensures SinceNext(RoutedAfter(id, ops, d), GivenAfter(id, ops, d), Spares(id, ops, d), m) {
      RoutedStep(id, ops, d, m);
    }
    SinceIff(RoutedAfter(id, ops, d), GivenAfter(id, ops, d), Spares(id, ops, d), n);
  }

  // ---- stale routes, concretely ----

  /** Whatever an adopted list leaves out keeps the route it had. */
  lemma StaleRoute(t: Table, path: seq<NodeId>, d: NodeId)
    requires |path| >= |t.ring| && |path| >= 2 && d in t.routes && d != t.id && d !in path
    ensures d !in Heard(t, path).ring && NextHop(Heard(t, path), d) == NextHop(t, d)
  {
    var r := RingAfter(t, path);
    assert Append(r, t.id) == r && r[..|r|] == r;
    AssignKeys(r, t.id, |r|, t.routes);
  }

  /** So after these two lists node 3 has left the ring of node 1, but not its routes. */
  lemma StaleRouteExample() returns (before: seq<NodeId>, after: seq<NodeId>)
    ensures before == [1, 2, 3, 4] && after == [1, 5, 6, 7]
    ensures var t := Heard(Heard(Fresh(1), before), after);
            3 !in t.ring && NextHop(t, 3) != None
  {
    before, after := [1, 2, 3, 4], [1, 5, 6, 7];
    var t := Heard(Fresh(1), before);
    assert before[2] == 3 && before[0] == 1;
    HeardRouteKeys(Fresh(1), before);
    StaleRoute(t, after, 3);
  }

  /**
   * The port a neighbour was registered on does not survive recomputing: whoever stands next to us in a ring of
   * three or more is routed by 'host' if clockwise and by 'gadget' if counter-clockwise.
   */
  lemma AdjacentPort(t: Table, my: nat, i: nat)
    requires Sound(t) && |t.ring| >= 3 && my < |t.ring| && i < |t.ring| && t.ring[my] == t.id
    requires t.ring[i] != BROADCAST && (Ahead(|t.ring|, my, i) == 1 || Ahead(|t.ring|, i, my) == 1)
    ensures NextHop(t, t.ring[i]) == Some(if Ahead(|t.ring|, my, i) == 1 then Host else Gadget)
  {
    IndexUnique(t.ring, my);
    IndexUnique(t.ring, i);
    assert t.ring[i] != t.id && t.routes[t.ring[i]] == Toward(t.ring, t.id, t.ring[i]);
  }

  /** The port the ring gives x once x is added, read off the table before. */
  function PortGiven(t: Table, x: NodeId): Port
    requires Sound(t)
  {
    if t.ring == [] then Host
    else if x in t.ring then Toward(t.ring, t.id, x)
    else if |t.ring| <= 2 * IndexOf(t.ring, t.id) + 1 then Host
    else Gadget
  }

  lemma IndexInPrefix(r: seq<NodeId>, x: NodeId, y: NodeId)
    requires Distinct(r) && x in r && y !in r
    ensures IndexOf(r + [y], x) == IndexOf(r, x) && IndexOf(r + [y], y) == |r|
  {
    var s := r + [y];
    assert Distinct(s) && s[IndexOf(r, x)] == x && s[|r|] == y;
    IndexUnique(s, IndexOf(r, x));
    IndexUnique(s, |r|);
  }

  lemma GivenIsToward(t: Table, x: NodeId)
    requires Sound(t) && x != t.id
    ensures PortGiven(t, x) == Toward(Append(Append(t.ring, x), t.id), t.id, x)
  {
    if t.ring == [] {
      var s := Append(Append(t.ring, x), t.id);
      assert s == [x, t.id];
      IndexUnique(s, 0);
      IndexUnique(s, 1);
    } else if x !in t.ring {
      IndexInPrefix(t.ring, t.id, x);
    }
  }

  /** The port given to add_neighbor is the route exactly when it is the one the ring gives. */
  lemma AddedPortIff(t: Table, x: NodeId, port: Port)
    requires Sound(t) && x != t.id && x != BROADCAST
    ensures NextHop(Added(t, x, port), x) == Some(port) <==> port == PortGiven(t, x)
    ensures NextHop(Added(t, x, port), x) == Some(PortGiven(t, x))
  {
    AddedSound(t, x, port);
    AddedRing(t, x, port);
    GivenIsToward(t, x);
  }

  /** So a first neighbour on 'gadget' is routed by 'host': a ring of two is a tie. */
  lemma FirstOnGadget(id: NodeId, x: NodeId)
    requires x != id && x != BROADCAST
    ensures NextHop(Added(Fresh(id), x, Gadget), x) == Some(Host)
  {
    AddedPortIff(Fresh(id), x, Gadget);
  }

  lemma AddedRing(t: Table, x: NodeId, port: Port)
    requires x != t.id
    ensures Added(t, x, port).ring == Append(Append(t.ring, x), t.id) && Added(t, x, port).id == t.id
  {}

  /** The first two neighbours, registered on 'host' and then on 'gadget', are routed the other way round ... */
  lemma FirstTwoSwapped(id: NodeId, x: NodeId, y: NodeId)
    requires id != x && id != y && x != y && x != BROADCAST && y != BROADCAST
    ensures var t := Added(Added(Fresh(id), x, Host), y, Gadget);
            NextHop(t, x) == Some(Gadget) && NextHop(t, y) == Some(Host)
  {
    var u := Added(Fresh(id), x, Host);
    AddedSound(Fresh(id), x, Host);
    AddedRing(Fresh(id), x, Host);
    SecondSwapped(u, x, y);
  }

  lemma SecondSwapped(u: Table, x: NodeId, y: NodeId)
    requires Sound(u) && u.ring == [x, u.id] && y != u.id && y != x && x != BROADCAST && y != BROADCAST
    ensures NextHop(Added(u, y, Gadget), x) == Some(Gadget) && NextHop(Added(u, y, Gadget), y) == Some(Host)
  {
    var t := Added(u, y, Gadget);
    AddedSound(u, y, Gadget);
    AddedRing(u, y, Gadget);
    assert t.ring == [x, t.id, y];
    AdjacentPort(t, 1, 0);
    AdjacentPort(t, 1, 2);
  }

  /** ... until a full HELLO arrives. */
  lemma FullHelloRestores(t: Table, path: seq<NodeId>)
    requires Sound(t) && Distinct(path) && |path| >= 3 && |path| >= |t.ring| && path[0] == t.id
    requires path[1] != BROADCAST && path[|path| - 1] != BROADCAST
    ensures NextHop(Heard(t, path), path[1]) == Some(Host)
    ensures NextHop(Heard(t, path), path[|path| - 1]) == Some(Gadget)
  {
    var v := Heard(t, path);
    HeardSound(t, path);
    assert v.ring == path;
    AdjacentPort(v, 0, 1);
    AdjacentPort(v, 0, |path| - 1);
  }

  // ---- symmetries ----

  /** The direction chosen depends on the ring only up to rotation. */
  lemma TowardRotation(s: seq<NodeId>, r: seq<NodeId>, a: NodeId, b: NodeId)
    requires Distinct(r) && IsRotation(s, r) && a in r && b in r
    ensures a in s && b in s && Toward(s, a, b) == Toward(r, a, b)
  {
    RotationKeepsAhead(s, r, a, b);
    RotationKeepsAhead(s, r, b, a);
  }

  /** Reversing the ring swaps host and gadget, except at the antipode, which stays clockwise. */
  lemma TowardReversal(r: seq<NodeId>, a: NodeId, b: NodeId)
    requires Distinct(r) && a in r && b in r && a != b
    ensures a in Reverse(r) && b in Reverse(r)
    ensures var antipode := Ahead(|r|, IndexOf(r, a), IndexOf(r, b)) == Ahead(|r|, IndexOf(r, b), IndexOf(r, a));
            if antipode then Toward(Reverse(r), a, b) == Toward(r, a, b) == Host
            else Toward(Reverse(r), a, b) != Toward(r, a, b)
  {
    ReverseAhead(r, a, b);
    ReverseAhead(r, b, a);
  }

  /** The route map after recomputing, destination by destination. */
  lemma RecomputedRoute(t: Table, d: NodeId)
    requires Distinct(t.ring) && |t.ring| >= 2 && t.id in t.ring
    ensures var m := Recomputed(t).routes;
            && (d in m <==> d in t.routes || (d in t.ring && d != t.id))
            && (d in m ==> m[d] == if d in t.ring && d != t.id then Toward(t.ring, t.id, d) else t.routes[d])
  {
    RecomputeShortest(t);
    assert t.ring[..|t.ring|] == t.ring;
    AssignKeys(t.ring, t.id, |t.ring|, t.routes);
  }

  lemma RotatedRoute(t: Table, s: seq<NodeId>, r: seq<NodeId>, d: NodeId)
    requires Distinct(r) && |r| >= 2 && t.id in r && IsRotation(s, r)
    ensures var a, b := Recomputed(t.(ring := s)).routes, Recomputed(t.(ring := r)).routes;
            (d in a <==> d in b) && (d in a ==> a[d] == b[d])
  {
    RotationMembers(s, r);
    RotationKeepsAhead(s, r, t.id, t.id);
    RecomputedRoute(t.(ring := s), d);
    RecomputedRoute(t.(ring := r), d);
    if d in r {
      TowardRotation(s, r, t.id, d);
    }
  }

  /** So recomputing gives the same route map for every rotation of a ring ... */
  lemma RecomputeRotation(t: Table, s: seq<NodeId>, r: seq<NodeId>)
    requires Distinct(r) && |r| >= 2 && t.id in r && IsRotation(s, r)
    ensures Recomputed(t.(ring := s)).routes == Recomputed(t.(ring := r)).routes
  {
    var a, b := Recomputed(t.(ring := s)).routes, Recomputed(t.(ring := r)).routes;
    forall d ensures (d in a <==> d in b) && (d in a ==> a[d] == b[d]) {
      RotatedRoute(t, s, r, d);
    }
  }

  /** ... and for the reversed ring the opposite port for every other member except the antipode. */
  lemma RecomputeReversal(t: Table, d: NodeId)
    requires Distinct(t.ring) && |t.ring| >= 2 && t.id in t.ring && d in t.ring && d != t.id
    ensures var r := t.ring;
            var antipode := Ahead(|r|, IndexOf(r, t.id), IndexOf(r, d)) == Ahead(|r|, IndexOf(r, d), IndexOf(r, t.id));
            var here, there := Recomputed(t).routes, Recomputed(t.(ring := Reverse(r))).routes;
            d in here && d in there && (here[d] == there[d] <==> antipode)
  {
    TowardReversal(t.ring, t.id, d);
    ReverseAhead(t.ring, t.id, d);
    RecomputeShortest(t);
    RecomputeShortest(t.(ring := Reverse(t.ring)));
  }

  /** Taking x out shortens the arc it lies on by one link. */
  lemma ContractedArcs(r: seq<NodeId>, a: NodeId, b: NodeId, x: NodeId)
    requires Distinct(r) && a in r && b in r && x in r && a != b && x != a && x != b
    ensures var n, s := |r|, Without(r, x);
            var cw, ccw := Ahead(n, IndexOf(r, a), IndexOf(r, b)), Ahead(n, IndexOf(r, b), IndexOf(r, a));
            var clockwise := Ahead(n, IndexOf(r, a), IndexOf(r, x)) < cw;
            && cw + ccw == n
            && Ahead(|s|, IndexOf(s, a), IndexOf(s, b)) == (if clockwise then cw - 1 else cw)
            && Ahead(|s|, IndexOf(s, b), IndexOf(s, a)) == (if clockwise then ccw else ccw - 1)
  {
    Arcs(|r|, IndexOf(r, a), IndexOf(r, b), IndexOf(r, x));
    WithoutAhead(r, x, a, b);
    WithoutAhead(r, x, b, a);
  }

  /** The comparison that decides flips exactly in these two cases. */
  lemma Flips(cw: nat, ccw: nat, clockwise: bool)
    ensures ((if clockwise then cw - 1 else cw) <= (if clockwise then ccw else ccw - 1)) != (cw <= ccw)
            <==> (cw == ccw + 1 && clockwise) || (cw == ccw && !clockwise)
  {}

  /**
   * Removing x leaves the direction from a to b alone, except exactly when it was counter-clockwise by
   * one link and x lay on the clockwise arc, or a tie and x lay on the counter-clockwise arc.
   */
  lemma RemovalKeepsDirection(r: seq<NodeId>, a: NodeId, b: NodeId, x: NodeId)
    requires Distinct(r) && a in r && b in r && x in r && a != b && x != a && x != b
    ensures var n := |r|;
            var cw, ccw := Ahead(n, IndexOf(r, a), IndexOf(r, b)), Ahead(n, IndexOf(r, b), IndexOf(r, a));
            var clockwise := Ahead(n, IndexOf(r, a), IndexOf(r, x)) < cw;
            Toward(Without(r, x), a, b) != Toward(r, a, b)
            <==> (cw == ccw + 1 && clockwise) || (cw == ccw && !clockwise)
  {
    var n := |r|;
    var cw, ccw := Ahead(n, IndexOf(r, a), IndexOf(r, b)), Ahead(n, IndexOf(r, b), IndexOf(r, a));
    ContractedArcs(r, a, b, x);
    Flips(cw, ccw, Ahead(n, IndexOf(r, a), IndexOf(r, x)) < cw);
  }

  /** A third position lies on exactly one of the two arcs between two others. */
  lemma Arcs(n: nat, i: nat, j: nat, k: nat)
    requires i < n && j < n && k < n && i != j && k != i && k != j
    ensures Ahead(n, i, j) + Ahead(n, j, i) == n
    ensures Ahead(n, j, k) < Ahead(n, j, i) <==> !(Ahead(n, i, k) < Ahead(n, i, j))
  {}
}
