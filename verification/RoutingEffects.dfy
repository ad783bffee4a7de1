/**
 * What each operation of the routing table does to its fields, said with positions and membership alone, for rings with
 * or without duplicates.
 */
module RoutingEffects {
  import opened Base
  import opened Ring
  import opened Routing

  // ---- the merge ----

  lemma NewComesFirst(ring: seq<NodeId>, path: seq<NodeId>, r: seq<NodeId>)
    requires path != [] && path[0] !in ring && MergedInOrder(ring, path, r)
    ensures |ring| < |r| && r[|ring|] == path[0]
  {
    assert path[0] in path;
    var b :| 0 <= b < |r| && r[b] == path[0];
    assert b >= |ring| && path[..0] == [];
  }

  lemma TailAfterFirst(n: nat, path: seq<NodeId>, r: seq<NodeId>)
    requires path != [] && n <= |r| && path[0] in r[..n] && MergedTail(n, path, r)
    ensures MergedTail(n, path[1..], r)
  {
    var rest := path[1..];
    assert path == [path[0]] + rest;
    assert forall k :: n <= k < |r| ==> path[0] in r[..k];
    forall a, b, j | n <= a < b < |r| && 0 <= j < |rest| && rest[j] == r[b] ensures r[a] in rest[..j] {
      assert path[j + 1] == r[b] && path[..j + 1] == [path[0]] + rest[..j];
    }
  }

  lemma FirstIsTaken(ring: seq<NodeId>, path: seq<NodeId>, r: seq<NodeId>)
    requires path != [] && MergedInOrder(ring, path, r)
    ensures var more := Append(ring, path[0]);
            more <= r && path[0] in r[..|more|] && |more| >= |ring|
  {
    if path[0] !in ring {
      NewComesFirst(ring, path, r);
    }
  }

  lemma TailLater(n: nat, m: nat, path: seq<NodeId>, r: seq<NodeId>)
    requires n <= m && MergedTail(n, path, r)
    ensures MergedTail(m, path, r)
  {}

  lemma MergedAfterFirst(ring: seq<NodeId>, path: seq<NodeId>, r: seq<NodeId>)
    requires path != [] && MergedInOrder(ring, path, r)
    ensures MergedInOrder(Append(ring, path[0]), path[1..], r)
  {
    var more := Append(ring, path[0]);
    FirstIsTaken(ring, path, r);
    TailLater(|ring|, |more|, path, r);
    TailAfterFirst(|more|, path, r);
    assert path == [path[0]] + path[1..];
  }

  lemma MergedWithFirst(ring: seq<NodeId>, path: seq<NodeId>, r: seq<NodeId>)
    requires path != [] && MergedInOrder(Append(ring, path[0]), path[1..], r)
    ensures MergedInOrder(ring, path, r)
  {
    assert path == [path[0]] + path[1..];
    var n := |ring|;
    forall a, b, j | n <= a < b < |r| && 0 <= j < |path| && path[j] == r[b] ensures r[a] in path[..j] {
      assert j > 0 && path[1..][j - 1] == r[b] && path[..j] == [path[0]] + path[1..][..j - 1];
    }
  }

  lemma TailMember(n: nat, path: seq<NodeId>, r: seq<NodeId>, k: nat)
    requires n <= k < |r| && MergedTail(n, path, r)
    ensures r[k] in path
  {}

  /** The description fits exactly one list, the one the merge computes. */
  lemma {:induction false} MergeOrderIff(ring: seq<NodeId>, path: seq<NodeId>, r: seq<NodeId>)
    ensures r == Merge(ring, path) <==> MergedInOrder(ring, path, r)
    decreases |path|
  {
    if path == [] {
      if MergedInOrder(ring, path, r) && |ring| < |r| {
        TailMember(|ring|, path, r, |ring|);
      }
    } else {
      MergeOrderIff(Append(ring, path[0]), path[1..], r);
      if MergedInOrder(ring, path, r) {
        MergedAfterFirst(ring, path, r);
      } else if r == Merge(ring, path) {
        MergedWithFirst(ring, path, r);
      }
    }
  }

  // ---- the whole table ----

  /**
   * The routes of u, recomputed from `before`: with a ring of two or more each other member goes the shorter way from
   * self's first position to the member's last, the clockwise way on a tie, and every other route stands as before;
   * without one the neighbours are the routes.
   */
  ghost predicate RoutedFrom(u: Table, before: map<NodeId, Port>) {
    if |u.ring| < 2 then u.routes == u.neighbors
    else
      && u.id in u.ring
      && (forall d :: d in u.routes <==> d in before || (d in u.ring && d != u.id))
      && (forall d :: d in before && (d == u.id || d !in u.ring) ==> u.routes[d] == before[d])
      && (forall j :: 0 <= j < |u.ring| && u.ring[j] != u.id && u.ring[j] !in u.ring[j + 1..] ==>
            var my := IndexOf(u.ring, u.id);
            u.ring[j] in u.routes
            && u.routes[u.ring[j]]
               == if Ahead(|u.ring|, my, j) <= Ahead(|u.ring|, j, my) then Host else Gadget)
  }

  lemma {:induction false} LastDecides(ring: seq<NodeId>, id: NodeId, k: nat, m: map<NodeId, Port>, j: nat)
    requires id in ring && j < k <= |ring| && ring[j] != id && ring[j] !in ring[j + 1..k]
    ensures var my := IndexOf(ring, id);
            ring[j] in Assign(ring, id, k, m)
            && Assign(ring, id, k, m)[ring[j]]
               == if Ahead(|ring|, my, j) <= Ahead(|ring|, j, my) then Host else Gadget
  {
    if j == k - 1 {
      DirectionIsShorter(|ring|, IndexOf(ring, id), j);
    } else {
      assert ring[j + 1..k] == ring[j + 1..k - 1] + [ring[k - 1]];
      LastDecides(ring, id, k - 1, m, j);
    }
  }

  lemma RecomputedFrom(t: Table)
    requires |t.ring| >= 2 ==> t.id in t.ring
    ensures var u := Recomputed(t);
            u.id == t.id && u.neighbors == t.neighbors && u.ring == t.ring && RoutedFrom(u, t.routes)
  {
    var n := |t.ring|;
    if n >= 2 {
      assert t.ring[..n] == t.ring;
      AssignKeys(t.ring, t.id, n, t.routes);
      forall j | 0 <= j < n && t.ring[j] != t.id && t.ring[j] !in t.ring[j + 1..]
        ensures var my := IndexOf(t.ring, t.id);
                t.ring[j] in Recomputed(t).routes
                && Recomputed(t).routes[t.ring[j]]
                   == if Ahead(n, my, j) <= Ahead(n, j, my) then Host else Gadget
      {
        assert t.ring[j + 1..n] == t.ring[j + 1..];
        LastDecides(t.ring, t.id, n, t.routes, j);
      }
    }
  }

  lemma {:induction false} WithoutSize(r: seq<NodeId>, x: NodeId)
    ensures |Without(r, x)| == |r| - multiset(r)[x]
  {
    if r != [] {
      WithoutSize(r[1..], x);
      assert r == [r[0]] + r[1..];
    }
  }

  /** Removal: what stays keeps its order, each element moved up by the removed ones before it. */
  lemma WithoutPosition(r: seq<NodeId>, x: NodeId, i: nat)
    requires i < |r| && r[i] != x
    ensures var k := i - multiset(r[..i])[x];
            0 <= k < |Without(r, x)| && Without(r, x)[k] == r[i]
  {
    WithoutSize(r[..i], x);
    assert r == r[..i] + r[i..];
    WithoutConcat(r[..i], r[i..], x);
    assert Without(r[i..], x) == [r[i]] + Without(r[i..][1..], x);
  }

  lemma WithoutPositions(r: seq<NodeId>, x: NodeId)
    ensures forall i :: 0 <= i < |r| && r[i] != x ==>
              0 <= i - multiset(r[..i])[x] < |Without(r, x)| && Without(r, x)[i - multiset(r[..i])[x]] == r[i]
  {
    forall i | 0 <= i < |r| && r[i] != x
      ensures 0 <= i - multiset(r[..i])[x] < |Without(r, x)| && Without(r, x)[i - multiset(r[..i])[x]] == r[i]
    {
      WithoutPosition(r, x, i);
    }
  }

  // ---- the three operations ----

  lemma AppendBoth(ring: seq<NodeId>, x: NodeId, id: NodeId)
    ensures Append(Append(ring, x), id)
         == ring + (if x in ring then [] else [x]) + (if id in ring + [x] then [] else [id])
    ensures id in Append(Append(ring, x), id)
  {}

  /** The registration is set; the ring gains the neighbour and then self, at the end, unless they are in it. */
  lemma AddedEffect(t: Table, x: NodeId, port: Port)
    ensures var u := Added(t, x, port);
            && u.id == t.id && u.neighbors == t.neighbors[x := port]
            && u.ring == t.ring + (if x in t.ring then [] else [x]) + (if t.id in t.ring + [x] then [] else [t.id])
            && RoutedFrom(u, t.routes[x := port])
  {
    var v := t.(neighbors := t.neighbors[x := port], routes := t.routes[x := port],
                ring := Append(Append(t.ring, x), t.id));
    AppendBoth(t.ring, x, t.id);
    RecomputedFrom(v);
    assert Added(t, x, port) == Recomputed(v);
  }

  /**
   * Registration, route and every ring position of x are gone, the others keeping their order; self is put back at the
   * end of what is still a ring of two or more.
   */
  lemma RemovedEffect(t: Table, x: NodeId)
    ensures var u, kept := Removed(t, x), |t.ring| - multiset(t.ring)[x];
            && u.id == t.id && u.neighbors == t.neighbors - {x}
            && |u.ring| == kept + (if kept >= 2 && (t.id == x || t.id !in t.ring) then 1 else 0)
            && (|u.ring| > kept ==> u.ring[kept] == t.id)
            && (forall i :: 0 <= i < |t.ring| && t.ring[i] != x ==>
                  0 <= i - multiset(t.ring[..i])[x] < kept && u.ring[i - multiset(t.ring[..i])[x]] == t.ring[i])
            && RoutedFrom(u, t.routes - {x})
  {
    var v := t.(neighbors := t.neighbors - {x}, routes := t.routes - {x}, ring := Without(t.ring, x));
    WithoutSize(t.ring, x);
    WithoutPositions(t.ring, x);
    RecomputedFrom(if |v.ring| >= 2 then v.(ring := Append(v.ring, v.id)) else v);
  }

  /**
   * A list at least as long as the ring becomes the ring; of a shorter one every member not in the ring is put behind
   * it, once and in the order of the list. Self comes last if it was in neither.
   */
  lemma HeardEffect(t: Table, path: seq<NodeId>)
    ensures var u := Heard(t, path);
            && u.id == t.id && u.neighbors == t.neighbors
            && (|path| >= |t.ring| ==> u.ring == path + if t.id in path then [] else [t.id])
            && (|path| < |t.ring| ==>
                  if t.id in t.ring + path then MergedInOrder(t.ring, path, u.ring)
                  else u.ring != [] && u.ring[|u.ring| - 1] == t.id
                       && MergedInOrder(t.ring, path, u.ring[..|u.ring| - 1]))
            && RoutedFrom(u, t.routes)
  {
    RecomputedFrom(t.(ring := RingAfter(t, path)));
    if |path| < |t.ring| {
      MergeOrderIff(t.ring, path, Merge(t.ring, path));
    }
  }

  lemma StandsAt(n: nat, m: seq<NodeId>, x: NodeId) returns (a: nat)
    requires n <= |m| && x in m && x !in m[..n]
    ensures n <= a < |m| && m[a] == x
  {
    a :| 0 <= a < |m| && m[a] == x;
  }

  lemma NotBefore(n: nat, path: seq<NodeId>, r: seq<NodeId>, a: nat, b: nat, i: nat)
    requires n <= a < b < |r| && i < |path| && path[i] == r[b] && MergedTail(n, path, r)
    ensures r[a] in path[..i]
  {}

  lemma MergedBefore(n: nat, path: seq<NodeId>, m: seq<NodeId>, i: nat, j: nat) returns (a: nat, b: nat)
    requires n <= |m| && MergedTail(n, path, m) && i < j < |path| && path[i] != path[j] && path[j] !in path[..j]
    requires path[i] in m && path[i] !in m[..n] && path[j] in m && path[j] !in m[..n]
    ensures n <= a < b < |m| && m[a] == path[i] && m[b] == path[j]
  {
    a := StandsAt(n, m, path[i]);
    b := StandsAt(n, m, path[j]);
    if b < a {
      NotBefore(n, path, m, b, a, i);
    }
  }

  lemma OldAtFront(ring: seq<NodeId>, path: seq<NodeId>, m: seq<NodeId>, i: nat)
    requires MergedInOrder(ring, path, m) && i < |path| && path[i] !in ring
    ensures |ring| <= |m| && path[i] in m && path[i] !in m[..|ring|] && MergedTail(|ring|, path, m)
  {
    assert path[i] in path && m[..|ring|] == ring;
  }

  lemma HeardMerge(t: Table, path: seq<NodeId>) returns (m: seq<NodeId>)
    requires |path| < |t.ring|
    ensures MergedInOrder(t.ring, path, m) && m <= Heard(t, path).ring
  {
    m := Merge(t.ring, path);
    MergeOrderIff(t.ring, path, m);
  }

  /** In particular new members stand behind the old ring in the order of the list. */
  lemma HeardInOrder(t: Table, path: seq<NodeId>, i: nat, j: nat) returns (a: nat, b: nat)
    requires |path| < |t.ring| && i < j < |path| && path[i] != path[j]
    requires path[i] !in t.ring && path[j] !in t.ring && path[j] !in path[..j]
    ensures |t.ring| <= a < b < |Heard(t, path).ring|
    ensures Heard(t, path).ring[a] == path[i] && Heard(t, path).ring[b] == path[j]
  {
    var m := HeardMerge(t, path);
    OldAtFront(t.ring, path, m, i);
    OldAtFront(t.ring, path, m, j);
    a, b := MergedBefore(|t.ring|, path, m, i, j);
  }
}
