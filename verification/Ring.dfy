/** Sequences read as rings: positions, distances, rotation, contraction. */
module Ring {
  import opened Base

  predicate Distinct<T(==)>(r: seq<T>) {
    forall i, j :: 0 <= i < j < |r| ==> r[i] != r[j]
  }

  /** list.index */
  function IndexOf(r: seq<NodeId>, x: NodeId): (i: nat)
    requires x in r
    ensures i < |r| && r[i] == x && x !in r[..i]
  {
    if r[0] == x then 0 else 1 + IndexOf(r[1..], x)
  }

  lemma IndexUnique(r: seq<NodeId>, i: nat)
    requires Distinct(r) && i < |r|
    ensures IndexOf(r, r[i]) == i
  {}

  // ---- distances ----

  /** Links from position `a` clockwise to position `b` in a ring of n. */
  function Ahead(n: nat, a: nat, b: nat): (d: nat)
    requires a < n && b < n
    ensures d < n
  {
    if b >= a then b - a else b + n - a
  }

  /** The modular difference of the source is that distance. */
  lemma AheadIsMod(n: nat, a: nat, b: nat)
    requires a < n && b < n
    ensures (b - a) % n == Ahead(n, a, b)
  {
    ModSmall(Ahead(n, a, b), n);
    if b < a {
      ModWrap(b - a, n);
    }
  }

  lemma ModSmall(x: nat, n: nat)
    requires x < n
    ensures x % n == x
  {}

  lemma ModWrap(x: int, n: int)
    requires 0 < n && -n < x < 0
    ensures x % n == x + n
  {
    assert x == (x / n) * n + x % n;
    assert x / n == -1;
  }

  function Min(a: nat, b: nat): nat { if a <= b then a else b }

  /** The shorter way round. */
  function Distance(n: nat, a: nat, b: nat): (d: nat)
    requires a < n && b < n
    ensures 2 * d <= n
  {
    Min(Ahead(n, a, b), Ahead(n, b, a))
  }

  // ---- rotation ----

  function Rotate(r: seq<NodeId>, k: nat): (s: seq<NodeId>)
    requires k <= |r|
    ensures |s| == |r|
  {
    r[k..] + r[..k]
  }

  predicate IsRotation(s: seq<NodeId>, r: seq<NodeId>) {
    exists k :: 0 <= k <= |r| && s == Rotate(r, k)
  }

  lemma RotateMembers(r: seq<NodeId>, k: nat)
    requires k <= |r|
    ensures forall x :: x in Rotate(r, k) <==> x in r
  {
    assert r == r[..k] + r[k..];
  }

  lemma RotationMembers(s: seq<NodeId>, r: seq<NodeId>)
    requires IsRotation(s, r)
    ensures |s| == |r|
    ensures forall x :: x in s <==> x in r
  {
    var k :| 0 <= k <= |r| && s == Rotate(r, k);
    RotateMembers(r, k);
  }

  lemma RotateDistinct(r: seq<NodeId>, k: nat)
    requires Distinct(r) && k <= |r|
    ensures Distinct(Rotate(r, k))
  {}

  lemma RotateIndex(r: seq<NodeId>, k: nat, x: NodeId)
    requires Distinct(r) && k <= |r| && x in r
    ensures x in Rotate(r, k)
    ensures var i := IndexOf(r, x);
            IndexOf(Rotate(r, k), x) == if i >= k then i - k else i + |r| - k
  {
    var i := IndexOf(r, x);
    var j := if i >= k then i - k else i + |r| - k;
    RotateDistinct(r, k);
    assert Rotate(r, k)[j] == x;
    IndexUnique(Rotate(r, k), j);
  }

  /** Rotating a ring moves every position and no distance. */
  lemma RotationKeepsAhead(s: seq<NodeId>, r: seq<NodeId>, x: NodeId, y: NodeId)
    requires Distinct(r) && IsRotation(s, r) && x in r && y in r
    ensures |s| == |r| && Distinct(s) && x in s && y in s
    ensures Ahead(|s|, IndexOf(s, x), IndexOf(s, y)) == Ahead(|r|, IndexOf(r, x), IndexOf(r, y))
  {
    var k :| 0 <= k <= |r| && s == Rotate(r, k);
    RotateDistinct(r, k);
    RotateIndex(r, k, x);
    RotateIndex(r, k, y);
  }

  // ---- reversal ----

  function Reverse(r: seq<NodeId>): (s: seq<NodeId>)
    ensures |s| == |r| && forall i :: 0 <= i < |r| ==> s[i] == r[|r| - 1 - i]
  {
    seq(|r|, i requires 0 <= i < |r| => r[|r| - 1 - i])
  }

  lemma ReverseAhead(r: seq<NodeId>, x: NodeId, y: NodeId)
    requires Distinct(r) && x in r && y in r
    ensures Distinct(Reverse(r)) && x in Reverse(r) && y in Reverse(r)
    ensures Ahead(|r|, IndexOf(Reverse(r), x), IndexOf(Reverse(r), y)) == Ahead(|r|, IndexOf(r, y), IndexOf(r, x))
  {
    var s, n := Reverse(r), |r|;
    var i, j := IndexOf(r, x), IndexOf(r, y);
    assert s[n - 1 - i] == x && s[n - 1 - j] == y;
    IndexUnique(s, n - 1 - i);
    IndexUnique(s, n - 1 - j);
  }

  // ---- contraction ----

  /** [n for n in r if n != x] */
  function Without(r: seq<NodeId>, x: NodeId): (s: seq<NodeId>)
    ensures forall y :: y in s <==> y in r && y != x
    ensures |s| <= |r|
  {
    if r == [] then []
    else if r[0] == x then Without(r[1..], x)
    else [r[0]] + Without(r[1..], x)
  }

  lemma {:induction false} WithoutAbsent(r: seq<NodeId>, x: NodeId)
    requires x !in r
    ensures Without(r, x) == r
  {
    if r != [] {
      WithoutAbsent(r[1..], x);
    }
  }

  lemma {:induction false} WithoutConcat(a: seq<NodeId>, b: seq<NodeId>, x: NodeId)
    ensures Without(a + b, x) == Without(a, x) + Without(b, x)
  {
    if a == [] {
      assert a + b == b;
    } else {
      assert (a + b)[1..] == a[1..] + b;
      WithoutConcat(a[1..], b, x);
    }
  }

  lemma WithoutAt(r: seq<NodeId>, x: NodeId)
    requires Distinct(r) && x in r
    ensures var i := IndexOf(r, x);
            Without(r, x) == r[..i] + r[i + 1..]
  {
    var i := IndexOf(r, x);
    assert r == r[..i] + ([x] + r[i + 1..]);
    WithoutConcat(r[..i], [x] + r[i + 1..], x);
    assert ([x] + r[i + 1..])[1..] == r[i + 1..];
    WithoutAbsent(r[..i], x);
    WithoutAbsent(r[i + 1..], x);
  }

  lemma WithoutDistinct(r: seq<NodeId>, x: NodeId)
    requires Distinct(r)
    ensures Distinct(Without(r, x))
    ensures |Without(r, x)| == if x in r then |r| - 1 else |r|
  {
    if x in r {
      WithoutAt(r, x);
    } else {
      WithoutAbsent(r, x);
    }
  }

  /** A position after position i is taken out. */
  function Closed(i: nat, j: nat): nat { if i < j then j - 1 else j }

  lemma WithoutIndex(r: seq<NodeId>, x: NodeId, y: NodeId)
    requires Distinct(r) && x in r && y in r && x != y
    ensures var i, j := IndexOf(r, x), IndexOf(r, y);
            IndexOf(Without(r, x), y) == Closed(i, j)
  {
    var i, j := IndexOf(r, x), IndexOf(r, y);
    WithoutAt(r, x);
    WithoutDistinct(r, x);
    var j' := if i < j then j - 1 else j;
    assert Without(r, x)[j'] == y;
    IndexUnique(Without(r, x), j');
  }

  lemma ClosedAhead(n: nat, i: nat, a: nat, b: nat)
    requires i < n && a < n && b < n && a != b && i != a && i != b
    ensures Closed(i, a) < n - 1 && Closed(i, b) < n - 1
    ensures Ahead(n - 1, Closed(i, a), Closed(i, b))
         == Ahead(n, a, b) - if Ahead(n, a, i) < Ahead(n, a, b) then 1 else 0
  {}

  /** Taking x out shortens the arc it lies on by one link, and no other. */
  lemma WithoutAhead(r: seq<NodeId>, x: NodeId, a: NodeId, b: NodeId)
    requires Distinct(r) && x in r && a in r && b in r && a != b && x != a && x != b
    ensures |Without(r, x)| == |r| - 1
    ensures var n := |r|;
            var cw := Ahead(n, IndexOf(r, a), IndexOf(r, b));
            Ahead(n - 1, IndexOf(Without(r, x), a), IndexOf(Without(r, x), b))
            == if Ahead(n, IndexOf(r, a), IndexOf(r, x)) < cw then cw - 1 else cw
  {
    var i, j, k := IndexOf(r, x), IndexOf(r, a), IndexOf(r, b);
    ClosedAhead(|r|, i, j, k);
    assert |Without(r, x)| == |r| - 1 by {
      WithoutDistinct(r, x);
    }
    assert IndexOf(Without(r, x), a) == Closed(i, j) && IndexOf(Without(r, x), b) == Closed(i, k) by {
      WithoutIndex(r, x, a);
      WithoutIndex(r, x, b);
    }
  }

  /** Removal commutes with rotation, up to rotation. */
  lemma WithoutRotation(s: seq<NodeId>, r: seq<NodeId>, x: NodeId)
    requires IsRotation(s, r)
    ensures IsRotation(Without(s, x), Without(r, x))
  {
    var k :| 0 <= k <= |r| && s == Rotate(r, k);
    WithoutConcat(r[k..], r[..k], x);
    WithoutConcat(r[..k], r[k..], x);
    assert r == r[..k] + r[k..];
    var a, b := Without(r[..k], x), Without(r[k..], x);
    assert Without(r, x) == a + b && Without(s, x) == b + a;
    assert b + a == Rotate(a + b, |a|);
  }

  // ---- counting ----

  lemma {:induction false} DistinctInto<T>(r: seq<T>, s: set<T>)
    requires Distinct(r) && forall x :: x in r ==> x in s
    ensures |r| <= |s|
    decreases |r|
  {
    if r != [] {
      forall y | y in r[1..] ensures y in s - {r[0]} {
        var i :| 0 <= i < |r| - 1 && r[1..][i] == y;
        assert r[i + 1] == y;
      }
      DistinctInto(r[1..], s - {r[0]});
    }
  }
}
