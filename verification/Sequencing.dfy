/**
 * Threads that take a number under a lock and append the frame later: the host's TX and heartbeat threads
 * writing to one cable, and the gadget's forwarder, heartbeat and senders filling one queue.
 */
module Sequencing {
  import opened Base
  import opened Accounting
  import opened Ring

  /**
   * `handed` lists the numbers given out, oldest first. A number is pending while its thread has not yet
   * written or queued it, then stands in `line` (FIFO; the first `taken` have left at the other end) or is lost.
   * `over` is history: for each number in line, the smaller ones that were still pending when it was appended.
   */
  datatype Chain = Chain(
    counter: nat, handed: seq<nat>, pending: seq<Option<nat>>, line: seq<nat>, lost: seq<nat>, taken: nat,
    over: seq<set<nat>>)

  function Idle(k: nat): Chain {
    Chain(0, [], seq(k, i => None), [], [], 0, [])
  }

  function Smaller(pending: seq<Option<nat>>, n: nat): set<nat> {
    set p: nat | p < |pending| && pending[p].Some? && pending[p].value < n :: pending[p].value
  }

  datatype Label = Alloc(p: nat) | Append(p: nat) | Fail(p: nat) | Take

  predicate Enabled(c: Chain, l: Label) {
    match l
    case Alloc(p) => p < |c.pending| && c.pending[p] == None
    case Append(p) => p < |c.pending| && c.pending[p] != None
    case Fail(p) => p < |c.pending| && c.pending[p] != None
    case Take => c.taken < |c.line|
  }

  function Appended(c: Chain, p: nat): Chain
    requires p < |c.pending| && c.pending[p].Some?
  {
    var n := c.pending[p].value;
    c.(line := c.line + [n], over := c.over + [Smaller(c.pending, n)], pending := c.pending[p := None])
  }

  function Failed(c: Chain, p: nat): Chain
    requires p < |c.pending| && c.pending[p].Some?
  {
    c.(lost := c.lost + [c.pending[p].value], pending := c.pending[p := None])
  }

  /** The gadget's counter wraps, the host's does not. */
  function Do(wraps: bool, c: Chain, l: Label): Chain {
    if !Enabled(c, l) then c
    else match l
      case Alloc(p) =>
        c.(counter := if wraps then (c.counter + 1) % WRAP else c.counter + 1,
           handed := c.handed + [c.counter], pending := c.pending[p := Some(c.counter)])
      case Append(p) => Appended(c, p)
      case Fail(p) => Failed(c, p)
      case Take => c.(taken := c.taken + 1)
  }

  function End(wraps: bool, k: nat, ls: seq<Label>): Chain {
    if ls == [] then Idle(k) else Do(wraps, End(wraps, k, ls[..|ls| - 1]), ls[|ls| - 1])
  }

  // ---- counting ----

  function Count<T(==)>(s: seq<T>, x: T): (n: nat)
    ensures n <= |s|
  {
    if s == [] then 0 else Count(s[..|s| - 1], x) + if s[|s| - 1] == x then 1 else 0
  }

  lemma CountSnoc<T>(s: seq<T>, y: T, x: T)
    ensures Count(s + [y], x) == Count(s, x) + if y == x then 1 else 0
  {
    assert (s + [y])[..|s|] == s;
  }

  lemma {:induction false} CountSplit<T>(s: seq<T>, n: nat, x: T)
    requires n <= |s|
    ensures Count(s[..n], x) + Count(s[n..], x) == Count(s, x)
    decreases |s|
  {
    if n == |s| {
      assert s[..n] == s;
    } else {
      var m := |s| - 1;
      CountSplit(s[..m], n, x);
      assert s[..m][..n] == s[..n] && s[..m][n..] == s[n..][..m - n];
    }
  }

  lemma {:induction false} CountUpdate<T>(s: seq<T>, p: nat, y: T, x: T)
    requires p < |s|
    ensures Count(s[p := y], x) + (if s[p] == x then 1 else 0) == Count(s, x) + if y == x then 1 else 0
    decreases |s|
  {
    var m := |s| - 1;
    if p == m {
      assert s[p := y][..m] == s[..m];
    } else {
      assert s[p := y][..m] == s[..m][p := y];
      CountUpdate(s[..m], p, y, x);
    }
  }

  lemma {:induction false} CountAbsent<T>(s: seq<T>, x: T)
    ensures Count(s, x) == 0 <==> x !in s
  {
    if s != [] {
      CountAbsent(s[..|s| - 1], x);
      assert s == s[..|s| - 1] + [s[|s| - 1]];
    }
  }

  lemma {:induction false} CountTwice<T>(s: seq<T>, i: nat, j: nat)
    requires i < j < |s| && s[i] == s[j]
    ensures Count(s, s[i]) >= 2
  {
    CountSplit(s, j, s[i]);
    CountAbsent(s[..j], s[i]);
    CountAbsent(s[j..], s[i]);
    assert s[..j][i] == s[i] && s[j..][0] == s[i];
  }

  /** How many pending slots are filled. */
  function Busy(pending: seq<Option<nat>>): nat { |pending| - Count(pending, None) }

  lemma {:induction false} AllNone(k: nat)
    ensures Count(seq<Option<nat>>(k, i => None), None) == k
    ensures forall n: nat :: Count(seq<Option<nat>>(k, i => None), Some(n)) == 0
  {
    var s := seq<Option<nat>>(k, i => None);
    if k > 0 {
      assert s[..k - 1] == seq<Option<nat>>(k - 1, i => None);
      AllNone(k - 1);
    }
  }

  // ---- numbers ----

  function Nth(wraps: bool, i: nat): nat { if wraps then i % WRAP else i }

  predicate Numbered(wraps: bool, c: Chain) {
    c.counter == Nth(wraps, |c.handed|) && forall i :: 0 <= i < |c.handed| ==> c.handed[i] == Nth(wraps, i)
  }

  lemma NthNext(wraps: bool, i: nat)
    ensures Nth(wraps, i + 1) == if wraps then (Nth(wraps, i) + 1) % WRAP else Nth(wraps, i) + 1
  {}

  /** In every run the i-th number handed out is i, on the gadget i mod 2^32. */
  lemma {:induction false} IthNumber(wraps: bool, k: nat, ls: seq<Label>)
    ensures Numbered(wraps, End(wraps, k, ls)) && |End(wraps, k, ls).pending| == k
  {
    if ls != [] {
      IthNumber(wraps, k, ls[..|ls| - 1]);
      NthNext(wraps, |End(wraps, k, ls[..|ls| - 1]).handed|);
    }
  }

  // ---- every number is in one place ----

  function Where(c: Chain, n: nat): nat {
    Count(c.line, n) + Count(c.lost, n) + Count(c.pending, Some(n))
  }

  ghost predicate Placed(c: Chain) {
    forall n: nat :: Where(c, n) == if n < |c.handed| then 1 else 0
  }

  /** A number waits for at most the other threads' numbers, so it overtakes fewer frames than there are threads. */
  predicate Near(c: Chain) {
    forall p :: 0 <= p < |c.line| ==> c.line[p] < p + |c.lost| + |c.pending|
  }

  ghost predicate Tidy(c: Chain) {
    c.taken <= |c.line| && |c.line| + |c.lost| + Busy(c.pending) == |c.handed| && Placed(c) && Near(c)
  }

  lemma WhereAlloc(c: Chain, p: nat, m: nat, n: nat)
    requires p < |c.pending| && c.pending[p] == None
    ensures Where(c.(pending := c.pending[p := Some(m)]), n) == Where(c, n) + if n == m then 1 else 0
  {
    CountUpdate(c.pending, p, Some(m), Some(n));
  }

  lemma WhereAppend(c: Chain, p: nat, n: nat)
    requires p < |c.pending| && c.pending[p].Some?
    ensures Where(Appended(c, p), n) == Where(c, n) == Where(Failed(c, p), n)
  {
    CountUpdate(c.pending, p, None, Some(n));
    CountSnoc(c.line, c.pending[p].value, n);
    CountSnoc(c.lost, c.pending[p].value, n);
  }

  lemma PlacedAt(c: Chain, n: nat)
    requires Placed(c)
    ensures Where(c, n) == if n < |c.handed| then 1 else 0
  {}

  /** What is pending has been handed out. */
  lemma PendingHanded(c: Chain, p: nat)
    requires Placed(c) && p < |c.pending| && c.pending[p].Some?
    ensures c.pending[p].value < |c.handed|
  {
    var n := c.pending[p].value;
    PlacedAt(c, n);
    CountAbsent(c.pending, Some(n));
  }

  lemma AllocTidy(c: Chain, p: nat, next: nat)
    requires Tidy(c) && p < |c.pending| && c.pending[p] == None
    ensures Tidy(c.(counter := next, handed := c.handed + [|c.handed|], pending := c.pending[p := Some(|c.handed|)]))
  {
    var m := |c.handed|;
    var c' := c.(counter := next, handed := c.handed + [m], pending := c.pending[p := Some(m)]);
    forall n: nat ensures Where(c', n) == if n < m + 1 then 1 else 0 {
      WhereAlloc(c, p, m, n);
      PlacedAt(c, n);
    }
    CountUpdate(c.pending, p, Some(m), None);
  }

  lemma AppendTidy(c: Chain, p: nat)
    requires Tidy(c) && p < |c.pending| && c.pending[p].Some?
    ensures Tidy(Appended(c, p)) && Tidy(Failed(c, p))
  {
    PendingHanded(c, p);
    var a, b := Appended(c, p), Failed(c, p);
    forall n: nat ensures Where(a, n) == Where(b, n) == if n < |c.handed| then 1 else 0 {
      WhereAppend(c, p, n);
      PlacedAt(c, n);
    }
    CountUpdate(c.pending, p, None, None);
  }

  lemma StepTidy(wraps: bool, c: Chain, l: Label)
    requires Tidy(c) && Numbered(wraps, c) && |Do(wraps, c, l).handed| <= WRAP
    ensures Tidy(Do(wraps, c, l))
  {
    if Enabled(c, l) {
      match l
      case Alloc(p) =>
        assert c.counter == |c.handed|;
        AllocTidy(c, p, Do(wraps, c, l).counter);
      case Append(p) => AppendTidy(c, p);
      case Fail(p) => AppendTidy(c, p);
      case Take =>
        var c' := Do(wraps, c, l);
        forall n: nat ensures Where(c', n) == if n < |c'.handed| then 1 else 0 {
          PlacedAt(c, n);
        }
    }
  }

  lemma {:induction false} RunTidy(wraps: bool, k: nat, ls: seq<Label>)
    requires |End(wraps, k, ls).handed| <= WRAP
    ensures Tidy(End(wraps, k, ls)) && |End(wraps, k, ls).pending| == k
  {
    if ls == [] {
      AllNone(k);
    } else {
      var c := End(wraps, k, ls[..|ls| - 1]);
      RunTidy(wraps, k, ls[..|ls| - 1]);
      IthNumber(wraps, k, ls[..|ls| - 1]);
      StepTidy(wraps, c, ls[|ls| - 1]);
    }
  }

  /**
   * Before the numbers wrap, each is in exactly one place: still queued, already dequeued, lost, or pending in one
   * thread; and with k threads number s stands no earlier than k - 1 places (and one per lost frame) before its turn.
   */
  lemma EachInOnePlace(wraps: bool, k: nat, ls: seq<Label>, n: nat)
    requires |End(wraps, k, ls).handed| <= WRAP
    ensures var c := End(wraps, k, ls);
            && c.taken <= |c.line|
            && Count(c.line[..c.taken], n) + Count(c.line[c.taken..], n) + Count(c.lost, n) + Count(c.pending, Some(n))
               == (if n < |c.handed| then 1 else 0)
            && forall p :: 0 <= p < |c.line| && c.line[p] == n ==> n - (k - 1) - |c.lost| <= p
  {
    var c := End(wraps, k, ls);
    RunTidy(wraps, k, ls);
    PlacedAt(c, n);
    CountSplit(c.line, c.taken, n);
  }

  // ---- the receiver at the other end ----

  lemma LineDistinct(c: Chain)
    requires Placed(c)
    ensures Distinct(c.line)
  {
    forall i, j | 0 <= i < j < |c.line| ensures c.line[i] != c.line[j] {
      if c.line[i] == c.line[j] {
        CountTwice(c.line, i, j);
        PlacedAt(c, c.line[i]);
      }
    }
  }

  lemma LineHanded(c: Chain, p: nat)
    requires Placed(c) && p < |c.line|
    ensures c.line[p] < |c.handed|
  {
    PlacedAt(c, c.line[p]);
    CountAbsent(c.line, c.line[p]);
  }

  lemma LineNotLost(c: Chain, n: nat)
    requires Placed(c) && n in c.line
    ensures n !in c.lost
  {
    PlacedAt(c, n);
    CountAbsent(c.line, n);
    CountAbsent(c.lost, n);
  }

  function AtReceiver(c: Chain): Acct
    requires c.taken <= |c.line|
  {
    Account(c.line[..c.taken])
  }

  lemma ReceiverLag(c: Chain)
    requires Tidy(c)
    ensures var a := AtReceiver(c);
            && a.frames == c.taken
            && 0 <= a.expected - a.frames
            && (a.expected > 0 ==> a.expected - a.frames < |c.lost| + |c.pending| && a.expected <= |c.handed|)
  {
    var seen := c.line[..c.taken];
    ExpectedIsNextAfterMax(seen);
    LineDistinct(c);
    assert Distinct(seen) by {
      forall i, j | 0 <= i < j < |seen| ensures seen[i] != seen[j] {
        assert c.line[i] != c.line[j];
      }
    }
    DistinctBelowExpected(seen);
    if seen != [] {
      var p :| 0 <= p < |seen| && seen[p] == Account(seen).expected - 1;
      LineHanded(c, p);
      assert c.line[p] < p + |c.lost| + |c.pending|;
    }
  }

  /** The same for a receiver that hears only some of the frames taken. */
  lemma PartialLag(c: Chain, heard: seq<nat>)
    requires Tidy(c) && Distinct(heard) && forall n :: n in heard ==> n in c.line[..c.taken]
    ensures var a := Account(heard);
            && a.frames == |heard| && 0 <= a.expected - a.frames
            && (heard != [] ==> a.expected < c.taken + |c.lost| + |c.pending| && a.expected <= |c.handed|)
  {
    ExpectedIsNextAfterMax(heard);
    DistinctBelowExpected(heard);
    if heard != [] {
      var n := Account(heard).expected - 1;
      var p: nat :| p < c.taken && c.line[..c.taken][p] == n;
      LineHanded(c, p);
      assert c.line[p] < p + |c.lost| + |c.pending|;
    }
  }

  predicate Quiet(c: Chain) {
    c.taken == |c.line| && forall p :: 0 <= p < |c.pending| ==> c.pending[p] == None
  }

  lemma {:induction false} QuietCount(pending: seq<Option<nat>>)
    requires forall p :: 0 <= p < |pending| ==> pending[p] == None
    ensures Busy(pending) == 0
  {
    if pending != [] {
      QuietCount(pending[..|pending| - 1]);
    }
  }

  /**
   * k threads sharing a number, L frames lost, the rest on a lossless FIFO link: in every state of every run
   * the receiver has 0 <= expected_seq - frames_rx <= L + k - 1, and at most L once all is written and read;
   * so with nothing lost the two are then equal.
   */
  lemma LagBound(wraps: bool, k: nat, ls: seq<Label>)
    requires k > 0 && |End(wraps, k, ls).handed| <= WRAP
    ensures var c := End(wraps, k, ls);
            && c.taken <= |c.line|
            && var a := AtReceiver(c);
            && 0 <= a.expected - a.frames <= |c.lost| + k - 1
            && (Quiet(c) ==> a.expected - a.frames <= |c.lost|)
            && (Quiet(c) && c.lost == [] ==> a.expected == a.frames == |c.handed|)
  {
    var c := End(wraps, k, ls);
    RunTidy(wraps, k, ls);
    ReceiverLag(c);
    if Quiet(c) {
      QuietCount(c.pending);
      ExpectedIsNextAfterMax(c.line[..c.taken]);
    }
  }

  // ---- overtaking ----

  /**
   * What each frame in line overtook: smaller numbers, not in line before it; and a smaller number that is not in
   * line before it was overtaken, unless it is lost.
   */
  ghost predicate Tracked(c: Chain) {
    && |c.over| == |c.line|
    && forall p: nat :: p < |c.line| ==> TrackedAt(c, p)
  }

  ghost predicate TrackedAt(c: Chain, p: nat)
    requires p < |c.line| == |c.over|
  {
    && (forall b :: b in c.over[p] ==> b < c.line[p] && b !in c.line[..p])
    && (forall b: nat :: b < c.line[p] && b !in c.line[..p] && b !in c.lost ==> b in c.over[p])
    && (|c.pending| == 1 ==> c.over[p] == {})
  }

  /** A number handed out is in line, lost or pending. */
  lemma Somewhere(c: Chain, b: nat)
    requires Placed(c) && b < |c.handed| && b !in c.line && b !in c.lost
    ensures Some(b) in c.pending
  {
    PlacedAt(c, b);
    CountAbsent(c.line, b);
    CountAbsent(c.lost, b);
    CountAbsent(c.pending, Some(b));
  }

  /** A pending number is neither in line nor lost. */
  lemma PendingOnly(c: Chain, p: nat)
    requires Placed(c) && p < |c.pending| && c.pending[p].Some?
    ensures c.pending[p].value !in c.line && c.pending[p].value !in c.lost
  {
    var n := c.pending[p].value;
    PlacedAt(c, n);
    CountAbsent(c.line, n);
    CountAbsent(c.lost, n);
    CountAbsent(c.pending, Some(n));
  }

  lemma SmallerIff(pending: seq<Option<nat>>, n: nat, b: nat)
    ensures b in Smaller(pending, n) <==> Some(b) in pending && b < n
  {
    if Some(b) in pending && b < n {
      var p: nat :| p < |pending| && pending[p] == Some(b);
      assert pending[p].value in Smaller(pending, n);
    }
  }

  lemma AppendedTracked(c: Chain, p: nat)
    requires Placed(c) && Tracked(c) && p < |c.pending| && c.pending[p].Some?
    ensures TrackedAt(Appended(c, p), |c.line|)
  {
    var d, n, last := Appended(c, p), c.pending[p].value, |c.line|;
    PendingHanded(c, p);
    assert d.line[..last] == c.line && d.over[last] == Smaller(c.pending, n);
    forall b: nat | b in d.over[last] ensures b < n && b !in c.line {
      SmallerIff(c.pending, n, b);
      var q: nat :| q < |c.pending| && c.pending[q] == Some(b);
      PendingOnly(c, q);
    }
    forall b: nat | b < n && b !in c.line && b !in c.lost ensures b in d.over[last] {
      Somewhere(c, b);
      SmallerIff(c.pending, n, b);
    }
  }

  lemma SameTracked(c: Chain, d: Chain, p: nat)
    requires p < |c.line| == |c.over| && TrackedAt(c, p)
    requires c.line <= d.line && c.over <= d.over && |d.line| == |d.over| && |d.pending| == |c.pending|
    requires forall b :: b in c.lost ==> b in d.lost
    ensures TrackedAt(d, p)
  {
    assert d.line[..p] == c.line[..p];
  }

  lemma StepTracked(wraps: bool, c: Chain, l: Label)
    requires Placed(c) && Tracked(c)
    ensures Tracked(Do(wraps, c, l))
  {
    var d := Do(wraps, c, l);
    if Enabled(c, l) && l.Append? {
      AppendedTracked(c, l.p);
    }
    forall p: nat | p < |d.line| ensures TrackedAt(d, p) {
      if p < |c.line| {
        SameTracked(c, d, p);
      }
    }
  }

  lemma {:induction false} RunTracked(wraps: bool, k: nat, ls: seq<Label>)
    requires |End(wraps, k, ls).handed| <= WRAP
    ensures Tracked(End(wraps, k, ls))
  {
    if ls != [] {
      RunTracked(wraps, k, ls[..|ls| - 1]);
      RunTidy(wraps, k, ls[..|ls| - 1]);
      StepTracked(wraps, End(wraps, k, ls[..|ls| - 1]), ls[|ls| - 1]);
    }
  }

  /** Frame p overtook frame q: it was appended while the smaller number of q was pending. */
  predicate Overtakes(c: Chain, p: nat, q: nat)
    requires p < q < |c.line| == |c.over|
  {
    c.line[q] in c.over[p]
  }

  lemma OvertakesIff(c: Chain, p: nat, q: nat)
    requires Placed(c) && Tracked(c) && p < q < |c.line|
    ensures Overtakes(c, p, q) <==> c.line[q] < c.line[p]
  {
    assert TrackedAt(c, p);
    LineDistinct(c);
    if c.line[q] < c.line[p] {
      var b := c.line[q];
      PlacedAt(c, b);
      CountAbsent(c.line, b);
      CountAbsent(c.lost, b);
      assert b !in c.line[..p];
    }
  }

  /** Numbers stand in line in increasing order exactly when none was overtaken by another in line. */
  lemma InOrderIff(wraps: bool, k: nat, ls: seq<Label>)
    requires |End(wraps, k, ls).handed| <= WRAP
    ensures var c := End(wraps, k, ls);
            && |c.over| == |c.line| && Distinct(c.line)
            && (Increasing(c.line) <==> forall p: nat, q: nat :: p < q < |c.line| ==> !Overtakes(c, p, q))
  {
    var c := End(wraps, k, ls);
    RunTidy(wraps, k, ls);
    RunTracked(wraps, k, ls);
    LineDistinct(c);
    forall p: nat, q: nat | p < q < |c.line| ensures !Overtakes(c, p, q) <==> c.line[p] < c.line[q] {
      OvertakesIff(c, p, q);
      assert c.line[p] != c.line[q];
    }
  }

  lemma NoGapWhen(c: Chain)
    requires Tidy(c)
    ensures AtReceiver(c).gaps == 0 <==> forall p :: 0 <= p < c.taken ==> c.line[p] == p
  {
    LineDistinct(c);
    DistinctPrefix(c.line, c.taken);
    GapFreeIff(c.line[..c.taken]);
    assert forall p :: 0 <= p < c.taken ==> c.line[..c.taken][p] == c.line[p];
  }

  /** The receiver counts no gap exactly when the frames it took stand at the places their numbers say. */
  lemma NoGapIff(wraps: bool, k: nat, ls: seq<Label>)
    requires |End(wraps, k, ls).handed| <= WRAP
    ensures var c := End(wraps, k, ls);
            && c.taken <= |c.line|
            && (AtReceiver(c).gaps == 0 <==> forall p :: 0 <= p < c.taken ==> c.line[p] == p)
  {
    RunTidy(wraps, k, ls);
    NoGapWhen(End(wraps, k, ls));
  }

  lemma {:induction false} NothingOvertaken(c: Chain, m: nat)
    requires Placed(c) && Tracked(c) && c.lost == [] && m <= |c.line|
    requires forall p :: 0 <= p < m ==> c.over[p] == {}
    ensures forall p :: 0 <= p < m ==> c.line[p] == p
  {
    if m > 0 {
      var last: nat := m - 1;
      NothingOvertaken(c, last);
      LineDistinct(c);
      assert TrackedAt(c, last) && last !in c.line[..last];
      AtTurn(c.line, last);
    }
  }

  lemma OutOfTurn(c: Chain, p: nat)
    requires Tracked(c) && p < |c.line| && c.over[p] != {}
    ensures exists q :: 0 <= q <= p && c.line[q] != q
  {
    var b: nat :| b in c.over[p];
    assert TrackedAt(c, p);
    if c.line[p] == p {
      assert c.line[..p][b] == c.line[b];
    }
  }

  /** With nothing lost, a gap is counted exactly when some frame taken had overtaken another thread's number. */
  lemma GapIffOvertaken(wraps: bool, k: nat, ls: seq<Label>)
    requires |End(wraps, k, ls).handed| <= WRAP && End(wraps, k, ls).lost == []
    ensures var c := End(wraps, k, ls);
            && |c.over| == |c.line| && c.taken <= |c.line|
            && (AtReceiver(c).gaps > 0 <==> exists p :: 0 <= p < c.taken && c.over[p] != {})
  {
    var c := End(wraps, k, ls);
    RunTidy(wraps, k, ls);
    RunTracked(wraps, k, ls);
    NoGapWhen(c);
    if p: nat :| p < c.taken && c.over[p] != {} {
      OutOfTurn(c, p);
    } else {
      NothingOvertaken(c, c.taken);
    }
  }

  /** One thread alone never leaves its order; with nothing lost it never causes a gap. */
  lemma OneThread(wraps: bool, ls: seq<Label>)
    requires |End(wraps, 1, ls).handed| <= WRAP
    ensures var c := End(wraps, 1, ls);
            && c.taken <= |c.line| && Increasing(c.line)
            && (c.lost == [] ==> AtReceiver(c).gaps == 0)
  {
    var c := End(wraps, 1, ls);
    RunTidy(wraps, 1, ls);
    RunTracked(wraps, 1, ls);
    InOrderIff(wraps, 1, ls);
    forall p: nat | p < |c.line| ensures c.over[p] == {} {
      assert TrackedAt(c, p);
    }
    if c.lost == [] {
      GapIffOvertaken(wraps, 1, ls);
    }
  }

  // ---- the bound is reached ----

  ghost predicate Reachable(wraps: bool, k: nat, c: Chain) {
    exists ls :: End(wraps, k, ls) == c
  }

  lemma ReachIdle(wraps: bool, k: nat)
    ensures Reachable(wraps, k, Idle(k))
  {
    assert End(wraps, k, []) == Idle(k);
  }

  lemma ReachStep(wraps: bool, k: nat, c: Chain, l: Label)
    requires Reachable(wraps, k, c)
    ensures Reachable(wraps, k, Do(wraps, c, l))
  {
    var ls :| End(wraps, k, ls) == c;
    assert (ls + [l])[..|ls|] == ls;
    assert End(wraps, k, ls + [l]) == Do(wraps, c, l);
  }

  lemma ReachNumbered(wraps: bool, k: nat, c: Chain)
    requires Reachable(wraps, k, c)
    ensures Numbered(wraps, c)
  {
    var ls :| End(wraps, k, ls) == c;
    IthNumber(wraps, k, ls);
  }

  /** Taking from the line is possible at any time and changes nothing else. */
  lemma {:induction false} ReachTaken(wraps: bool, k: nat, c: Chain, m: nat)
    requires Reachable(wraps, k, c) && c.taken == 0 && m <= |c.line|
    ensures Reachable(wraps, k, c.(taken := m))
  {
    if m == 0 {
      assert c.(taken := 0) == c;
    } else {
      ReachTaken(wraps, k, c, m - 1);
      ReachStep(wraps, k, c.(taken := m - 1), Take);
    }
  }

  /** n numbers lost, and the next i given to threads 0 .. i - 1. */
  predicate Waiting(c: Chain, k: nat, n: nat, i: nat) {
    && |c.pending| == k && |c.handed| == n + i && |c.lost| == n && c.line == [] && c.taken == 0
    && forall j :: 0 <= j < k ==> c.pending[j] == if j < i then Some(n + j) else None
  }

  lemma WaitingLoses(wraps: bool, c: Chain, k: nat, n: nat)
    requires Waiting(c, k, n, 0) && 0 < k
    ensures Waiting(Do(wraps, Do(wraps, c, Alloc(0)), Fail(0)), k, n + 1, 0)
  {
    var d := Do(wraps, c, Alloc(0));
    assert d.pending == c.pending[0 := Some(c.counter)];
  }

  lemma WaitingAllocs(wraps: bool, c: Chain, k: nat, n: nat, i: nat)
    requires Waiting(c, k, n, i) && i < k && c.counter == n + i
    ensures Waiting(Do(wraps, c, Alloc(i)), k, n, i + 1)
  {}

  lemma {:induction false} AfterLosses(wraps: bool, k: nat, n: nat) returns (c: Chain)
    requires k > 0
    ensures Reachable(wraps, k, c) && Waiting(c, k, n, 0)
  {
    if n == 0 {
      ReachIdle(wraps, k);
      return Idle(k);
    }
    var b := AfterLosses(wraps, k, n - 1);
    WaitingLoses(wraps, b, k, n - 1);
    ReachStep(wraps, k, b, Alloc(0));
    ReachStep(wraps, k, Do(wraps, b, Alloc(0)), Fail(0));
    c := Do(wraps, Do(wraps, b, Alloc(0)), Fail(0));
  }

  lemma {:induction false} AfterAllocs(wraps: bool, k: nat, n: nat, i: nat) returns (c: Chain)
    requires 0 < k && i <= k && n + k <= WRAP
    ensures Reachable(wraps, k, c) && Waiting(c, k, n, i)
  {
    if i == 0 {
      c := AfterLosses(wraps, k, n);
    } else {
      var b := AfterAllocs(wraps, k, n, i - 1);
      ReachNumbered(wraps, k, b);
      WaitingAllocs(wraps, b, k, n, i - 1);
      ReachStep(wraps, k, b, Alloc(i - 1));
      c := Do(wraps, b, Alloc(i - 1));
    }
  }

  /** The last thread's frame is the only one to arrive. */
  lemma LastOut(wraps: bool, c: Chain, k: nat, n: nat)
    requires Waiting(c, k, n, k) && 0 < k
    ensures var d := Do(wraps, Do(wraps, c, Append(k - 1)), Take);
            |d.handed| == n + k && |d.lost| == n && d.taken == 1 && d.line == [(n + k - 1) as nat]
  {
    assert c.pending[k - 1] == Some(n + k - 1);
  }

  lemma AccountOne(m: nat)
    ensures Account([m]) == Acct(m + 1, 1, if m > 0 then 1 else 0)
  {
    AccountSnoc([], m);
    assert [] + [m] == [m];
  }

  /** The lag is as large as the bound allows, and a gap was counted unless number 0 came first. */
  predicate Extreme(c: Chain, k: nat, n: nat) {
    && |c.handed| <= WRAP && |c.lost| == n && c.taken <= |c.line|
    && AtReceiver(c).expected - AtReceiver(c).frames == n + k - 1
    && (AtReceiver(c).gaps == 1 <==> n + k > 1)
  }

  /** No smaller bound would do: for every k and L some run has the lag L + k - 1; it can be a gap with nothing lost. */
  lemma LagReached(wraps: bool, k: nat, n: nat) returns (c: Chain)
    requires 0 < k && n + k <= WRAP
    ensures Reachable(wraps, k, c) && Extreme(c, k, n)
  {
    var b := AfterAllocs(wraps, k, n, k);
    LastOut(wraps, b, k, n);
    ReachStep(wraps, k, b, Append(k - 1));
    ReachStep(wraps, k, Do(wraps, b, Append(k - 1)), Take);
    c := Do(wraps, Do(wraps, b, Append(k - 1)), Take);
    assert c.line[..1] == [(n + k - 1) as nat];
    AccountOne(n + k - 1);
  }
}
