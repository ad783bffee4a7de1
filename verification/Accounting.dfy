/** What the receiver's three numbers - expected_seq, frames_rx, seq_gaps - mean for the arrivals so far. */
module Accounting {
  import opened Ring

  datatype Acct = Acct(expected: nat, frames: nat, gaps: nat)

  const START := Acct(0, 0, 0)

  function Arrive(a: Acct, n: nat): Acct {
    if n > a.expected then Acct(n + 1, a.frames + 1, a.gaps + 1)
    else if n == a.expected then Acct(n + 1, a.frames + 1, a.gaps)
    else a.(frames := a.frames + 1)
  }

  function Account(ns: seq<nat>): Acct {
    if ns == [] then START else Arrive(Account(ns[..|ns| - 1]), ns[|ns| - 1])
  }

  lemma AccountSnoc(ns: seq<nat>, n: nat)
    ensures Account(ns + [n]) == Arrive(Account(ns), n)
  {
    assert (ns + [n])[..|ns|] == ns;
  }

  /** a.expected is one past the largest number of ns. */
  predicate PastMax(a: Acct, ns: seq<nat>) {
    && (forall n :: n in ns ==> n < a.expected)
    && (ns == [] <==> a.expected == 0)
    && (ns != [] ==> a.expected - 1 in ns)
  }

  lemma PastMaxSnoc(a: Acct, ns: seq<nat>, n: nat)
    requires PastMax(a, ns)
    ensures PastMax(Arrive(a, n), ns + [n])
  {
    var b := Arrive(a, n);
    forall m: nat ensures m in ns + [n] <==> m in ns || m == n {}
    assert b.expected == if n >= a.expected then n + 1 else a.expected;
  }

  /** frames_rx counts arrivals; expected_seq is one past the largest number seen, 0 before any. */
  lemma {:induction false} ExpectedIsNextAfterMax(ns: seq<nat>)
    ensures Account(ns).frames == |ns| && PastMax(Account(ns), ns)
  {
    if ns != [] {
      var ms, n := ns[..|ns| - 1], ns[|ns| - 1];
      ExpectedIsNextAfterMax(ms);
      PastMaxSnoc(Account(ms), ms, n);
      assert ns == ms + [n];
    }
  }

  /** The i-th arrival leaves a hole: it is neither 0 nor at most one past something seen before. */
  predicate Jumps(ns: seq<nat>, i: nat)
    requires i < |ns|
  {
    ns[i] > 0 && forall j :: 0 <= j < i ==> ns[j] + 1 < ns[i]
  }

  /** Jumping is being counted by the receiver. */
  lemma JumpsIff(ns: seq<nat>, i: nat)
    requires i < |ns|
    ensures Jumps(ns, i) <==> ns[i] > Account(ns[..i]).expected
  {
    var ms := ns[..i];
    ExpectedIsNextAfterMax(ms);
    if ns[i] > Account(ms).expected {
      forall j | 0 <= j < i ensures ns[j] + 1 < ns[i] {
        assert ms[j] in ms;
      }
    } else if ms != [] {
      var j :| 0 <= j < i && ms[j] == Account(ms).expected - 1;
      assert ns[j] + 1 >= ns[i];
    }
  }

  function Jumpers(ns: seq<nat>): set<nat> {
    set i: nat | i < |ns| && Jumps(ns, i)
  }

  lemma JumpsPrefix(ms: seq<nat>, n: nat, i: nat)
    requires i < |ms|
    ensures Jumps(ms + [n], i) <==> Jumps(ms, i)
  {
    forall j | 0 <= j <= i ensures (ms + [n])[j] == ms[j] {}
  }

  lemma JumperMember(ms: seq<nat>, n: nat, i: nat)
    ensures i in Jumpers(ms + [n]) <==> i in Jumpers(ms) || (i == |ms| && n > Account(ms).expected)
  {
    if i < |ms| {
      JumpsPrefix(ms, n, i);
    } else if i == |ms| {
      JumpsIff(ms + [n], i);
      assert (ms + [n])[..i] == ms;
    }
  }

  lemma JumpersSnoc(ms: seq<nat>, n: nat)
    ensures Jumpers(ms + [n]) == Jumpers(ms) + if n > Account(ms).expected then {|ms|} else {}
  {
    var more: set<nat> := if n > Account(ms).expected then {|ms|} else {};
    forall i: nat ensures i in Jumpers(ms + [n]) <==> i in Jumpers(ms) + more {
      JumperMember(ms, n, i);
    }
  }

  /** seq_gaps counts the arrivals that jump. */
  lemma {:induction false} GapsCountJumps(ns: seq<nat>)
    ensures Account(ns).gaps == |Jumpers(ns)|
  {
    if ns == [] {
      assert Jumpers(ns) == {};
    } else {
      var last := |ns| - 1;
      GapsCountJumps(ns[..last]);
      JumpersSnoc(ns[..last], ns[last]);
      assert last !in Jumpers(ns[..last]);
      assert ns == ns[..last] + [ns[last]];
    }
  }

  // ---- arrivals in increasing order ----

  predicate Increasing(ns: seq<nat>) {
    forall i, j :: 0 <= i < j < |ns| ==> ns[i] < ns[j]
  }

  function Missing(ns: seq<nat>): set<nat> {
    set n: nat | n < Account(ns).expected && n !in ns
  }

  predicate Starts(missing: set<nat>, n: nat) {
    n in missing && (n == 0 || n - 1 !in missing)
  }

  /** First members of the maximal runs of missing numbers. */
  function RunStarts(missing: set<nat>): set<nat> {
    set n | n in missing && Starts(missing, n)
  }

  function Span(lo: nat, hi: nat): (s: set<nat>)
    ensures forall n :: n in s <==> lo <= n < hi
    ensures |s| == if lo <= hi then hi - lo else 0
    decreases hi
  {
    if hi <= lo then {} else Span(lo, hi - 1) + {hi - 1}
  }

  lemma IncreasingNext(ms: seq<nat>, n: nat)
    requires Increasing(ms + [n])
    ensures Increasing(ms) && n >= Account(ms).expected
  {
    var ns, e := ms + [n], Account(ms).expected;
    forall i, j | 0 <= i < j < |ms| ensures ms[i] < ms[j] {
      assert ns[i] < ns[j];
    }
    ExpectedIsNextAfterMax(ms);
    if ms != [] {
      var j :| 0 <= j < |ms| && ms[j] == e - 1;
      assert ns[j] < ns[|ms|];
    }
  }

  /** The number before the next expected one has been seen. */
  lemma MissingBelow(ms: seq<nat>, x: nat)
    requires x in Missing(ms)
    ensures x + 1 < Account(ms).expected
  {
    ExpectedIsNextAfterMax(ms);
  }

  lemma MissingMember(ms: seq<nat>, n: nat, x: nat)
    requires n >= Account(ms).expected
    ensures x in Missing(ms + [n]) <==> x in Missing(ms) || Account(ms).expected <= x < n
  {
    AccountSnoc(ms, n);
    ExpectedIsNextAfterMax(ms);
    assert x in ms + [n] <==> x in ms || x == n;
  }

  /** A new highest number leaves missing what was missing, and all it skipped. */
  lemma MissingSnoc(ms: seq<nat>, n: nat)
    requires n >= Account(ms).expected
    ensures Missing(ms + [n]) == Missing(ms) + Span(Account(ms).expected, n)
  {
    forall x: nat ensures x in Missing(ms + [n]) <==> x in Missing(ms) + Span(Account(ms).expected, n) {
      MissingMember(ms, n, x);
    }
  }

  /** Skipping adds one run when the number before was not missing. */
  lemma StartsExtend(missing: set<nat>, lo: nat, hi: nat)
    requires lo <= hi && (forall x :: x in missing ==> x + 1 < lo)
    ensures var more := RunStarts(missing + Span(lo, hi));
            && lo !in RunStarts(missing)
            && more == if lo < hi then RunStarts(missing) + {lo} else RunStarts(missing)
  {
    var all := missing + Span(lo, hi);
    forall x: nat ensures Starts(all, x) <==> Starts(missing, x) || (lo < hi && x == lo) {}
  }

  lemma RunsExtend(missing: set<nat>, lo: nat, hi: nat)
    requires lo <= hi && (forall x :: x in missing ==> x + 1 < lo)
    ensures |missing + Span(lo, hi)| == |missing| + hi - lo
    ensures |RunStarts(missing + Span(lo, hi))| == |RunStarts(missing)| + if lo < hi then 1 else 0
  {
    StartsExtend(missing, lo, hi);
    assert missing !! Span(lo, hi);
  }

  /**
   * For increasing arrivals expected_seq - frames_rx is the number of missing frames, seq_gaps the
   * number of maximal runs of them, and it is zero exactly when nothing is missing.
   */
  lemma {:induction false} IncreasingAccount(ns: seq<nat>)
    requires Increasing(ns)
    ensures |Missing(ns)| == Account(ns).expected - Account(ns).frames
    ensures |RunStarts(Missing(ns))| == Account(ns).gaps
    ensures Account(ns).gaps == 0 <==> Account(ns).expected == Account(ns).frames
  {
    if ns == [] {
      assert Missing(ns) == {} && RunStarts({}) == {};
    } else {
      var ms, n := ns[..|ns| - 1], ns[|ns| - 1];
      assert ns == ms + [n];
      IncreasingNext(ms, n);
      IncreasingAccount(ms);
      MissingSnoc(ms, n);
      forall x | x in Missing(ms) ensures x + 1 < Account(ms).expected {
        MissingBelow(ms, x);
      }
      RunsExtend(Missing(ms), Account(ms).expected, n);
      AccountSnoc(ms, n);
    }
  }

  // ---- distinct arrivals ----

  /** Duplicate-free arrivals never outnumber what is expected of them. */
  lemma DistinctBelowExpected(ns: seq<nat>)
    requires Distinct(ns)
    ensures Account(ns).frames <= Account(ns).expected
  {
    ExpectedIsNextAfterMax(ns);
    DistinctInto(ns, Span(0, Account(ns).expected));
  }

  lemma DistinctPrefix(ns: seq<nat>, m: nat)
    requires Distinct(ns) && m <= |ns|
    ensures Distinct(ns[..m])
  {
    forall i, j | 0 <= i < j < m ensures ns[..m][i] != ns[..m][j] {
      assert ns[i] != ns[j];
    }
  }

  lemma AtTurn(ns: seq<nat>, last: nat)
    requires Distinct(ns) && last < |ns| && ns[last] <= last && forall i :: 0 <= i < last ==> ns[i] == i
    ensures ns[last] == last
  {
    var v := ns[last];
    var w := ns[v];
  }

  /** Numbers that each come no later than their turn, none twice, come each at its turn. */
  lemma {:induction false} InTurn(ns: seq<nat>, m: nat)
    requires Distinct(ns) && m <= |ns| && forall i :: 0 <= i < m ==> ns[i] <= i
    ensures forall i :: 0 <= i < m ==> ns[i] == i
  {
    if m > 0 {
      var last: nat := m - 1;
      InTurn(ns, last);
      AtTurn(ns, last);
    }
  }

  lemma {:induction false} CountingUp(ns: seq<nat>)
    requires forall i :: 0 <= i < |ns| ==> ns[i] == i
    ensures Account(ns) == Acct(|ns|, |ns|, 0)
  {
    if ns != [] {
      CountingUp(ns[..|ns| - 1]);
    }
  }

  lemma {:induction false} NoGapNoLater(ns: seq<nat>)
    requires Account(ns).gaps == 0
    ensures Account(ns).expected <= |ns| && forall i :: 0 <= i < |ns| ==> ns[i] <= i
  {
    if ns != [] {
      NoGapNoLater(ns[..|ns| - 1]);
    }
  }

  /** For duplicate-free arrivals no gap is counted exactly when they came as 0, 1, 2 and so on. */
  lemma GapFreeIff(ns: seq<nat>)
    requires Distinct(ns)
    ensures Account(ns).gaps == 0 <==> forall i :: 0 <= i < |ns| ==> ns[i] == i
  {
    if Account(ns).gaps == 0 {
      NoGapNoLater(ns);
      InTurn(ns, |ns|);
    } else if forall i :: 0 <= i < |ns| ==> ns[i] == i {
      CountingUp(ns);
    }
  }

  lemma {:induction false} DistinctSize(ns: seq<nat>, members: set<nat>)
    requires Distinct(ns) && forall n :: n in members <==> n in ns
    ensures |members| == |ns|
  {
    if ns == [] {
      assert members == {};
    } else {
      var init, last := ns[..|ns| - 1], ns[|ns| - 1];
      assert ns == init + [last];
      DistinctPrefix(ns, |ns| - 1);
      assert last !in init;
      DistinctSize(init, members - {last});
    }
  }

  /** For duplicate-free arrivals in any order expected_seq - frames_rx is the number of missing frames. */
  lemma DistinctLag(ns: seq<nat>)
    requires Distinct(ns)
    ensures |Missing(ns)| == Account(ns).expected - Account(ns).frames
  {
    var e := Account(ns).expected;
    ExpectedIsNextAfterMax(ns);
    var heard := set n | n in ns;
    DistinctSize(ns, heard);
    assert Missing(ns) + heard == Span(0, e) && Missing(ns) !! heard;
  }

  /** It is zero exactly when every number that was not seen lies above every number that was. */
  lemma CaughtUpIff(ns: seq<nat>)
    requires Distinct(ns)
    ensures Account(ns).expected == Account(ns).frames <==> forall n: nat, m :: n !in ns && m in ns ==> m < n
  {
    DistinctLag(ns);
    ExpectedIsNextAfterMax(ns);
    if Missing(ns) == {} {
      forall n: nat, m | n !in ns && m in ns ensures m < n {
        assert n !in Missing(ns);
      }
    } else {
      var n :| n in Missing(ns);
      assert n !in ns && Account(ns).expected - 1 in ns;
    }
  }
}
