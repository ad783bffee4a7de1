/** The host's cable ends at the gadget: what the gadget's counters say about the host's threads. */
module Link {
  import opened Base
  import opened Frames
  import opened Accounting
  import opened Ring
  import Gadget
  import Host
  import Sequencing

  // ---- what a read leaves of a frame ----

  /** What the gadget gets when it reads the frames one by one. */
  function ReadAll(fs: seq<Frame>): seq<seq<byte>> {
    if fs == [] then [] else ReadAll(fs[..|fs| - 1]) + [ReadOf(Encode(fs[|fs| - 1]))]
  }

  /** The frames a read holds whole, and the others. */
  function Fitting(fs: seq<Frame>): (kept: seq<Frame>)
    ensures |kept| <= |fs|
  {
    if fs == [] then []
    else Fitting(fs[..|fs| - 1]) + if ReadsWhole(fs[|fs| - 1]) then [fs[|fs| - 1]] else []
  }

  function Oversized(fs: seq<Frame>): (cut: seq<Frame>)
    ensures |Fitting(fs)| + |cut| == |fs|
  {
    if fs == [] then []
    else Oversized(fs[..|fs| - 1]) + if ReadsWhole(fs[|fs| - 1]) then [] else [fs[|fs| - 1]]
  }

  lemma InitLast<T>(s: seq<T>)
    requires s != []
    ensures s == s[..|s| - 1] + [s[|s| - 1]]
  {}

  lemma IntactSnoc(got: seq<seq<byte>>, f: Frame)
    requires Encodable(f)
    ensures Gadget.Intact(got + [ReadOf(Encode(f))]) == Gadget.Intact(got) + if ReadsWhole(f) then [f] else []
  {
    ReadEncode(f);
    assert (got + [ReadOf(Encode(f))])[..|got|] == got;
  }

  /** Exactly the frames that fit a read arrive. */
  lemma {:induction false} IntactRead(fs: seq<Frame>)
    requires Host.Packable(fs)
    ensures Gadget.Intact(ReadAll(fs)) == Fitting(fs)
  {
    if fs != [] {
      var init, last := fs[..|fs| - 1], fs[|fs| - 1];
      IntactRead(init);
      IntactSnoc(ReadAll(init), last);
    }
  }

  lemma {:induction false} FittingMembers(fs: seq<Frame>, f: Frame)
    ensures f in Fitting(fs) <==> f in fs && ReadsWhole(f)
    ensures f in Oversized(fs) <==> f in fs && !ReadsWhole(f)
  {
    if fs != [] {
      InitLast(fs);
      FittingMembers(fs[..|fs| - 1], f);
    }
  }

  lemma NumMember(fs: seq<Frame>, n: nat)
    ensures n in Nums(fs) <==> exists f :: f in fs && f.num == n
  {
    if n in Nums(fs) {
      var i: nat :| i < |fs| && Nums(fs)[i] == n;
      assert fs[i] in fs;
    }
    if f :| f in fs && f.num == n {
      var i: nat :| i < |fs| && fs[i] == f;
      assert Nums(fs)[i] == n;
    }
  }

  lemma FittingNum(fs: seq<Frame>, n: nat)
    requires n in Nums(Fitting(fs))
    ensures n in Nums(fs)
  {
    NumMember(Fitting(fs), n);
    var f :| f in Fitting(fs) && f.num == n;
    FittingMembers(fs, f);
    NumMember(fs, n);
  }

  lemma DistinctSnoc(ns: seq<nat>, n: nat)
    requires Distinct(ns) && n !in ns
    ensures Distinct(ns + [n])
  {}

  lemma {:induction false} FittingDistinct(fs: seq<Frame>)
    requires Distinct(Nums(fs))
    ensures Distinct(Nums(Fitting(fs)))
  {
    if fs != [] {
      var init, last := fs[..|fs| - 1], fs[|fs| - 1];
      assert Nums(fs)[..|fs| - 1] == Nums(init);
      DistinctPrefix(Nums(fs), |fs| - 1);
      FittingDistinct(init);
      if ReadsWhole(last) {
        LastIsNew(fs);
        if last.num in Nums(Fitting(init)) {
          FittingNum(init, last.num);
        }
        assert Nums(Fitting(init) + [last]) == Nums(Fitting(init)) + [last.num];
        DistinctSnoc(Nums(Fitting(init)), last.num);
      }
    }
  }

  lemma LastIsNew(fs: seq<Frame>)
    requires fs != [] && Distinct(Nums(fs))
    ensures fs[|fs| - 1].num !in Nums(fs[..|fs| - 1])
  {
    var last := |fs| - 1;
    var before := Nums(fs[..last]);
    forall i: nat | i < last ensures before[i] != fs[last].num {
      assert before[i] == Nums(fs)[i] != Nums(fs)[last];
    }
  }

  lemma {:induction false} NoneOversized(fs: seq<Frame>)
    requires Oversized(fs) == []
    ensures Fitting(fs) == fs
  {
    if fs != [] {
      InitLast(fs);
      NoneOversized(fs[..|fs| - 1]);
    }
  }

  /** A frame that fits and one that does not never share a number. */
  lemma OversizedApart(fs: seq<Frame>, f: Frame, g: Frame)
    requires Distinct(Nums(fs)) && f in Fitting(fs) && g in Oversized(fs)
    ensures f.num != g.num
  {
    FittingMembers(fs, f);
    FittingMembers(fs, g);
    var i: nat :| i < |fs| && fs[i] == f;
    var j: nat :| j < |fs| && fs[j] == g;
    assert i != j && Nums(fs)[i] != Nums(fs)[j];
  }

  // ---- the cable ----

  /** A FIFO cable: the gadget has read the first m frames the host wrote, each as far as its buffer reaches. */
  predicate Carries(h: Host.Trace, g: Gadget.Trace, m: nat) {
    m <= |h.wire| && g.got == ReadAll(h.wire[..m])
  }

  /** Nothing taken and unwritten, nothing written and unread. */
  predicate Quiet(h: Host.Trace, m: nat) { m == |h.wire| && h.data == None && h.beat == None }

  lemma CarriedNums(h: Host.Trace, g: Gadget.Trace, m: nat)
    requires Carries(h, g, m) && Gadget.InputSound(g) && Host.Packable(h.wire)
    ensures g.s.acct == Account(Nums(Fitting(h.wire[..m])))
  {
    IntactRead(h.wire[..m]);
  }

  /** The chain of the host's threads, m of whose frames the gadget has read. */
  ghost predicate Reads(h: Host.Trace, c: Sequencing.Chain, m: nat) {
    && m <= |h.wire| && |h.asked| <= WRAP
    && c == Host.ChainOf(h).(taken := m) && Sequencing.Tidy(c) && Sequencing.Tracked(c)
  }

  lemma HeardAmong(h: Host.Trace, c: Sequencing.Chain, m: nat)
    requires Reads(h, c, m)
    ensures Distinct(c.line) && Distinct(Nums(Fitting(h.wire[..m])))
    ensures forall n :: n in Nums(Fitting(h.wire[..m])) ==> n in c.line[..c.taken]
  {
    Sequencing.LineDistinct(c);
    DistinctPrefix(c.line, m);
    assert Nums(h.wire[..m]) == c.line[..m];
    FittingDistinct(h.wire[..m]);
    forall n | n in Nums(Fitting(h.wire[..m])) ensures n in c.line[..c.taken] {
      FittingNum(h.wire[..m], n);
    }
  }

  lemma QuietCounts(h: Host.Trace, c: Sequencing.Chain, m: nat)
    requires Reads(h, c, m) && Quiet(h, m)
    ensures |h.asked| == m + |h.failed| && Sequencing.Quiet(c)
  {
    Sequencing.QuietCount(c.pending);
  }

  lemma LagWithin(h: Host.Trace, c: Sequencing.Chain, m: nat)
    requires Reads(h, c, m)
    ensures var a, big := Account(Nums(Fitting(h.wire[..m]))), |Oversized(h.wire[..m])|;
            && 0 <= a.expected - a.frames <= |h.failed| + big + 1
            && (Quiet(h, m) ==> a.expected - a.frames <= |h.failed| + big)
  {
    HeardAmong(h, c, m);
    Sequencing.PartialLag(c, Nums(Fitting(h.wire[..m])));
    ExpectedIsNextAfterMax(Nums(Fitting(h.wire[..m])));
    if Quiet(h, m) {
      QuietCounts(h, c, m);
    }
  }

  // ---- at rest ----

  /** The frame that took number n never arrived: it failed, or it is too big to be read. */
  predicate NeverRead(h: Host.Trace, n: nat) {
    n in Nums(h.failed) || n in Nums(Oversized(h.wire))
  }

  /** At rest a number handed out was heard, or its frame was never read, and not both. */
  lemma HeardOrLost(h: Host.Trace, c: Sequencing.Chain, n: nat)
    requires Reads(h, c, |h.wire|) && Quiet(h, |h.wire|) && n < |h.asked|
    ensures n in Nums(Fitting(h.wire)) <==> !NeverRead(h, n)
  {
    assert h.wire[..|h.wire|] == h.wire;
    HeardAmong(h, c, |h.wire|);
    if NeverRead(h, n) {
      LostNotHeard(h, c, n);
    } else {
      if n !in c.line {
        Sequencing.Somewhere(c, n);
      }
      NumMember(h.wire, n);
      var f :| f in h.wire && f.num == n;
      FittingMembers(h.wire, f);
      NumMember(Fitting(h.wire), n);
      NumMember(Oversized(h.wire), n);
    }
  }

  lemma LostNotHeard(h: Host.Trace, c: Sequencing.Chain, n: nat)
    requires Sequencing.Placed(c) && c.line == Nums(h.wire) && c.lost == Nums(h.failed) && Distinct(c.line)
    requires NeverRead(h, n)
    ensures n !in Nums(Fitting(h.wire))
  {
    if n in Nums(Fitting(h.wire)) {
      FittingNum(h.wire, n);
      Sequencing.LineNotLost(c, n);
      NumMember(Fitting(h.wire), n);
      NumMember(Oversized(h.wire), n);
      var f :| f in Fitting(h.wire) && f.num == n;
      var g :| g in Oversized(h.wire) && g.num == n;
      OversizedApart(h.wire, f, g);
    }
  }

  lemma RestIff(h: Host.Trace, c: Sequencing.Chain)
    requires Reads(h, c, |h.wire|) && Quiet(h, |h.wire|)
    ensures var a := Account(Nums(Fitting(h.wire)));
            a.expected == a.frames
            <==> forall n: nat, m :: NeverRead(h, n) && m in Nums(Fitting(h.wire)) ==> m < n
  {
    var heard := Nums(Fitting(h.wire));
    assert h.wire[..|h.wire|] == h.wire;
    HeardAmong(h, c, |h.wire|);
    CaughtUpIff(heard);
    if forall n: nat, m :: n !in heard && m in heard ==> m < n {
      forall n: nat, m | NeverRead(h, n) && m in heard ensures m < n {
        LostNotHeard(h, c, n);
      }
    } else {
      var n: nat, m :| n !in heard && m in heard && n <= m;
      var p: nat :| p < |c.line| && c.line[p] == m;
      Sequencing.LineHanded(c, p);
      HeardOrLost(h, c, n);
    }
  }

  // ---- the result ----

  /** What the gadget's counters say, m frames having been read. */
  ghost predicate Lags(h: Host.Trace, a: Acct, m: nat)
    requires m <= |h.wire|
  {
    var read := h.wire[..m];
    var big := |Oversized(read)|;
    && a.frames == |Fitting(read)|
    && 0 <= a.expected - a.frames <= |h.failed| + big + 1
    && (Quiet(h, m) ==> a.expected - a.frames <= |h.failed| + big)
    && (Quiet(h, m) ==>
          (a.expected == a.frames <==> forall n: nat, k :: NeverRead(h, n) && k in Nums(Fitting(h.wire)) ==> k < n))
    && (a.gaps == 0 <==> forall i :: 0 <= i < |Fitting(read)| ==> Fitting(read)[i].num == i)
  }

  lemma CountersLag(h: Host.Trace, c: Sequencing.Chain, m: nat)
    requires Reads(h, c, m)
    ensures Lags(h, Account(Nums(Fitting(h.wire[..m]))), m)
  {
    var heard := Nums(Fitting(h.wire[..m]));
    LagWithin(h, c, m);
    ExpectedIsNextAfterMax(heard);
    HeardAmong(h, c, m);
    GapFreeIff(heard);
    assert forall i :: 0 <= i < |heard| ==> heard[i] == Fitting(h.wire[..m])[i].num;
    if Quiet(h, m) {
      assert h.wire[..m] == h.wire;
      RestIff(h, c);
    }
  }

  lemma HostReads(hid: NodeId, hls: seq<Host.Label>, m: nat) returns (c: Sequencing.Chain)
    requires var h := Host.Run(hid, hls); |h.asked| <= WRAP && m <= |h.wire|
    ensures Reads(Host.Run(hid, hls), c, m) && Sequencing.Reachable(false, 2, c)
  {
    var h := Host.Run(hid, hls);
    c := Host.ChainOf(h).(taken := m);
    Host.RunChain(hid, hls);
    Sequencing.ReachTaken(false, 2, Host.ChainOf(h), m);
    var steps :| Sequencing.End(false, 2, steps) == c;
    Sequencing.RunTidy(false, 2, steps);
    Sequencing.RunTracked(false, 2, steps);
  }

  /**
   * The host's TX and heartbeat threads in any interleaving, their frames read one by one by a gadget whose own threads
   * interleave in any way. With L frames that never reached the cable and B that are too big for the gadget's read:
   * 0 <= expected_seq - frames_rx <= L + B + 1 in the gadget's counters, at most L + B once all is written and read.
   * Then the two are equal exactly when every frame that was never read is numbered above all that were. No gap is
   * counted exactly when the frames that fit arrived as 0, 1, 2 and so on.
   */
  lemma HostToGadget(hid: NodeId, hls: seq<Host.Label>, gid: NodeId, k: nat, gls: seq<Gadget.Label>, m: nat)
    requires |Host.Run(hid, hls).asked| <= WRAP
    requires Carries(Host.Run(hid, hls), Gadget.Run(gid, k, gls), m)
    ensures Lags(Host.Run(hid, hls), Gadget.Run(gid, k, gls).s.acct, m)
  {
    var h := Host.Run(hid, hls);
    var c := HostReads(hid, hls, m);
    CountersLag(h, c, m);
    Host.EveryRun(hid, hls);
    Gadget.EveryRun(gid, k, gls);
    CarriedNums(h, Gadget.Run(gid, k, gls), m);
  }

  /**
   * With nothing failed and nothing oversized: expected_seq equals frames_rx at rest, both counting every number taken,
   * and a gap is counted exactly when some frame read had overtaken the other thread's.
   */
  lemma NothingLost(hid: NodeId, hls: seq<Host.Label>, gid: NodeId, k: nat, gls: seq<Gadget.Label>, m: nat)
    requires |Host.Run(hid, hls).asked| <= WRAP
    requires Carries(Host.Run(hid, hls), Gadget.Run(gid, k, gls), m)
    requires var h := Host.Run(hid, hls); h.failed == [] && Oversized(h.wire[..m]) == []
    ensures var h, a := Host.Run(hid, hls), Gadget.Run(gid, k, gls).s.acct;
            && |h.over| == |h.wire|
            && (Quiet(h, m) ==> a.expected == a.frames == |h.asked|)
            && (a.gaps > 0 <==> exists p :: 0 <= p < m && h.over[p] != {})
  {
    var h := Host.Run(hid, hls);
    var c := HostReads(hid, hls, m);
    var steps :| Sequencing.End(false, 2, steps) == c;
    Sequencing.LagBound(false, 2, steps);
    Sequencing.GapIffOvertaken(false, 2, steps);
    NoneOversized(h.wire[..m]);
    assert Nums(h.wire[..m]) == c.line[..c.taken];
    Host.EveryRun(hid, hls);
    Gadget.EveryRun(gid, k, gls);
    CarriedNums(h, Gadget.Run(gid, k, gls), m);
    if Quiet(h, m) {
      QuietCounts(h, c, m);
    }
  }

  // ---- payloads no read can hold ----

  /** n payloads of this kind sent and written undisturbed, everything else idle. */
  predicate Burdened(t: Host.Trace, n: nat, payload: seq<byte>) {
    && t.s.tx == [] && t.s.txAlive && t.s.hbAlive && t.s.next == n && |t.asked| == n && t.failed == []
    && t.data == None && t.beat == None && |t.wire| == |t.over| == n && Oversized(t.wire) == t.wire
    && forall p :: 0 <= p < n ==> t.over[p] == {}
  }

  lemma BurdenedNext(t: Host.Trace, n: nat, payload: seq<byte>)
    requires Burdened(t, n, payload) && n < WRAP && MAX_PAYLOAD < |payload| < 0x1_0000
    ensures var w := Host.WriteData(Host.Sent(|payload|));
            Burdened(Host.Do(Host.Do(Host.Do(t, Host.Give(payload)), Host.TakeData), w), n + 1, payload)
  {
    var t1 := Host.Do(t, Host.Give(payload));
    assert t1.s.tx == [payload] && t1.s.tx[1..] == [];
    var t2 := Host.Do(t1, Host.TakeData);
    var f := Frame(0, 0, n, t.s.id, BROADCAST, payload);
    assert t2.data == Some(f);
    var t3 := Host.Do(t2, Host.WriteData(Host.Sent(|payload|)));
    assert t3.wire == t.wire + [f] && t3.wire[..n] == t.wire;
    assert Sequencing.Smaller(Host.Slots(t2), n) == {};
  }

  lemma RunSnoc(id: NodeId, ls: seq<Host.Label>, l: Host.Label)
    ensures Host.Run(id, ls + [l]) == Host.Do(Host.Run(id, ls), l)
  {
    assert (ls + [l])[..|ls|] == ls;
  }

  lemma {:induction false} Burden(id: NodeId, payload: seq<byte>, n: nat) returns (ls: seq<Host.Label>)
    requires n <= WRAP && MAX_PAYLOAD < |payload| < 0x1_0000
    ensures Burdened(Host.Run(id, ls), n, payload)
  {
    ls := [];
    if n > 0 {
      var more := Burden(id, payload, n - 1);
      var l0, l1, l2 := Host.Give(payload), Host.TakeData, Host.WriteData(Host.Sent(|payload|));
      BurdenedNext(Host.Run(id, more), n - 1, payload);
      RunSnoc(id, more, l0);
      RunSnoc(id, more + [l0], l1);
      RunSnoc(id, more + [l0] + [l1], l2);
      ls := more + [l0] + [l1] + [l2];
    }
  }

  lemma FittingSnoc(fs: seq<Frame>, f: Frame)
    ensures Fitting(fs + [f]) == Fitting(fs) + if ReadsWhole(f) then [f] else []
    ensures Oversized(fs + [f]) == Oversized(fs) + if ReadsWhole(f) then [] else [f]
  {
    assert (fs + [f])[..|fs|] == fs;
  }

  lemma BeatTaken(t: Host.Trace, n: nat, payload: seq<byte>)
    requires Burdened(t, n, payload) && n < WRAP
    ensures var u := Host.Do(t, Host.TakeBeat);
            && u.beat == Some(Host.BeatFrame(t.s)) && u.data == None && |u.asked| == n + 1
            && u.failed == [] && u.wire == t.wire && u.over == t.over
  {}

  lemma BeatWritten(t: Host.Trace, f: Frame)
    requires t.beat == Some(f) && t.data == None
    ensures var u := Host.Do(t, Host.WriteBeat(Host.Sent(MIN_FRAME)));
            && u.beat == None && u.data == None && u.asked == t.asked && u.failed == t.failed
            && u.wire == t.wire + [f] && u.over == t.over + [{}]
  {
    assert Sequencing.Smaller(Host.Slots(t), f.num) == {};
  }

  lemma OneBeat(t: Host.Trace, n: nat, payload: seq<byte>)
    requires Burdened(t, n, payload) && n < WRAP
    ensures var u := Host.Do(Host.Do(t, Host.TakeBeat), Host.WriteBeat(Host.Sent(MIN_FRAME)));
            && u.failed == [] && |u.wire| == |u.over| == n + 1 && Quiet(u, n + 1)
            && Nums(Fitting(u.wire)) == [n]
            && forall p :: 0 <= p < n + 1 ==> u.over[p] == {}
  {
    var f := Host.BeatFrame(t.s);
    BeatTaken(t, n, payload);
    BeatWritten(Host.Do(t, Host.TakeBeat), f);
    FittingSnoc(t.wire, f);
    assert |Fitting(t.wire)| == 0;
  }

  lemma ReadNext(t: Gadget.Trace, data: seq<byte>)
    requires |t.slots| == 2 && t.slots[0] == None && data != []
    ensures var u := Gadget.Do(Gadget.Do(t, Gadget.Begin(0, Gadget.Rx(data))), Gadget.Put(0));
            |u.slots| == 2 && u.slots[0] == None && u.got == t.got + [data]
  {}

  lemma GadgetSnoc(id: NodeId, k: nat, ls: seq<Gadget.Label>, l: Gadget.Label)
    ensures Gadget.Run(id, k, ls + [l]) == Gadget.Do(Gadget.Run(id, k, ls), l)
  {
    assert (ls + [l])[..|ls|] == ls;
  }

  /** Some run of the gadget reads any given frames. */
  lemma {:induction false} Readable(id: NodeId, fs: seq<Frame>) returns (ls: seq<Gadget.Label>)
    ensures var t := Gadget.Run(id, 2, ls);
            |t.slots| == 2 && t.slots[0] == None && t.got == ReadAll(fs)
  {
    ls := [];
    if fs != [] {
      var more := Readable(id, fs[..|fs| - 1]);
      var data := ReadOf(Encode(fs[|fs| - 1]));
      ReadNext(Gadget.Run(id, 2, more), data);
      GadgetSnoc(id, 2, more, Gadget.Begin(0, Gadget.Rx(data)));
      GadgetSnoc(id, 2, more + [Gadget.Begin(0, Gadget.Rx(data))], Gadget.Put(0));
      ls := more + [Gadget.Begin(0, Gadget.Rx(data))] + [Gadget.Put(0)];
    }
  }

  lemma BurdenAndBeat(id: NodeId, payload: seq<byte>, n: nat) returns (ls: seq<Host.Label>)
    requires n < WRAP && MAX_PAYLOAD < |payload| < 0x1_0000
    ensures var h := Host.Run(id, ls);
            && h.failed == [] && |h.wire| == |h.over| == n + 1 && Quiet(h, n + 1)
            && Nums(Fitting(h.wire)) == [n]
            && forall p :: 0 <= p < n + 1 ==> h.over[p] == {}
  {
    var more := Burden(id, payload, n);
    var l0, l1 := Host.TakeBeat, Host.WriteBeat(Host.Sent(MIN_FRAME));
    OneBeat(Host.Run(id, more), n, payload);
    RunSnoc(id, more, l0);
    RunSnoc(id, more + [l0], l1);
    ls := more + [l0] + [l1];
  }

  lemma OneHeard(hid: NodeId, hls: seq<Host.Label>, gid: NodeId, gls: seq<Gadget.Label>, m: nat, n: nat)
    requires Carries(Host.Run(hid, hls), Gadget.Run(gid, 2, gls), m)
    requires Nums(Fitting(Host.Run(hid, hls).wire[..m])) == [n]
    ensures Gadget.Run(gid, 2, gls).s.acct == Acct(n + 1, 1, if n > 0 then 1 else 0)
  {
    Host.EveryRun(hid, hls);
    Gadget.EveryRun(gid, 2, gls);
    CarriedNums(Host.Run(hid, hls), Gadget.Run(gid, 2, gls), m);
    Sequencing.AccountOne(n);
  }

  /**
   * So oversized payloads alone make the lag as large as one likes, and cause a gap: every write succeeded, nothing was
   * overtaken, all is read, and after n of them and one heartbeat expected_seq - frames_rx is n.
   */
  lemma OversizedLag(hid: NodeId, gid: NodeId, payload: seq<byte>, n: nat)
    returns (hls: seq<Host.Label>, gls: seq<Gadget.Label>)
    requires 0 < n < WRAP && MAX_PAYLOAD < |payload| < 0x1_0000
    ensures var h, g := Host.Run(hid, hls), Gadget.Run(gid, 2, gls);
            && h.failed == [] && |h.wire| == |h.over| == n + 1 && Quiet(h, n + 1) && Carries(h, g, n + 1)
            && (forall p :: 0 <= p < n + 1 ==> h.over[p] == {})
            && g.s.acct == Acct(n + 1, 1, 1)
  {
    hls := BurdenAndBeat(hid, payload, n);
    var h := Host.Run(hid, hls);
    gls := Readable(gid, h.wire);
    assert h.wire[..n + 1] == h.wire;
    OneHeard(hid, hls, gid, gls, n + 1, n);
  }

  // ---- what the application gets ----

  /** The payloads a read can hold. */
  function Small(ps: seq<seq<byte>>): seq<seq<byte>> {
    if ps == [] then [] else Small(ps[..|ps| - 1]) + if |ps[|ps| - 1]| <= 16368 then [ps[|ps| - 1]] else []
  }

  lemma SmallSnoc(ps: seq<seq<byte>>, p: seq<byte>)
    ensures Small(ps + [p]) == Small(ps) + if |p| <= 16368 then [p] else []
  {
    assert (ps + [p])[..|ps|] == ps;
  }

  lemma FittingPayloadsNext(init: seq<Frame>, f: Frame)
    requires f.flags / 16 % 2 == 1 ==> f.payload == []
    requires Host.Payloads(Fitting(init)) == Small(Host.Payloads(init))
    ensures Host.Payloads(Fitting(init + [f])) == Small(Host.Payloads(init + [f]))
  {
    assert (init + [f])[..|init|] == init;
    Host.PayloadsSnoc(init, f);
    Host.PayloadsSnoc(Fitting(init), f);
    SmallSnoc(Host.Payloads(init), f.payload);
    assert Fitting(init) + [] == Fitting(init) && Small(Host.Payloads(init)) + [] == Small(Host.Payloads(init));
    assert Host.Payloads(init) + [] == Host.Payloads(init);
  }

  lemma {:induction false} FittingPayloads(fs: seq<Frame>)
    requires forall i :: 0 <= i < |fs| && fs[i].flags / 16 % 2 == 1 ==> fs[i].payload == []
    ensures Host.Payloads(Fitting(fs)) == Small(Host.Payloads(fs))
  {
    if fs != [] {
      InitLast(fs);
      FittingPayloads(fs[..|fs| - 1]);
      FittingPayloadsNext(fs[..|fs| - 1], fs[|fs| - 1]);
    }
  }

  lemma DeliveredPayloadsNext(id: NodeId, init: seq<Frame>, f: Frame)
    requires f.flags / 16 % 2 == 1 || f.dst == 0xFF
    requires Host.Payloads(Gadget.Delivered(id, init)) == Host.Payloads(init)
    ensures Host.Payloads(Gadget.Delivered(id, init + [f])) == Host.Payloads(init + [f])
  {
    var before := Gadget.Delivered(id, init);
    assert (init + [f])[..|init|] == init;
    Host.PayloadsSnoc(init, f);
    Host.PayloadsSnoc(before, f);
    assert before + [] == before && Host.Payloads(init) + [] == Host.Payloads(init);
  }

  /** Data frames to everyone are delivered by whoever reads them. */
  lemma {:induction false} DeliveredPayloads(id: NodeId, fs: seq<Frame>)
    requires forall i :: 0 <= i < |fs| ==> fs[i].flags / 16 % 2 == 1 || fs[i].dst == 0xFF
    ensures Host.Payloads(Gadget.Delivered(id, fs)) == Host.Payloads(fs)
  {
    if fs != [] {
      InitLast(fs);
      DeliveredPayloads(id, fs[..|fs| - 1]);
      DeliveredPayloadsNext(id, fs[..|fs| - 1], fs[|fs| - 1]);
    }
  }

  lemma OwnOnCable(h: Host.Trace, m: nat)
    requires m <= |h.wire| && Host.Placed(h) && Host.Carried(h.s.id, h.asked, h.popped)
    ensures forall f <- h.wire[..m] :: Host.IsOwn(h.s.id, f)
  {
    forall f | f in h.wire[..m] ensures Host.IsOwn(h.s.id, f) {
      assert f in h.wire && f in h.asked;
    }
  }

  lemma OwnIsData(id: NodeId, f: Frame)
    requires Host.IsOwn(id, f)
    ensures if f.flags / 16 % 2 == 1 then f.payload == [] else f.dst == 0xFF
  {}

  lemma CablePayloads(id: NodeId, gid: NodeId, fs: seq<Frame>)
    requires forall f <- fs :: Host.IsOwn(id, f)
    ensures Host.Payloads(Gadget.Delivered(gid, Fitting(fs))) == Small(Host.Payloads(fs))
  {
    forall i | 0 <= i < |fs| && fs[i].flags / 16 % 2 == 1 ensures fs[i].payload == [] {
      OwnIsData(id, fs[i]);
    }
    var kept := Fitting(fs);
    forall i | 0 <= i < |kept| ensures kept[i].flags / 16 % 2 == 1 || kept[i].dst == 0xFF {
      FittingMembers(fs, kept[i]);
      OwnIsData(id, kept[i]);
    }
    DeliveredPayloads(gid, kept);
    FittingPayloads(fs);
  }

  lemma ReadPayloads(h: Host.Trace, g: Gadget.Trace, m: nat)
    requires Carries(h, g, m) && Host.Packable(h.wire) && Gadget.InputSound(g)
    requires Host.Placed(h) && Host.Carried(h.s.id, h.asked, h.popped)
    ensures Host.Payloads(g.s.rx) == Small(Host.Payloads(h.wire[..m]))
  {
    OwnOnCable(h, m);
    IntactRead(h.wire[..m]);
    CablePayloads(h.s.id, g.s.id, h.wire[..m]);
  }

  /** At rest with no data frame failed the cable holds the payloads given to send. */
  lemma RestPayloads(h: Host.Trace)
    requires Host.Fifo(h) && Host.DeliversIn(h)
    requires h.data == None && h.s.tx == [] && Host.Payloads(h.failed) == []
    ensures Host.Payloads(h.wire) == h.sends
  {
    assert Host.Payloads(h.wire) + [] == Host.Payloads(h.wire) && h.popped + [] == h.popped;
  }

  /**
   * What the host's application sends is what the gadget's application gets, whatever the threads do: of the data
   * payloads on the part of the cable that was read exactly those of at most 16368 octets are delivered, in order; and
   * once all is written and read with no data frame failed, these are the payloads given to send, each once.
   */
  lemma PayloadsArrive(hid: NodeId, hls: seq<Host.Label>, gid: NodeId, k: nat, gls: seq<Gadget.Label>, m: nat)
    requires Carries(Host.Run(hid, hls), Gadget.Run(gid, k, gls), m)
    ensures var h, g := Host.Run(hid, hls), Gadget.Run(gid, k, gls);
            && Host.Payloads(g.s.rx) == Small(Host.Payloads(h.wire[..m]))
            && (Quiet(h, m) && h.s.tx == [] && Host.Payloads(h.failed) == [] ==>
                  Host.Payloads(g.s.rx) == Small(h.sends))
  {
    var h := Host.Run(hid, hls);
    Host.Origins(hid, hls);
    Host.Cable(hid, hls);
    Gadget.EveryRun(gid, k, gls);
    ReadPayloads(h, Gadget.Run(gid, k, gls), m);
    if Quiet(h, m) && h.s.tx == [] && Host.Payloads(h.failed) == [] {
      Host.Queues(hid, hls);
      RestPayloads(h);
      assert h.wire[..m] == h.wire;
    }
  }
}
