/**
 * The threads inside one node of src/common/node.py, interleaved at every point another thread can observe:
 * each lock section and each queue operation is a step of its own, so counters trail the queues.
 */
module NodeThreads {
  import opened Base
  import opened Frames
  import opened Node

  /** Where a thread stands between two steps. */
  datatype Pc =
    | Idle
    | Counted(f: Frame)                       // read and counted, not yet routed
    | Relaying(raw: seq<byte>)                // forward: packed, not yet queued
    | Relayed                                 // forward: queued, not yet counted
    | Sending(raw: seq<byte>, size: nat)      // send: packed, not yet queued
    | Queued(size: nat)                       // send: queued, not yet counted
    | Dead                                    // packing raised inside a receive loop

  datatype Fate = Written | WriteFailed | Discarded

  /** `puts`, `fates`, `delivered`, `handed` and `expired` are history: no step's effect on the rest depends on them. */
  datatype State = State(
    node: NodeState, hasHost: bool, pcs: seq<Pc>, holding: Option<seq<byte>>,
    puts: seq<seq<byte>>, fates: seq<Fate>, delivered: seq<Frame>, handed: nat, expired: nat)

  function Start(id: NodeId, host: bool, threads: nat): State {
    State(NodeState(id, [], [], 0, Stats(0, 0, 0, 0, 0, 0)), host, seq(threads, i => Idle), None, [], [], [], 0, 0)
  }

  datatype Label =
    | Read(t: nat, data: seq<byte>)
    | Route(t: nat)
    | Put(t: nat)
    | Book(t: nat)
    | Send(t: nat, dst: NodeId, payload: seq<byte>)
    | Take
    | Finish(fails: bool)
    | Recv

  /** A step of thread t. */
  function ThreadStep(s: State, l: Label, pc: Pc): (State, Pc) {
    var n := s.node;
    match (l, pc)
    case (Read(_, data), Idle) =>
      (match Unpack(data)
       case Err(_) => (s, Idle)
       case Ok(f) =>
         (s.(node := n.(stats := n.stats.(framesRx := n.stats.framesRx + 1, bytesRx := n.stats.bytesRx + |f.payload|))),
          Counted(f)))
    case (Route(_), Counted(f)) =>
      (match Judge(n.id, f)
       case Local => (s.(node := n.(rx := n.rx + [f]), delivered := s.delivered + [f]), Idle)
       case OutOfHops =>
         (s.(node := n.(stats := n.stats.(dropped := n.stats.dropped + 1)), expired := s.expired + 1), Idle)
       case Relay =>
         var s' := s.(node := n.(nextNum := n.nextNum + 1));
         match Pack(Forwarded(f, n.nextNum))
         case Err(_) => (s', Dead)
         case Ok(raw) => (s', Relaying(raw)))
    case (Put(_), Relaying(raw)) => (s.(node := n.(tx := n.tx + [raw]), puts := s.puts + [raw]), Relayed)
    case (Book(_), Relayed) => (s.(node := n.(stats := n.stats.(forwarded := n.stats.forwarded + 1))), Idle)
    case (Send(_, dst, payload), Idle) =>
      var s' := s.(node := n.(nextNum := n.nextNum + 1));
      (match Pack(Frame(0, 0, n.nextNum, n.id, dst, payload))
       case Err(_) => (s', Idle)
       case Ok(raw) => (s', Sending(raw, |payload|)))
    case (Put(_), Sending(raw, size)) => (s.(node := n.(tx := n.tx + [raw]), puts := s.puts + [raw]), Queued(size))
    case (Book(_), Queued(size)) =>
      (s.(node := n.(stats := n.stats.(framesTx := n.stats.framesTx + 1, bytesTx := n.stats.bytesTx + size))), Idle)
    case _ => (s, pc)
  }

  function Do(s: State, l: Label): State {
    var n := s.node;
    match l
    case Take =>
      if s.holding == None && n.tx != [] then s.(node := n.(tx := n.tx[1..]), holding := Some(n.tx[0])) else s
    case Finish(fails) =>
      if s.holding == None then s
      else if !s.hasHost then s.(holding := None, fates := s.fates + [Discarded])
      else if fails then
        s.(holding := None, fates := s.fates + [WriteFailed],
           node := n.(stats := n.stats.(dropped := n.stats.dropped + 1)))
      else s.(holding := None, fates := s.fates + [Written])
    case Recv => if n.rx == [] then s else s.(node := n.(rx := n.rx[1..]), handed := s.handed + 1)
    case _ =>
      if l.t < |s.pcs| then
        var (s', pc) := ThreadStep(s, l, s.pcs[l.t]);
        s'.(pcs := s.pcs[l.t := pc])
      else s
  }

  function End(s: State, ls: seq<Label>): State
    decreases |ls|
  {
    if ls == [] then s else Do(End(s, ls[..|ls| - 1]), ls[|ls| - 1])
  }

  // ---- counting threads ----

  function Sum(pcs: seq<Pc>, w: Pc -> nat): nat {
    if pcs == [] then 0 else Sum(pcs[..|pcs| - 1], w) + w(pcs[|pcs| - 1])
  }

  lemma {:induction false} SumUpdate(pcs: seq<Pc>, t: nat, pc: Pc, w: Pc -> nat)
    requires t < |pcs|
    ensures Sum(pcs[t := pc], w) + w(pcs[t]) == Sum(pcs, w) + w(pc)
    decreases |pcs|
  {
    var m := |pcs| - 1;
    if t == m {
      assert pcs[t := pc][..m] == pcs[..m];
    } else {
      assert pcs[t := pc][..m] == pcs[..m][t := pc];
      SumUpdate(pcs[..m], t, pc, w);
    }
  }

  lemma {:induction false} SumIdle(k: nat, w: Pc -> nat)
    requires w(Idle) == 0
    ensures Sum(seq(k, i => Idle), w) == 0
  {
    if k > 0 {
      assert seq<Pc>(k, i => Idle)[..k - 1] == seq<Pc>(k - 1, i => Idle);
      SumIdle(k - 1, w);
    }
  }

  /** A thread with a received frame in hand (for ever, if it died with it). */
  function Carrying(pc: Pc): nat {
    match pc
    case Counted(_) => 1
    case Relaying(_) => 1
    case Relayed => 1
    case Dead => 1
    case _ => 0
  }

  /** A thread whose queued frame is not in the statistics yet. */
  function Unbooked(pc: Pc): nat {
    match pc
    case Relayed => 1
    case Queued(_) => 1
    case _ => 0
  }

  function Failures(fates: seq<Fate>): nat {
    if fates == [] then 0 else Failures(fates[..|fates| - 1]) + if fates[|fates| - 1] == WriteFailed then 1 else 0
  }

  lemma FailuresSnoc(fates: seq<Fate>, x: Fate)
    ensures Failures(fates + [x]) == Failures(fates) + if x == WriteFailed then 1 else 0
  {
    assert (fates + [x])[..|fates|] == fates;
  }

  function Held(h: Option<seq<byte>>): seq<seq<byte>> { if h.Some? then [h.value] else [] }

  /** Received frames: delivered, forwarded, dropped at the hop limit, or in some thread's hands. */
  predicate InputKept(s: State) {
    && s.node.stats.framesRx == |s.delivered| + s.node.stats.forwarded + s.expired + Sum(s.pcs, Carrying)
    && |s.delivered| == s.handed + |s.node.rx| && s.node.rx == s.delivered[s.handed..]
  }

  /** Queued frames leave in order: each is written, dropped, discarded, being written, or still queued. */
  predicate OutputKept(s: State) {
    && |s.fates| <= |s.puts| && s.puts[|s.fates|..] == Held(s.holding) + s.node.tx
    && |s.puts| == s.node.stats.framesTx + s.node.stats.forwarded + Sum(s.pcs, Unbooked)
    && s.node.stats.dropped == s.expired + Failures(s.fates)
  }

  /** What one thread step does to the two balances, with the thread's own share. */
  lemma StepBalance(s: State, l: Label, pc: Pc)
    ensures var (s', pc') := ThreadStep(s, l, pc);
            var a, b := s.node.stats, s'.node.stats;
            && b.framesRx - a.framesRx
               == |s'.delivered| - |s.delivered| + b.forwarded - a.forwarded + s'.expired - s.expired
                  + Carrying(pc') - Carrying(pc)
            && |s'.puts| - |s.puts|
               == b.framesTx - a.framesTx + b.forwarded - a.forwarded + Unbooked(pc') - Unbooked(pc)
            && b.dropped - a.dropped == s'.expired - s.expired
  {}

  /** A thread step appends what it delivers and what it queues at the ends, and touches nothing else of the node. */
  lemma StepFrame(s: State, l: Label, pc: Pc)
    ensures var (s', _) := ThreadStep(s, l, pc);
            && s'.handed == s.handed && s'.fates == s.fates && s'.holding == s.holding && s'.hasHost == s.hasHost
            && ((s'.node.rx == s.node.rx && s'.delivered == s.delivered)
                || exists f :: s'.node.rx == s.node.rx + [f] && s'.delivered == s.delivered + [f])
            && ((s'.node.tx == s.node.tx && s'.puts == s.puts)
                || exists raw :: s'.node.tx == s.node.tx + [raw] && s'.puts == s.puts + [raw])
  {}

  predicate IsThreadStep(s: State, l: Label) {
    !l.Take? && !l.Finish? && !l.Recv? && l.t < |s.pcs|
  }

  /** The state after a thread step, field by field. */
  lemma DoThread(s: State, l: Label)
    requires IsThreadStep(s, l)
    ensures var (s', pc) := ThreadStep(s, l, s.pcs[l.t]);
            Do(s, l) == s'.(pcs := s.pcs[l.t := pc])
  {}

  lemma ThreadInput(s: State, l: Label)
    requires IsThreadStep(s, l) && InputKept(s)
    ensures InputKept(Do(s, l))
  {
    var (s', pc) := ThreadStep(s, l, s.pcs[l.t]);
    DoThread(s, l);
    SumUpdate(s.pcs, l.t, pc, Carrying);
    StepBalance(s, l, s.pcs[l.t]);
    StepFrame(s, l, s.pcs[l.t]);
    assert s'.node.rx == s'.delivered[s'.handed..];
  }

  lemma ThreadOutput(s: State, l: Label)
    requires IsThreadStep(s, l) && OutputKept(s)
    ensures OutputKept(Do(s, l))
  {
    var (s', pc) := ThreadStep(s, l, s.pcs[l.t]);
    DoThread(s, l);
    SumUpdate(s.pcs, l.t, pc, Unbooked);
    StepBalance(s, l, s.pcs[l.t]);
    StepFrame(s, l, s.pcs[l.t]);
    assert s'.puts[|s'.fates|..] == Held(s'.holding) + s'.node.tx;
  }

  lemma TakeKeeps(s: State)
    requires InputKept(s) && OutputKept(s)
    ensures InputKept(Do(s, Take)) && OutputKept(Do(s, Take))
  {
    if s.holding == None && s.node.tx != [] {
      assert s.node.tx == [s.node.tx[0]] + s.node.tx[1..];
      assert s.puts[|s.fates|..] == Held(Some(s.node.tx[0])) + s.node.tx[1..];
    }
  }

  lemma FinishKeeps(s: State, fails: bool)
    requires InputKept(s) && OutputKept(s)
    ensures InputKept(Do(s, Finish(fails))) && OutputKept(Do(s, Finish(fails)))
  {
    if s.holding != None {
      var u := Do(s, Finish(fails));
      FailuresSnoc(s.fates, u.fates[|s.fates|]);
      assert s.puts[|s.fates|..][1..] == s.node.tx;
      assert u.puts[|u.fates|..] == s.puts[|s.fates|..][1..];
      assert Held(u.holding) + u.node.tx == s.node.tx;
    }
  }

  lemma RecvKeeps(s: State)
    requires InputKept(s) && OutputKept(s)
    ensures InputKept(Do(s, Recv)) && OutputKept(Do(s, Recv))
  {
    if s.node.rx != [] {
      assert s.delivered[s.handed + 1..] == s.delivered[s.handed..][1..];
    }
  }

  lemma StepKeeps(s: State, l: Label)
    requires InputKept(s) && OutputKept(s)
    ensures InputKept(Do(s, l)) && OutputKept(Do(s, l))
  {
    if IsThreadStep(s, l) {
      ThreadInput(s, l);
      ThreadOutput(s, l);
    } else {
      match l
      case Take => TakeKeeps(s);
      case Finish(fails) => FinishKeeps(s, fails);
      case Recv => RecvKeeps(s);
      case _ =>
    }
  }

  /**
   * Conservation, in every reachable state of any number of threads: frames_rx is what was delivered, forwarded or
   * dropped at the hop limit, plus what threads still hold; everything queued leaves in order and is written, dropped,
   * discarded for want of a device, being written or still queued; frames_tx and forwarded count the queued frames,
   * trailing by the threads that have not booked theirs; dropped is hop-limit drops plus failed writes.
   */
  lemma {:induction false} Conservation(id: NodeId, host: bool, threads: nat, ls: seq<Label>)
    ensures var s := End(Start(id, host, threads), ls); InputKept(s) && OutputKept(s)
  {
    var s0 := Start(id, host, threads);
    if ls == [] {
      SumIdle(threads, Carrying);
      SumIdle(threads, Unbooked);
    } else {
      var s, l := End(s0, ls[..|ls| - 1]), ls[|ls| - 1];
      Conservation(id, host, threads, ls[..|ls| - 1]);
      StepKeeps(s, l);
    }
  }

  /** With every thread idle and nothing being written the counters balance exactly. */
  lemma AtRest(id: NodeId, host: bool, threads: nat, ls: seq<Label>)
    requires var s := End(Start(id, host, threads), ls);
             s.holding == None && forall t :: 0 <= t < |s.pcs| ==> s.pcs[t] == Idle
    ensures var s := End(Start(id, host, threads), ls);
            var st := s.node.stats;
            && st.framesRx == |s.delivered| + st.forwarded + s.expired
            && st.framesTx + st.forwarded == |s.fates| + |s.node.tx|
            && st.dropped == s.expired + Failures(s.fates)
  {
    var s := End(Start(id, host, threads), ls);
    Conservation(id, host, threads, ls);
    assert s.pcs == seq(|s.pcs|, i => Idle);
    SumIdle(|s.pcs|, Carrying);
    SumIdle(|s.pcs|, Unbooked);
  }

  // ---- an uninterrupted thread does what the method does ----

  /** From the routing decision on: deliver, drop, or forward. */
  lemma RouteAlone(s: State, t: nat, f: Frame)
    requires t < |s.pcs| && s.pcs[t] == Counted(f)
    ensures Do(Do(Do(s, Route(t)), Put(t)), Book(t)).node
         == if Judge(s.node.id, f) == Local then s.node.(rx := s.node.rx + [f]) else Passed(s.node, f)
  {
    var s1 := Do(s, Route(t));
    match Judge(s.node.id, f)
    case Local => assert s1.pcs[t] == Idle;
    case OutOfHops => assert s1.pcs[t] == Idle;
    case Relay =>
      if Encodable(Forwarded(f, s.node.nextNum)) {
        assert s1.pcs[t] == Relaying(Encode(Forwarded(f, s.node.nextNum)));
        assert Do(s1, Put(t)).pcs[t] == Relayed;
      } else {
        assert s1.pcs[t] == Dead;
      }
  }

  lemma ReadAlone(s: State, t: nat, data: seq<byte>, f: Frame)
    requires t < |s.pcs| && s.pcs[t] == Idle && Unpack(data) == Ok(f)
    ensures var u := Do(s, Read(t, data));
            && |u.pcs| == |s.pcs| && u.pcs[t] == Counted(f)
            && Received(s.node, data)
               == (if Judge(s.node.id, f) == Local then u.node.(rx := s.node.rx + [f]) else Passed(u.node, f))
            && u.node.rx == s.node.rx && u.node.id == s.node.id
  {}

  lemma ReadNothing(s: State, t: nat, data: seq<byte>)
    requires t < |s.pcs| && s.pcs[t] == Idle && Unpack(data).Err?
    ensures Do(s, Read(t, data)) == Do(s, Route(t)) == Do(s, Put(t)) == Do(s, Book(t)) == s
    ensures Received(s.node, data) == s.node
  {}

  /** One thread reading one frame with nobody in between is `UDFNode.ReceiveOne`. */
  lemma Uninterrupted(s: State, t: nat, data: seq<byte>)
    requires t < |s.pcs| && s.pcs[t] == Idle
    ensures Do(Do(Do(Do(s, Read(t, data)), Route(t)), Put(t)), Book(t)).node == Received(s.node, data)
  {
    if Unpack(data).Ok? {
      ReadAlone(s, t, data, Unpack(data).value);
      RouteAlone(Do(s, Read(t, data)), t, Unpack(data).value);
    } else {
      ReadNothing(s, t, data);
    }
  }

  /** Likewise for `UDFNode.Send`. */
  lemma UninterruptedSend(s: State, t: nat, dst: NodeId, payload: seq<byte>)
    requires t < |s.pcs| && s.pcs[t] == Idle
    ensures Do(Do(Do(s, Send(t, dst, payload)), Put(t)), Book(t)).node == Sent(s.node, dst, payload)
  {}
}
