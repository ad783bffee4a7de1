/** The PC side: UDFHost of src/host/udf_host.py. A thread iteration is one method; libusb's answers are parameters. */
module Host {
  import opened Base
  import opened Frames
  import opened Accounting
  import opened Ring
  import Sequencing

  /** What one bulk transfer answers. */
  datatype WriteResult = Sent(transferred: nat) | WriteTimeout | WriteError
  datatype ReadResult = Got(data: seq<byte>) | ReadTimeout | ReadError

  /** The legacy tuple, without the hop count. */
  datatype Item = Item(flags: byte, num: nat, src: NodeId, dst: NodeId, payload: seq<byte>)

  function ItemOf(f: Frame): Item { Item(f.flags, f.num, f.src, f.dst, f.payload) }

  /** flags & FLAG_HB */
  predicate IsBeat(flags: byte) { flags / 16 % 2 == 1 }

  /** A thread whose packing raised is dead; the others go on. */
  datatype HostState = HostState(
    id: NodeId, tx: seq<seq<byte>>, rx: seq<Item>, next: nat, txAlive: bool, hbAlive: bool,
    txFrames: nat, txBytes: nat, rxFrames: nat, rxBytes: nat, rxHb: nat, crcErrors: nat, timeouts: nat)

  datatype Event =
    | Send(payload: seq<byte>)
    | TxStep(w: WriteResult)
    | HbStep(w: WriteResult)
    | RxStep(r: ReadResult)

  function Fresh(id: NodeId): HostState {
    HostState(id, [], [], 0, true, true, 0, 0, 0, 0, 0, 0, 0)
  }

  function DataFrame(s: HostState): Frame
    requires s.tx != []
  {
    Frame(0, 0, s.next, s.id, BROADCAST, s.tx[0])
  }

  function BeatFrame(s: HostState): Frame { Frame(FLAG_HB, 0, s.next, s.id, 0, []) }

  function Written(s: HostState, w: WriteResult): HostState {
    match w
    case Sent(n) => s.(txFrames := s.txFrames + 1, txBytes := s.txBytes + n)
    case WriteTimeout => s.(timeouts := s.timeouts + 1)
    case WriteError => s
  }

  function Classified(s: HostState, f: Frame, size: nat): HostState {
    var s' := s.(rxFrames := s.rxFrames + 1, rxBytes := s.rxBytes + size);
    if IsBeat(f.flags) then s'.(rxHb := s.rxHb + 1) else s'.(rx := s.rx + [ItemOf(f)])
  }

  function Heard(s: HostState, r: ReadResult): HostState {
    match r
    case ReadTimeout => s.(timeouts := s.timeouts + 1)
    case ReadError => s
    case Got(data) =>
      match Unpack(data)
      case Err(_) => s.(crcErrors := s.crcErrors + 1)
      case Ok(f) => Classified(s, f, |data|)
  }

  function After(s: HostState, e: Event): HostState {
    match e
    case Send(payload) => s.(tx := s.tx + [payload])
    case TxStep(w) =>
      if !s.txAlive || s.tx == [] then s
      else
        var s' := s.(tx := s.tx[1..], next := s.next + 1);
        if Encodable(DataFrame(s)) then Written(s', w) else s'.(txAlive := false)
    case HbStep(w) =>
      if !s.hbAlive then s
      else
        var s' := s.(next := s.next + 1);
        if Encodable(BeatFrame(s)) then Written(s', w) else s'.(hbAlive := false)
    case RxStep(r) => Heard(s, r)
  }

  /** The frame a step puts on the cable, if any. */
  function OnCable(s: HostState, e: Event): Option<Frame> {
    match e
    case TxStep(Sent(_)) =>
      if s.txAlive && s.tx != [] && Encodable(DataFrame(s)) then Some(DataFrame(s)) else None
    case HbStep(Sent(_)) =>
      if s.hbAlive && Encodable(BeatFrame(s)) then Some(BeatFrame(s)) else None
    case _ => None
  }

  function Octets(f: Option<Frame>): Option<seq<byte>> {
    if f.Some? then Some(Encode(f.value)) else None
  }

  // ---- one step, in terms of what the gadget will unpack ----

  /** The counters after a write: a whole one counts frame and octets, one that ran out of time only that. */
  predicate Counts(s: HostState, w: WriteResult, s': HostState) {
    match w
    case Sent(n) => s' == s.(txFrames := s.txFrames + 1, txBytes := s.txBytes + n)
    case WriteTimeout => s' == s.(timeouts := s.timeouts + 1)
    case WriteError => s' == s
  }

  lemma OctetsUnpack(f: Frame)
    requires Encodable(f)
    ensures Octets(Some(f)).Some? && Unpack(Octets(Some(f)).value) == Ok(f)
  {
    PackUnpack(f);
  }

  /** One pass of the TX loop on a live thread: the oldest payload goes out to everyone, or ends the thread. */
  lemma DataOctets(s: HostState, w: WriteResult)
    requires s.txAlive && s.tx != []
    ensures var s', out := After(s, TxStep(w)), Octets(OnCable(s, TxStep(w)));
            var u := s.(tx := s.tx[1..], next := s.next + 1);
            if s.next < 0x1_0000_0000 && |s.tx[0]| < 0x1_0000 then
              && Counts(u, w, s') && (out.Some? <==> w.Sent?)
              && (out.Some? ==> Unpack(out.value) == Ok(Frame(0, 0, s.next, s.id, 0xFF, s.tx[0])))
            else s' == u.(txAlive := false) && out == None
  {
    PackUnpack(DataFrame(s));
  }

  /** Likewise the heartbeat loop: an empty frame to node 0. */
  lemma BeatOctets(s: HostState, w: WriteResult)
    requires s.hbAlive
    ensures var s', out := After(s, HbStep(w)), Octets(OnCable(s, HbStep(w)));
            var u := s.(next := s.next + 1);
            if s.next < 0x1_0000_0000 then
              && Counts(u, w, s') && (out.Some? <==> w.Sent?)
              && (out.Some? ==> Unpack(out.value) == Ok(Frame(0x10, 0, s.next, s.id, 0, [])))
            else s' == u.(hbAlive := false) && out == None
  {
    PackUnpack(BeatFrame(s));
  }

  /** Nothing to send, or nobody left to send it. */
  lemma NothingSent(s: HostState, w: WriteResult)
    ensures !s.txAlive || s.tx == [] ==> After(s, TxStep(w)) == s && OnCable(s, TxStep(w)) == None
    ensures !s.hbAlive ==> After(s, HbStep(w)) == s && OnCable(s, HbStep(w)) == None
  {}

  /** One pass of the receive loop over any answer: bit 4 of the flags tells heartbeats from what is handed on. */
  lemma ReceivedOctets(s: HostState, r: ReadResult)
    ensures var s' := After(s, RxStep(r));
            match r
            case ReadTimeout => s' == s.(timeouts := s.timeouts + 1)
            case ReadError => s' == s
            case Got(data) =>
              match Unpack(data)
              case Err(_) => s' == s.(crcErrors := s.crcErrors + 1)
              case Ok(f) =>
                var u := s.(rxFrames := s.rxFrames + 1, rxBytes := s.rxBytes + |data|);
                if f.flags / 16 % 2 == 1 then s' == u.(rxHb := s.rxHb + 1)
                else s' == u.(rx := s.rx + [Item(f.flags, f.num, f.src, f.dst, f.payload)])
  {}

  class UDFHost {
    const nodeId: NodeId
    var txQueue: seq<seq<byte>>
    var rxQueue: seq<Item>
    var txSeq: nat
    var txAlive: bool
    var hbAlive: bool
    var txFrames: nat
    var txBytes: nat
    var rxFrames: nat
    var rxBytes: nat
    var rxHb: nat
    var crcErrors: nat
    var timeouts: nat

    constructor (id: NodeId)
      ensures View() == Fresh(id)
    {
      nodeId, txQueue, rxQueue, txSeq, txAlive, hbAlive := id, [], [], 0, true, true;
      txFrames, txBytes, rxFrames, rxBytes, rxHb, crcErrors, timeouts := 0, 0, 0, 0, 0, 0, 0;
    }

    function View(): HostState
      reads this
    {
      HostState(nodeId, txQueue, rxQueue, txSeq, txAlive, hbAlive,
                txFrames, txBytes, rxFrames, rxBytes, rxHb, crcErrors, timeouts)
    }

    method SendPayload(payload: seq<byte>)
      modifies this`txQueue
      ensures View() == After(old(View()), Send(payload))
    {
      txQueue := txQueue + [payload];
    }

    method NextNum() returns (n: nat)
      modifies this`txSeq
      ensures n == old(txSeq) && txSeq == n + 1
    {
      n := txSeq;
      txSeq := txSeq + 1;
    }

    method BulkWrite(w: WriteResult) returns (ok: bool)
      modifies this`txFrames, this`txBytes, this`timeouts
      ensures View() == Written(old(View()), w) && (ok <==> w.Sent?)
    {
      match w {
        case Sent(n) =>
          txFrames := txFrames + 1;
          txBytes := txBytes + n;
          return true;
        case WriteTimeout =>
          timeouts := timeouts + 1;
          return false;
        case WriteError =>
          return false;
      }
    }

    method BulkRead(r: ReadResult) returns (data: Option<seq<byte>>)
      modifies this`timeouts
      ensures data == if r.Got? then Some(r.data) else None
      ensures timeouts == old(timeouts) + if r.ReadTimeout? then 1 else 0
    {
      if r.Got? {
        return Some(r.data);
      }
      if r.ReadTimeout? {
        timeouts := timeouts + 1;
      }
      return None;
    }

    /** One iteration of the TX loop; the result is what went onto the cable. */
    method TxOne(w: WriteResult) returns (wire: Option<seq<byte>>)
      modifies this
      ensures View() == After(old(View()), TxStep(w))
      ensures wire == Octets(OnCable(old(View()), TxStep(w)))
      ensures wire.Some? ==>
                old(txQueue) != []
                && Unpack(wire.value) == Ok(Frame(0, 0, old(txSeq), nodeId, 0xFF, old(txQueue)[0]))
    {
      if !txAlive || txQueue == [] {
        return None;
      }
      var payload := txQueue[0];
      txQueue := txQueue[1..];
      var num := NextNum();
      var raw := Pack(Frame(0, 0, num, nodeId, BROADCAST, payload));
      if raw.Err? {
        txAlive := false;
        return None;
      }
      var ok := BulkWrite(w);
      wire := if ok then Some(raw.value) else None;
      OctetsUnpack(DataFrame(old(View())));
    }

    /** One iteration of the heartbeat loop. */
    method HbOne(w: WriteResult) returns (wire: Option<seq<byte>>)
      modifies this
      ensures View() == After(old(View()), HbStep(w))
      ensures wire == Octets(OnCable(old(View()), HbStep(w)))
      ensures wire.Some? ==> Unpack(wire.value) == Ok(Frame(0x10, 0, old(txSeq), nodeId, 0, []))
    {
      if !hbAlive {
        return None;
      }
      var num := NextNum();
      var raw := Pack(Frame(FLAG_HB, 0, num, nodeId, 0, []));
      if raw.Err? {
        hbAlive := false;
        return None;
      }
      var ok := BulkWrite(w);
      wire := if ok then Some(raw.value) else None;
      OctetsUnpack(BeatFrame(old(View())));
    }

    /** Heartbeats are counted, everything else is handed on. */
    method Classify(f: Frame, size: nat)
      modifies this`rxFrames, this`rxBytes, this`rxHb, this`rxQueue
      ensures View() == Classified(old(View()), f, size)
    {
      rxFrames := rxFrames + 1;
      rxBytes := rxBytes + size;
      if IsBeat(f.flags) {
        rxHb := rxHb + 1;
      } else {
        rxQueue := rxQueue + [ItemOf(f)];
      }
    }

    /** One iteration of the receive loop. */
    method RxOne(r: ReadResult)
      modifies this
      ensures View() == After(old(View()), RxStep(r))
    {
      var data := BulkRead(r);
      if data == None {
        return;
      }
      var f := Unpack(data.value);
      if f.Err? {
        crcErrors := crcErrors + 1;
        return;
      }
      Classify(f.value, |data.value|);
    }
  }

  // ---- whole runs, thread by thread ----

  /**
   * The daemon between steps, with its history. The lock covers only the taking of a number: `data` and `beat` hold
   * the frame the TX and the heartbeat thread have numbered and packed but not yet written. `asked` lists the frames
   * that took a number; `failed` those that could not be packed or written; `wire` those on the cable, and `over` what
   * each of them overtook; `sends` the payloads handed to send, `popped` those taken from the queue; `heard` the intact
   * frames read.
   */
  datatype Trace = Trace(
    s: HostState, data: Option<Frame>, beat: Option<Frame>, asked: seq<Frame>, failed: seq<Frame>,
    wire: seq<Frame>, over: seq<set<nat>>, sends: seq<seq<byte>>, popped: seq<seq<byte>>, heard: seq<Frame>)

  datatype Label =
    | Give(payload: seq<byte>)
    | TakeData
    | WriteData(w: WriteResult)
    | TakeBeat
    | WriteBeat(w: WriteResult)
    | Read(r: ReadResult)

  function Num(slot: Option<Frame>): Option<nat> { if slot.Some? then Some(slot.value.num) else None }

  function Slots(t: Trace): seq<Option<nat>> { [Num(t.data), Num(t.beat)] }

  /** The write of a pending frame: it reaches the cable or it does not. */
  function Landed(t: Trace, f: Frame, w: WriteResult): Trace {
    var u := t.(s := Written(t.s, w));
    if w.Sent? then u.(wire := t.wire + [f], over := t.over + [Sequencing.Smaller(Slots(t), f.num)])
    else u.(failed := t.failed + [f])
  }

  function TakingData(t: Trace): Trace
    requires t.s.tx != []
  {
    var f := DataFrame(t.s);
    var u := t.(asked := t.asked + [f], popped := t.popped + [t.s.tx[0]]);
    var s := t.s.(tx := t.s.tx[1..], next := t.s.next + 1);
    if Encodable(f) then u.(s := s, data := Some(f)) else u.(s := s.(txAlive := false), failed := t.failed + [f])
  }

  function TakingBeat(t: Trace): Trace {
    var f := BeatFrame(t.s);
    var u := t.(asked := t.asked + [f]);
    var s := t.s.(next := t.s.next + 1);
    if Encodable(f) then u.(s := s, beat := Some(f)) else u.(s := s.(hbAlive := false), failed := t.failed + [f])
  }

  function Do(t: Trace, l: Label): Trace {
    match l
    case Give(payload) => t.(s := t.s.(tx := t.s.tx + [payload]), sends := t.sends + [payload])
    case TakeData => if t.s.txAlive && t.data == None && t.s.tx != [] then TakingData(t) else t
    case WriteData(w) => if t.data.Some? then Landed(t, t.data.value, w).(data := None) else t
    case TakeBeat => if t.s.hbAlive && t.beat == None then TakingBeat(t) else t
    case WriteBeat(w) => if t.beat.Some? then Landed(t, t.beat.value, w).(beat := None) else t
    case Read(r) =>
      t.(s := Heard(t.s, r),
         heard := if r.Got? && Unpack(r.data).Ok? then t.heard + [Unpack(r.data).value] else t.heard)
  }

  function Start(id: NodeId): Trace { Trace(Fresh(id), None, None, [], [], [], [], [], [], []) }

  function Run(id: NodeId, ls: seq<Label>): Trace {
    if ls == [] then Start(id) else Do(Run(id, ls[..|ls| - 1]), ls[|ls| - 1])
  }

  // A thread nobody disturbs does what the method does.

  lemma UndisturbedData(t: Trace, w: WriteResult)
    requires t.data == None
    ensures var u := Do(Do(t, TakeData), WriteData(w));
            && u.s == After(t.s, TxStep(w))
            && u.wire == match OnCable(t.s, TxStep(w)) case None => t.wire case Some(f) => t.wire + [f]
  {}

  lemma UndisturbedBeat(t: Trace, w: WriteResult)
    requires t.beat == None
    ensures var u := Do(Do(t, TakeBeat), WriteBeat(w));
            && u.s == After(t.s, HbStep(w))
            && u.wire == match OnCable(t.s, HbStep(w)) case None => t.wire case Some(f) => t.wire + [f]
  {}

  // ---- payloads and reads ----

  /** The frames that are not heartbeats, as the tuples handed to the application. */
  function Items(fs: seq<Frame>): (items: seq<Item>)
    ensures |items| <= |fs|
  {
    if fs == [] then []
    else
      var last := fs[|fs| - 1];
      Items(fs[..|fs| - 1]) + if IsBeat(last.flags) then [] else [ItemOf(last)]
  }

  predicate Short(payloads: seq<seq<byte>>) {
    forall p <- payloads :: |p| < 0x1_0000
  }

  predicate Fifo(t: Trace) { t.popped + t.s.tx == t.sends }

  predicate Alive(t: Trace) {
    t.s.next <= WRAP ==> t.s.hbAlive && (t.s.txAlive <==> Short(t.popped))
  }

  predicate Input(t: Trace) {
    t.s.rx == Items(t.heard) && t.s.rxFrames == |t.heard| == t.s.rxHb + |t.s.rx|
  }

  lemma FifoStep(t: Trace, l: Label)
    requires Fifo(t)
    ensures Fifo(Do(t, l))
  {
    if l.TakeData? && t.s.tx != [] {
      assert (t.popped + [t.s.tx[0]]) + t.s.tx[1..] == t.popped + t.s.tx;
    } else if l.Give? {
      assert t.popped + (t.s.tx + [l.payload]) == (t.popped + t.s.tx) + [l.payload];
    }
  }

  lemma ShortSnoc(payloads: seq<seq<byte>>, p: seq<byte>)
    ensures Short(payloads + [p]) <==> Short(payloads) && |p| < 0x1_0000
  {
    assert forall q :: q in payloads + [p] <==> q in payloads || q == p;
  }

  lemma AliveStep(t: Trace, l: Label)
    requires Alive(t)
    ensures Alive(Do(t, l))
  {
    if l.TakeData? && t.s.tx != [] {
      ShortSnoc(t.popped, t.s.tx[0]);
    }
  }

  lemma InputStep(t: Trace, l: Label)
    requires Input(t)
    ensures Input(Do(t, l))
  {
    var u := Do(t, l);
    if u.heard != t.heard {
      assert u.heard[..|t.heard|] == t.heard;
    }
  }

  // ---- the order of frames of one thread ----

  /** Frames of one kind stand on the cable in increasing order, all below the next one of that kind. */
  predicate KindOrdered(wire: seq<Frame>, beat: bool, bound: nat) {
    && (forall i, j ::
          0 <= i < j < |wire| && IsBeat(wire[i].flags) == IsBeat(wire[j].flags) == beat
          ==> wire[i].num < wire[j].num)
    && (forall i :: 0 <= i < |wire| && IsBeat(wire[i].flags) == beat ==> wire[i].num < bound)
  }

  function Bound(slot: Option<Frame>, next: nat): nat { if slot.Some? then slot.value.num else next }

  predicate KindOk(wire: seq<Frame>, beat: bool, slot: Option<Frame>, next: nat) {
    && (slot.Some? ==> Encodable(slot.value) && IsBeat(slot.value.flags) == beat && slot.value.num < next)
    && KindOrdered(wire, beat, Bound(slot, next))
  }

  predicate Ordered(t: Trace) {
    KindOk(t.wire, false, t.data, t.s.next) && KindOk(t.wire, true, t.beat, t.s.next)
  }

  /** Whatever is on the cable unpacks. */
  predicate Packable(wire: seq<Frame>) { forall i :: 0 <= i < |wire| ==> Encodable(wire[i]) }

  lemma KindOther(wire: seq<Frame>, f: Frame, beat: bool, slot: Option<Frame>, next: nat)
    requires KindOk(wire, beat, slot, next) && IsBeat(f.flags) != beat
    ensures KindOk(wire + [f], beat, slot, next)
  {}

  lemma KindSame(wire: seq<Frame>, f: Frame, beat: bool, next: nat)
    requires KindOk(wire, beat, Some(f), next)
    ensures KindOk(wire + [f], beat, None, next)
  {}

  lemma KindFailed(wire: seq<Frame>, f: Frame, beat: bool, next: nat)
    requires KindOk(wire, beat, Some(f), next)
    ensures KindOk(wire, beat, None, next)
  {}

  lemma KindLater(wire: seq<Frame>, beat: bool, slot: Option<Frame>, next: nat)
    requires KindOk(wire, beat, slot, next)
    ensures KindOk(wire, beat, slot, next + 1)
  {}

  lemma KindTaken(wire: seq<Frame>, beat: bool, f: Frame, next: nat)
    requires KindOk(wire, beat, None, next) && Encodable(f) && IsBeat(f.flags) == beat && f.num == next
    ensures KindOk(wire, beat, Some(f), next + 1)
  {}

  lemma WriteOrdered(t: Trace, w: WriteResult)
    requires Ordered(t)
    ensures Ordered(Do(t, WriteData(w))) && Ordered(Do(t, WriteBeat(w)))
  {
    if t.data.Some? {
      var f := t.data.value;
      KindSame(t.wire, f, false, t.s.next);
      KindFailed(t.wire, f, false, t.s.next);
      KindOther(t.wire, f, true, t.beat, t.s.next);
    }
    if t.beat.Some? {
      var f := t.beat.value;
      KindSame(t.wire, f, true, t.s.next);
      KindFailed(t.wire, f, true, t.s.next);
      KindOther(t.wire, f, false, t.data, t.s.next);
    }
  }

  lemma TakeDataOrdered(t: Trace)
    requires Ordered(t)
    ensures Ordered(Do(t, TakeData))
  {
    if t.s.txAlive && t.data == None && t.s.tx != [] {
      KindLater(t.wire, true, t.beat, t.s.next);
      KindLater(t.wire, false, None, t.s.next);
      if Encodable(DataFrame(t.s)) {
        KindTaken(t.wire, false, DataFrame(t.s), t.s.next);
      }
    }
  }

  lemma TakeBeatOrdered(t: Trace)
    requires Ordered(t)
    ensures Ordered(Do(t, TakeBeat))
  {
    if t.s.hbAlive && t.beat == None {
      KindLater(t.wire, false, t.data, t.s.next);
      KindLater(t.wire, true, None, t.s.next);
      if Encodable(BeatFrame(t.s)) {
        KindTaken(t.wire, true, BeatFrame(t.s), t.s.next);
      }
    }
  }

  lemma OrderedStep(t: Trace, l: Label)
    requires Ordered(t)
    ensures Ordered(Do(t, l))
  {
    match l
    case WriteData(w) => WriteOrdered(t, w);
    case WriteBeat(w) => WriteOrdered(t, w);
    case TakeData => TakeDataOrdered(t);
    case TakeBeat => TakeBeatOrdered(t);
    case _ =>
  }

  lemma PackableStep(t: Trace, l: Label)
    requires Ordered(t) && Packable(t.wire)
    ensures Packable(Do(t, l).wire)
  {}

  // ---- what the frames carry ----

  /** The payloads of the frames that are not heartbeats. */
  function Payloads(fs: seq<Frame>): (ps: seq<seq<byte>>)
    ensures |ps| <= |fs|
  {
    if fs == [] then []
    else
      var f := fs[|fs| - 1];
      Payloads(fs[..|fs| - 1]) + if f.flags / 16 % 2 == 1 then [] else [f.payload]
  }

  /** A data frame to everyone or an empty heartbeat to node 0, both from this node. */
  predicate IsOwn(id: NodeId, f: Frame) {
    f.src == id && f.hop == 0 && ((f.flags == 0 && f.dst == 0xFF) || (f.flags == 0x10 && f.dst == 0 && f.payload == []))
  }

  /** The payloads taken from the queue are those of the data frames, in order; nothing else takes a number. */
  predicate Carried(id: NodeId, asked: seq<Frame>, popped: seq<seq<byte>>) {
    Payloads(asked) == popped && forall f <- asked :: IsOwn(id, f)
  }

  /** Nothing is on the cable, lost or pending that did not take a number. */
  predicate Placed(t: Trace) {
    && (forall f <- t.wire :: f in t.asked) && (forall f <- t.failed :: f in t.asked)
    && (t.data.Some? ==> t.data.value in t.asked) && (t.beat.Some? ==> t.beat.value in t.asked)
  }

  /**
   * With `hand` the payload numbered but not yet written, if any: each payload taken from the queue is on the cable,
   * lost or in hand, and with none lost those on the cable are the payloads taken, in that order.
   */
  predicate Delivers(popped: seq<seq<byte>>, wire: seq<Frame>, failed: seq<Frame>, hand: seq<seq<byte>>) {
    && |popped| == |Payloads(wire)| + |Payloads(failed)| + |hand|
    && (Payloads(failed) == [] ==> popped == Payloads(wire) + hand)
  }

  function InHand(data: Option<Frame>): seq<seq<byte>> { if data.Some? then [data.value.payload] else [] }

  /** The TX thread holds data, the heartbeat thread a heartbeat. */
  predicate SlotKinds(t: Trace) {
    && (t.data.Some? ==> t.data.value.flags / 16 % 2 == 0)
    && (t.beat.Some? ==> t.beat.value.flags / 16 % 2 == 1)
  }

  lemma PayloadsSnoc(fs: seq<Frame>, f: Frame)
    ensures Payloads(fs + [f]) == Payloads(fs) + if f.flags / 16 % 2 == 1 then [] else [f.payload]
  {
    assert (fs + [f])[..|fs|] == fs;
  }

  lemma CarriedSnoc(id: NodeId, asked: seq<Frame>, popped: seq<seq<byte>>, f: Frame)
    requires Carried(id, asked, popped) && IsOwn(id, f)
    ensures Carried(id, asked + [f], popped + if f.flags == 0 then [f.payload] else [])
  {
    PayloadsSnoc(asked, f);
  }

  lemma CarriedTake(t: Trace)
    requires Carried(t.s.id, t.asked, t.popped)
    ensures Carried(t.s.id, Do(t, TakeData).asked, Do(t, TakeData).popped)
    ensures Carried(t.s.id, Do(t, TakeBeat).asked, Do(t, TakeBeat).popped)
  {
    if t.s.tx != [] {
      CarriedSnoc(t.s.id, t.asked, t.popped, DataFrame(t.s));
    }
    CarriedSnoc(t.s.id, t.asked, t.popped, BeatFrame(t.s));
    assert t.popped + [] == t.popped;
  }

  lemma CarriedStep(t: Trace, l: Label)
    requires Carried(t.s.id, t.asked, t.popped)
    ensures var u := Do(t, l);
            u.s.id == t.s.id && Carried(u.s.id, u.asked, u.popped)
  {
    if l.TakeData? || l.TakeBeat? {
      CarriedTake(t);
    } else {
      assert Do(t, l).asked == t.asked && Do(t, l).popped == t.popped;
    }
  }

  lemma PlacedStep(t: Trace, l: Label)
    requires Placed(t)
    ensures Placed(Do(t, l))
  {}

  lemma DeliversData(popped: seq<seq<byte>>, wire: seq<Frame>, failed: seq<Frame>, f: Frame)
    requires Delivers(popped, wire, failed, [f.payload]) && f.flags / 16 % 2 == 0
    ensures Delivers(popped, wire + [f], failed, []) && Delivers(popped, wire, failed + [f], [])
  {
    PayloadsSnoc(wire, f);
    PayloadsSnoc(failed, f);
  }

  lemma DeliversBeat(popped: seq<seq<byte>>, wire: seq<Frame>, failed: seq<Frame>, hand: seq<seq<byte>>, f: Frame)
    requires Delivers(popped, wire, failed, hand) && f.flags / 16 % 2 == 1
    ensures Delivers(popped, wire + [f], failed, hand) && Delivers(popped, wire, failed + [f], hand)
  {
    PayloadsSnoc(wire, f);
    PayloadsSnoc(failed, f);
  }

  lemma DeliversTaken(popped: seq<seq<byte>>, wire: seq<Frame>, failed: seq<Frame>, f: Frame)
    requires Delivers(popped, wire, failed, []) && f.flags / 16 % 2 == 0
    ensures Delivers(popped + [f.payload], wire, failed, [f.payload])
    ensures Delivers(popped + [f.payload], wire, failed + [f], [])
  {
    PayloadsSnoc(failed, f);
  }

  predicate DeliversIn(t: Trace) { SlotKinds(t) && Delivers(t.popped, t.wire, t.failed, InHand(t.data)) }

  lemma WriteDataDelivers(t: Trace, w: WriteResult)
    requires DeliversIn(t)
    ensures DeliversIn(Do(t, WriteData(w)))
  {
    if t.data.Some? {
      DeliversData(t.popped, t.wire, t.failed, t.data.value);
    }
  }

  lemma WriteBeatDelivers(t: Trace, w: WriteResult)
    requires DeliversIn(t)
    ensures DeliversIn(Do(t, WriteBeat(w)))
  {
    if t.beat.Some? {
      DeliversBeat(t.popped, t.wire, t.failed, InHand(t.data), t.beat.value);
    }
  }

  lemma TakeDataDelivers(t: Trace)
    requires DeliversIn(t)
    ensures DeliversIn(Do(t, TakeData))
  {
    if t.s.txAlive && t.data == None && t.s.tx != [] {
      DeliversTaken(t.popped, t.wire, t.failed, DataFrame(t.s));
    }
  }

  lemma TakeBeatDelivers(t: Trace)
    requires DeliversIn(t)
    ensures DeliversIn(Do(t, TakeBeat))
  {
    DeliversBeat(t.popped, t.wire, t.failed, InHand(t.data), BeatFrame(t.s));
  }

  lemma DeliversStep(t: Trace, l: Label)
    requires DeliversIn(t)
    ensures DeliversIn(Do(t, l))
  {
    match l
    case WriteData(w) => WriteDataDelivers(t, w);
    case WriteBeat(w) => WriteBeatDelivers(t, w);
    case TakeData => TakeDataDelivers(t);
    case TakeBeat => TakeBeatDelivers(t);
    case _ =>
  }

  lemma {:induction false} Origins(id: NodeId, ls: seq<Label>)
    ensures var t := Run(id, ls);
            t.s.id == id && Carried(id, t.asked, t.popped) && Placed(t) && DeliversIn(t)
  {
    if ls != [] {
      Origins(id, ls[..|ls| - 1]);
      var t, l := Run(id, ls[..|ls| - 1]), ls[|ls| - 1];
      CarriedStep(t, l);
      PlacedStep(t, l);
      DeliversStep(t, l);
    }
  }

  lemma {:induction false} Queues(id: NodeId, ls: seq<Label>)
    ensures var t := Run(id, ls);
            Fifo(t) && Alive(t) && Input(t)
  {
    if ls != [] {
      Queues(id, ls[..|ls| - 1]);
      var t, l := Run(id, ls[..|ls| - 1]), ls[|ls| - 1];
      FifoStep(t, l);
      AliveStep(t, l);
      InputStep(t, l);
    }
  }

  lemma {:induction false} Cable(id: NodeId, ls: seq<Label>)
    ensures Ordered(Run(id, ls)) && Packable(Run(id, ls).wire)
  {
    if ls != [] {
      Cable(id, ls[..|ls| - 1]);
      OrderedStep(Run(id, ls[..|ls| - 1]), ls[|ls| - 1]);
      PackableStep(Run(id, ls[..|ls| - 1]), ls[|ls| - 1]);
    }
  }

  /**
   * In every interleaving of the threads: payloads leave the queue in the order they were sent, none twice; data
   * frames keep that order on the cable, and heartbeats theirs; data transmission stops for good exactly when a
   * payload of 65536 octets or more was dequeued, while heartbeats go on (below 2^32 numbers); every intact frame
   * read is either counted as a heartbeat or handed on in order. The frames numbered are heartbeats and data frames of
   * this node, the latter carrying exactly the payloads taken from the queue; and but for failed writes and the one in
   * hand these are the payloads on the cable.
   */
  lemma EveryRun(id: NodeId, ls: seq<Label>)
    ensures var t := Run(id, ls);
            && Fifo(t) && Ordered(t) && Packable(t.wire) && Alive(t) && Input(t)
            && Carried(id, t.asked, t.popped) && Placed(t) && Delivers(t.popped, t.wire, t.failed, InHand(t.data))
  {
    Queues(id, ls);
    Cable(id, ls);
    Origins(id, ls);
  }

  // ---- the numbers, as a chain ----

  /** The transmit side is two threads sharing a counter that does not wrap. */
  function ChainOf(t: Trace): Sequencing.Chain {
    Sequencing.Chain(t.s.next, Nums(t.asked), Slots(t), Nums(t.wire), Nums(t.failed), 0, t.over)
  }

  const DATA: nat := 0
  const BEAT: nat := 1

  /** What a step of the host is to the chain. */
  function Steps(t: Trace, l: Label): seq<Sequencing.Label> {
    match l
    case TakeData =>
      if !t.s.txAlive || t.data != None || t.s.tx == [] then []
      else if Encodable(DataFrame(t.s)) then [Sequencing.Alloc(DATA)]
      else [Sequencing.Alloc(DATA), Sequencing.Fail(DATA)]
    case TakeBeat =>
      if !t.s.hbAlive || t.beat != None then []
      else if Encodable(BeatFrame(t.s)) then [Sequencing.Alloc(BEAT)]
      else [Sequencing.Alloc(BEAT), Sequencing.Fail(BEAT)]
    case WriteData(w) =>
      if t.data == None then [] else if w.Sent? then [Sequencing.Append(DATA)] else [Sequencing.Fail(DATA)]
    case WriteBeat(w) =>
      if t.beat == None then [] else if w.Sent? then [Sequencing.Append(BEAT)] else [Sequencing.Fail(BEAT)]
    case _ => []
  }

  function DoAll(c: Sequencing.Chain, steps: seq<Sequencing.Label>): Sequencing.Chain
    requires |steps| <= 2
  {
    if steps == [] then c
    else if |steps| == 1 then Sequencing.Do(false, c, steps[0])
    else Sequencing.Do(false, Sequencing.Do(false, c, steps[0]), steps[1])
  }

  lemma NumsSnoc(fs: seq<Frame>, f: Frame)
    ensures Nums(fs + [f]) == Nums(fs) + [f.num]
  {}

  lemma TakeChain(t: Trace, l: Label)
    requires l.TakeData? || l.TakeBeat?
    ensures ChainOf(Do(t, l)) == DoAll(ChainOf(t), Steps(t, l))
  {
    if Steps(t, l) != [] {
      var f := if l.TakeData? then DataFrame(t.s) else BeatFrame(t.s);
      NumsSnoc(t.asked, f);
      NumsSnoc(t.failed, f);
      var c := Sequencing.Do(false, ChainOf(t), Steps(t, l)[0]);
      assert c.pending == if l.TakeData? then [Some(t.s.next), Num(t.beat)] else [Num(t.data), Some(t.s.next)];
    }
  }

  lemma WriteChain(t: Trace, l: Label)
    requires l.WriteData? || l.WriteBeat?
    ensures ChainOf(Do(t, l)) == DoAll(ChainOf(t), Steps(t, l))
  {
    if Steps(t, l) != [] {
      var f := if l.WriteData? then t.data.value else t.beat.value;
      NumsSnoc(t.wire, f);
      NumsSnoc(t.failed, f);
    }
  }

  /** Every step of the host is the chain's: taking a number is Alloc, writing it Append or Fail. */
  lemma StepChain(t: Trace, l: Label)
    ensures ChainOf(Do(t, l)) == DoAll(ChainOf(t), Steps(t, l))
  {
    match l
    case TakeData => TakeChain(t, l);
    case TakeBeat => TakeChain(t, l);
    case WriteData(_) => WriteChain(t, l);
    case WriteBeat(_) => WriteChain(t, l);
    case _ =>
  }

  lemma ReachAll(c: Sequencing.Chain, steps: seq<Sequencing.Label>)
    requires |steps| <= 2 && Sequencing.Reachable(false, 2, c)
    ensures Sequencing.Reachable(false, 2, DoAll(c, steps))
  {
    if steps != [] {
      Sequencing.ReachStep(false, 2, c, steps[0]);
      if |steps| == 2 {
        Sequencing.ReachStep(false, 2, Sequencing.Do(false, c, steps[0]), steps[1]);
      }
    }
  }

  lemma StepReaches(t: Trace, l: Label)
    requires Sequencing.Reachable(false, 2, ChainOf(t))
    ensures Sequencing.Reachable(false, 2, ChainOf(Do(t, l)))
  {
    StepChain(t, l);
    ReachAll(ChainOf(t), Steps(t, l));
  }

  lemma {:induction false} RunChain(id: NodeId, ls: seq<Label>)
    ensures Sequencing.Reachable(false, 2, ChainOf(Run(id, ls)))
  {
    if ls == [] {
      Sequencing.ReachIdle(false, 2);
      assert ChainOf(Start(id)) == Sequencing.Idle(2);
    } else {
      RunChain(id, ls[..|ls| - 1]);
      StepReaches(Run(id, ls[..|ls| - 1]), ls[|ls| - 1]);
    }
  }

  /** The write of frame p overtook that of frame q: it came while q's smaller number was taken but not written. */
  predicate Overtakes(t: Trace, p: nat, q: nat)
    requires p < q < |t.wire| == |t.over|
  {
    t.wire[q].num in t.over[p]
  }

  /**
   * In every interleaving, below 2^32: the i-th number taken is i; the numbers on the cable are pairwise distinct and
   * below the next one; and they increase exactly when no write overtook an earlier allocation.
   */
  lemma CableOrder(id: NodeId, ls: seq<Label>)
    requires |Run(id, ls).asked| <= WRAP
    ensures var t := Run(id, ls);
            && t.s.next == |t.asked| && (forall i :: 0 <= i < |t.asked| ==> t.asked[i].num == i)
            && Distinct(Nums(t.wire)) && (forall i :: 0 <= i < |t.wire| ==> t.wire[i].num < t.s.next)
            && |t.over| == |t.wire|
            && (Increasing(Nums(t.wire)) <==> forall p: nat, q: nat :: p < q < |t.wire| ==> !Overtakes(t, p, q))
  {
    var t := Run(id, ls);
    var c := ChainOf(t);
    RunChain(id, ls);
    var steps :| Sequencing.End(false, 2, steps) == c;
    Sequencing.IthNumber(false, 2, steps);
    forall i | 0 <= i < |t.asked| ensures t.asked[i].num == i {
      assert c.handed[i] == Sequencing.Nth(false, i);
    }
    Sequencing.InOrderIff(false, 2, steps);
    Sequencing.RunTidy(false, 2, steps);
    forall i | 0 <= i < |t.wire| ensures t.wire[i].num < t.s.next {
      Sequencing.LineHanded(c, i);
    }
    forall p: nat, q: nat | p < q < |t.wire| ensures !Overtakes(t, p, q) <==> !Sequencing.Overtakes(c, p, q) {}
  }

  /** And overtaking happens: number 1 can reach the cable before number 0. */
  lemma OutOfOrder(id: NodeId, payload: seq<byte>)
    requires |payload| < 0x1_0000
    ensures var t := Run(id, [Give(payload), TakeData, TakeBeat, WriteBeat(Sent(20)), WriteData(Sent(|payload|))]);
            Nums(t.wire) == [1, 0]
  {
    var l0, l1, l2, l3, l4 := Give(payload), TakeData, TakeBeat, WriteBeat(Sent(20)), WriteData(Sent(|payload|));
    var t1 := Do(Do(Start(id), l0), l1);
    assert t1.data.Some? && t1.data.value.num == 0;
    var t2 := Do(t1, l2);
    assert t2.beat.Some? && t2.beat.value.num == 1;
    var t4 := Do(Do(t2, l3), l4);
    assert Nums(t4.wire) == [1, 0];
    RunFive(id, l0, l1, l2, l3, l4);
  }

  lemma RunFive(id: NodeId, l0: Label, l1: Label, l2: Label, l3: Label, l4: Label)
    ensures Run(id, [l0, l1, l2, l3, l4]) == Do(Do(Do(Do(Do(Start(id), l0), l1), l2), l3), l4)
  {
    assert [l0, l1, l2, l3, l4][..4] == [l0, l1, l2, l3];
    assert [l0, l1, l2, l3][..3] == [l0, l1, l2];
    assert [l0, l1, l2][..2] == [l0, l1];
    assert [l0, l1][..1] == [l0];
    assert [l0][..0] == [];
    assert Run(id, [l0]) == Do(Start(id), l0);
    assert Run(id, [l0, l1]) == Do(Run(id, [l0]), l1);
    assert Run(id, [l0, l1, l2]) == Do(Run(id, [l0, l1]), l2);
    assert Run(id, [l0, l1, l2, l3]) == Do(Run(id, [l0, l1, l2]), l3);
  }
}
