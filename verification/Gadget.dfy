/**
 * The device side: GadgetDaemon of src/gadget/udf_gadget.py, and what its counters and its output stream mean in
 * every interleaving of its threads.
 */
module Gadget {
  import opened Base
  import opened Frames
  import opened Node
  import opened Accounting
  import Ring
  import Sequencing

  /** What one `os.write` of the rest of a frame does; Accept takes what there is if that is less. */
  datatype Outcome = Accept(n: nat) | Busy | Broken

  /** What the endpoint is willing to take before it breaks. */
  function Offered(script: seq<Outcome>): nat {
    if script == [] then 0
    else match script[0]
      case Accept(n) => n + Offered(script[1..])
      case Busy => Offered(script[1..])
      case Broken => 0
  }

  /** The part of a frame that reaches the endpoint; the script ends when the daemon is stopped. */
  function Accepted(data: seq<byte>, script: seq<Outcome>): (p: seq<byte>)
    ensures p <= data
  {
    data[..Ring.Min(|data|, Offered(script))]
  }

  // A write script, read without running the loop.

  /** The sizes of all writes taken together; Busy and Broken count nothing. */
  function Sizes(script: seq<Outcome>): nat {
    if script == [] then 0 else (if script[0].Accept? then script[0].n else 0) + Sizes(script[1..])
  }

  /** The first broken write is number k, or there is none among the k. */
  predicate BreaksAt(script: seq<Outcome>, k: nat) {
    k <= |script| && (forall i :: 0 <= i < k ==> !script[i].Broken?) && (k < |script| ==> script[k].Broken?)
  }

  lemma {:induction false} OfferedIsSizes(script: seq<Outcome>, k: nat)
    requires BreaksAt(script, k)
    ensures Offered(script) == Sizes(script[..k])
  {
    if k > 0 {
      assert script[..k][1..] == script[1..][..k - 1];
      OfferedIsSizes(script[1..], k - 1);
    }
  }

  lemma {:induction false} OfferedSkips(a: seq<Outcome>, b: seq<Outcome>)
    ensures Offered(a + [Busy] + b) == Offered(a + b) && Offered(a + [Broken] + b) == Offered(a)
  {
    if a == [] {
      assert ([] + [Busy] + b)[1..] == b && [] + b == b;
    } else {
      assert (a + [Busy] + b)[1..] == a[1..] + [Busy] + b;
      assert (a + [Broken] + b)[1..] == a[1..] + [Broken] + b;
      assert (a + b)[1..] == a[1..] + b;
      OfferedSkips(a[1..], b);
    }
  }

  /** A busy write only delays, wherever it comes; nothing is tried after a broken one. */
  lemma BusyOnlyDelays(data: seq<byte>, a: seq<Outcome>, b: seq<Outcome>)
    ensures Accepted(data, a + [Busy] + b) == Accepted(data, a + b)
    ensures Accepted(data, a + [Broken] + b) == Accepted(data, a)
  {
    OfferedSkips(a, b);
  }

  datatype GadgetState = GadgetState(
    id: NodeId, rx: seq<Frame>, tx: seq<seq<byte>>, next: nat,
    acct: Acct, crcErrors: nat, bytesRx: nat, framesTx: nat, bytesTx: nat)

  datatype Event = Rx(data: seq<byte>) | Tx(script: seq<Outcome>) | Beat | Send(dst: NodeId, payload: seq<byte>)

  /** The frame a step takes a number for. */
  function Wanted(s: GadgetState, e: Event): (w: Option<Frame>)
    ensures w.Some? ==> w.value.num == s.next
  {
    match e
    case Rx(data) =>
      var r := Unpack(data);
      if r.Ok? && Judge(s.id, r.value) == Relay then Some(Forwarded(r.value, s.next)) else None
    case Tx(_) => None
    case Beat => Some(Frame(FLAG_HB, 0, s.next, s.id, BROADCAST, []))
    case Send(dst, payload) => Some(Frame(0, 0, s.next, s.id, dst, payload))
  }

  /** The number is taken first, and stays taken when packing fails. */
  function Queued(s: GadgetState, f: Frame): GadgetState {
    s.(next := (s.next + 1) % WRAP, tx := if Encodable(f) then s.tx + [Encode(f)] else s.tx)
  }

  function Heard(s: GadgetState, data: seq<byte>): GadgetState {
    if data == [] then s else
    var s' := s.(bytesRx := s.bytesRx + |data|);
    match Unpack(data)
    case Err(_) => s'.(crcErrors := s.crcErrors + 1)
    case Ok(f) => s'.(acct := Arrive(s.acct, f.num), rx := if Judge(s.id, f) == Local then s.rx + [f] else s.rx)
  }

  function Drained(s: GadgetState, script: seq<Outcome>): GadgetState {
    if s.tx == [] then s else
    var s' := s.(tx := s.tx[1..]);
    if Accepted(s.tx[0], script) == s.tx[0] then s'.(framesTx := s.framesTx + 1, bytesTx := s.bytesTx + |s.tx[0]|)
    else s'
  }

  function After(s: GadgetState, e: Event): (a: GadgetState)
    ensures a.id == s.id
  {
    var s' := match e
      case Rx(data) => Heard(s, data)
      case Tx(script) => Drained(s, script)
      case _ => s;
    var w := Wanted(s, e);
    if w.Some? then Queued(s', w.value) else s'
  }

  /** Where an intact frame goes; past the hop limit it vanishes uncounted. */
  function Routed(s: GadgetState, f: Frame): GadgetState {
    match Judge(s.id, f)
    case Local => s.(rx := s.rx + [f])
    case Relay => Queued(s, Forwarded(f, s.next))
    case OutOfHops => s
  }

  lemma AfterRx(s: GadgetState, data: seq<byte>, f: Frame)
    requires data != [] && Unpack(data) == Ok(f)
    ensures After(s, Rx(data)) == Routed(s.(bytesRx := s.bytesRx + |data|, acct := Arrive(s.acct, f.num)), f)
  {}

  // ---- one step, in terms of what the neighbour will unpack ----

  /** One pass of the transmit loop: the frame is out and counted exactly when the writes before a break hold it. */
  lemma DrainedOctets(s: GadgetState, script: seq<Outcome>, k: nat)
    requires s.tx != [] && BreaksAt(script, k)
    ensures var s', n := After(s, Tx(script)), |s.tx[0]|;
            var whole := Sizes(script[..k]) >= n;
            && Accepted(s.tx[0], script) == s.tx[0][..Ring.Min(n, Sizes(script[..k]))]
            && s' == s.(tx := s.tx[1..], framesTx := s.framesTx + (if whole then 1 else 0),
                        bytesTx := s.bytesTx + (if whole then n else 0))
  {
    OfferedIsSizes(script, k);
  }

  /** One more packed frame at the end of the queue, which unpacks to g. */
  predicate Gains(tx: seq<seq<byte>>, tx': seq<seq<byte>>, g: Frame) {
    |tx'| == |tx| + 1 && tx'[..|tx|] == tx && Unpack(tx'[|tx|]) == Ok(g)
  }

  lemma QueuedOctets(s: GadgetState, f: Frame)
    requires f.num < 0x1_0000_0000
    ensures var s' := Queued(s, f);
            && s' == s.(next := (s.next + 1) % 0x1_0000_0000, tx := s'.tx)
            && if |f.payload| < 0x1_0000 then Gains(s.tx, s'.tx, f) else s'.tx == s.tx
  {
    PackUnpack(f);
  }

  /** A frame of its own takes a number and is queued if its payload fits: what the host will unpack. */
  lemma OwnOctets(s: GadgetState, e: Event)
    requires (e.Beat? || e.Send?) && s.next < 0x1_0000_0000
    ensures var s' := After(s, e);
            && s' == s.(next := (s.next + 1) % 0x1_0000_0000, tx := s'.tx)
            && match e
               case Beat => Gains(s.tx, s'.tx, Frame(0x10, 0, s.next, s.id, 0xFF, []))
               case Send(dst, payload) =>
                 if |payload| >= 0x1_0000 then s'.tx == s.tx
                 else Gains(s.tx, s'.tx, Frame(0, 0, s.next, s.id, dst, payload))
  {
    match e
    case Beat => QueuedOctets(s, Frame(FLAG_HB, 0, s.next, s.id, BROADCAST, []));
    case Send(dst, payload) => QueuedOctets(s, Frame(0, 0, s.next, s.id, dst, payload));
  }

  /**
   * What becomes of an intact frame: one for this node is delivered; one for others is passed on below fifteen hops and
   * vanishes after.
   */
  ghost predicate Settles(s: GadgetState, f: Frame, s': GadgetState) {
    if f.dst == s.id || f.dst == 0xFF then s' == s.(rx := s.rx + [f])
    else if f.hop >= 15 then s' == s
    else
      && s' == s.(next := (s.next + 1) % 0x1_0000_0000, tx := s'.tx)
      && exists g :: IsRelayOf(f, g, s.next) && Gains(s.tx, s'.tx, g)
  }

  lemma RoutedOctets(s: GadgetState, f: Frame)
    requires |f.payload| < 0x1_0000 && s.next < 0x1_0000_0000
    ensures Settles(s, f, Routed(s, f))
  {
    if Judge(s.id, f) == Relay {
      var g := Forwarded(f, s.next);
      QueuedOctets(s, g);
      assert IsRelayOf(f, g, s.next);
    }
  }

  lemma IntactOctets(s: GadgetState, data: seq<byte>, f: Frame)
    requires data != [] && Unpack(data) == Ok(f) && |f.payload| < 0x1_0000 && s.next < 0x1_0000_0000
    ensures Settles(s.(bytesRx := s.bytesRx + |data|, acct := Arrive(s.acct, f.num)), f, After(s, Rx(data)))
  {
    AfterRx(s, data, f);
    RoutedOctets(s.(bytesRx := s.bytesRx + |data|, acct := Arrive(s.acct, f.num)), f);
  }

  lemma DamagedOctets(s: GadgetState, data: seq<byte>)
    requires data != [] && Unpack(data).Err?
    ensures After(s, Rx(data)) == s.(bytesRx := s.bytesRx + |data|, crcErrors := s.crcErrors + 1)
  {}

  /** One pass of the receive loop over any octets. */
  lemma ReceivedOctets(s: GadgetState, data: seq<byte>)
    requires s.next < 0x1_0000_0000
    ensures var s' := After(s, Rx(data));
            if data == [] then s' == s
            else
              match Unpack(data)
              case Err(_) => s' == s.(bytesRx := s.bytesRx + |data|, crcErrors := s.crcErrors + 1)
              case Ok(f) => Settles(s.(bytesRx := s.bytesRx + |data|, acct := Arrive(s.acct, f.num)), f, s')
  {
    if data != [] {
      if Unpack(data).Ok? {
        UnpackedFits(data);
        IntactOctets(s, data, Unpack(data).value);
      } else {
        DamagedOctets(s, data);
      }
    }
  }

  class GadgetDaemon {
    const nodeId: NodeId
    var rxQueue: seq<Frame>
    var txQueue: seq<seq<byte>>
    var txSeq: nat
    var expectedSeq: nat
    var framesRx: nat
    var seqGaps: nat
    var crcErrors: nat
    var bytesRx: nat
    var framesTx: nat
    var bytesTx: nat

    constructor (id: NodeId)
      ensures View() == Fresh(id)
    {
      nodeId, rxQueue, txQueue, txSeq := id, [], [], 0;
      expectedSeq, framesRx, seqGaps, crcErrors, bytesRx, framesTx, bytesTx := 0, 0, 0, 0, 0, 0, 0;
    }

    function View(): GadgetState
      reads this
    {
      GadgetState(nodeId, rxQueue, txQueue, txSeq, Acct(expectedSeq, framesRx, seqGaps),
                  crcErrors, bytesRx, framesTx, bytesTx)
    }

    method NextSeq() returns (n: nat)
      modifies this`txSeq
      ensures n == old(txSeq) && txSeq == (n + 1) % WRAP
    {
      n := txSeq;
      txSeq := (txSeq + 1) % WRAP;
    }

    /** Number and pack a frame, then put it on the transmit queue. */
    method Put(f: Frame) returns (ok: bool)
      modifies this`txSeq, this`txQueue
      ensures View() == Queued(old(View()), f.(num := old(txSeq)))
      ensures old(txSeq) < WRAP ==> (ok <==> |f.payload| < 0x1_0000)
    {
      var num := NextSeq();
      var raw := Pack(f.(num := num));
      ok := raw.Ok?;
      if ok {
        txQueue := txQueue + [raw.value];
      }
    }

    /** Sequence tracking, done under the lock. */
    method Track(num: nat)
      modifies this`expectedSeq, this`framesRx, this`seqGaps
      ensures View() == old(View()).(acct := Arrive(old(View()).acct, num))
    {
      framesRx := framesRx + 1;
      if num > expectedSeq {
        seqGaps := seqGaps + 1;
        expectedSeq := num + 1;
      } else if num == expectedSeq {
        expectedSeq := expectedSeq + 1;
      }
    }

    /** Deliver locally or forward. */
    method Route(f: Frame)
      modifies this`rxQueue, this`txSeq, this`txQueue
      ensures View() == Routed(old(View()), f)
    {
      if f.dst == nodeId || f.dst == BROADCAST {
        rxQueue := rxQueue + [f];
      } else if f.hop < HOP_LIMIT {
        var _ := Put(Forwarded(f, f.num));
      }
    }

    method Intake(f: Frame)
      modifies this
      ensures View() == Routed(old(View()).(acct := Arrive(old(View()).acct, f.num)), f)
    {
      Track(f.num);
      Route(f);
    }

    /** One iteration of the receive loop, on what one read returned. */
    method RxOne(data: seq<byte>)
      modifies this
      ensures View() == After(old(View()), Rx(data))
    {
      if data == [] {
        return;
      }
      bytesRx := bytesRx + |data|;
      var r := Unpack(data);
      if r.Err? {
        crcErrors := crcErrors + 1;
        return;
      }
      Intake(r.value);
      AfterRx(old(View()), data, r.value);
    }

    /** One iteration of the transmit loop: write the oldest frame piece by piece until it is out or a write breaks. */
    method TxOne(script: seq<Outcome>) returns (wire: seq<byte>)
      modifies this
      ensures View() == After(old(View()), Tx(script))
      ensures wire == if old(txQueue) == [] then [] else Accepted(old(txQueue)[0], script)
      ensures forall k: nat | BreaksAt(script, k) && old(txQueue) != [] ::
                var n := |old(txQueue)[0]|;
                && wire == old(txQueue)[0][..Ring.Min(n, Sizes(script[..k]))]
                && framesTx == old(framesTx) + (if Sizes(script[..k]) >= n then 1 else 0)
                && bytesTx == old(bytesTx) + (if Sizes(script[..k]) >= n then n else 0)
    {
      if txQueue == [] {
        return [];
      }
      var data := txQueue[0];
      txQueue := txQueue[1..];
      wire := [];
      var written, i, broken := 0, 0, false;
      while written < |data| && i < |script| && !broken
        invariant i <= |script| && written <= |data| && wire == data[..written]
        invariant Ring.Min(|data|, Offered(script))
               == if broken then written else Ring.Min(|data|, written + Offered(script[i..]))
        invariant unchanged(this`framesTx, this`bytesTx, this`txSeq, this`rxQueue, this`expectedSeq, this`framesRx,
                            this`seqGaps, this`crcErrors, this`bytesRx)
        invariant txQueue == old(txQueue)[1..]
      {
        match script[i] {
          case Accept(n) =>
            var m := Ring.Min(n, |data| - written);
            wire := wire + data[written..written + m];
            written := written + m;
          case Busy =>
          case Broken =>
            broken := true;
        }
        i := i + 1;
      }
      if written == |data| {
        framesTx := framesTx + 1;
        bytesTx := bytesTx + |data|;
      }
      forall k: nat | BreaksAt(script, k) ensures Offered(script) == Sizes(script[..k]) {
        OfferedIsSizes(script, k);
      }
    }

    /** One iteration of the heartbeat loop. */
    method HbOne()
      modifies this
      ensures View() == After(old(View()), Beat)
    {
      var _ := Put(Frame(FLAG_HB, 0, 0, nodeId, BROADCAST, []));
    }

    method SendTo(dst: NodeId, payload: seq<byte>) returns (ok: bool)
      modifies this
      ensures View() == After(old(View()), Send(dst, payload))
      ensures old(txSeq) < WRAP ==> (ok <==> |payload| < 0x1_0000)
    {
      ok := Put(Frame(0, 0, 0, nodeId, dst, payload));
    }
  }

  // ---- whole runs, thread by thread ----

  function Fresh(id: NodeId): GadgetState {
    GadgetState(id, [], [], 0, START, 0, 0, 0, 0)
  }

  /**
   * The daemon between steps, with its history. A slot holds the frame a thread has numbered and packed but not yet
   * queued: slot 0 belongs to the receive thread, slot 1 to the heartbeat thread, the others to callers of send.
   * `asked` lists the frames that took a number, in that order; `failed` those that could not be packed; `made` those
   * queued, in that order, and `packed` their octets; `over` what each of them overtook; `wire` the pieces written, one
   * per frame taken from the queue; `got` what was read, and `heard` the intact frames among it.
   */
  datatype Trace = Trace(
    s: GadgetState, slots: seq<Option<Frame>>, asked: seq<Frame>, failed: seq<Frame>,
    made: seq<Frame>, packed: seq<seq<byte>>, over: seq<set<nat>>, wire: seq<seq<byte>>,
    got: seq<seq<byte>>, heard: seq<Frame>)

  function Start(id: NodeId, k: nat): Trace {
    Trace(Fresh(id), seq(k, i => None), [], [], [], [], [], [], [], [])
  }

  /**
   * What a thread does before it queues, queueing, and writing. The source counts what it read in one lock section and
   * takes the number in the next; no other thread looks at the receive counters, so the two are one step here.
   */
  datatype Label = Begin(p: nat, e: Event) | Put(p: nat) | Drain(script: seq<Outcome>)

  /** Which thread does what. */
  predicate Owns(p: nat, e: Event) {
    match e
    case Rx(_) => p == 0
    case Beat => p == 1
    case Send(_, _) => p >= 2
    case Tx(_) => false
  }

  function SlotNums(slots: seq<Option<Frame>>): (ns: seq<Option<nat>>)
    ensures |ns| == |slots|
    ensures forall i :: 0 <= i < |slots| ==> ns[i] == if slots[i].Some? then Some(slots[i].value.num) else None
  {
    seq(|slots|, i requires 0 <= i < |slots| => if slots[i].Some? then Some(slots[i].value.num) else None)
  }

  /** Reading records the intact frame. */
  function Reading(t: Trace, data: seq<byte>): Trace {
    t.(s := Heard(t.s, data), got := if data == [] then t.got else t.got + [data],
       heard := if Unpack(data).Ok? then t.heard + [Unpack(data).value] else t.heard)
  }

  function Writing(t: Trace, script: seq<Outcome>): Trace {
    t.(s := Drained(t.s, script), wire := if t.s.tx != [] then t.wire + [Accepted(t.s.tx[0], script)] else t.wire)
  }

  function Numbering(t: Trace, p: nat, f: Frame): Trace
    requires p < |t.slots|
  {
    var u := t.(s := t.s.(next := (t.s.next + 1) % WRAP), asked := t.asked + [f]);
    if Encodable(f) then u.(slots := t.slots[p := Some(f)]) else u.(failed := t.failed + [f])
  }

  function Putting(t: Trace, p: nat): Trace
    requires p < |t.slots| && t.slots[p].Some?
  {
    var f := t.slots[p].value;
    t.(s := t.s.(tx := t.s.tx + [Encode(f)]), slots := t.slots[p := None], made := t.made + [f],
       packed := t.packed + [Encode(f)], over := t.over + [Sequencing.Smaller(SlotNums(t.slots), f.num)])
  }

  function Beginning(t: Trace, p: nat, e: Event): Trace
    requires p < |t.slots|
  {
    var u := if e.Rx? then Reading(t, e.data) else t;
    var w := Wanted(t.s, e);
    if w.Some? then Numbering(u, p, w.value) else u
  }

  function Do(t: Trace, l: Label): Trace {
    match l
    case Begin(p, e) => if p < |t.slots| && t.slots[p] == None && Owns(p, e) then Beginning(t, p, e) else t
    case Put(p) => if p < |t.slots| && t.slots[p].Some? then Putting(t, p) else t
    case Drain(script) => Writing(t, script)
  }

  function Run(id: NodeId, k: nat, ls: seq<Label>): Trace {
    if ls == [] then Start(id, k) else Do(Run(id, k, ls[..|ls| - 1]), ls[|ls| - 1])
  }

  lemma NumberThenPut(t: Trace, p: nat, f: Frame)
    requires p < |t.slots| && t.slots[p] == None
    ensures Do(Numbering(t, p, f), Put(p)).s == Queued(t.s, f)
  {
    if Encodable(f) {
      assert Numbering(t, p, f).slots[p] == Some(f);
    }
  }

  /** A thread nobody disturbs does what the method does. */
  lemma Undisturbed(t: Trace, p: nat, e: Event)
    requires p < |t.slots| && t.slots[p] == None && Owns(p, e)
    ensures Do(Do(t, Begin(p, e)), Put(p)).s == After(t.s, e)
  {
    var u := if e.Rx? then Reading(t, e.data) else t;
    var w := Wanted(t.s, e);
    if w.Some? {
      NumberThenPut(u, p, w.value);
    }
  }

  lemma UndisturbedDrain(t: Trace, script: seq<Outcome>)
    ensures Do(t, Drain(script)).s == After(t.s, Tx(script))
  {}

  /** The frames that went out completely. */
  function Whole(packed: seq<seq<byte>>, wire: seq<seq<byte>>): seq<seq<byte>>
    requires |wire| <= |packed|
  {
    if wire == [] then []
    else
      var last := |wire| - 1;
      Whole(packed, wire[..last]) + if wire[last] == packed[last] then [wire[last]] else []
  }

  function Delivered(id: NodeId, fs: seq<Frame>): seq<Frame> {
    if fs == [] then []
    else
      var last := |fs| - 1;
      Delivered(id, fs[..last]) + if Judge(id, fs[last]) == Local then [fs[last]] else []
  }

  /** The intact frames among what was read. */
  function Intact(got: seq<seq<byte>>): seq<Frame> {
    if got == [] then []
    else
      var r := Unpack(got[|got| - 1]);
      Intact(got[..|got| - 1]) + if r.Ok? then [r.value] else []
  }

  predicate SlotsSound(slots: seq<Option<Frame>>) {
    forall p :: 0 <= p < |slots| && slots[p].Some? ==> Encodable(slots[p].value)
  }

  predicate PackedSound(made: seq<Frame>, packed: seq<seq<byte>>) {
    |packed| == |made| && forall i :: 0 <= i < |made| ==> Encodable(made[i]) && packed[i] == Encode(made[i])
  }

  predicate QueueSound(tx: seq<seq<byte>>, packed: seq<seq<byte>>, wire: seq<seq<byte>>) {
    |wire| <= |packed| && tx == packed[|wire|..] && forall i :: 0 <= i < |wire| ==> wire[i] <= packed[i]
  }

  predicate SentSound(frames: nat, bytes: nat, packed: seq<seq<byte>>, wire: seq<seq<byte>>) {
    |wire| <= |packed| && frames == |Whole(packed, wire)| && bytes == |Concat(Whole(packed, wire))|
  }

  predicate OutputSound(t: Trace) {
    && SlotsSound(t.slots) && PackedSound(t.made, t.packed)
    && QueueSound(t.s.tx, t.packed, t.wire)
    && SentSound(t.s.framesTx, t.s.bytesTx, t.packed, t.wire)
  }

  predicate Accounted(s: GadgetState, heard: seq<Frame>) {
    s.acct == Account(Nums(heard)) && s.rx == Delivered(s.id, heard)
  }

  predicate Tallied(s: GadgetState, got: seq<seq<byte>>, heard: seq<Frame>) {
    heard == Intact(got) && s.bytesRx == |Concat(got)| && s.crcErrors + |heard| == |got|
  }

  predicate InputSound(t: Trace) { Accounted(t.s, t.heard) && Tallied(t.s, t.got, t.heard) }

  lemma QueuePut(tx: seq<seq<byte>>, packed: seq<seq<byte>>, wire: seq<seq<byte>>, d: seq<byte>)
    requires QueueSound(tx, packed, wire)
    ensures QueueSound(tx + [d], packed + [d], wire)
  {}

  lemma QueueTake(tx: seq<seq<byte>>, packed: seq<seq<byte>>, wire: seq<seq<byte>>, p: seq<byte>)
    requires QueueSound(tx, packed, wire) && tx != [] && p <= tx[0]
    ensures |wire| < |packed| && tx[0] == packed[|wire|] && QueueSound(tx[1..], packed, wire + [p])
  {}

  lemma {:induction false} WholePrefix(packed: seq<seq<byte>>, d: seq<byte>, wire: seq<seq<byte>>)
    requires |wire| <= |packed|
    ensures Whole(packed + [d], wire) == Whole(packed, wire)
  {
    if wire != [] {
      WholePrefix(packed, d, wire[..|wire| - 1]);
    }
  }

  lemma {:induction false} ConcatSnoc(ds: seq<seq<byte>>, d: seq<byte>)
    ensures Concat(ds + [d]) == Concat(ds) + d
  {
    if ds == [] {
      assert (ds + [d])[1..] == [];
    } else {
      assert (ds + [d])[1..] == ds[1..] + [d];
      ConcatSnoc(ds[1..], d);
    }
  }

  lemma SentTake(frames: nat, bytes: nat, packed: seq<seq<byte>>, wire: seq<seq<byte>>, p: seq<byte>)
    requires SentSound(frames, bytes, packed, wire) && |wire| < |packed|
    ensures p == packed[|wire|] ==> SentSound(frames + 1, bytes + |p|, packed, wire + [p])
    ensures p != packed[|wire|] ==> SentSound(frames, bytes, packed, wire + [p])
  {
    assert (wire + [p])[..|wire|] == wire;
    var whole := Whole(packed, wire);
    if p == packed[|wire|] {
      assert Whole(packed, wire + [p]) == whole + [p];
      ConcatSnoc(whole, p);
    } else {
      assert Whole(packed, wire + [p]) == whole;
    }
  }

  lemma PuttingSound(t: Trace, p: nat)
    requires OutputSound(t) && p < |t.slots| && t.slots[p].Some?
    ensures OutputSound(Putting(t, p))
  {
    var d := Encode(t.slots[p].value);
    QueuePut(t.s.tx, t.packed, t.wire, d);
    WholePrefix(t.packed, d, t.wire);
  }

  lemma WritingSound(t: Trace, script: seq<Outcome>)
    requires OutputSound(t)
    ensures OutputSound(Writing(t, script))
  {
    if t.s.tx != [] {
      var p := Accepted(t.s.tx[0], script);
      QueueTake(t.s.tx, t.packed, t.wire, p);
      SentTake(t.s.framesTx, t.s.bytesTx, t.packed, t.wire, p);
    }
  }

  lemma NumberingSound(t: Trace, p: nat, f: Frame)
    requires OutputSound(t) && p < |t.slots|
    ensures OutputSound(Numbering(t, p, f))
  {}

  lemma NumsSnoc(fs: seq<Frame>, f: Frame)
    ensures Nums(fs + [f]) == Nums(fs) + [f.num]
  {}

  lemma AccountedNext(s: GadgetState, heard: seq<Frame>, data: seq<byte>)
    requires Accounted(s, heard) && data != []
    ensures Accounted(Heard(s, data), if Unpack(data).Ok? then heard + [Unpack(data).value] else heard)
  {
    if Unpack(data).Ok? {
      var f := Unpack(data).value;
      assert (heard + [f])[..|heard|] == heard;
      NumsSnoc(heard, f);
      AccountSnoc(Nums(heard), f.num);
    }
  }

  lemma TalliedNext(s: GadgetState, got: seq<seq<byte>>, heard: seq<Frame>, data: seq<byte>)
    requires Tallied(s, got, heard) && data != []
    ensures Tallied(Heard(s, data), got + [data], if Unpack(data).Ok? then heard + [Unpack(data).value] else heard)
  {
    ConcatSnoc(got, data);
    assert (got + [data])[..|got|] == got;
  }

  lemma ReadingSound(t: Trace, data: seq<byte>)
    requires InputSound(t)
    ensures InputSound(Reading(t, data))
  {
    if data != [] {
      AccountedNext(t.s, t.heard, data);
      TalliedNext(t.s, t.got, t.heard, data);
    }
  }

  lemma BeginOutput(t: Trace, p: nat, e: Event)
    requires OutputSound(t) && p < |t.slots|
    ensures OutputSound(Beginning(t, p, e))
  {
    var u := if e.Rx? then Reading(t, e.data) else t;
    var w := Wanted(t.s, e);
    assert OutputSound(u);
    if w.Some? {
      NumberingSound(u, p, w.value);
    }
  }

  lemma PutOutput(t: Trace, p: nat)
    requires OutputSound(t)
    ensures OutputSound(Do(t, Put(p)))
  {
    if p < |t.slots| && t.slots[p].Some? {
      PuttingSound(t, p);
    }
  }

  lemma OutputStep(t: Trace, l: Label)
    requires OutputSound(t)
    ensures OutputSound(Do(t, l))
  {
    match l
    case Begin(p, e) =>
      if p < |t.slots| && t.slots[p] == None && Owns(p, e) {
        BeginOutput(t, p, e);
      }
    case Put(p) => PutOutput(t, p);
    case Drain(script) => WritingSound(t, script);
  }

  lemma OthersKeepInput(t: Trace, u: Trace)
    requires InputSound(t) && u.heard == t.heard && u.got == t.got && u.s.id == t.s.id && u.s.acct == t.s.acct
    requires u.s.rx == t.s.rx && u.s.bytesRx == t.s.bytesRx && u.s.crcErrors == t.s.crcErrors
    ensures InputSound(u)
  {}

  lemma NumberingInput(t: Trace, p: nat, f: Frame)
    requires InputSound(t) && p < |t.slots|
    ensures InputSound(Numbering(t, p, f)) && Numbering(t, p, f).s.id == t.s.id
  {
    OthersKeepInput(t, Numbering(t, p, f));
  }

  lemma BeginInput(t: Trace, p: nat, e: Event)
    requires InputSound(t) && p < |t.slots|
    ensures InputSound(Beginning(t, p, e)) && Beginning(t, p, e).s.id == t.s.id
  {
    var u := if e.Rx? then Reading(t, e.data) else t;
    if e.Rx? {
      ReadingSound(t, e.data);
    }
    var w := Wanted(t.s, e);
    if w.Some? {
      NumberingInput(u, p, w.value);
    }
  }

  lemma InputStep(t: Trace, l: Label)
    requires InputSound(t)
    ensures InputSound(Do(t, l)) && Do(t, l).s.id == t.s.id
  {
    match l
    case Begin(p, e) =>
      if p < |t.slots| {
        BeginInput(t, p, e);
      }
    case _ => OthersKeepInput(t, Do(t, l));
  }

  /**
   * In every interleaving of the threads: the endpoint accepts the queued frames in order, each whole or a prefix,
   * frames_tx counting the whole ones and bytes_tx their octets; the receive counters account for exactly the
   * intact frames read, crc_errors for every other read, and those for this node are delivered in order.
   */
  lemma {:induction false} EveryRun(id: NodeId, k: nat, ls: seq<Label>)
    ensures var t := Run(id, k, ls);
            t.s.id == id && OutputSound(t) && InputSound(t)
  {
    if ls == [] {
      assert Nums([]) == [];
    } else {
      var t := Run(id, k, ls[..|ls| - 1]);
      EveryRun(id, k, ls[..|ls| - 1]);
      OutputStep(t, ls[|ls| - 1]);
      InputStep(t, ls[|ls| - 1]);
    }
  }

  // ---- where the frames sent come from ----

  /** The frames among fs that this node has to pass on. */
  function ForOthers(id: NodeId, fs: seq<Frame>): seq<Frame> {
    if fs == [] then []
    else
      var f := fs[|fs| - 1];
      ForOthers(id, fs[..|fs| - 1]) + if f.dst != id && f.dst != 0xFF && f.hop < 15 then [f] else []
  }

  /** The frames among fs whose FWD bit is set. */
  function Marked(fs: seq<Frame>): seq<Frame> {
    if fs == [] then []
    else Marked(fs[..|fs| - 1]) + if fs[|fs| - 1].flags / 8 % 2 == 1 then [fs[|fs| - 1]] else []
  }

  predicate RelaysOf(heard: seq<Frame>, sent: seq<Frame>) {
    |heard| == |sent| && forall i :: 0 <= i < |heard| ==> IsRelayOf(heard[i], sent[i], sent[i].num)
  }

  /** A heartbeat to everyone or a data frame, from this node. */
  predicate IsOwn(id: NodeId, f: Frame) {
    f.src == id && f.hop == 0 && (f.flags == 0 || (f.flags == 0x10 && f.dst == 0xFF && f.payload == []))
  }

  predicate OwnKept(id: NodeId, asked: seq<Frame>) {
    forall f <- asked :: f.flags / 8 % 2 == 0 ==> IsOwn(id, f)
  }

  /** Nothing is queued, lost or pending that did not take a number. */
  predicate Placed(t: Trace) {
    && (forall f <- t.made :: f in t.asked) && (forall f <- t.failed :: f in t.asked)
    && forall p :: 0 <= p < |t.slots| && t.slots[p].Some? ==> t.slots[p].value in t.asked
  }

  predicate FromWhere(id: NodeId, heard: seq<Frame>, asked: seq<Frame>) {
    RelaysOf(ForOthers(id, heard), Marked(asked)) && OwnKept(id, asked)
  }

  lemma ForOthersSnoc(id: NodeId, fs: seq<Frame>, f: Frame)
    ensures ForOthers(id, fs + [f])
         == ForOthers(id, fs) + if f.dst != id && f.dst != 0xFF && f.hop < 15 then [f] else []
  {
    assert (fs + [f])[..|fs|] == fs;
  }

  lemma MarkedSnoc(fs: seq<Frame>, f: Frame)
    ensures Marked(fs + [f]) == Marked(fs) + if f.flags / 8 % 2 == 1 then [f] else []
  {
    assert (fs + [f])[..|fs|] == fs;
  }

  lemma OwnKeptSnoc(id: NodeId, asked: seq<Frame>, g: Frame)
    requires OwnKept(id, asked) && (g.flags / 8 % 2 == 1 || IsOwn(id, g))
    ensures OwnKept(id, asked + [g])
  {}

  lemma OwnUnmarked(id: NodeId, f: Frame)
    requires IsOwn(id, f)
    ensures f.flags / 8 % 2 == 0
  {}

  lemma OwnFrom(id: NodeId, heard: seq<Frame>, asked: seq<Frame>, f: Frame)
    requires FromWhere(id, heard, asked) && IsOwn(id, f)
    ensures FromWhere(id, heard, asked + [f])
  {
    MarkedSnoc(asked, f);
    OwnUnmarked(id, f);
    OwnKeptSnoc(id, asked, f);
  }

  lemma KeptFrom(id: NodeId, heard: seq<Frame>, asked: seq<Frame>, f: Frame)
    requires FromWhere(id, heard, asked) && Judge(id, f) != Relay
    ensures FromWhere(id, heard + [f], asked)
  {
    ForOthersSnoc(id, heard, f);
  }

  lemma RelaysSnoc(heard: seq<Frame>, sent: seq<Frame>, f: Frame, g: Frame)
    requires RelaysOf(heard, sent) && IsRelayOf(f, g, g.num)
    ensures RelaysOf(heard + [f], sent + [g])
  {}

  lemma RelayFrom(id: NodeId, heard: seq<Frame>, asked: seq<Frame>, f: Frame, num: nat)
    requires FromWhere(id, heard, asked) && Judge(id, f) == Relay
    ensures FromWhere(id, heard + [f], asked + [Forwarded(f, num)])
  {
    var g := Forwarded(f, num);
    ForwardedIsRelay(f, num);
    ForOthersSnoc(id, heard, f);
    MarkedSnoc(asked, g);
    RelaysSnoc(ForOthers(id, heard), Marked(asked), f, g);
    OwnKeptSnoc(id, asked, g);
  }

  /** What one step adds to the two histories. */
  lemma BeginningAdds(t: Trace, p: nat, data: seq<byte>)
    requires p < |t.slots| && Unpack(data).Ok?
    ensures var u, f := Beginning(t, p, Rx(data)), Unpack(data).value;
            && u.heard == t.heard + [f]
            && u.asked == if Judge(t.s.id, f) == Relay then t.asked + [Forwarded(f, t.s.next)] else t.asked
  {}

  lemma FromStep(t: Trace, l: Label)
    requires FromWhere(t.s.id, t.heard, t.asked)
    ensures FromWhere(t.s.id, Do(t, l).heard, Do(t, l).asked)
  {
    if l.Begin? && l.p < |t.slots| && t.slots[l.p] == None && Owns(l.p, l.e) {
      if !l.e.Rx? {
        OwnFrom(t.s.id, t.heard, t.asked, Wanted(t.s, l.e).value);
      } else if Unpack(l.e.data).Ok? {
        var f := Unpack(l.e.data).value;
        BeginningAdds(t, l.p, l.e.data);
        if Judge(t.s.id, f) == Relay {
          RelayFrom(t.s.id, t.heard, t.asked, f, t.s.next);
        } else {
          KeptFrom(t.s.id, t.heard, t.asked, f);
        }
      }
    }
  }

  lemma NumberingPlaced(t: Trace, p: nat, f: Frame)
    requires Placed(t) && p < |t.slots|
    ensures Placed(Numbering(t, p, f))
  {}

  lemma PlacedStep(t: Trace, l: Label)
    requires Placed(t)
    ensures Placed(Do(t, l))
  {
    match l
    case Begin(p, e) =>
      if p < |t.slots| && t.slots[p] == None && Owns(p, e) && Wanted(t.s, e).Some? {
        NumberingPlaced(if e.Rx? then Reading(t, e.data) else t, p, Wanted(t.s, e).value);
      }
    case _ =>
  }

  /**
   * In every interleaving of the threads: the frames passed on are exactly the intact frames read that are for others
   * and below fifteen hops, in the order read, each changed in hop, FWD bit and number only; every other frame that
   * takes a number is a heartbeat to 0xFF or a data frame from this node; and nothing else is ever queued.
   */
  lemma {:induction false} Origins(id: NodeId, k: nat, ls: seq<Label>)
    ensures var t := Run(id, k, ls);
            && t.s.id == id && Placed(t) && OwnKept(id, t.asked)
            && RelaysOf(ForOthers(id, t.heard), Marked(t.asked))
  {
    if ls != [] {
      var t := Run(id, k, ls[..|ls| - 1]);
      Origins(id, k, ls[..|ls| - 1]);
      EveryRun(id, k, ls);
      FromStep(t, ls[|ls| - 1]);
      PlacedStep(t, ls[|ls| - 1]);
    }
  }

  // ---- the numbers, as a chain ----

  /** The transmit side of the daemon is k threads sharing a wrapping counter. */
  function ChainOf(t: Trace): Sequencing.Chain {
    Sequencing.Chain(t.s.next, Nums(t.asked), SlotNums(t.slots), Nums(t.made), Nums(t.failed), |t.wire|, t.over)
  }

  lemma NumberingChain(t: Trace, p: nat, f: Frame)
    requires p < |t.slots| && t.slots[p] == None && f.num == t.s.next
    ensures var c := Sequencing.Do(true, ChainOf(t), Sequencing.Alloc(p));
            ChainOf(Numbering(t, p, f)) == if Encodable(f) then c else Sequencing.Do(true, c, Sequencing.Fail(p))
  {
    NumsSnoc(t.asked, f);
    if Encodable(f) {
      assert SlotNums(t.slots[p := Some(f)]) == SlotNums(t.slots)[p := Some(f.num)];
    } else {
      NumsSnoc(t.failed, f);
      assert SlotNums(t.slots)[p := Some(f.num)][p := None] == SlotNums(t.slots);
    }
  }

  lemma PuttingChain(t: Trace, p: nat)
    requires p < |t.slots| && t.slots[p].Some?
    ensures ChainOf(Putting(t, p)) == Sequencing.Do(true, ChainOf(t), Sequencing.Append(p))
  {
    NumsSnoc(t.made, t.slots[p].value);
    assert SlotNums(t.slots[p := None]) == SlotNums(t.slots)[p := None];
  }

  lemma WritingChain(t: Trace, script: seq<Outcome>)
    requires OutputSound(t)
    ensures ChainOf(Writing(t, script))
         == if t.s.tx == [] then ChainOf(t) else Sequencing.Do(true, ChainOf(t), Sequencing.Take)
  {}

  lemma ReachNumbering(t: Trace, k: nat, p: nat, f: Frame)
    requires Sequencing.Reachable(true, k, ChainOf(t)) && p < |t.slots| && t.slots[p] == None && f.num == t.s.next
    ensures Sequencing.Reachable(true, k, ChainOf(Numbering(t, p, f)))
  {
    var c := Sequencing.Do(true, ChainOf(t), Sequencing.Alloc(p));
    NumberingChain(t, p, f);
    Sequencing.ReachStep(true, k, ChainOf(t), Sequencing.Alloc(p));
    Sequencing.ReachStep(true, k, c, Sequencing.Fail(p));
  }

  lemma BeginChain(t: Trace, k: nat, p: nat, e: Event)
    requires Sequencing.Reachable(true, k, ChainOf(t)) && p < |t.slots| && t.slots[p] == None
    ensures Sequencing.Reachable(true, k, ChainOf(Beginning(t, p, e)))
  {
    var u := if e.Rx? then Reading(t, e.data) else t;
    var w := Wanted(t.s, e);
    assert ChainOf(u) == ChainOf(t);
    if w.Some? {
      ReachNumbering(u, k, p, w.value);
    }
  }

  lemma PutChain(t: Trace, k: nat, p: nat)
    requires Sequencing.Reachable(true, k, ChainOf(t))
    ensures Sequencing.Reachable(true, k, ChainOf(Do(t, Put(p))))
  {
    if p < |t.slots| && t.slots[p].Some? {
      PuttingChain(t, p);
      Sequencing.ReachStep(true, k, ChainOf(t), Sequencing.Append(p));
    }
  }

  lemma DrainChain(t: Trace, k: nat, script: seq<Outcome>)
    requires Sequencing.Reachable(true, k, ChainOf(t)) && OutputSound(t)
    ensures Sequencing.Reachable(true, k, ChainOf(Writing(t, script)))
  {
    WritingChain(t, script);
    Sequencing.ReachStep(true, k, ChainOf(t), Sequencing.Take);
  }

  lemma StepChain(t: Trace, k: nat, l: Label)
    requires Sequencing.Reachable(true, k, ChainOf(t)) && OutputSound(t)
    ensures Sequencing.Reachable(true, k, ChainOf(Do(t, l)))
  {
    match l
    case Begin(p, e) =>
      if p < |t.slots| && t.slots[p] == None && Owns(p, e) {
        BeginChain(t, k, p, e);
      }
    case Put(p) => PutChain(t, k, p);
    case Drain(script) => DrainChain(t, k, script);
  }

  lemma {:induction false} RunChain(id: NodeId, k: nat, ls: seq<Label>)
    ensures Sequencing.Reachable(true, k, ChainOf(Run(id, k, ls)))
  {
    if ls == [] {
      Sequencing.ReachIdle(true, k);
      assert ChainOf(Start(id, k)) == Sequencing.Idle(k);
    } else {
      RunChain(id, k, ls[..|ls| - 1]);
      EveryRun(id, k, ls[..|ls| - 1]);
      StepChain(Run(id, k, ls[..|ls| - 1]), k, ls[|ls| - 1]);
    }
  }

  /**
   * In every interleaving of k threads: the i-th number taken is i mod 2^32; before the wrap each number taken is in
   * one place, dequeued, queued, unpackable or pending in one thread; number n is queued no earlier than k - 1 places
   * (and one per unpackable frame) before its turn; and numbers are queued in order exactly when none is overtaken.
   */
  lemma NumbersOfRun(id: NodeId, k: nat, ls: seq<Label>, n: nat)
    ensures var t := Run(id, k, ls);
            && t.s.next == |t.asked| % WRAP && (forall i :: 0 <= i < |t.asked| ==> t.asked[i].num == i % WRAP)
            && (|t.asked| <= WRAP ==>
                  && |t.wire| <= |t.made| == |t.over|
                  && Sequencing.Count(Nums(t.made)[..|t.wire|], n) + Sequencing.Count(Nums(t.made)[|t.wire|..], n)
                     + Sequencing.Count(Nums(t.failed), n) + Sequencing.Count(SlotNums(t.slots), Some(n))
                     == (if n < |t.asked| then 1 else 0)
                  && (forall p :: 0 <= p < |t.made| && t.made[p].num == n ==> n - (k - 1) - |t.failed| <= p)
                  && (Increasing(Nums(t.made))
                      <==> forall p: nat, q: nat :: p < q < |t.made| ==> t.made[q].num !in t.over[p]))
  {
    var t := Run(id, k, ls);
    var c := ChainOf(t);
    RunChain(id, k, ls);
    var steps :| Sequencing.End(true, k, steps) == c;
    Sequencing.IthNumber(true, k, steps);
    forall i | 0 <= i < |t.asked| ensures t.asked[i].num == i % WRAP {
      assert c.handed[i] == Sequencing.Nth(true, i);
    }
    if |t.asked| <= WRAP {
      Sequencing.EachInOnePlace(true, k, steps, n);
      InOrder(t, k, steps);
    }
  }

  lemma InOrder(t: Trace, k: nat, steps: seq<Sequencing.Label>)
    requires Sequencing.End(true, k, steps) == ChainOf(t) && |t.asked| <= WRAP
    ensures |t.over| == |t.made|
    ensures Increasing(Nums(t.made)) <==> forall p: nat, q: nat :: p < q < |t.made| ==> t.made[q].num !in t.over[p]
  {
    Sequencing.InOrderIff(true, k, steps);
    forall p: nat, q: nat | p < q < |t.made|
      ensures t.made[q].num !in t.over[p] <==> !Sequencing.Overtakes(ChainOf(t), p, q) {}
  }

  // ---- the stream the host sees ----

  lemma {:induction false} ConcatIsStream(made: seq<Frame>, packed: seq<seq<byte>>)
    requires PackedSound(made, packed)
    ensures Concat(packed) == Stream(made)
    decreases |made|
  {
    if made != [] {
      ConcatIsStream(made[1..], packed[1..]);
    }
  }

  /** When as many frames are whole as were written, every piece is whole. */
  lemma {:induction false} AllWhole(packed: seq<seq<byte>>, wire: seq<seq<byte>>)
    requires |wire| <= |packed|
    ensures |Whole(packed, wire)| <= |wire|
    ensures |Whole(packed, wire)| == |wire| ==> wire == packed[..|wire|]
  {
    if wire != [] {
      AllWhole(packed, wire[..|wire| - 1]);
    }
  }

  lemma UnpackPieces(made: seq<Frame>, packed: seq<seq<byte>>)
    requires PackedSound(made, packed)
    ensures UnpackAll(Concat(packed)) == made
  {
    ConcatIsStream(made, packed);
    UnpackStream(made, []);
    assert Stream(made) + [] == Stream(made) && made + UnpackAll([]) == made;
  }

  /** With no aborted frame, unpacking the stream frame by frame returns exactly the frames dequeued so far. */
  lemma StreamReturnsQueued(id: NodeId, k: nat, ls: seq<Label>)
    ensures var t := Run(id, k, ls);
            && |t.wire| <= |t.made|
            && (t.s.framesTx == |t.wire| ==> UnpackAll(Concat(t.wire)) == t.made[..|t.wire|])
  {
    var t := Run(id, k, ls);
    EveryRun(id, k, ls);
    if t.s.framesTx == |t.wire| {
      AllWhole(t.packed, t.wire);
      UnpackPieces(t.made[..|t.wire|], t.packed[..|t.wire|]);
    }
  }
}
