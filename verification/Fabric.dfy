/**
 * A network of nodes as a state machine. Every thread step that another thread can observe is one step:
 * taking a number and packing, queueing, writing, reading, delivering, dropping, passing on.
 * Octets really travel: each hop unpacks what it read and packs what it passes on.
 */
module Fabric {
  import opened Base
  import opened Frames
  import opened Node

  /** The tag names the `send` call a packet stems from; no step looks at it. */
  datatype Packet = Packet(tag: nat, raw: seq<byte>)

  datatype Sending = Sending(origin: nat, dst: NodeId, payload: seq<byte>)

  /** Node ids by position, and where each node's host cable leads. */
  datatype Cabling = Cabling(ids: seq<NodeId>, peer: seq<nat>)

  predicate Wired(cfg: Cabling) {
    |cfg.peer| == |cfg.ids| && forall i :: 0 <= i < |cfg.peer| ==> cfg.peer[i] < |cfg.ids|
  }

  type Config = cfg: Cabling | Wired(cfg) witness Cabling([], [])

  // Each node has eight places a packet can be in; place k of node i is channel 8 * i + k.
  const PENDING: nat := 0   // packed by some thread, not yet queued
  const QUEUED: nat := 1    // in _tx_queue
  const WIRE: nat := 2      // written, on the host cable
  const TAKEN: nat := 3     // read and unpacked by a receive thread
  const LOCAL: nat := 4     // in _rx_queue
  const EXPIRED: nat := 5   // dropped by the hop test
  const REJECTED: nat := 6  // refused by unpack
  const FAILED: nat := 7    // lost because the write failed

  datatype State = State(q: seq<seq<Packet>>, nums: seq<nat>, log: seq<Sending>, forwards: nat)

  predicate Shaped(cfg: Config, s: State) {
    |s.q| == 8 * |cfg.ids| && |s.nums| == |cfg.ids|
  }

  function Empty(n: nat): State {
    State(seq(8 * n, i => []), seq(n, i => 0), [], 0)
  }

  datatype Label =
    | Send(i: nat, dst: NodeId, payload: seq<byte>)
    | Put(i: nat, k: nat)
    | Write(i: nat)
    | Fail(i: nat)
    | Read(i: nat)
    | Deliver(i: nat, k: nat)
    | Expire(i: nat, k: nat)
    | Forward(i: nat, k: nat)

  function VerdictOn(id: NodeId, raw: seq<byte>): Option<Verdict> {
    match Unpack(raw)
    case Err(_) => None
    case Ok(f) => Some(Judge(id, f))
  }

  /** What a node packs for a frame it passes on; steps use it only on such frames. */
  function PassOn(id: NodeId, raw: seq<byte>, num: nat): seq<byte> {
    if VerdictOn(id, raw) == Some(Relay) then Encode(Forwarded(Unpack(raw).value, num)) else raw
  }

  /** The steps below agree with what `UDFNode.ReceiveOne` does to a node that reads these octets. */
  lemma ReceiveMatches(s: NodeState, raw: seq<byte>)
    ensures var s' := Received(s, raw);
            match VerdictOn(s.id, raw)
            case None => s' == s
            case Some(Local) => s'.rx == s.rx + [Unpack(raw).value] && s'.tx == s.tx && s'.nextNum == s.nextNum
            case Some(OutOfHops) =>
              s'.rx == s.rx && s'.tx == s.tx && s'.nextNum == s.nextNum && s'.stats.dropped == s.stats.dropped + 1
            case Some(Relay) =>
              s.nextNum < 0x1_0000_0000 ==>
                s'.rx == s.rx && s'.tx == s.tx + [PassOn(s.id, raw, s.nextNum)] && s'.nextNum == s.nextNum + 1
  {
    if VerdictOn(s.id, raw) == Some(Relay) {
      NormalForm(raw);
    }
  }

  // ---- one step: which packet, where to, and as which octets ----

  function KindBefore(l: Label): (k: nat)
    ensures k < LOCAL
  {
    match l
    case Send(_, _, _) => PENDING
    case Put(_, _) => PENDING
    case Write(_) => QUEUED
    case Fail(_) => QUEUED
    case Read(_) => WIRE
    case _ => TAKEN
  }

  function From(l: Label): nat { 8 * l.i + KindBefore(l) }

  /** Queues and cables are taken from the front; threads finish in any order. */
  function Index(l: Label): nat {
    match l
    case Put(_, k) => k
    case Deliver(_, k) => k
    case Expire(_, k) => k
    case Forward(_, k) => k
    case _ => 0
  }

  /** The verdict a step of this kind needs on the frame it takes. */
  function Need(l: Label): Option<Verdict> {
    match l
    case Deliver(_, _) => Some(Local)
    case Expire(_, _) => Some(OutOfHops)
    case Forward(_, _) => Some(Relay)
    case _ => None
  }

  predicate Guard(id: NodeId, num: nat, l: Label, raw: seq<byte>) {
    (Need(l) != None ==> VerdictOn(id, raw) == Need(l)) && (l.Forward? ==> num < 0x1_0000_0000)
  }

  predicate Enabled(cfg: Config, s: State, l: Label)
    requires Shaped(cfg, s)
  {
    && l.i < |cfg.ids|
    && (l.Send? ==> Encodable(Frame(0, 0, s.nums[l.i], cfg.ids[l.i], l.dst, l.payload)))
    && (!l.Send? ==> Index(l) < |s.q[From(l)]| && Guard(cfg.ids[l.i], s.nums[l.i], l, s.q[From(l)][Index(l)].raw))
  }

  function KindAfter(l: Label, raw: seq<byte>): (k: nat)
    requires !l.Send?
    ensures k < 8 && (l.Forward? || k > KindBefore(l)) && (l.Read? || k != KindBefore(l))
  {
    match l
    case Put(_, _) => QUEUED
    case Write(_) => WIRE
    case Fail(_) => FAILED
    case Read(_) => if Unpack(ReadOf(raw)).Ok? then TAKEN else REJECTED
    case Deliver(_, _) => LOCAL
    case Expire(_, _) => EXPIRED
    case Forward(_, _) => PENDING
  }

  function NodeAfter(cfg: Config, l: Label): (j: nat)
    requires l.i < |cfg.ids|
    ensures j < |cfg.ids| && (!l.Read? ==> j == l.i)
  {
    if l.Read? then cfg.peer[l.i] else l.i
  }

  function To(cfg: Config, l: Label, raw: seq<byte>): (c: nat)
    requires l.i < |cfg.ids| && !l.Send?
    ensures c < 8 * |cfg.ids| && c != From(l)
  {
    8 * NodeAfter(cfg, l) + KindAfter(l, raw)
  }

  lemma Place(i: nat, k: nat)
    requires k < 8
    ensures (8 * i + k) % 8 == k && (8 * i + k) / 8 == i
  {}

  function RawAfter(id: NodeId, num: nat, l: Label, raw: seq<byte>): seq<byte> {
    match l
    case Read(_) => if Unpack(ReadOf(raw)).Ok? then ReadOf(raw) else raw
    case Forward(i, _) => PassOn(id, raw, num)
    case _ => raw
  }

  /** Every step but Send takes one packet out of one channel and puts it at the end of another. */
  datatype Transfer = Transfer(from: nat, k: nat, to: nat, raw: seq<byte>)

  predicate Fits(q: seq<seq<Packet>>, t: Transfer) {
    t.from < |q| && t.to < |q| && t.from != t.to && t.k < |q[t.from]|
  }

  function TransferOf(cfg: Config, s: State, l: Label): (t: Transfer)
    requires Shaped(cfg, s) && Enabled(cfg, s, l) && !l.Send?
    ensures Fits(s.q, t)
  {
    var raw := s.q[From(l)][Index(l)].raw;
    Transfer(From(l), Index(l), To(cfg, l, raw), RawAfter(cfg.ids[l.i], s.nums[l.i], l, raw))
  }

  function Moved(q: seq<seq<Packet>>, t: Transfer): (q': seq<seq<Packet>>)
    requires Fits(q, t)
    ensures |q'| == |q|
  {
    q[t.from := q[t.from][..t.k] + q[t.from][t.k + 1..]]
     [t.to := q[t.to] + [Packet(q[t.from][t.k].tag, t.raw)]]
  }

  function FirstFrame(cfg: Config, s: State, l: Label): Frame
    requires |s.nums| == |cfg.ids| && l.i < |cfg.ids| && l.Send?
  {
    Frame(0, 0, s.nums[l.i], cfg.ids[l.i], l.dst, l.payload)
  }

  function FirstPacket(cfg: Config, s: State, l: Label): Packet
    requires |s.nums| == |cfg.ids| && l.i < |cfg.ids| && l.Send?
  {
    Packet(|s.log|, Encode(FirstFrame(cfg, s, l)))
  }

  /** One step; a label that is not enabled changes nothing. */
  function Do(cfg: Config, s: State, l: Label): (s': State)
    requires Shaped(cfg, s)
    ensures Shaped(cfg, s')
  {
    if !Enabled(cfg, s, l) then s
    else if l.Send? then
      var c, i := From(l), l.i;
      State(s.q[c := s.q[c] + [FirstPacket(cfg, s, l)]], s.nums[i := s.nums[i] + 1],
            s.log + [Sending(i, l.dst, l.payload)], s.forwards)
    else
      var s' := s.(q := Moved(s.q, TransferOf(cfg, s, l)));
      if l.Forward? then s'.(nums := s.nums[l.i := s.nums[l.i] + 1], forwards := s.forwards + 1) else s'
  }

  lemma DoSend(cfg: Config, s: State, l: Label)
    requires Shaped(cfg, s) && Enabled(cfg, s, l) && l.Send?
    ensures var c := From(l);
            Do(cfg, s, l).q == s.q[c := s.q[c] + [FirstPacket(cfg, s, l)]]
    ensures Do(cfg, s, l).log == s.log + [Sending(l.i, l.dst, l.payload)]
  {}

  /** A send is a step exactly when `UDFNode.Send` queues a frame, the same frame under the same counter. */
  lemma SendMatches(cfg: Config, s: State, l: Label, node: NodeState)
    requires Shaped(cfg, s) && l.Send? && l.i < |cfg.ids|
    requires node.id == cfg.ids[l.i] && node.nextNum == s.nums[l.i]
    ensures var node', s' := Sent(node, l.dst, l.payload), Do(cfg, s, l);
            var c := 8 * l.i + PENDING;
            if Enabled(cfg, s, l)
            then |s'.q[c]| == |s.q[c]| + 1 && node'.tx == node.tx + [s'.q[c][|s.q[c]|].raw]
                 && s'.nums[l.i] == node'.nextNum
            else s' == s && node'.tx == node.tx
  {}

  /** One packet goes from place k of channel c to the end of channel c', and nothing else moves. */
  predicate Shifts(q: seq<seq<Packet>>, q': seq<seq<Packet>>, c: nat, k: nat, c': nat) {
    && |q'| == |q| && c < |q| && c' < |q| && c != c' && k < |q[c]|
    && q'[c] == q[c][..k] + q[c][k + 1..]
    && |q'[c']| == |q[c']| + 1 && q'[c'][..|q[c']|] == q[c'] && q'[c'][|q[c']|].tag == q[c][k].tag
    && forall b :: 0 <= b < |q| && b != c && b != c' ==> q'[b] == q[b]
  }

  lemma MovedShifts(q: seq<seq<Packet>>, t: Transfer)
    requires Fits(q, t)
    ensures Shifts(q, Moved(q, t), t.from, t.k, t.to) && Moved(q, t)[t.to][|q[t.to]|].raw == t.raw
  {}

  datatype Route = Route(from: nat, k: nat, to: nat)

  /**
   * What each step other than a send moves: writes, failures and reads take the oldest queued or written, a read
   * carries it to the node the cable leads to, and threads finish in any order.
   */
  function RouteOf(cfg: Config, l: Label, accepted: bool): Route
    requires l.i < |cfg.ids| && !l.Send?
  {
    match l
    case Put(i, k) => Route(8 * i, k, 8 * i + 1)
    case Write(i) => Route(8 * i + 1, 0, 8 * i + 2)
    case Fail(i) => Route(8 * i + 1, 0, 8 * i + 7)
    case Read(i) => Route(8 * i + 2, 0, 8 * cfg.peer[i] + if accepted then 3 else 6)
    case Deliver(i, k) => Route(8 * i + 3, k, 8 * i + 4)
    case Expire(i, k) => Route(8 * i + 3, k, 8 * i + 5)
    case Forward(i, k) => Route(8 * i + 3, k, 8 * i)
  }

  lemma TransferRoute(cfg: Config, s: State, l: Label)
    requires Shaped(cfg, s) && Enabled(cfg, s, l) && !l.Send?
    ensures var t := TransferOf(cfg, s, l);
            Route(t.from, t.k, t.to) == RouteOf(cfg, l, Unpack(ReadOf(s.q[t.from][t.k].raw)).Ok?)
  {}

  /** Each step moves its one packet as said, and nothing else. */
  lemma StepShifts(cfg: Config, s: State, l: Label)
    requires Shaped(cfg, s) && Enabled(cfg, s, l) && !l.Send?
    ensures exists accepted ::
              var r := RouteOf(cfg, l, accepted);
              && Shifts(s.q, Do(cfg, s, l).q, r.from, r.k, r.to)
              && accepted == Unpack(ReadOf(s.q[r.from][r.k].raw)).Ok?
  {
    MovedShifts(s.q, TransferOf(cfg, s, l));
    TransferRoute(cfg, s, l);
    var t := TransferOf(cfg, s, l);
    var accepted := Unpack(ReadOf(s.q[t.from][t.k].raw)).Ok?;
    assert RouteOf(cfg, l, accepted) == Route(t.from, t.k, t.to);
  }

  lemma PassedOn(id: NodeId, raw: seq<byte>, num: nat)
    requires VerdictOn(id, raw) == Some(Relay) && num < 0x1_0000_0000
    ensures Unpack(PassOn(id, raw, num)).Ok? && IsRelayOf(Unpack(raw).value, Unpack(PassOn(id, raw, num)).value, num)
  {
    UnpackedFits(raw);
    PackUnpack(Forwarded(Unpack(raw).value, num));
  }

  /** What a step makes of the octets: a read cuts them at 16388, a forward packs the relayed frame, no other does. */
  lemma StepOctets(cfg: Config, s: State, l: Label, c: nat, k: nat, c': nat)
    requires Shaped(cfg, s) && Enabled(cfg, s, l) && !l.Send? && Shifts(s.q, Do(cfg, s, l).q, c, k, c')
    requires c == From(l) && k == Index(l)
    ensures var was, now := s.q[c][k].raw, Do(cfg, s, l).q[c'][|s.q[c']|].raw;
            if l.Forward? then
              Unpack(was).Ok? && Unpack(now).Ok? && IsRelayOf(Unpack(was).value, Unpack(now).value, s.nums[l.i])
            else if l.Read? && Unpack(was[..if |was| < 16388 then |was| else 16388]).Ok? then
              now == was[..if |was| < 16388 then |was| else 16388]
            else now == was
  {
    var was, t := s.q[c][k].raw, TransferOf(cfg, s, l);
    MovedShifts(s.q, t);
    assert c' == t.to;
    if l.Forward? {
      PassedOn(cfg.ids[l.i], was, s.nums[l.i]);
    } else if l.Read? {
      assert ReadOf(was) == was[..if |was| < 16388 then |was| else 16388];
    }
  }

  /** A run is a list of labels. */
  function End(cfg: Config, s: State, ls: seq<Label>): (e: State)
    requires Shaped(cfg, s)
    ensures Shaped(cfg, e)
    decreases |ls|
  {
    if ls == [] then s else End(cfg, Do(cfg, s, ls[0]), ls[1..])
  }

  // ---- sums over all packets ----

  type Weight = (nat, Packet) -> nat

  function SumIn(c: nat, ps: seq<Packet>, w: Weight): nat {
    if ps == [] then 0 else SumIn(c, ps[..|ps| - 1], w) + w(c, ps[|ps| - 1])
  }

  function Total(q: seq<seq<Packet>>, w: Weight): nat {
    if q == [] then 0 else Total(q[..|q| - 1], w) + SumIn(|q| - 1, q[|q| - 1], w)
  }

  lemma {:induction false} SumConcat(c: nat, a: seq<Packet>, b: seq<Packet>, w: Weight)
    ensures SumIn(c, a + b, w) == SumIn(c, a, w) + SumIn(c, b, w)
    decreases |b|
  {
    if b == [] {
      assert a + b == a;
    } else {
      assert (a + b)[..|a + b| - 1] == a + b[..|b| - 1];
      SumConcat(c, a, b[..|b| - 1], w);
    }
  }

  lemma SumOne(c: nat, p: Packet, w: Weight)
    ensures SumIn(c, [p], w) == w(c, p)
  {
    assert [p][..0] == [];
  }

  lemma SumWithout(c: nat, ps: seq<Packet>, k: nat, w: Weight)
    requires k < |ps|
    ensures SumIn(c, ps, w) == SumIn(c, ps[..k] + ps[k + 1..], w) + w(c, ps[k])
  {
    assert ps == ps[..k] + ([ps[k]] + ps[k + 1..]);
    SumConcat(c, ps[..k], [ps[k]] + ps[k + 1..], w);
    SumConcat(c, [ps[k]], ps[k + 1..], w);
    SumConcat(c, ps[..k], ps[k + 1..], w);
    SumOne(c, ps[k], w);
  }

  lemma {:induction false} TotalUpdate(q: seq<seq<Packet>>, c: nat, ps: seq<Packet>, w: Weight)
    requires c < |q|
    ensures Total(q[c := ps], w) + SumIn(c, q[c], w) == Total(q, w) + SumIn(c, ps, w)
    decreases |q|
  {
    var m := |q| - 1;
    if c == m {
      assert q[c := ps][..m] == q[..m];
    } else {
      assert q[c := ps][..m] == q[..m][c := ps];
      TotalUpdate(q[..m], c, ps, w);
    }
  }

  lemma TotalAppend(q: seq<seq<Packet>>, c: nat, p: Packet, w: Weight)
    requires c < |q|
    ensures Total(q[c := q[c] + [p]], w) == Total(q, w) + w(c, p)
  {
    TotalUpdate(q, c, q[c] + [p], w);
    SumConcat(c, q[c], [p], w);
    SumOne(c, p, w);
  }

  /** What a transfer does to any sum: the packet's old weight goes, its new weight comes. */
  lemma TotalMoved(q: seq<seq<Packet>>, t: Transfer, w: Weight)
    requires Fits(q, t)
    ensures Total(Moved(q, t), w) + w(t.from, q[t.from][t.k])
         == Total(q, w) + w(t.to, Packet(q[t.from][t.k].tag, t.raw))
  {
    var ps := q[t.from];
    var q1 := q[t.from := ps[..t.k] + ps[t.k + 1..]];
    TotalUpdate(q, t.from, ps[..t.k] + ps[t.k + 1..], w);
    SumWithout(t.from, ps, t.k, w);
    TotalAppend(q1, t.to, Packet(ps[t.k].tag, t.raw), w);
  }

  lemma {:induction false} TotalEmpty(n: nat, w: Weight)
    ensures Total(seq(n, i => []), w) == 0
  {
    if n > 0 {
      TotalEmpty(n - 1, w);
      assert seq<seq<Packet>>(n, i => [])[..n - 1] == seq(n - 1, i => []);
    }
  }

  // ---- properties of all packets ----

  type Property = (nat, Packet) -> bool

  ghost predicate Holds(q: seq<seq<Packet>>, ok: Property) {
    forall c, k :: 0 <= c < |q| && 0 <= k < |q[c]| ==> ok(c, q[c][k])
  }

  lemma MovedHolds(q: seq<seq<Packet>>, t: Transfer, ok: Property)
    requires Fits(q, t) && Holds(q, ok) && ok(t.to, Packet(q[t.from][t.k].tag, t.raw))
    ensures Holds(Moved(q, t), ok)
  {
    var q' := Moved(q, t);
    forall c, k | 0 <= c < |q'| && 0 <= k < |q'[c]| ensures ok(c, q'[c][k]) {
      if c == t.from {
        assert q'[c][k] == q[c][if k < t.k then k else k + 1];
      } else if c != t.to || k < |q[c]| {
        assert q'[c][k] == q[c][k];
      }
    }
  }

  /** The same, for a property of kind, node and packet. */
  type PlaceProperty = (nat, nat, Packet) -> bool

  function ByPlace(f: PlaceProperty): Property { (c: nat, p: Packet) => f(c % 8, c / 8, p) }

  lemma ByPlaceAt(f: PlaceProperty, kind: nat, i: nat, p: Packet)
    requires kind < 8
    ensures ByPlace(f)(8 * i + kind, p) == f(kind, i, p)
  {
    Place(i, kind);
  }

  lemma HoldsAt(q: seq<seq<Packet>>, f: PlaceProperty, kind: nat, i: nat, k: nat)
    requires kind < 8 && 8 * i + kind < |q| && k < |q[8 * i + kind]| && Holds(q, ByPlace(f))
    ensures f(kind, i, q[8 * i + kind][k])
  {
    ByPlaceAt(f, kind, i, q[8 * i + kind][k]);
  }

  lemma AppendHolds(q: seq<seq<Packet>>, p: Packet, f: PlaceProperty, k: nat, i: nat)
    requires k < 8 && 8 * i + k < |q| && Holds(q, ByPlace(f)) && f(k, i, p)
    ensures var c := 8 * i + k;
            Holds(q[c := q[c] + [p]], ByPlace(f))
  {
    ByPlaceAt(f, k, i, p);
  }

  /** A property of all packets survives a transfer that makes of the packet it takes one with the property. */
  lemma TransferHolds(q: seq<seq<Packet>>, t: Transfer, f: PlaceProperty, k: nat, i: nat, k': nat, i': nat)
    requires Fits(q, t) && k < 8 && k' < 8 && t.from == 8 * i + k && t.to == 8 * i' + k' && Holds(q, ByPlace(f))
    requires var p := q[t.from][t.k];
             f(k, i, p) ==> f(k', i', Packet(p.tag, t.raw))
    ensures Holds(Moved(q, t), ByPlace(f))
  {
    var p := q[t.from][t.k];
    HoldsAt(q, f, k, i, t.k);
    ByPlaceAt(f, k', i', Packet(p.tag, t.raw));
    MovedHolds(q, t, ByPlace(f));
  }

  /** Weights by kind, node and packet. */
  type PlaceWeight = (nat, nat, Packet) -> nat

  function WeightByPlace(f: PlaceWeight): Weight { (c: nat, p: Packet) => f(c % 8, c / 8, p) }

  lemma WeightByPlaceAt(f: PlaceWeight, kind: nat, i: nat, p: Packet)
    requires kind < 8
    ensures WeightByPlace(f)(8 * i + kind, p) == f(kind, i, p)
  {
    Place(i, kind);
  }

  lemma TotalMovedBy(q: seq<seq<Packet>>, t: Transfer, w: Weight, before: nat, after: nat)
    requires Fits(q, t) && w(t.from, q[t.from][t.k]) == before
    requires w(t.to, Packet(q[t.from][t.k].tag, t.raw)) == after
    ensures Total(Moved(q, t), w) + before == Total(q, w) + after
  {
    TotalMoved(q, t, w);
  }

  lemma TransferTotal(q: seq<seq<Packet>>, t: Transfer, f: PlaceWeight, k: nat, i: nat, k': nat, i': nat)
    requires Fits(q, t) && k < 8 && k' < 8 && t.from == 8 * i + k && t.to == 8 * i' + k'
    ensures var w, p := WeightByPlace(f), q[t.from][t.k];
            Total(Moved(q, t), w) + f(k, i, p) == Total(q, w) + f(k', i', Packet(p.tag, t.raw))
  {
    var p := q[t.from][t.k];
    var p' := Packet(p.tag, t.raw);
    WeightByPlaceAt(f, k, i, p);
    WeightByPlaceAt(f, k', i', p');
    TotalMovedBy(q, t, WeightByPlace(f), f(k, i, p), f(k', i', p'));
  }
}
