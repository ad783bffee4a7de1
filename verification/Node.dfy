/** The full-duplex node of src/common/node.py: one method per call or loop iteration. */
module Node {
  import opened Base
  import opened Frames

  const HOP_LIMIT: nat := 15

  /** flags | FLAG_FWD */
  function WithFwd(flags: byte): (r: byte)
    ensures r / 8 % 2 == 1
    ensures r == flags || r == flags + 8
    ensures r / 16 == flags / 16 && r % 8 == flags % 8
  {
    if flags / 8 % 2 == 1 then flags else flags + 8
  }

  /** What a node does with an intact frame. */
  datatype Verdict = Local | Relay | OutOfHops

  function Judge(id: NodeId, f: Frame): Verdict {
    if f.dst == id || f.dst == BROADCAST then Local
    else if f.hop >= HOP_LIMIT then OutOfHops
    else Relay
  }

  /** The frame sent on: one hop more, marked, renumbered. */
  function Forwarded(f: Frame, num: nat): (g: Frame)
    requires f.hop < HOP_LIMIT
    ensures g.src == f.src && g.dst == f.dst && g.payload == f.payload && g.hop == f.hop + 1
  {
    f.(flags := WithFwd(f.flags), hop := f.hop + 1, num := num)
  }

  /** Whatever was read from a receive buffer can be forwarded without outgrowing the next one. */
  lemma ForwardFits(d: seq<byte>, num: nat)
    requires |d| <= READ_SIZE && Unpack(d).Ok? && Unpack(d).value.hop < HOP_LIMIT
    ensures |Encode(Forwarded(Unpack(d).value, num))| <= |d|
  {
    NormalForm(d);
  }

  datatype Stats = Stats(framesRx: nat, framesTx: nat, bytesRx: nat, bytesTx: nat, forwarded: nat, dropped: nat)

  datatype NodeState = NodeState(
    id: NodeId, rx: seq<Frame>, tx: seq<seq<byte>>, nextNum: nat, stats: Stats)

  /** The counter advances even when packing fails; then nothing is queued. */
  function Sent(s: NodeState, dst: NodeId, payload: seq<byte>): NodeState {
    var s' := s.(nextNum := s.nextNum + 1);
    match Pack(Frame(0, 0, s.nextNum, s.id, dst, payload))
    case Err(_) => s'
    case Ok(raw) =>
      s'.(tx := s.tx + [raw],
          stats := s.stats.(framesTx := s.stats.framesTx + 1, bytesTx := s.stats.bytesTx + |payload|))
  }

  function Passed(s: NodeState, f: Frame): NodeState {
    if f.dst == s.id then s
    else if f.hop >= HOP_LIMIT then s.(stats := s.stats.(dropped := s.stats.dropped + 1))
    else
      var s' := s.(nextNum := s.nextNum + 1);
      match Pack(Forwarded(f, s.nextNum))
      case Err(_) => s'
      case Ok(raw) => s'.(tx := s.tx + [raw], stats := s.stats.(forwarded := s.stats.forwarded + 1))
  }

  /** An intact frame is counted, then delivered or passed on. */
  function TakenIn(s: NodeState, f: Frame): NodeState {
    var s' := s.(stats := s.stats.(framesRx := s.stats.framesRx + 1, bytesRx := s.stats.bytesRx + |f.payload|));
    if f.dst == s.id || f.dst == BROADCAST then s'.(rx := s.rx + [f]) else Passed(s', f)
  }

  function Received(s: NodeState, data: seq<byte>): NodeState {
    match Unpack(data)
    case Err(_) => s
    case Ok(f) => TakenIn(s, f)
  }

  class UDFNode {
    const nodeId: NodeId
    const hasHost: bool
    var rxQueue: seq<Frame>
    var txQueue: seq<seq<byte>>
    var seqHostTx: nat
    var framesRx: nat
    var framesTx: nat
    var bytesRx: nat
    var bytesTx: nat
    var forwarded: nat
    var dropped: nat

    constructor (id: NodeId, host: bool)
      ensures View() == NodeState(id, [], [], 0, Stats(0, 0, 0, 0, 0, 0)) && hasHost == host
    {
      nodeId, hasHost := id, host;
      rxQueue, txQueue, seqHostTx := [], [], 0;
      framesRx, framesTx, bytesRx, bytesTx, forwarded, dropped := 0, 0, 0, 0, 0, 0;
    }

    function View(): NodeState
      reads this
    {
      NodeState(nodeId, rxQueue, txQueue, seqHostTx, Stats(framesRx, framesTx, bytesRx, bytesTx, forwarded, dropped))
    }

    method Send(dst: NodeId, payload: seq<byte>) returns (ok: bool)
      modifies this
      ensures View() == Sent(old(View()), dst, payload)
      ensures ok <==> old(seqHostTx) < WRAP && |payload| < 0x1_0000
    {
      var num := seqHostTx;
      seqHostTx := seqHostTx + 1;
      var raw := Pack(Frame(0, 0, num, nodeId, dst, payload));
      if raw.Err? {
        return false;
      }
      txQueue := txQueue + [raw.value];
      framesTx := framesTx + 1;
      bytesTx := bytesTx + |payload|;
      return true;
    }

    method Recv() returns (f: Option<Frame>)
      modifies this
      ensures old(rxQueue) == [] ==> f == None && View() == old(View())
      ensures old(rxQueue) != [] ==> f == Some(old(rxQueue)[0]) && View() == old(View()).(rx := old(rxQueue)[1..])
    {
      if rxQueue == [] {
        return None;
      }
      f := Some(rxQueue[0]);
      rxQueue := rxQueue[1..];
    }

    /** Not ok: packing raised, because the number or the payload no longer fits; the number is used up all the same. */
    method Forward(f: Frame) returns (ok: bool)
      modifies this
      ensures View() == Passed(old(View()), f)
      ensures ok <==> f.dst == nodeId || f.hop >= HOP_LIMIT || (old(seqHostTx) < WRAP && |f.payload| < 0x1_0000)
    {
      if f.dst == nodeId {
        return true;
      }
      if f.hop >= HOP_LIMIT {
        dropped := dropped + 1;
        return true;
      }
      var num := seqHostTx;
      seqHostTx := seqHostTx + 1;
      var raw := Pack(Forwarded(f, num));
      if raw.Err? {
        return false;
      }
      txQueue := txQueue + [raw.value];
      forwarded := forwarded + 1;
      return true;
    }

    /**
     * One iteration of either receive loop, on the octets one read returned. The loop survives unless a frame
     * is to be forwarded and the numbers have run out: that error is not caught.
     */
    method ReceiveOne(data: seq<byte>) returns (alive: bool)
      modifies this
      ensures View() == Received(old(View()), data)
      ensures alive <==> !(Unpack(data).Ok? && Judge(nodeId, Unpack(data).value) == Relay && old(seqHostTx) >= WRAP)
    {
      var r := Unpack(data);
      if r.Err? {
        return true;
      }
      alive := Accept(r.value);
    }

    method Accept(f: Frame) returns (alive: bool)
      requires |f.payload| < 0x1_0000
      modifies this
      ensures View() == TakenIn(old(View()), f)
      ensures alive <==> !(Judge(nodeId, f) == Relay && old(seqHostTx) >= WRAP)
    {
      framesRx := framesRx + 1;
      bytesRx := bytesRx + |f.payload|;
      if f.dst == nodeId || f.dst == BROADCAST {
        rxQueue := rxQueue + [f];
        return true;
      }
      alive := Forward(f);
    }

    /** One iteration of the transmit loop; `fails` is what the write does if there is a device to write to. */
    method TransmitOne(fails: bool) returns (written: Option<seq<byte>>)
      modifies this
      ensures old(txQueue) == [] ==> written == None && View() == old(View())
      ensures old(txQueue) != [] ==>
        var s := old(View());
        && written == (if hasHost && !fails then Some(s.tx[0]) else None)
        && View() == s.(tx := s.tx[1..],
                        stats := if hasHost && fails then s.stats.(dropped := s.stats.dropped + 1) else s.stats)
    {
      if txQueue == [] {
        return None;
      }
      var raw := txQueue[0];
      txQueue := txQueue[1..];
      written := None;
      if hasHost {
        if fails {
          dropped := dropped + 1;
        } else {
          written := Some(raw);
        }
      }
    }
  }

  // ---- the octets a node queues ----

  /** g is f passed on under number num: one hop more, bit 3 of the flags set, every other bit and field as it was. */
  predicate IsRelayOf(f: Frame, g: Frame, num: nat) {
    && g.src == f.src && g.dst == f.dst && g.payload == f.payload && g.hop == f.hop + 1 && g.num == num
    && g.flags / 8 % 2 == 1 && g.flags % 8 == f.flags % 8 && g.flags / 16 == f.flags / 16
  }

  lemma ForwardedIsRelay(f: Frame, num: nat)
    requires f.hop < HOP_LIMIT
    ensures IsRelayOf(f, Forwarded(f, num), num)
  {}

  /**
   * A frame one node queues, once read and passed on by the next, differs from the original only in
   * hop, FWD flag and number; the payload survives any number of such hops.
   */
  lemma RelayOnce(s: NodeState, f: Frame)
    requires Encodable(f) && Judge(s.id, f) == Relay && s.nextNum < 0x1_0000_0000
    ensures var s' := Received(s, Encode(f));
            && |s'.tx| == |s.tx| + 1 && s'.tx[..|s.tx|] == s.tx && s'.rx == s.rx
            && Unpack(s'.tx[|s.tx|]).Ok?
            && IsRelayOf(f, Unpack(s'.tx[|s.tx|]).value, s.nextNum)
  {
    PackUnpack(f);
    PackUnpack(Forwarded(f, s.nextNum));
  }

  /** send: what the neighbour will unpack, and every counter. */
  lemma SentOctets(s: NodeState, dst: NodeId, payload: seq<byte>)
    ensures var s', fits := Sent(s, dst, payload), s.nextNum < 0x1_0000_0000 && |payload| < 0x1_0000;
            && s'.id == s.id && s'.rx == s.rx && s'.nextNum == s.nextNum + 1
            && (!fits ==> s'.tx == s.tx && s'.stats == s.stats)
            && (fits ==>
                  && |s'.tx| == |s.tx| + 1 && s'.tx[..|s.tx|] == s.tx
                  && Unpack(s'.tx[|s.tx|]) == Ok(Frame(0, 0, s.nextNum, s.id, dst, payload))
                  && s'.stats == Stats(s.stats.framesRx, s.stats.framesTx + 1, s.stats.bytesRx,
                                       s.stats.bytesTx + |payload|, s.stats.forwarded, s.stats.dropped))
  {
    PackUnpack(Frame(0, 0, s.nextNum, s.id, dst, payload));
  }

  /** forward, on any frame: nothing for self, a drop at fifteen hops, else one relayed frame queued. */
  lemma PassedOctets(s: NodeState, f: Frame)
    ensures var s' := Passed(s, f);
            var fits := s.nextNum < 0x1_0000_0000 && |f.payload| < 0x1_0000;
            && s'.id == s.id && s'.rx == s.rx
            && (f.dst == s.id ==> s' == s)
            && (f.dst != s.id && f.hop >= 15 ==>
                  s' == s.(stats := s.stats.(dropped := s.stats.dropped + 1)))
            && (f.dst != s.id && f.hop < 15 ==>
                  && s'.nextNum == s.nextNum + 1
                  && (!fits ==> s'.tx == s.tx && s'.stats == s.stats)
                  && (fits ==>
                        && s'.stats == s.stats.(forwarded := s.stats.forwarded + 1)
                        && |s'.tx| == |s.tx| + 1 && s'.tx[..|s.tx|] == s.tx && Unpack(s'.tx[|s.tx|]).Ok?
                        && IsRelayOf(f, Unpack(s'.tx[|s.tx|]).value, s.nextNum)))
  {
    if f.hop < HOP_LIMIT {
      PackUnpack(Forwarded(f, s.nextNum));
    }
  }

  /** One pass of the receive loop over any octets: what is queued where, as which frame, and every counter. */
  lemma ReceivedOctets(s: NodeState, data: seq<byte>)
    ensures var s' := Received(s, data);
            && s'.id == s.id
            && (Unpack(data).Err? ==> s' == s)
            && (Unpack(data).Ok? ==>
                  var f, a, b := Unpack(data).value, s.stats, s'.stats;
                  var mine := f.dst == s.id || f.dst == 0xFF;
                  var relayed := !mine && f.hop < 15 && s.nextNum < 0x1_0000_0000;
                  && b.framesRx == a.framesRx + 1 && b.bytesRx == a.bytesRx + |f.payload|
                  && b.framesTx == a.framesTx && b.bytesTx == a.bytesTx
                  && b.dropped == a.dropped + (if !mine && f.hop >= 15 then 1 else 0)
                  && b.forwarded == a.forwarded + (if relayed then 1 else 0)
                  && s'.rx == s.rx + (if mine then [f] else [])
                  && s'.nextNum == s.nextNum + (if !mine && f.hop < 15 then 1 else 0)
                  && |s'.tx| == |s.tx| + (if relayed then 1 else 0) && s'.tx[..|s.tx|] == s.tx
                  && (relayed ==>
                        Unpack(s'.tx[|s.tx|]).Ok? && IsRelayOf(f, Unpack(s'.tx[|s.tx|]).value, s.nextNum)))
  {
    if Unpack(data).Ok? && Judge(s.id, Unpack(data).value) == Relay {
      UnpackedFits(data);
      PackUnpack(Forwarded(Unpack(data).value, s.nextNum));
    }
  }
}
