/** What holds in every run of the fabric, whatever the cabling: nothing is duplicated or forgotten, and it ends. */
module FabricRuns {
  import opened Base
  import opened Frames
  import opened Node
  import opened Fabric

  // ---- weights ----

  function IsTag(t: nat): Weight { (c: nat, p: Packet) => if p.tag == t then 1 else 0 }

  /** How often these octets can still be passed on. */
  function HopsLeft(raw: seq<byte>): (h: nat)
    ensures h <= HOP_LIMIT
  {
    match Unpack(raw)
    case Ok(f) => if f.hop < HOP_LIMIT then HOP_LIMIT - f.hop else 0
    case Err(_) => 0
  }

  function ForwardsLeft(): Weight { (c: nat, p: Packet) => HopsLeft(p.raw) }

  /** How many more steps a packet in a place of this kind can take part in. */
  function Urgency(kind: nat, raw: seq<byte>): nat {
    if kind < LOCAL then 4 * HopsLeft(raw) + (LOCAL - kind) else 0
  }

  function UrgencyAt(): PlaceWeight { (kind: nat, node: nat, p: Packet) => Urgency(kind, p.raw) }

  function StepsLeft(): Weight { WeightByPlace(UrgencyAt()) }

  // ---- octets ----

  lemma FreshHops(f: Frame)
    requires Encodable(f) && f.hop == 0
    ensures HopsLeft(Encode(f)) == HOP_LIMIT
  {
    PackUnpack(f);
  }

  lemma PassOnHops(id: NodeId, raw: seq<byte>, num: nat)
    requires VerdictOn(id, raw) == Some(Relay) && num < 0x1_0000_0000
    ensures HopsLeft(raw) >= 1 && HopsLeft(PassOn(id, raw, num)) == HopsLeft(raw) - 1
  {
    NormalForm(raw);
    PackUnpack(Forwarded(Unpack(raw).value, num));
  }

  lemma ReadHops(raw: seq<byte>)
    requires Unpack(ReadOf(raw)).Ok?
    ensures HopsLeft(ReadOf(raw)) == HopsLeft(raw)
  {
    TrailingIgnored(ReadOf(raw), raw[|ReadOf(raw)|..]);
    assert raw == ReadOf(raw) + raw[|ReadOf(raw)|..];
  }

  /** Octets that a node packed. */
  predicate Genuine(raw: seq<byte>) {
    Unpack(raw).Ok? && raw == Encode(Unpack(raw).value)
  }

  lemma EncodeGenuine(f: Frame)
    requires Encodable(f)
    ensures Genuine(Encode(f)) && Unpack(Encode(f)).value == f
  {
    PackUnpack(f);
  }

  lemma PassOnGenuine(id: NodeId, raw: seq<byte>, num: nat)
    requires VerdictOn(id, raw) == Some(Relay) && num < 0x1_0000_0000
    ensures Genuine(PassOn(id, raw, num)) && Unpack(PassOn(id, raw, num)).value == Forwarded(Unpack(raw).value, num)
  {
    NormalForm(raw);
    EncodeGenuine(Forwarded(Unpack(raw).value, num));
  }

  /** A read gets a genuine frame whole, or too little of it for `unpack` to accept. */
  lemma ReadGenuine(raw: seq<byte>)
    requires Genuine(raw)
    ensures Unpack(ReadOf(raw)).Ok? <==> ReadsWhole(Unpack(raw).value)
    ensures Unpack(ReadOf(raw)).Ok? ==> ReadOf(raw) == raw
  {
    NormalForm(raw);
    ReadEncode(Unpack(raw).value);
  }

  // ---- one step ----

  lemma SendStep(cfg: Config, s: State, l: Label, w: Weight)
    requires Shaped(cfg, s) && Enabled(cfg, s, l) && l.Send?
    ensures Total(Do(cfg, s, l).q, w) == Total(s.q, w) + w(From(l), FirstPacket(cfg, s, l))
  {
    TotalAppend(s.q, From(l), FirstPacket(cfg, s, l), w);
  }

  lemma OtherStep(cfg: Config, s: State, l: Label, w: Weight)
    requires Shaped(cfg, s) && Enabled(cfg, s, l) && !l.Send?
    ensures var t := TransferOf(cfg, s, l);
            var p := s.q[t.from][t.k];
            Total(Do(cfg, s, l).q, w) + w(t.from, p) == Total(s.q, w) + w(t.to, Packet(p.tag, t.raw))
  {
    TotalMoved(s.q, TransferOf(cfg, s, l), w);
  }

  lemma TagStep(cfg: Config, s: State, l: Label, t: nat)
    requires Shaped(cfg, s) && Enabled(cfg, s, l)
    ensures Total(Do(cfg, s, l).q, IsTag(t)) == Total(s.q, IsTag(t)) + if l.Send? && t == |s.log| then 1 else 0
  {
    if l.Send? {
      SendStep(cfg, s, l, IsTag(t));
    } else {
      OtherStep(cfg, s, l, IsTag(t));
    }
  }

  lemma HopsAfter(id: NodeId, num: nat, l: Label, raw: seq<byte>)
    requires !l.Send? && Guard(id, num, l, raw)
    ensures HopsLeft(raw) == HopsLeft(RawAfter(id, num, l, raw)) + if l.Forward? then 1 else 0
  {
    match l
    case Read(_) => if Unpack(ReadOf(raw)).Ok? { ReadHops(raw); }
    case Forward(_, _) => PassOnHops(id, raw, num);
    case _ =>
  }

  /** Each forward is paid for by one remaining hop of the packet it passes on. */
  lemma ForwardStep(cfg: Config, s: State, l: Label)
    requires Shaped(cfg, s) && Enabled(cfg, s, l)
    ensures Do(cfg, s, l).forwards + Total(Do(cfg, s, l).q, ForwardsLeft())
         == s.forwards + Total(s.q, ForwardsLeft()) + if l.Send? then HOP_LIMIT else 0
  {
    if l.Send? {
      SendStep(cfg, s, l, ForwardsLeft());
      FreshHops(FirstFrame(cfg, s, l));
    } else {
      OtherStep(cfg, s, l, ForwardsLeft());
      HopsAfter(cfg.ids[l.i], s.nums[l.i], l, s.q[From(l)][Index(l)].raw);
    }
  }

  /** A packet's place moves down the list, except when it is passed on, which costs a hop. */
  lemma UrgencyDrops(id: NodeId, num: nat, l: Label, raw: seq<byte>)
    requires !l.Send? && Guard(id, num, l, raw)
    ensures Urgency(KindAfter(l, raw), RawAfter(id, num, l, raw)) < Urgency(KindBefore(l), raw)
  {
    HopsAfter(id, num, l, raw);
  }

  lemma FreshUrgency(f: Frame, i: nat, tag: nat)
    requires Encodable(f) && f.hop == 0
    ensures UrgencyAt()(PENDING, i, Packet(tag, Encode(f))) == 64
  {
    FreshHops(f);
  }

  lemma FreshWeight(f: Frame, i: nat, tag: nat)
    requires Encodable(f) && f.hop == 0
    ensures StepsLeft()(8 * i + PENDING, Packet(tag, Encode(f))) == 64
  {
    FreshUrgency(f, i, tag);
    WeightByPlaceAt(UrgencyAt(), PENDING, i, Packet(tag, Encode(f)));
  }

  lemma SendRank(cfg: Config, s: State, l: Label)
    requires Shaped(cfg, s) && Enabled(cfg, s, l) && l.Send?
    ensures Total(Do(cfg, s, l).q, StepsLeft()) == Total(s.q, StepsLeft()) + 64
  {
    SendStep(cfg, s, l, StepsLeft());
    FreshWeight(FirstFrame(cfg, s, l), l.i, |s.log|);
  }

  lemma OtherRank(cfg: Config, s: State, l: Label)
    requires Shaped(cfg, s) && Enabled(cfg, s, l) && !l.Send?
    ensures Total(Do(cfg, s, l).q, StepsLeft()) < Total(s.q, StepsLeft())
  {
    var t := TransferOf(cfg, s, l);
    var p := s.q[t.from][t.k];
    UrgencyDrops(cfg.ids[l.i], s.nums[l.i], l, p.raw);
    TransferTotal(s.q, t, UrgencyAt(), KindBefore(l), l.i, KindAfter(l, p.raw), NodeAfter(cfg, l));
  }

  /** Every step but Send brings the fabric strictly closer to rest. */
  lemma RankStep(cfg: Config, s: State, l: Label)
    requires Shaped(cfg, s) && Enabled(cfg, s, l)
    ensures var rank, rank' := Total(s.q, StepsLeft()), Total(Do(cfg, s, l).q, StepsLeft());
            if l.Send? then rank' == rank + 64 else rank' < rank
  {
    if l.Send? {
      SendRank(cfg, s, l);
    } else {
      OtherRank(cfg, s, l);
    }
  }

  // ---- whole runs ----

  /** The steps of a run that happen: sends, and everything else. */
  function Sends(cfg: Config, s: State, ls: seq<Label>): (k: nat)
    requires Shaped(cfg, s)
    decreases |ls|
  {
    if ls == [] then 0
    else (if ls[0].Send? && Enabled(cfg, s, ls[0]) then 1 else 0) + Sends(cfg, Do(cfg, s, ls[0]), ls[1..])
  }

  function Others(cfg: Config, s: State, ls: seq<Label>): (k: nat)
    requires Shaped(cfg, s)
    decreases |ls|
  {
    if ls == [] then 0
    else (if !ls[0].Send? && Enabled(cfg, s, ls[0]) then 1 else 0) + Others(cfg, Do(cfg, s, ls[0]), ls[1..])
  }

  lemma {:induction false} RunBudget(cfg: Config, s: State, ls: seq<Label>)
    requires Shaped(cfg, s)
    ensures var e, m := End(cfg, s, ls), Sends(cfg, s, ls);
            && |e.log| == |s.log| + m
            && e.forwards + Total(e.q, ForwardsLeft()) == s.forwards + Total(s.q, ForwardsLeft()) + HOP_LIMIT * m
            && Others(cfg, s, ls) + Total(e.q, StepsLeft()) <= Total(s.q, StepsLeft()) + 64 * m
    decreases |ls|
  {
    if ls != [] {
      if Enabled(cfg, s, ls[0]) {
        ForwardStep(cfg, s, ls[0]);
        RankStep(cfg, s, ls[0]);
      }
      RunBudget(cfg, Do(cfg, s, ls[0]), ls[1..]);
    }
  }

  lemma EmptyTotals(n: nat, w: Weight)
    ensures Total(Empty(n).q, w) == 0
  {
    TotalEmpty(8 * n, w);
  }

  /**
   * Whatever the cabling, mis-wired or not: with m sends, a run makes at most 15 m forwards and at most
   * 64 m steps beside the sends, so once nobody sends the fabric comes to rest.
   */
  lemma RunsEnd(cfg: Config, ls: seq<Label>)
    ensures var s := Empty(|cfg.ids|);
            && End(cfg, s, ls).forwards <= HOP_LIMIT * Sends(cfg, s, ls)
            && Others(cfg, s, ls) <= 64 * Sends(cfg, s, ls)
  {
    EmptyTotals(|cfg.ids|, ForwardsLeft());
    EmptyTotals(|cfg.ids|, StepsLeft());
    RunBudget(cfg, Empty(|cfg.ids|), ls);
  }

  /** In every reachable state each send's packet is in exactly one place, once. */
  lemma {:induction false} RunTags(cfg: Config, s: State, ls: seq<Label>, t: nat)
    requires Shaped(cfg, s) && Total(s.q, IsTag(t)) == if t < |s.log| then 1 else 0
    ensures var e := End(cfg, s, ls);
            Total(e.q, IsTag(t)) == if t < |e.log| then 1 else 0
    decreases |ls|
  {
    if ls != [] {
      if Enabled(cfg, s, ls[0]) {
        TagStep(cfg, s, ls[0], t);
      }
      RunTags(cfg, Do(cfg, s, ls[0]), ls[1..], t);
    }
  }

  // ---- from a total of one to a single place ----

  function Count(q: seq<seq<Packet>>, c: nat, t: nat): nat
    requires c < |q|
  {
    SumIn(c, q[c], IsTag(t))
  }

  lemma {:induction false} TotalZero(q: seq<seq<Packet>>, t: nat)
    requires Total(q, IsTag(t)) == 0
    ensures forall c :: 0 <= c < |q| ==> Count(q, c, t) == 0
    decreases |q|
  {
    if q != [] {
      var m := |q| - 1;
      TotalZero(q[..m], t);
      forall c | 0 <= c < |q| ensures Count(q, c, t) == 0 {
        if c < m {
          assert Count(q[..m], c, t) == 0;
        }
      }
    }
  }

  lemma {:induction false} OnePlace(q: seq<seq<Packet>>, t: nat) returns (home: nat)
    requires Total(q, IsTag(t)) == 1
    ensures home < |q| && SumIn(home, q[home], IsTag(t)) == 1
    ensures forall c :: 0 <= c < |q| ==> Count(q, c, t) == if c == home then 1 else 0
    decreases |q|
  {
    var m := |q| - 1;
    if SumIn(m, q[m], IsTag(t)) == 0 {
      home := OnePlace(q[..m], t);
    } else {
      home := m;
      TotalZero(q[..m], t);
    }
    forall c | 0 <= c < |q| ensures Count(q, c, t) == if c == home then 1 else 0 {
      if c < m {
        assert Count(q[..m], c, t) == SumIn(c, q[c], IsTag(t));
      }
    }
  }

  lemma {:induction false} CountedIsThere(c: nat, ps: seq<Packet>, t: nat) returns (k: nat)
    requires SumIn(c, ps, IsTag(t)) > 0
    ensures k < |ps| && ps[k].tag == t
    decreases |ps|
  {
    var m := |ps| - 1;
    if ps[m].tag == t {
      k := m;
    } else {
      k := CountedIsThere(c, ps[..m], t);
    }
  }
}
