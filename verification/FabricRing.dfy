/** The fabric cabled as a clockwise ring: where every single frame ends up, in every interleaving. */
module FabricRing {
  import opened Base
  import opened Ring
  import opened Frames
  import opened Node
  import opened Fabric
  import opened FabricRuns

  function Succ(n: nat, i: nat): (j: nat)
    requires i < n
    ensures j < n
  {
    if i + 1 == n then 0 else i + 1
  }

  predicate RingCabled(cfg: Config) {
    forall i :: 0 <= i < |cfg.ids| ==> cfg.peer[i] == Succ(|cfg.ids|, i)
  }

  /** The node k links on from o. */
  function Pos(n: nat, o: nat, k: nat): (j: nat)
    requires o < n
    ensures j < n
  {
    if k == 0 then o else Succ(n, Pos(n, o, k - 1))
  }

  /** The node k links on takes a frame for dst. */
  predicate Takes(ids: seq<NodeId>, o: nat, dst: NodeId, k: nat)
    requires o < |ids|
  {
    dst == BROADCAST || ids[Pos(|ids|, o, k)] == dst
  }

  /** Links to the first node that takes the frame, from k on; 17 if none of the next nodes up to 16 does. */
  function Links(ids: seq<NodeId>, o: nat, dst: NodeId, k: nat): (f: nat)
    requires o < |ids| && 1 <= k <= 17
    ensures k <= f <= 17 && (f <= 16 ==> Takes(ids, o, dst, f))
    ensures forall j :: k <= j < f ==> !Takes(ids, o, dst, j)
    decreases 17 - k, |ids|
  {
    if k == 17 || Takes(ids, o, dst, k) then k else Links(ids, o, dst, k + 1)
  }

  function Goal(cfg: Config, snd: Sending): nat
    requires snd.origin < |cfg.ids|
  {
    Links(cfg.ids, snd.origin, snd.dst, 1)
  }

  predicate Oversized(snd: Sending) { |snd.payload| > MAX_PAYLOAD }

  /** Where a frame must end, if no write fails: channel as place and node. */
  function Fate(cfg: Config, snd: Sending): (int, nat)
    requires snd.origin < |cfg.ids|
  {
    var n, o := |cfg.ids|, snd.origin;
    if Oversized(snd) then (REJECTED, Pos(n, o, 1))
    else if Goal(cfg, snd) <= 16 then (LOCAL, Pos(n, o, Goal(cfg, snd)))
    else (EXPIRED, Pos(n, o, Goal(cfg, snd) - 1))
  }

  // ---- the invariant: every packet is on course ----

  predicate OnCourse(cfg: Config, snd: Sending, kind: nat, node: nat, f: Frame) {
    && snd.origin < |cfg.ids| && f.hop <= HOP_LIMIT
    && f.src == cfg.ids[snd.origin] && f.dst == snd.dst && f.payload == snd.payload
    && f.flags == (if f.hop > 0 then FLAG_FWD else 0)
    && (Oversized(snd) ==> f.hop == 0)
    && InPlace(|cfg.ids|, snd.origin, Goal(cfg, snd), Oversized(snd), kind, node, f.hop)
  }

  /** Before a node has read it a frame has come as many links as it counts hops; after that, one more. */
  predicate InPlace(n: nat, o: nat, goal: nat, big: bool, kind: nat, node: nat, hop: nat)
    requires o < n
  {
    if kind == LOCAL then goal == hop + 1 && !big && node == Pos(n, o, hop + 1)
    else if kind == EXPIRED then goal == 17 && hop == 15 && !big && node == Pos(n, o, hop + 1)
    else if kind == REJECTED then big && node == Pos(n, o, 1)
    else if kind == TAKEN then goal > hop && !big && node == Pos(n, o, hop + 1)
    else goal > hop && node == Pos(n, o, hop)
  }

  predicate PacketOk(cfg: Config, log: seq<Sending>, kind: nat, node: nat, p: Packet) {
    p.tag < |log| && Genuine(p.raw) && OnCourse(cfg, log[p.tag], kind, node, Unpack(p.raw).value)
  }

  function OkIn(cfg: Config, log: seq<Sending>): PlaceProperty {
    (kind: nat, node: nat, p: Packet) => PacketOk(cfg, log, kind, node, p)
  }

  ghost predicate Inv(cfg: Config, s: State) {
    Shaped(cfg, s) && RingCabled(cfg) && Holds(s.q, ByPlace(OkIn(cfg, s.log)))
  }

  lemma InvAt(cfg: Config, s: State, kind: nat, i: nat, k: nat)
    requires Inv(cfg, s) && i < |cfg.ids| && kind < 8 && k < |s.q[8 * i + kind]|
    ensures PacketOk(cfg, s.log, kind, i, s.q[8 * i + kind][k])
  {
    HoldsAt(s.q, OkIn(cfg, s.log), kind, i, k);
  }

  // ---- each step keeps it ----

  lemma SendOnCourse(cfg: Config, s: State, l: Label)
    requires Shaped(cfg, s) && Enabled(cfg, s, l) && l.Send?
    ensures OnCourse(cfg, Sending(l.i, l.dst, l.payload), PENDING, l.i, FirstFrame(cfg, s, l))
  {}

  lemma ReadOnCourse(cfg: Config, snd: Sending, i: nat, f: Frame)
    requires RingCabled(cfg) && i < |cfg.ids| && OnCourse(cfg, snd, WIRE, i, f)
    ensures OnCourse(cfg, snd, if Oversized(snd) then REJECTED else TAKEN, cfg.peer[i], f)
  {
    assert Pos(|cfg.ids|, snd.origin, f.hop + 1) == Succ(|cfg.ids|, i);
  }

  /** The node that has the frame takes it exactly when it is the goal. */
  lemma JudgeOnCourse(cfg: Config, snd: Sending, i: nat, f: Frame)
    requires i < |cfg.ids| && OnCourse(cfg, snd, TAKEN, i, f)
    ensures match Judge(cfg.ids[i], f)
            case Local => OnCourse(cfg, snd, LOCAL, i, f)
            case OutOfHops => OnCourse(cfg, snd, EXPIRED, i, f)
            case Relay => f.hop < HOP_LIMIT && Goal(cfg, snd) > f.hop + 1
  {
    var goal := Goal(cfg, snd);
    assert Takes(cfg.ids, snd.origin, snd.dst, f.hop + 1) <==> Judge(cfg.ids[i], f) == Local;
    if goal > f.hop + 1 {
      assert !Takes(cfg.ids, snd.origin, snd.dst, f.hop + 1);
    }
  }

  lemma PassOnCourse(cfg: Config, snd: Sending, i: nat, f: Frame, num: nat)
    requires i < |cfg.ids| && OnCourse(cfg, snd, TAKEN, i, f) && Judge(cfg.ids[i], f) == Relay
    ensures OnCourse(cfg, snd, PENDING, i, Forwarded(f, num))
  {
    JudgeOnCourse(cfg, snd, i, f);
  }

  /** What a step makes of a packet that is on course is on course where the step puts it. */
  lemma StepOnCourse(cfg: Config, num: nat, l: Label, snd: Sending, raw: seq<byte>)
    requires RingCabled(cfg) && l.i < |cfg.ids| && !l.Send? && Guard(cfg.ids[l.i], num, l, raw)
    requires Genuine(raw) && OnCourse(cfg, snd, KindBefore(l), l.i, Unpack(raw).value)
    ensures var raw' := RawAfter(cfg.ids[l.i], num, l, raw);
            Genuine(raw') && OnCourse(cfg, snd, KindAfter(l, raw), NodeAfter(cfg, l), Unpack(raw').value)
  {
    var f := Unpack(raw).value;
    match l
    case Put(i, _) =>
    case Write(i) =>
    case Fail(i) =>
    case Read(i) =>
      ReadGenuine(raw);
      ReadOnCourse(cfg, snd, i, f);
    case Deliver(i, _) => JudgeOnCourse(cfg, snd, i, f);
    case Expire(i, _) => JudgeOnCourse(cfg, snd, i, f);
    case Forward(i, _) =>
      PassOnGenuine(cfg.ids[i], raw, num);
      PassOnCourse(cfg, snd, i, f, num);
  }

  lemma TransferOnCourse(cfg: Config, log: seq<Sending>, num: nat, l: Label, p: Packet)
    requires RingCabled(cfg) && l.i < |cfg.ids| && !l.Send? && Guard(cfg.ids[l.i], num, l, p.raw)
    requires PacketOk(cfg, log, KindBefore(l), l.i, p)
    ensures var raw := RawAfter(cfg.ids[l.i], num, l, p.raw);
            PacketOk(cfg, log, KindAfter(l, p.raw), NodeAfter(cfg, l), Packet(p.tag, raw))
  {
    StepOnCourse(cfg, num, l, log[p.tag], p.raw);
  }

  lemma OtherKeepsInv(cfg: Config, s: State, l: Label)
    requires Inv(cfg, s) && Enabled(cfg, s, l) && !l.Send?
    ensures Holds(Do(cfg, s, l).q, ByPlace(OkIn(cfg, s.log)))
  {
    var t := TransferOf(cfg, s, l);
    var p := s.q[t.from][t.k];
    if OkIn(cfg, s.log)(KindBefore(l), l.i, p) {
      TransferOnCourse(cfg, s.log, s.nums[l.i], l, p);
    }
    TransferHolds(s.q, t, OkIn(cfg, s.log), KindBefore(l), l.i, KindAfter(l, p.raw), NodeAfter(cfg, l));
  }

  lemma LogGrows(cfg: Config, log: seq<Sending>, more: Sending, q: seq<seq<Packet>>)
    requires Holds(q, ByPlace(OkIn(cfg, log)))
    ensures Holds(q, ByPlace(OkIn(cfg, log + [more])))
  {
    forall c, k | 0 <= c < |q| && 0 <= k < |q[c]| ensures ByPlace(OkIn(cfg, log + [more]))(c, q[c][k]) {
      assert ByPlace(OkIn(cfg, log))(c, q[c][k]);
    }
  }

  lemma FreshOnCourse(cfg: Config, s: State, l: Label)
    requires Shaped(cfg, s) && Enabled(cfg, s, l) && l.Send?
    ensures PacketOk(cfg, s.log + [Sending(l.i, l.dst, l.payload)], PENDING, l.i, FirstPacket(cfg, s, l))
  {
    EncodeGenuine(FirstFrame(cfg, s, l));
    SendOnCourse(cfg, s, l);
  }

  lemma FreshHolds(cfg: Config, log: seq<Sending>, more: Sending, q: seq<seq<Packet>>, p: Packet, i: nat)
    requires Holds(q, ByPlace(OkIn(cfg, log))) && 8 * i + PENDING < |q|
    requires OkIn(cfg, log + [more])(PENDING, i, p)
    ensures var c := 8 * i + PENDING;
            Holds(q[c := q[c] + [p]], ByPlace(OkIn(cfg, log + [more])))
  {
    LogGrows(cfg, log, more, q);
    AppendHolds(q, p, OkIn(cfg, log + [more]), PENDING, i);
  }

  lemma SendKeepsInv(cfg: Config, s: State, l: Label)
    requires Inv(cfg, s) && Enabled(cfg, s, l) && l.Send?
    ensures Holds(Do(cfg, s, l).q, ByPlace(OkIn(cfg, Do(cfg, s, l).log)))
  {
    DoSend(cfg, s, l);
    FreshOnCourse(cfg, s, l);
    FreshHolds(cfg, s.log, Sending(l.i, l.dst, l.payload), s.q, FirstPacket(cfg, s, l), l.i);
  }

  lemma StepKeepsInv(cfg: Config, s: State, l: Label)
    requires Inv(cfg, s) && Enabled(cfg, s, l)
    ensures Inv(cfg, Do(cfg, s, l))
  {
    if l.Send? {
      SendKeepsInv(cfg, s, l);
    } else {
      OtherKeepsInv(cfg, s, l);
    }
  }

  lemma {:induction false} RunKeepsInv(cfg: Config, s: State, ls: seq<Label>)
    requires Inv(cfg, s)
    ensures Inv(cfg, End(cfg, s, ls))
    decreases |ls|
  {
    if ls != [] {
      if Enabled(cfg, s, ls[0]) {
        StepKeepsInv(cfg, s, ls[0]);
      }
      RunKeepsInv(cfg, Do(cfg, s, ls[0]), ls[1..]);
    }
  }

  lemma EmptyInv(cfg: Config)
    requires RingCabled(cfg)
    ensures Inv(cfg, Empty(|cfg.ids|))
  {}

  // ---- rest ----

  /** No packet is on its way. */
  predicate AtRest(s: State) {
    forall c :: 0 <= c < |s.q| && c % 8 < LOCAL ==> s.q[c] == []
  }

  lemma VerdictHasLabel(id: NodeId, num: nat, raw: seq<byte>, i: nat) returns (l: Label)
    requires Unpack(raw).Ok? && num < 0x1_0000_0000
    ensures l.i == i && KindBefore(l) == TAKEN && Index(l) == 0 && !l.Send? && Guard(id, num, l, raw)
  {
    match Judge(id, Unpack(raw).value)
    case Local => l := Deliver(i, 0);
    case OutOfHops => l := Expire(i, 0);
    case Relay => l := Forward(i, 0);
  }

  lemma TakenCanMove(cfg: Config, s: State, i: nat) returns (l: Label)
    requires Shaped(cfg, s) && i < |cfg.ids| && s.nums[i] < 0x1_0000_0000
    requires s.q[8 * i + TAKEN] != [] && Unpack(s.q[8 * i + TAKEN][0].raw).Ok?
    ensures !l.Send? && Enabled(cfg, s, l)
  {
    l := VerdictHasLabel(cfg.ids[i], s.nums[i], s.q[8 * i + TAKEN][0].raw, i);
    assert From(l) == 8 * i + TAKEN;
  }

  lemma WaitingCanMove(cfg: Config, s: State, i: nat, k: nat) returns (l: Label)
    requires Shaped(cfg, s) && i < |cfg.ids| && k < TAKEN && s.q[8 * i + k] != []
    ensures !l.Send? && Enabled(cfg, s, l)
  {
    l := if k == PENDING then Put(i, 0) else if k == QUEUED then Write(i) else Read(i);
    assert From(l) == 8 * i + k && Need(l) == None;
  }

  lemma BusyPlace(cfg: Config, s: State) returns (i: nat, k: nat)
    requires Shaped(cfg, s) && !AtRest(s)
    ensures i < |cfg.ids| && k < LOCAL && s.q[8 * i + k] != []
  {
    var c :| 0 <= c < |s.q| && c % 8 < LOCAL && s.q[c] != [];
    i, k := c / 8, c % 8;
  }

  lemma TakenIntact(cfg: Config, s: State, i: nat)
    requires Inv(cfg, s) && i < |cfg.ids| && s.q[8 * i + TAKEN] != []
    ensures Unpack(s.q[8 * i + TAKEN][0].raw).Ok?
  {
    InvAt(cfg, s, TAKEN, i, 0);
  }

  /** While a packet is on its way some step is possible, as long as the counters have not run out. */
  lemma NotStuck(cfg: Config, s: State) returns (l: Label)
    requires Inv(cfg, s) && !AtRest(s)
    requires forall i :: 0 <= i < |s.nums| ==> s.nums[i] < 0x1_0000_0000
    ensures !l.Send? && Enabled(cfg, s, l)
  {
    var i, k := BusyPlace(cfg, s);
    if k == TAKEN {
      TakenIntact(cfg, s, i);
      l := TakenCanMove(cfg, s, i);
    } else {
      l := WaitingCanMove(cfg, s, i, k);
    }
  }

  predicate NothingFailed(s: State) {
    forall c :: 0 <= c < |s.q| && c % 8 == FAILED ==> s.q[c] == []
  }

  lemma CourseEndsAtFate(cfg: Config, snd: Sending, kind: nat, node: nat, f: Frame)
    requires OnCourse(cfg, snd, kind, node, f) && LOCAL <= kind < FAILED
    ensures (kind, node) == Fate(cfg, snd)
  {}

  /** A packet at rest is at its fate. */
  lemma RestingAtFate(cfg: Config, s: State, c: nat, k: nat)
    requires Inv(cfg, s) && AtRest(s) && NothingFailed(s) && c < |s.q| && k < |s.q[c]|
    ensures s.q[c][k].tag < |s.log|
    ensures s.log[s.q[c][k].tag].origin < |cfg.ids|
    ensures (c % 8, c / 8) == Fate(cfg, s.log[s.q[c][k].tag])
  {
    assert c == 8 * (c / 8) + c % 8;
    InvAt(cfg, s, c % 8, c / 8, k);
    var p := s.q[c][k];
    CourseEndsAtFate(cfg, s.log[p.tag], c % 8, c / 8, Unpack(p.raw).value);
  }

  ghost predicate Reachable(cfg: Config, s: State) {
    exists ls :: s == End(cfg, Empty(|cfg.ids|), ls)
  }

  lemma ReachableInv(cfg: Config, s: State)
    requires RingCabled(cfg) && Reachable(cfg, s)
    ensures Inv(cfg, s)
  {
    var ls :| s == End(cfg, Empty(|cfg.ids|), ls);
    EmptyInv(cfg);
    RunKeepsInv(cfg, Empty(|cfg.ids|), ls);
  }

  lemma ReachableTags(cfg: Config, s: State, t: nat)
    requires Reachable(cfg, s)
    ensures Total(s.q, IsTag(t)) == if t < |s.log| then 1 else 0
  {
    var ls :| s == End(cfg, Empty(|cfg.ids|), ls);
    EmptyTotals(|cfg.ids|, IsTag(t));
    RunTags(cfg, Empty(|cfg.ids|), ls, t);
  }

  /**
   * In every interleaving on a clockwise ring whose writes succeed, once no packet is on its way the
   * frame of each send is in one place, once, and that place is its fate: the receive queue of the
   * first node within 16 links that takes it, else the hop drop 16 links on, or the first reader's
   * refusal if the payload does not fit a read.
   */
  lemma ExactlyOnce(cfg: Config, s: State, t: nat)
    requires RingCabled(cfg) && Reachable(cfg, s) && AtRest(s) && NothingFailed(s) && t < |s.log|
    ensures s.log[t].origin < |cfg.ids|
    ensures var (kind, node) := Fate(cfg, s.log[t]);
            forall c :: 0 <= c < |s.q| ==> Count(s.q, c, t) == if c == 8 * node + kind then 1 else 0
  {
    ReachableInv(cfg, s);
    ReachableTags(cfg, s, t);
    var home := OnePlace(s.q, t);
    var k := CountedIsThere(home, s.q[home], t);
    RestingAtFate(cfg, s, home, k);
    assert home == 8 * (home / 8) + home % 8;
  }

  /** What is delivered is what was sent: source, destination and payload unchanged, one hop counted per forward. */
  lemma DeliveredIntact(cfg: Config, s: State, j: nat, k: nat)
    requires RingCabled(cfg) && Reachable(cfg, s) && j < |cfg.ids|
    requires 8 * j + LOCAL < |s.q| && k < |s.q[8 * j + LOCAL]|
    ensures var p := s.q[8 * j + LOCAL][k];
            && p.tag < |s.log| && Unpack(p.raw).Ok?
            && var snd, f := s.log[p.tag], Unpack(p.raw).value;
               && snd.origin < |cfg.ids| && Goal(cfg, snd) <= 16 && j == Pos(|cfg.ids|, snd.origin, Goal(cfg, snd))
               && f.src == cfg.ids[snd.origin] && f.dst == snd.dst && f.payload == snd.payload
               && f.hop == Goal(cfg, snd) - 1
               && f.flags == if Goal(cfg, snd) > 1 then FLAG_FWD else 0
  {
    ReachableInv(cfg, s);
    InvAt(cfg, s, LOCAL, j, k);
  }

  // ---- ring members ----

  lemma {:induction false} PosIsAhead(n: nat, o: nat, k: nat)
    requires o < n && k < n
    ensures Pos(n, o, k) == if o + k < n then o + k else o + k - n
  {
    if k > 0 {
      PosIsAhead(n, o, k - 1);
    }
  }

  /** Going clockwise, the first node that takes a frame for member j is j. */
  lemma MemberTakes(ids: seq<NodeId>, o: nat, j: nat, k: nat)
    requires Distinct(ids) && o < |ids| && j < |ids| && j != o && ids[j] != BROADCAST
    requires 1 <= k <= Ahead(|ids|, o, j)
    ensures Takes(ids, o, ids[j], k) <==> k == Ahead(|ids|, o, j)
  {
    PosIsAhead(|ids|, o, k);
    var i := Pos(|ids|, o, k);
    assert ids[i] == ids[j] <==> i == j;
  }

  lemma LinksToMember(ids: seq<NodeId>, o: nat, j: nat)
    requires Distinct(ids) && o < |ids| && j < |ids| && j != o && ids[j] != BROADCAST
    ensures var d := Ahead(|ids|, o, j);
            Links(ids, o, ids[j], 1) == if d <= 16 then d else 17
  {
    var d, g := Ahead(|ids|, o, j), Links(ids, o, ids[j], 1);
    MemberTakes(ids, o, j, d);
    if g <= d && g <= 16 {
      MemberTakes(ids, o, j, g);
    }
  }

  /** Another ring member's goal is its clockwise distance d: delivered there if d <= 16, dropped 16 links on if not. */
  lemma MemberGoal(cfg: Config, snd: Sending, j: nat)
    requires Distinct(cfg.ids) && snd.origin < |cfg.ids| && j < |cfg.ids| && j != snd.origin
    requires snd.dst == cfg.ids[j] && snd.dst != BROADCAST
    ensures var n, o := |cfg.ids|, snd.origin;
            var d := Ahead(n, o, j);
            && Goal(cfg, snd) == (if d <= 16 then d else 17)
            && (!Oversized(snd) ==>
                  Fate(cfg, snd)
                  == if d <= 16 then (LOCAL, j) else (EXPIRED, if o + 16 < n then o + 16 else o + 16 - n))
  {
    var n, o, g := |cfg.ids|, snd.origin, Goal(cfg, snd);
    LinksToMember(cfg.ids, o, j);
    PosIsAhead(n, o, if g <= 16 then g else g - 1);
  }
}
