/** HELLO frames, and what any exchange of them does to a converged ring. */
module Hello {
  import opened Base
  import opened Ring
  import opened Frames
  import opened Routing
  import opened RingWalk
  import RoutingLaws

  const HELLO_MAGIC: byte := 0x48

  function HelloFrame(id: NodeId, known: seq<NodeId>, num: nat): Frame
    requires |known| < 256
  {
    Frame(0, 0, num, id, BROADCAST, [HELLO_MAGIC, id, |known|] + known)
  }

  /** The count travels in one octet. */
  function MakeHello(id: NodeId, known: seq<NodeId>, num: nat): Result<seq<byte>> {
    if |known| < 256 then Pack(HelloFrame(id, known, num)) else Err(PackRange)
  }

  function ParseHello(f: Frame): Result<(NodeId, seq<NodeId>)> {
    if |f.payload| < 3 || f.payload[0] != HELLO_MAGIC then Err(NotHello)
    else
      var end := Min(3 + (f.payload[2] as int), |f.payload|);
      Ok((f.payload[1], f.payload[3..end]))
  }

  /** The node list a receiver reads out of raw octets, if any. */
  function ListIn(raw: seq<byte>): Option<seq<NodeId>> {
    match Unpack(raw)
    case Err(_) => None
    case Ok(f) =>
      match ParseHello(f)
      case Err(_) => None
      case Ok(p) => Some(p.1)
  }

  lemma HelloParses(id: NodeId, known: seq<NodeId>, num: nat)
    requires |known| < 256
    ensures ParseHello(HelloFrame(id, known, num)) == Ok((id, known))
  {
    var p := HelloFrame(id, known, num).payload;
    assert p[3..3 + |known|] == known;
  }

  /** Any frame at all: refused below three octets or without the letter H, else as many ids as counted and present. */
  lemma ParseHelloOutcome(f: Frame)
    ensures match ParseHello(f)
            case Err(e) => (|f.payload| < 3 || f.payload[0] != 0x48) && e == NotHello
            case Ok((origin, nodes)) =>
              && |f.payload| >= 3 && f.payload[0] == 0x48 && origin == f.payload[1]
              && |nodes| == (if f.payload[2] as int <= |f.payload| - 3 then f.payload[2] as int else |f.payload| - 3)
              && forall i :: 0 <= i < |nodes| ==> nodes[i] == f.payload[3 + i]
  {}

  /**
   * A HELLO is made exactly when count and number fit; it goes to everyone and carries its list, unchanged and in
   * order, through make, pack, unpack and parse.
   */
  lemma HelloRoundTrip(id: NodeId, known: seq<NodeId>, num: nat)
    ensures match MakeHello(id, known, num)
            case Ok(raw) =>
              && |known| < 256 && num < 0x1_0000_0000
              && Unpack(raw) == Ok(Frame(0, 0, num, id, 0xFF, [0x48, id, |known|] + known))
              && ParseHello(Unpack(raw).value) == Ok((id, known)) && ListIn(raw) == Some(known)
            case Err(_) => |known| >= 256 || num >= 0x1_0000_0000
  {
    if |known| < 256 {
      PackUnpack(HelloFrame(id, known, num));
      HelloParses(id, known, num);
    }
  }

  // ---- one HELLO at one converged table ----

  /** A list that cannot unsettle a ring: a rotation of it, or something shorter that names no stranger. */
  predicate Benign(r: seq<NodeId>, path: seq<NodeId>) {
    IsRotation(path, r) || (|path| < |r| && forall x :: x in path ==> x in r)
  }

  lemma ShortestOf(t: Table)
    requires Distinct(t.ring) && |t.ring| >= 2 && t.id in t.ring
    ensures Recomputed(t).ring == t.ring && Shortest(Recomputed(t)) && Recomputed(t).id == t.id
  {
    RecomputeShortest(t);
  }

  lemma RotationDistinct(s: seq<NodeId>, r: seq<NodeId>)
    requires Distinct(r) && IsRotation(s, r)
    ensures Distinct(s)
  {
    var k :| 0 <= k <= |r| && s == Rotate(r, k);
    RotateDistinct(r, k);
  }

  /** The first full HELLO converges any member whose own ring is no longer. */
  lemma FirstFullHelloConverges(r: seq<NodeId>, t: Table, path: seq<NodeId>)
    requires Distinct(r) && |r| >= 2 && t.id in r && |t.ring| <= |r| && IsRotation(path, r)
    ensures Heard(t, path).ring == path && Agrees(r, t.id, Heard(t, path))
  {
    RotationMembers(path, r);
    RotationDistinct(path, r);
    ShortestOf(t.(ring := path));
  }

  /** A converged table stays converged on hearing a list exactly when the list is benign. */
  lemma HelloKeepsConvergedIff(r: seq<NodeId>, t: Table, path: seq<NodeId>)
    requires Distinct(r) && |r| >= 2 && t.id in r && Agrees(r, t.id, t)
    ensures Agrees(r, t.id, Heard(t, path)) <==> Benign(r, path)
  {
    RotationMembers(t.ring, r);
    RotationDistinct(t.ring, r);
    if |path| >= |r| {
      if IsRotation(path, r) {
        FirstFullHelloConverges(r, t, path);
      } else if Agrees(r, t.id, Heard(t, path)) {
        RotationMembers(Heard(t, path).ring, r);
      }
    } else if forall x :: x in path ==> x in r {
      RoutingLaws.MergeKnown(t.ring, path);
      ShortestOf(t);
    } else if IsRotation(path, r) {
      RotationMembers(path, r);
    } else if Agrees(r, t.id, Heard(t, path)) {
      RotationMembers(Heard(t, path).ring, r);
    }
  }

  // ---- any interleaving of deliveries and originations ----

  /** Tables of all nodes and the HELLO octets in flight; a message may be lost, late or delivered many times. */
  datatype Net = Net(tables: Tables, air: set<seq<byte>>)

  ghost predicate Originate(s: Net, s': Net, x: NodeId, num: nat) {
    && x in s.tables
    && s'.tables == s.tables
    && match MakeHello(x, s.tables[x].ring, num)
       case Ok(raw) => s'.air == s.air + {raw}
       case Err(_) => s'.air == s.air
  }

  ghost predicate Deliver(s: Net, s': Net, x: NodeId, raw: seq<byte>) {
    && x in s.tables && raw in s.air
    && s'.air == s.air
    && match ListIn(raw)
       case None => s'.tables == s.tables
       case Some(path) => s'.tables == s.tables[x := Heard(s.tables[x], path)]
  }

  ghost predicate Lose(s: Net, s': Net, raw: seq<byte>) {
    s'.tables == s.tables && s'.air == s.air - {raw}
  }

  ghost predicate Next(s: Net, s': Net) {
    || (exists x, num :: Originate(s, s', x, num))
    || (exists x, raw :: Deliver(s, s', x, raw))
    || (exists raw :: Lose(s, s', raw))
  }

  ghost predicate IsRun(run: seq<Net>) {
    |run| > 0 && forall i :: 0 <= i < |run| - 1 ==> Next(run[i], run[i + 1])
  }

  /** All tables converged, nothing but benign lists in the air. */
  ghost predicate Settled(r: seq<NodeId>, s: Net) {
    && Converged(r, s.tables)
    && (forall x :: x in s.tables ==> x in r)
    && forall raw :: raw in s.air ==> ListIn(raw).Some? ==> Benign(r, ListIn(raw).value)
  }

  lemma OriginateSettled(r: seq<NodeId>, s: Net, s': Net, x: NodeId, num: nat)
    requires Settled(r, s) && Originate(s, s', x, num)
    ensures Settled(r, s')
  {
    assert Agrees(r, x, s.tables[x]);
    HelloRoundTrip(x, s.tables[x].ring, num);
  }

  lemma HeardConverged(r: seq<NodeId>, tables: Tables, x: NodeId, path: seq<NodeId>)
    requires Converged(r, tables) && x in r && Benign(r, path)
    ensures Converged(r, tables[x := Heard(tables[x], path)])
  {
    assert Agrees(r, x, tables[x]);
    HelloKeepsConvergedIff(r, tables[x], path);
    var tables' := tables[x := Heard(tables[x], path)];
    forall y | y in r ensures y in tables' && Agrees(r, y, tables'[y]) {
      assert Agrees(r, y, tables[y]);
    }
  }

  lemma DeliverSettled(r: seq<NodeId>, s: Net, s': Net, x: NodeId, raw: seq<byte>)
    requires Settled(r, s) && Deliver(s, s', x, raw)
    ensures Settled(r, s')
  {
    if ListIn(raw).Some? {
      HeardConverged(r, s.tables, x, ListIn(raw).value);
    }
  }

  lemma NextSettled(r: seq<NodeId>, s: Net, s': Net)
    requires Settled(r, s) && Next(s, s')
    ensures Settled(r, s')
  {
    if x, num :| Originate(s, s', x, num) {
      OriginateSettled(r, s, s', x, num);
    } else if x, raw :| Deliver(s, s', x, raw) {
      DeliverSettled(r, s, s', x, raw);
    } else {
      assert s'.tables == s.tables && s'.air <= s.air;
    }
  }

  /**
   * Converged stays converged: in every state of every run, every table is a rotation of the ring and
   * every destination is still reached in exactly min(cw, ccw) links.
   */
  lemma {:induction false} StaysSettled(r: seq<NodeId>, run: seq<Net>, i: nat)
    requires IsRun(run) && Settled(r, run[0]) && i < |run|
    ensures Settled(r, run[i])
    ensures forall p, q :: 0 <= p < |r| && 0 <= q < |r| && p != q && r[q] != BROADCAST ==>
              After(r, run[i].tables, p, r[q], Distance(|r|, p, q)) == Some(q)
  {
    if i > 0 {
      StaysSettled(r, run, i - 1);
      assert Next(run[i - 1], run[i - 1 + 1]);
      NextSettled(r, run[i - 1], run[i]);
    }
    forall p, q | 0 <= p < |r| && 0 <= q < |r| && p != q && r[q] != BROADCAST
      ensures After(r, run[i].tables, p, r[q], Distance(|r|, p, q)) == Some(q)
    {
      ShortestDelivery(r, run[i].tables, p, q);
    }
  }

  // ---- from any start to a converged ring ----

  /** A table that knows members of the ring only, each once; it need not know them all, or their order. */
  predicate Young(r: seq<NodeId>, x: NodeId, t: Table) {
    t.id == x && x in r && Distinct(t.ring) && forall y <- t.ring :: y in r
  }

  predicate Fair(r: seq<NodeId>, path: seq<NodeId>) {
    Benign(r, path) && Distinct(path)
  }

  lemma {:induction false} SetSize(r: seq<NodeId>, members: set<NodeId>)
    requires forall x :: x in members ==> x in r
    ensures |members| <= |r|
  {
    if r == [] {
      assert members == {};
    } else {
      assert r == [r[0]] + r[1..];
      SetSize(r[1..], members - {r[0]});
    }
  }

  lemma YoungShort(r: seq<NodeId>, x: NodeId, t: Table)
    requires Young(r, x, t)
    ensures |t.ring| <= |r|
  {
    var members := set y | y in r;
    DistinctInto(t.ring, members);
    SetSize(r, members);
  }

  lemma FairMembers(r: seq<NodeId>, path: seq<NodeId>)
    requires Fair(r, path)
    ensures Distinct(path) && forall y :: y in path ==> y in r
  {
    if IsRotation(path, r) {
      RotationMembers(path, r);
    }
  }

  lemma YoungHeard(r: seq<NodeId>, x: NodeId, t: Table, path: seq<NodeId>)
    requires Young(r, x, t) && Fair(r, path)
    ensures Young(r, x, Heard(t, path))
  {
    FairMembers(r, path);
    RoutingLaws.MergeDistinct(t.ring, path);
    RoutingLaws.HeardRing(t, path);
    var u := RingAfter(t, path);
    assert Distinct(u) && Append(u, t.id) == u;
    assert Heard(t, path).ring == u;
  }

  /** Every member of the ring runs a node, and knows members only. */
  ghost predicate Open(r: seq<NodeId>, s: Net) {
    && (forall x :: x in s.tables <==> x in r)
    && forall x :: x in r ==> Young(r, x, s.tables[x])
  }

  ghost predicate Polite(r: seq<NodeId>, s: Net) {
    forall raw :: raw in s.air && ListIn(raw).Some? ==> Fair(r, ListIn(raw).value)
  }

  /** What a step does to one table: nothing, or it hears a fair list. */
  ghost predicate Hears(r: seq<NodeId>, t: Table, t': Table) {
    t' == t || exists path :: Fair(r, path) && t' == Heard(t, path)
  }

  lemma NextKeys(s: Net, s': Net)
    requires Next(s, s')
    ensures s'.tables.Keys == s.tables.Keys
  {}

  lemma NextHears(r: seq<NodeId>, s: Net, s': Net, x: NodeId)
    requires Polite(r, s) && Next(s, s') && x in s.tables
    ensures x in s'.tables && Hears(r, s.tables[x], s'.tables[x])
  {
    if y, num :| Originate(s, s', y, num) {
    } else if y, raw :| Deliver(s, s', y, raw) {
      if ListIn(raw).Some? && y == x {
        assert Fair(r, ListIn(raw).value);
      }
    }
  }

  lemma HearsYoung(r: seq<NodeId>, x: NodeId, t: Table, t': Table)
    requires Young(r, x, t) && Hears(r, t, t')
    ensures Young(r, x, t')
  {
    if t' != t {
      var path :| Fair(r, path) && t' == Heard(t, path);
      YoungHeard(r, x, t, path);
    }
  }

  lemma HearsAgrees(r: seq<NodeId>, x: NodeId, t: Table, t': Table)
    requires Distinct(r) && |r| >= 2 && x in r && Agrees(r, x, t) && Hears(r, t, t')
    ensures Agrees(r, x, t')
  {
    if t' != t {
      var path :| Fair(r, path) && t' == Heard(t, path);
      HelloKeepsConvergedIff(r, t, path);
    }
  }

  ghost predicate PoliteRun(r: seq<NodeId>, run: seq<Net>) {
    && IsRun(run) && Open(r, run[0])
    && forall i :: 0 <= i < |run| ==> Polite(r, run[i])
  }

  ghost predicate HearsAt(r: seq<NodeId>, col: seq<Table>, i: nat)
    requires i + 1 < |col|
  {
    Hears(r, col[i], col[i + 1])
  }

  /** What x's table is in each state of a run. */
  ghost predicate Column(r: seq<NodeId>, x: NodeId, col: seq<Table>) {
    col != [] && Young(r, x, col[0]) && forall i: nat :: i + 1 < |col| ==> HearsAt(r, col, i)
  }

  lemma {:induction false} SameKeys(run: seq<Net>, i: nat)
    requires IsRun(run) && i < |run|
    ensures run[i].tables.Keys == run[0].tables.Keys
  {
    if i > 0 {
      SameKeys(run, i - 1);
      assert Next(run[i - 1], run[i - 1 + 1]);
      NextKeys(run[i - 1], run[i]);
    }
  }

  lemma ColumnOf(r: seq<NodeId>, run: seq<Net>, x: NodeId) returns (col: seq<Table>)
    requires PoliteRun(r, run) && x in r
    ensures |col| == |run| && forall i :: 0 <= i < |run| ==> x in run[i].tables && col[i] == run[i].tables[x]
    ensures Column(r, x, col)
  {
    forall i | 0 <= i < |run| ensures x in run[i].tables {
      SameKeys(run, i);
    }
    col := seq(|run|, i requires 0 <= i < |run| => run[i].tables[x]);
    forall i: nat | i + 1 < |col| ensures HearsAt(r, col, i) {
      NextHears(r, run[i], run[i + 1], x);
    }
  }

  lemma ColumnYoung(r: seq<NodeId>, x: NodeId, col: seq<Table>, i: nat)
    requires Column(r, x, col) && i < |col|
    ensures Young(r, x, col[i])
  {
    var k := 0;
    while k < i
      invariant k <= i && Young(r, x, col[k])
    {
      assert HearsAt(r, col, k);
      HearsYoung(r, x, col[k], col[k + 1]);
      k := k + 1;
    }
  }

  function AgreesWith(r: seq<NodeId>, x: NodeId): Table -> bool { t => Agrees(r, x, t) }

  predicate Carried(good: Table -> bool, t: Table, t': Table) { good(t) ==> good(t') }

  lemma {:induction false} Persists(good: Table -> bool, col: seq<Table>, m: nat, n: nat)
    requires m <= n < |col| && good(col[m]) && forall i :: m <= i < n ==> Carried(good, col[i], col[i + 1])
    ensures good(col[n])
    decreases n
  {
    if m < n {
      Persists(good, col, m, n - 1);
      assert Carried(good, col[n - 1], col[n - 1 + 1]);
    }
  }

  lemma AgreesCarried(r: seq<NodeId>, x: NodeId, t: Table, t': Table)
    requires Distinct(r) && |r| >= 2 && x in r && Hears(r, t, t')
    ensures Carried(AgreesWith(r, x), t, t')
  {
    if Agrees(r, x, t) {
      HearsAgrees(r, x, t, t');
    }
  }

  lemma ColumnAgrees(r: seq<NodeId>, x: NodeId, col: seq<Table>, m: nat, n: nat)
    requires Distinct(r) && |r| >= 2 && x in r && Column(r, x, col) && m <= n < |col| && AgreesWith(r, x)(col[m])
    ensures AgreesWith(r, x)(col[n])
  {
    forall i | m <= i < n ensures Carried(AgreesWith(r, x), col[i], col[i + 1]) {
      assert HearsAt(r, col, i);
      AgreesCarried(r, x, col[i], col[i + 1]);
    }
    Persists(AgreesWith(r, x), col, m, n);
  }

  lemma StaysAgreed(r: seq<NodeId>, x: NodeId, col: seq<Table>, m: nat, n: nat)
    requires Distinct(r) && |r| >= 2 && x in r && Column(r, x, col) && m <= n < |col| && Agrees(r, x, col[m])
    ensures Agrees(r, x, col[n])
  {
    ColumnAgrees(r, x, col, m, n);
  }

  /** The step delivers x a list that is the whole ring from some member on. */
  ghost predicate FullStep(r: seq<NodeId>, s: Net, s': Net, x: NodeId) {
    exists raw :: Deliver(s, s', x, raw) && ListIn(raw).Some? && IsRotation(ListIn(raw).value, r)
  }

  ghost predicate HearsFull(r: seq<NodeId>, run: seq<Net>, x: NodeId, i: nat) {
    i + 1 < |run| && FullStep(r, run[i], run[i + 1], x)
  }

  /** What that does to x's table. */
  ghost predicate Adopts(r: seq<NodeId>, t: Table, t': Table) {
    exists path :: IsRotation(path, r) && t' == Heard(t, path)
  }

  lemma FullAdopts(r: seq<NodeId>, run: seq<Net>, x: NodeId, i: nat)
    requires HearsFull(r, run, x, i)
    ensures x in run[i].tables && x in run[i + 1].tables && Adopts(r, run[i].tables[x], run[i + 1].tables[x])
  {
    var raw :| Deliver(run[i], run[i + 1], x, raw) && ListIn(raw).Some? && IsRotation(ListIn(raw).value, r);
  }

  lemma AdoptsAgrees(r: seq<NodeId>, x: NodeId, t: Table, t': Table)
    requires Distinct(r) && |r| >= 2 && Young(r, x, t) && Adopts(r, t, t')
    ensures Agrees(r, x, t')
  {
    var path :| IsRotation(path, r) && t' == Heard(t, path);
    YoungShort(r, x, t);
    FirstFullHelloConverges(r, t, path);
  }

  lemma SettledWhen(r: seq<NodeId>, s: Net)
    requires Distinct(r) && |r| >= 2 && Polite(r, s)
    requires forall x :: x in s.tables ==> x in r
    requires forall x :: x in r ==> x in s.tables && Agrees(r, x, s.tables[x])
    ensures Settled(r, s)
  {}

  /** x has heard a full list before the n-th state. */
  ghost predicate HasHeard(r: seq<NodeId>, run: seq<Net>, x: NodeId, n: nat) {
    exists i: nat :: i < n && HearsFull(r, run, x, i)
  }

  lemma FullAgrees(r: seq<NodeId>, run: seq<Net>, x: NodeId, col: seq<Table>, i: nat)
    requires Distinct(r) && |r| >= 2 && x in r && Column(r, x, col) && |col| == |run| && HearsFull(r, run, x, i)
    requires forall j :: 0 <= j < |run| ==> x in run[j].tables && col[j] == run[j].tables[x]
    ensures Agrees(r, x, col[i + 1])
  {
    FullAdopts(r, run, x, i);
    ColumnYoung(r, x, col, i);
    AdoptsAgrees(r, x, col[i], col[i + 1]);
  }

  lemma HeardAgrees(r: seq<NodeId>, run: seq<Net>, x: NodeId, n: nat)
    requires Distinct(r) && |r| >= 2 && PoliteRun(r, run) && n < |run| && x in r && HasHeard(r, run, x, n)
    ensures x in run[n].tables && Agrees(r, x, run[n].tables[x])
  {
    var i: nat :| i < n && HearsFull(r, run, x, i);
    var col := ColumnOf(r, run, x);
    FullAgrees(r, run, x, col, i);
    StaysAgreed(r, x, col, i + 1, n);
  }

  lemma PoliteConverges(r: seq<NodeId>, run: seq<Net>, n: nat)
    requires Distinct(r) && |r| >= 2 && PoliteRun(r, run) && n < |run|
    requires forall x :: x in r ==> HasHeard(r, run, x, n)
    ensures Settled(r, run[n])
  {
    forall x | x in r ensures x in run[n].tables && Agrees(r, x, run[n].tables[x]) {
      HeardAgrees(r, run, x, n);
    }
    SameKeys(run, n);
    SettledWhen(r, run[n]);
  }

  // ---- when all lists in flight are fair ----

  /** A list of all members in an order that is not the ring's. */
  predicate Misordered(r: seq<NodeId>, path: seq<NodeId>) { |path| == |r| && !IsRotation(path, r) }

  /** A member that has completed its ring in an order of its own passes that on. */
  ghost predicate PassesOn(r: seq<NodeId>, s: Net, s': Net, x: NodeId, num: nat) {
    Originate(s, s', x, num) && MakeHello(x, s.tables[x].ring, num).Ok? && Misordered(r, s.tables[x].ring)
  }

  ghost predicate OwnOrder(r: seq<NodeId>, s: Net, s': Net) { exists x, num :: PassesOn(r, s, s', x, num) }

  lemma PassesOnImpolite(r: seq<NodeId>, s: Net, s': Net, x: NodeId, num: nat)
    requires PassesOn(r, s, s', x, num)
    ensures !Polite(r, s')
  {
    var raw := MakeHello(x, s.tables[x].ring, num).value;
    HelloRoundTrip(x, s.tables[x].ring, num);
    assert raw in s'.air && ListIn(raw) == Some(s.tables[x].ring);
  }

  lemma OriginatePolite(r: seq<NodeId>, s: Net, s': Net, x: NodeId, num: nat)
    requires Polite(r, s) && Open(r, s) && Originate(s, s', x, num) && !PassesOn(r, s, s', x, num)
    ensures Polite(r, s')
  {
    var ring := s.tables[x].ring;
    assert Young(r, x, s.tables[x]);
    YoungShort(r, x, s.tables[x]);
    HelloRoundTrip(x, ring, num);
    if MakeHello(x, ring, num).Ok? {
      assert Fair(r, ring);
    }
  }

  /** The next state is polite exactly when nobody passes on an order of its own. */
  lemma NextPoliteIff(r: seq<NodeId>, s: Net, s': Net)
    requires Polite(r, s) && Open(r, s) && Next(s, s')
    ensures Polite(r, s') <==> !OwnOrder(r, s, s')
  {
    if OwnOrder(r, s, s') {
      var x, num :| PassesOn(r, s, s', x, num);
      PassesOnImpolite(r, s, s', x, num);
    } else if x, num :| Originate(s, s', x, num) {
      assert !PassesOn(r, s, s', x, num);
      OriginatePolite(r, s, s', x, num);
    } else {
      assert s'.air <= s.air;
    }
  }

  lemma NextOpen(r: seq<NodeId>, s: Net, s': Net)
    requires Polite(r, s) && Open(r, s) && Next(s, s')
    ensures Open(r, s')
  {
    NextKeys(s, s');
    forall x | x in r ensures x in s'.tables && Young(r, x, s'.tables[x]) {
      NextHears(r, s, s', x);
      HearsYoung(r, x, s.tables[x], s'.tables[x]);
    }
  }

  ghost predicate FairAt(r: seq<NodeId>, s: Net) { Open(r, s) && Polite(r, s) }

  ghost function FairNet(r: seq<NodeId>): Net -> bool { s => FairAt(r, s) }

  ghost function NobodysOwn(r: seq<NodeId>): (Net, Net) -> bool { (s, s') => !OwnOrder(r, s, s') }

  lemma FairNext(r: seq<NodeId>, s: Net, s': Net)
    ensures Next(s, s') && FairNet(r)(s) ==> (FairNet(r)(s') <==> NobodysOwn(r)(s, s'))
  {
    if Next(s, s') && FairAt(r, s) {
      NextPoliteIff(r, s, s');
      NextOpen(r, s, s');
    }
  }

  /** A property of the states of a run, and one of its steps, by index. */
  ghost function AtState(run: seq<Net>, good: Net -> bool): RoutingLaws.Over { (k: nat) => k < |run| && good(run[k]) }

  ghost function AtStep(run: seq<Net>, kept: (Net, Net) -> bool): RoutingLaws.Over {
    (k: nat) => k + 1 < |run| && kept(run[k], run[k + 1])
  }

  lemma StepOf(run: seq<Net>, good: Net -> bool, kept: (Net, Net) -> bool, k: nat)
    requires k + 1 < |run| && (good(run[k]) ==> (good(run[k + 1]) <==> kept(run[k], run[k + 1])))
    ensures RoutingLaws.KeepsStep(AtState(run, good), AtStep(run, kept), k)
  {}

  ghost function FairSoFar(r: seq<NodeId>, run: seq<Net>): RoutingLaws.Over { AtState(run, FairNet(r)) }

  ghost function RingOrder(r: seq<NodeId>, run: seq<Net>): RoutingLaws.Over { AtStep(run, NobodysOwn(r)) }

  lemma FairStep(r: seq<NodeId>, run: seq<Net>, k: nat)
    requires k + 1 < |run| && Next(run[k], run[k + 1])
    ensures RoutingLaws.KeepsStep(FairSoFar(r, run), RingOrder(r, run), k)
  {
    FairNext(r, run[k], run[k + 1]);
    StepOf(run, FairNet(r), NobodysOwn(r), k);
  }

  /**
   * From an open and polite start, the lists in flight are all fair up to the n-th state exactly when no step so far
   * passed on a complete list in an order that is not the ring's.
   */
  lemma FairIff(r: seq<NodeId>, run: seq<Net>, n: nat)
    requires IsRun(run) && Open(r, run[0]) && Polite(r, run[0]) && n < |run|
    ensures (forall k: nat :: k <= n ==> FairSoFar(r, run)(k)) <==> forall k: nat :: k < n ==> RingOrder(r, run)(k)
  {
    forall k: nat | k < n ensures RoutingLaws.KeepsStep(FairSoFar(r, run), RingOrder(r, run), k) {
      assert Next(run[k], run[k + 1]);
      FairStep(r, run, k);
    }
    RoutingLaws.KeptIff(FairSoFar(r, run), RingOrder(r, run), n);
  }

  lemma PrefixPolite(r: seq<NodeId>, run: seq<Net>, n: nat)
    requires IsRun(run) && n < |run| && forall k: nat :: k <= n ==> FairSoFar(r, run)(k)
    ensures PoliteRun(r, run[..n + 1])
  {
    var pre := run[..n + 1];
    assert FairSoFar(r, run)(0);
    forall i | 0 <= i < |pre| - 1 ensures Next(pre[i], pre[i + 1]) {
      assert Next(run[i], run[i + 1]);
    }
    forall i: nat | i < |pre| ensures Polite(r, pre[i]) {
      assert FairSoFar(r, run)(i);
    }
  }

  lemma PrefixHeard(r: seq<NodeId>, run: seq<Net>, x: NodeId, n: nat)
    requires n < |run| && HasHeard(r, run, x, n)
    ensures HasHeard(r, run[..n + 1], x, n)
  {
    var i: nat :| i < n && HearsFull(r, run, x, i);
    assert HearsFull(r, run[..n + 1], x, i);
  }

  /**
   * Convergence: whatever part of the ring the members know at first, and in whatever order, the network is settled
   * once each member has heard one full list, provided nobody until then passes on a complete list in another order;
   * from then on it stays settled.
   */
  lemma Converges(r: seq<NodeId>, run: seq<Net>, n: nat)
    requires Distinct(r) && |r| >= 2 && IsRun(run) && n < |run| && Open(r, run[0]) && Polite(r, run[0])
    requires forall k: nat :: k < n ==> RingOrder(r, run)(k)
    requires forall x :: x in r ==> HasHeard(r, run, x, n)
    ensures Settled(r, run[n])
  {
    FairIff(r, run, n);
    PrefixPolite(r, run, n);
    forall x | x in r ensures HasHeard(r, run[..n + 1], x, n) {
      PrefixHeard(r, run, x, n);
    }
    PoliteConverges(r, run[..n + 1], n);
  }

  /** The proviso is needed: a misordered list unsettles every settled table that hears it. */
  lemma MisorderedUnsettles(r: seq<NodeId>, t: Table, path: seq<NodeId>)
    requires Distinct(r) && |r| >= 2 && t.id in r && Agrees(r, t.id, t) && Misordered(r, path)
    ensures !Agrees(r, t.id, Heard(t, path))
  {
    HelloKeepsConvergedIff(r, t, path);
  }

  lemma SwappedLast(r: seq<NodeId>, path: seq<NodeId>)
    requires |r| == |path| == 4 && Distinct(r)
    requires path[0] == r[0] && path[1] == r[1] && path[2] == r[3] && path[3] == r[2]
    ensures Misordered(r, path)
  {
    IndexUnique(r, 1);
    IndexUnique(r, 2);
    IndexUnique(path, 1);
    IndexUnique(path, 3);
    if IsRotation(path, r) {
      RotationKeepsAhead(path, r, r[1], r[2]);
    }
  }

  lemma MergedRing(id: NodeId, a: seq<NodeId>, b: seq<NodeId>)
    requires |a| == 3 && |b| == 2 && a[0] == id && b[0] !in a && b[1] in a
    ensures Heard(Heard(RoutingLaws.Fresh(id), a), b).ring == a + [b[0]]
  {
    var t := Heard(RoutingLaws.Fresh(id), a);
    assert t.ring == a;
    MergeTwo(a, b);
  }

  /** And fair lists alone can leave a member with one, whoever the four members are. */
  lemma OwnOrderArises(r: seq<NodeId>)
    requires |r| == 4 && Distinct(r)
    ensures var a, b := [r[0], r[1], r[3]], [r[2], r[3]];
            var t := Heard(Heard(RoutingLaws.Fresh(r[0]), a), b);
            && Fair(r, a) && Fair(r, b)
            && Young(r, r[0], t) && t.ring == [r[0], r[1], r[3], r[2]] && Misordered(r, t.ring)
  {
    var a, b := [r[0], r[1], r[3]], [r[2], r[3]];
    var t0 := RoutingLaws.Fresh(r[0]);
    YoungHeard(r, r[0], t0, a);
    YoungHeard(r, r[0], Heard(t0, a), b);
    MergedRing(r[0], a, b);
    SwappedLast(r, a + [b[0]]);
  }

  lemma MergeTwo(ring: seq<NodeId>, path: seq<NodeId>)
    requires |path| == 2
    ensures Merge(ring, path) == Append(Append(ring, path[0]), path[1])
  {
    assert path[1..][0] == path[1] && path[1..][1..] == [];
    assert Merge(ring, path) == Merge(Append(ring, path[0]), path[1..]);
  }
}
