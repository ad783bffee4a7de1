/**
 * CRC-32 as `zlib.crc32` computes it: the frame check sequence of IEEE Std 802.3,
 * clause 3.2.9, in reflected form, one octet at a time through a table.
 * The register is kept as its four octets, low octet first.
 */
module Crc32 {
  import opened Base

  /** An octet as the register sees it: eight bits. */
  type octet = bv8

  datatype Reg = Reg(c0: octet, c1: octet, c2: octet, c3: octet)

  type Lookup = octet -> Reg

  const INIT := Reg(0xFF, 0xFF, 0xFF, 0xFF)

  // ---- the table: eight steps of the bit-serial division ----

  const POLY: bv32 := 0xEDB8_8320

  function Shift1(c: bv32): bv32 {
    if c & 1 == 1 then (c >> 1) ^ POLY else c >> 1
  }

  function Shift2(c: bv32): bv32 { Shift1(Shift1(c)) }

  function Shift4(c: bv32): bv32 { Shift2(Shift2(c)) }

  function Entry(i: octet): bv32 { Shift4(Shift4(i as bv32)) }

  function Table(i: octet): Reg {
    var e := Entry(i);
    Reg((e & 0xFF) as octet, ((e >> 8) & 0xFF) as octet, ((e >> 16) & 0xFF) as octet, (e >> 24) as octet)
  }

  // ---- the register, for any table ----

  /** e ^ (crc >> 8) */
  function Shifted(r: Reg, e: Reg): Reg {
    Reg(r.c1 ^ e.c0, r.c2 ^ e.c1, r.c3 ^ e.c2, e.c3)
  }

  /** table[(crc ^ b) & 0xFF] ^ (crc >> 8) */
  function Next(t: Lookup, r: Reg, b: octet): Reg {
    Shifted(r, t(r.c0 ^ b))
  }

  function State(t: Lookup, r: Reg, data: seq<octet>): Reg
    decreases |data|
  {
    if data == [] then r else State(t, Next(t, r, data[0]), data[1..])
  }

  /** The trailer `pack` appends: the complemented register, little-endian. */
  function Trailer(r: Reg): (w: seq<octet>)
    ensures |w| == 4
  {
    [!r.c0, !r.c1, !r.c2, !r.c3]
  }

  /** The state every codeword (data followed by its checksum) ends in. */
  function Residue(t: Lookup): Reg { State(t, INIT, [0, 0, 0, 0]) }

  /** What detection rests on: the top octets of the table are all different. */
  ghost predicate Separating(t: Lookup) {
    forall i, j :: t(i).c3 == t(j).c3 ==> i == j
  }

  /** The low s bits of an octet, which are transmitted first. */
  function Low(s: nat): octet
    requires s < 8
  {
    [0, 0x01, 0x03, 0x07, 0x0F, 0x1F, 0x3F, 0x7F][s]
  }

  /** Two octets that agree in the bits of a mask. */
  predicate AgreeIn(m: octet, a: octet, b: octet) { a & m == b & m }

  /** A change that spares the low bits of an index shows in the top octet above its low bits. */
  predicate Apart(t: Lookup, low: octet, i: octet, j: octet) {
    AgreeIn(low, i, j) && AgreeIn(!low, t(i).c3, t(j).c3) ==> i == j
  }

  ghost predicate SpreadsAbove(t: Lookup, low: octet) {
    forall i, j :: Apart(t, low, i, j)
  }

  ghost predicate Spreading(t: Lookup) {
    forall s: nat :: s < 8 ==> SpreadsAbove(t, Low(s))
  }

  function TopOctet(i: octet): octet { (Entry(i) >> 24) as octet }

  lemma TopOctetInjective(i: octet, j: octet)
    requires TopOctet(i) == TopOctet(j)
    ensures i == j
  {}

  lemma TableSeparating()
    ensures Separating(Table)
  {
    forall i, j | Table(i).c3 == Table(j).c3 ensures i == j {
      TopOctetInjective(i, j);
    }
  }

  lemma Spreads1(i: octet, j: octet)
    requires AgreeIn(0x01, i, j) && AgreeIn(0xFE, TopOctet(i), TopOctet(j))
    ensures i == j
  {}

  lemma Spreads2(i: octet, j: octet)
    requires AgreeIn(0x03, i, j) && AgreeIn(0xFC, TopOctet(i), TopOctet(j))
    ensures i == j
  {}

  lemma Spreads3(i: octet, j: octet)
    requires AgreeIn(0x07, i, j) && AgreeIn(0xF8, TopOctet(i), TopOctet(j))
    ensures i == j
  {}

  lemma Spreads4(i: octet, j: octet)
    requires AgreeIn(0x0F, i, j) && AgreeIn(0xF0, TopOctet(i), TopOctet(j))
    ensures i == j
  {}

  lemma Spreads5(i: octet, j: octet)
    requires AgreeIn(0x1F, i, j) && AgreeIn(0xE0, TopOctet(i), TopOctet(j))
    ensures i == j
  {}

  lemma Spreads6(i: octet, j: octet)
    requires AgreeIn(0x3F, i, j) && AgreeIn(0xC0, TopOctet(i), TopOctet(j))
    ensures i == j
  {}

  lemma Spreads7(i: octet, j: octet)
    requires AgreeIn(0x7F, i, j) && AgreeIn(0x80, TopOctet(i), TopOctet(j))
    ensures i == j
  {}

  lemma TableSpreads0()
    ensures SpreadsAbove(Table, 0)
  {
    TableSeparating();
    forall i, j ensures Apart(Table, 0, i, j) {
      if AgreeIn(0xFF, Table(i).c3, Table(j).c3) {
        assert Table(i).c3 == Table(j).c3;
      }
    }
  }

  lemma TableSpreads1()
    ensures SpreadsAbove(Table, 0x01)
  {
    forall i, j ensures Apart(Table, 0x01, i, j) {
      if AgreeIn(0x01, i, j) && AgreeIn(0xFE, Table(i).c3, Table(j).c3) {
        Spreads1(i, j);
      }
    }
  }

  lemma TableSpreads2()
    ensures SpreadsAbove(Table, 0x03)
  {
    forall i, j ensures Apart(Table, 0x03, i, j) {
      if AgreeIn(0x03, i, j) && AgreeIn(0xFC, Table(i).c3, Table(j).c3) {
        Spreads2(i, j);
      }
    }
  }

  lemma TableSpreads3()
    ensures SpreadsAbove(Table, 0x07)
  {
    forall i, j ensures Apart(Table, 0x07, i, j) {
      if AgreeIn(0x07, i, j) && AgreeIn(0xF8, Table(i).c3, Table(j).c3) {
        Spreads3(i, j);
      }
    }
  }

  lemma TableSpreads4()
    ensures SpreadsAbove(Table, 0x0F)
  {
    forall i, j ensures Apart(Table, 0x0F, i, j) {
      if AgreeIn(0x0F, i, j) && AgreeIn(0xF0, Table(i).c3, Table(j).c3) {
        Spreads4(i, j);
      }
    }
  }

  lemma TableSpreads5()
    ensures SpreadsAbove(Table, 0x1F)
  {
    forall i, j ensures Apart(Table, 0x1F, i, j) {
      if AgreeIn(0x1F, i, j) && AgreeIn(0xE0, Table(i).c3, Table(j).c3) {
        Spreads5(i, j);
      }
    }
  }

  lemma TableSpreads6()
    ensures SpreadsAbove(Table, 0x3F)
  {
    forall i, j ensures Apart(Table, 0x3F, i, j) {
      if AgreeIn(0x3F, i, j) && AgreeIn(0xC0, Table(i).c3, Table(j).c3) {
        Spreads6(i, j);
      }
    }
  }

  lemma TableSpreads7()
    ensures SpreadsAbove(Table, 0x7F)
  {
    forall i, j ensures Apart(Table, 0x7F, i, j) {
      if AgreeIn(0x7F, i, j) && AgreeIn(0x80, Table(i).c3, Table(j).c3) {
        Spreads7(i, j);
      }
    }
  }

  lemma SpreadsAll(t: Lookup)
    requires SpreadsAbove(t, 0) && SpreadsAbove(t, 0x01) && SpreadsAbove(t, 0x03) && SpreadsAbove(t, 0x07)
    requires SpreadsAbove(t, 0x0F) && SpreadsAbove(t, 0x1F) && SpreadsAbove(t, 0x3F) && SpreadsAbove(t, 0x7F)
    ensures Spreading(t)
  {
    forall s: nat | s < 8 ensures SpreadsAbove(t, Low(s)) {
      assert Low(s) in {0, 0x01, 0x03, 0x07, 0x0F, 0x1F, 0x3F, 0x7F};
    }
  }

  lemma TableSpreading()
    ensures Spreading(Table)
  {
    TableSpreads0();
    TableSpreads1();
    TableSpreads2();
    TableSpreads3();
    TableSpreads4();
    TableSpreads5();
    TableSpreads6();
    TableSpreads7();
    SpreadsAll(Table);
  }

  // ---- algebra of the register ----

  lemma {:induction false} StateConcat(t: Lookup, r: Reg, a: seq<octet>, b: seq<octet>)
    ensures State(t, r, a + b) == State(t, State(t, r, a), b)
    decreases |a|
  {
    if a == [] {
      assert a + b == b;
    } else {
      assert (a + b)[1..] == a[1..] + b;
      StateConcat(t, Next(t, r, a[0]), a[1..], b);
    }
  }

  /** The top k octets agree. */
  predicate Agree(k: nat, r: Reg, s: Reg) {
    && (k >= 1 ==> r.c3 == s.c3)
    && (k >= 2 ==> r.c2 == s.c2)
    && (k >= 3 ==> r.c1 == s.c1)
    && (k >= 4 ==> r.c0 == s.c0)
  }

  /** One octet back: the table index is recovered ... */
  lemma BackIndex(t: Lookup, r: Reg, b: octet, s: Reg, c: octet)
    requires Separating(t) && Next(t, r, b).c3 == Next(t, s, c).c3
    ensures r.c0 ^ b == s.c0 ^ c
  {
    var i, j := r.c0 ^ b, s.c0 ^ c;
    assert t(i).c3 == t(j).c3;
  }

  /** ... and with it every octet but the low one. */
  lemma BackOctets(t: Lookup, r: Reg, i: octet, s: Reg)
    ensures r.c1 ^ t(i).c0 == s.c1 ^ t(i).c0 ==> r.c1 == s.c1
    ensures r.c2 ^ t(i).c1 == s.c2 ^ t(i).c1 ==> r.c2 == s.c2
    ensures r.c3 ^ t(i).c2 == s.c3 ^ t(i).c2 ==> r.c3 == s.c3
  {
    var e := t(i);
    Cancel(r.c1, s.c1, e.c0);
    Cancel(r.c2, s.c2, e.c1);
    Cancel(r.c3, s.c3, e.c2);
  }

  lemma Back(t: Lookup, k: nat, r: Reg, b: octet, s: Reg, c: octet)
    requires Separating(t) && k < 4
    requires Agree(k + 1, Next(t, r, b), Next(t, s, c))
    ensures Agree(k, r, s)
    ensures r.c0 ^ b == s.c0 ^ c
  {
    BackIndex(t, r, b, s, c);
    BackOctets(t, r, r.c0 ^ b, s);
  }

  lemma Cancel(a: octet, b: octet, x: octet)
    ensures a ^ x == b ^ x ==> a == b
  {}

  lemma CancelLeft(x: octet, a: octet, b: octet)
    ensures x ^ a == x ^ b ==> a == b
  {}

  lemma SameSeq<T>(u: seq<T>, v: seq<T>)
    requires |u| == |v| > 0 && u[0] == v[0] && u[1..] == v[1..]
    ensures u == v
  {
    assert u == [u[0]] + u[1..] && v == [v[0]] + v[1..];
  }

  /** Two windows of at most four octets that drive one register to one state are the same window. */
  lemma {:induction false} WindowInjective(t: Lookup, r: Reg, s: Reg, u: seq<octet>, v: seq<octet>)
    requires Separating(t) && |u| == |v| <= 4
    requires State(t, r, u) == State(t, s, v)
    ensures Agree(4 - |u|, r, s)
    ensures r == s ==> u == v
    decreases |u|
  {
    if u != [] {
      WindowInjective(t, Next(t, r, u[0]), Next(t, s, v[0]), u[1..], v[1..]);
      Back(t, 4 - |u|, r, u[0], s, v[0]);
      if r == s {
        CancelLeft(r.c0, u[0], v[0]);
        SameSeq(u, v);
      }
    }
  }

  lemma CancelIn(m: octet, a: octet, b: octet, x: octet)
    ensures AgreeIn(m, a ^ x, b ^ x) ==> AgreeIn(m, a, b)
  {}

  lemma CrossIn(m: octet, a: octet, b: octet, u: octet, v: octet)
    requires a ^ u == b ^ v && AgreeIn(m, u, v)
    ensures AgreeIn(m, a, b)
  {}

  /** Octet k of the register, counted from the low end, agrees in the bits of m. */
  predicate AgreeAt(k: nat, m: octet, r: Reg, s: Reg) {
    match k
    case 0 => AgreeIn(m, r.c0, s.c0)
    case 1 => AgreeIn(m, r.c1, s.c1)
    case 2 => AgreeIn(m, r.c2, s.c2)
    case _ => AgreeIn(m, r.c3, s.c3)
  }

  lemma ShiftedAt(k: nat, m: octet, r: Reg, s: Reg, e: Reg)
    requires k < 3 && AgreeAt(k, m, Shifted(r, e), Shifted(s, e))
    ensures AgreeAt(k + 1, m, r, s)
  {
    match k
    case 0 => CancelIn(m, r.c1, s.c1, e.c0);
    case 1 => CancelIn(m, r.c2, s.c2, e.c1);
    case _ => CancelIn(m, r.c3, s.c3, e.c2);
  }

  /** One octet back, partial agreement stands one octet higher. */
  lemma BackAt(t: Lookup, k: nat, m: octet, r: Reg, b: octet, s: Reg, c: octet)
    requires Separating(t) && k < 3 && Agree(1, Next(t, r, b), Next(t, s, c))
    requires AgreeAt(k, m, Next(t, r, b), Next(t, s, c))
    ensures AgreeAt(k + 1, m, r, s)
  {
    BackIndex(t, r, b, s, c);
    var i := r.c0 ^ b;
    NextAt(t, r, b, i);
    NextAt(t, s, c, i);
    ShiftedAt(k, m, r, s, t(i));
  }

  /** The registers one octet into a window of five agree in the top octet where the last octets of the window agree. */
  lemma FiveBack(t: Lookup, m: octet, r: Reg, s: Reg, u: seq<octet>, v: seq<octet>)
    requires Separating(t) && |u| == |v| == 4 && AgreeIn(m, u[3], v[3])
    requires State(t, r, u) == State(t, s, v)
    ensures AgreeAt(3, m, r, s)
  {
    var r1, s1 := Next(t, r, u[0]), Next(t, s, v[0]);
    var r2, s2 := Next(t, r1, u[1]), Next(t, s1, v[1]);
    var r3, s3 := Next(t, r2, u[2]), Next(t, s2, v[2]);
    StateFour(t, r, u);
    StateFour(t, s, v);
    LastBack(t, m, r3, u[3], s3, v[3]);
    ThreeBack(t, m, r, u[0], u[1], u[2], s, v[0], v[1], v[2]);
  }

  lemma LastBack(t: Lookup, m: octet, r: Reg, b: octet, s: Reg, c: octet)
    requires Separating(t) && Next(t, r, b) == Next(t, s, c) && AgreeIn(m, b, c)
    ensures Agree(3, r, s) && AgreeAt(0, m, r, s)
  {
    Back(t, 3, r, b, s, c);
    CrossIn(m, r.c0, s.c0, b, c);
  }

  lemma ThreeBack(t: Lookup, m: octet, r: Reg, b0: octet, b1: octet, b2: octet, s: Reg, c0: octet, c1: octet, c2: octet)
    requires Separating(t)
    requires var p, q := Next(t, Next(t, Next(t, r, b0), b1), b2), Next(t, Next(t, Next(t, s, c0), c1), c2);
             Agree(3, p, q) && AgreeAt(0, m, p, q)
    ensures AgreeAt(3, m, r, s)
  {
    var r1, s1 := Next(t, r, b0), Next(t, s, c0);
    var r2, s2 := Next(t, r1, b1), Next(t, s1, c1);
    OneBack(t, 0, m, r2, b2, s2, c2);
    OneBack(t, 1, m, r1, b1, s1, c1);
    OneBack(t, 2, m, r, b0, s, c0);
  }

  lemma OneBack(t: Lookup, k: nat, m: octet, r: Reg, b: octet, s: Reg, c: octet)
    requires Separating(t) && k < 3
    requires Agree(3 - k, Next(t, r, b), Next(t, s, c)) && AgreeAt(k, m, Next(t, r, b), Next(t, s, c))
    ensures Agree(2 - k, r, s) && AgreeAt(k + 1, m, r, s)
  {
    Back(t, 2 - k, r, b, s, c);
    BackAt(t, k, m, r, b, s, c);
  }

  lemma SumIn(m: octet, i: octet, j: octet, x: octet, u: octet, v: octet)
    requires i == x ^ u && j == x ^ v && AgreeIn(m, u, v)
    ensures AgreeIn(m, i, j)
  {}

  lemma SumEqual(i: octet, x: octet, u: octet, v: octet)
    requires i == x ^ u && i == x ^ v
    ensures u == v
  {}

  lemma TopOfNext(t: Lookup, r: Reg, b: octet, i: octet)
    requires i == r.c0 ^ b
    ensures Next(t, r, b).c3 == t(i).c3
  {}

  lemma SpreadAt(t: Lookup, k: nat, i: octet, j: octet)
    requires Spreading(t) && k < 8
    ensures Apart(t, Low(k), i, j)
  {
    assert SpreadsAbove(t, Low(k));
  }

  lemma FirstEqual(t: Lookup, k: nat, low: octet, i: octet, j: octet, x: octet, u: octet, v: octet)
    requires Spreading(t) && k < 8 && low == Low(k)
    requires i == x ^ u && j == x ^ v && AgreeIn(low, u, v) && AgreeIn(!low, t(i).c3, t(j).c3)
    ensures u == v
  {
    SpreadAt(t, k, i, j);
    SumIn(low, i, j, x, u, v);
    SumEqual(i, x, u, v);
  }

  lemma IndicesDiffer(t: Lookup, k: nat, low: octet, i: octet, j: octet, x: octet, b: octet, c: octet)
    requires Spreading(t) && k < 8 && low == Low(k) && AgreeIn(low, b, c) && b != c
    requires i == x ^ b && j == x ^ c
    ensures !AgreeIn(!low, t(i).c3, t(j).c3)
  {
    if AgreeIn(!low, t(i).c3, t(j).c3) {
      FirstEqual(t, k, low, i, j, x, b, c);
    }
  }

  lemma TopOfSame(m: octet, p: Reg, q: Reg, x: octet, y: octet)
    requires p.c3 == x && q.c3 == y && !AgreeIn(m, x, y)
    ensures !AgreeAt(3, m, p, q)
  {}

  lemma TopsDiffer(t: Lookup, k: nat, low: octet, r: Reg, b: octet, c: octet)
    requires Spreading(t) && k < 8 && low == Low(k) && AgreeIn(low, b, c) && b != c
    ensures !AgreeAt(3, !low, Next(t, r, b), Next(t, r, c))
  {
    IndicesDiffer(t, k, low, r.c0 ^ b, r.c0 ^ c, r.c0, b, c);
    TopOfNext(t, r, b, r.c0 ^ b);
    TopOfNext(t, r, c, r.c0 ^ c);
    TopOfSame(!low, Next(t, r, b), Next(t, r, c), t(r.c0 ^ b).c3, t(r.c0 ^ c).c3);
  }

  lemma FiveDiffer(t: Lookup, m: octet, p: Reg, q: Reg, u: seq<octet>, v: seq<octet>)
    requires Separating(t) && |u| == |v| == 5 && AgreeIn(m, u[4], v[4]) && !AgreeAt(3, m, p, q)
    ensures State(t, p, u[1..]) != State(t, q, v[1..])
  {
    if State(t, p, u[1..]) == State(t, q, v[1..]) {
      FiveBack(t, m, p, q, u[1..], v[1..]);
    }
  }

  /** The same for 32 consecutive bits that start inside an octet: five octets, the ends only in part. */
  lemma FiveInjective(t: Lookup, r: Reg, k: nat, u: seq<octet>, v: seq<octet>)
    requires Separating(t) && Spreading(t) && |u| == |v| == 5 && k < 8
    requires AgreeIn(Low(k), u[0], v[0]) && AgreeIn(!Low(k), u[4], v[4])
    requires State(t, r, u) == State(t, r, v)
    ensures u == v
  {
    var p, q := Next(t, r, u[0]), Next(t, r, v[0]);
    if u[0] != v[0] {
      TopsDiffer(t, k, Low(k), r, u[0], v[0]);
      FiveDiffer(t, !Low(k), p, q, u, v);
    } else {
      WindowInjective(t, p, p, u[1..], v[1..]);
      SameSeq(u, v);
    }
  }

  /** Two registers that differ keep differing under any common continuation. */
  lemma {:induction false} StateInjective(t: Lookup, r: Reg, s: Reg, data: seq<octet>)
    requires Separating(t)
    requires State(t, r, data) == State(t, s, data)
    ensures r == s
    decreases |data|
  {
    if data != [] {
      StateInjective(t, Next(t, r, data[0]), Next(t, s, data[0]), data[1..]);
      Back(t, 3, r, data[0], s, data[0]);
      Cancel(r.c0, s.c0, data[0]);
    }
  }

  lemma NextAt(t: Lookup, r: Reg, b: octet, i: octet)
    requires r.c0 ^ b == i
    ensures Next(t, r, b) == Shifted(r, t(i))
  {}

  // The register cancels out of each index met while its own trailer is fed.

  lemma Index0(t: Lookup, r: Reg)
    ensures Next(t, r, !r.c0) == Shifted(r, t(0xFF))
  {
    NextAt(t, r, !r.c0, 0xFF);
  }

  lemma Index1(t: Lookup, r: Reg, e: Reg)
    ensures Next(t, Shifted(r, e), !r.c1) == Shifted(Shifted(r, e), t(!e.c0))
  {
    Cancel1(r.c1, e.c0);
    NextAt(t, Shifted(r, e), !r.c1, !e.c0);
  }

  lemma Index2(t: Lookup, r: Reg, e: Reg, f: Reg)
    ensures var p := Shifted(Shifted(r, e), f);
            Next(t, p, !r.c2) == Shifted(p, t(!(e.c1 ^ f.c0)))
  {
    Cancel2(r.c2, e.c1, f.c0);
    NextAt(t, Shifted(Shifted(r, e), f), !r.c2, !(e.c1 ^ f.c0));
  }

  lemma Index3(t: Lookup, r: Reg, e: Reg, f: Reg, g: Reg)
    ensures var p := Shifted(Shifted(Shifted(r, e), f), g);
            Next(t, p, !r.c3) == Shifted(p, t(!((e.c2 ^ f.c1) ^ g.c0)))
  {
    Cancel3(r.c3, e.c2, f.c1, g.c0);
    NextAt(t, Shifted(Shifted(Shifted(r, e), f), g), !r.c3, !((e.c2 ^ f.c1) ^ g.c0));
  }

  lemma Cancel1(a: octet, e: octet)
    ensures (a ^ e) ^ !a == !e
  {}

  lemma Cancel2(a: octet, e: octet, f: octet)
    ensures ((a ^ e) ^ f) ^ !a == !(e ^ f)
  {}

  lemma Cancel3(a: octet, e: octet, f: octet, g: octet)
    ensures (((a ^ e) ^ f) ^ g) ^ !a == !((e ^ f) ^ g)
  {}

  /** Each shift by a common entry makes one more octet agree; four of them forget the register. */
  lemma Forget(k: nat, r: Reg, s: Reg, e: Reg)
    requires k < 4 && Agree(k, r, s)
    ensures Agree(k + 1, Shifted(r, e), Shifted(s, e))
  {}

  lemma ForgetAll(r: Reg, s: Reg, e: Reg, f: Reg, g: Reg, h: Reg)
    ensures Shifted(Shifted(Shifted(Shifted(r, e), f), g), h) == Shifted(Shifted(Shifted(Shifted(s, e), f), g), h)
  {
    Forget(0, r, s, e);
    Forget(1, Shifted(r, e), Shifted(s, e), f);
    Forget(2, Shifted(Shifted(r, e), f), Shifted(Shifted(s, e), f), g);
    Forget(3, Shifted(Shifted(Shifted(r, e), f), g), Shifted(Shifted(Shifted(s, e), f), g), h);
  }

  /** A register fed its own trailer: the indices do not depend on it. */
  lemma TrailerCloses(t: Lookup, r: Reg, e: Reg, f: Reg, g: Reg, h: Reg)
    requires e == t(0xFF) && f == t(!e.c0) && g == t(!(e.c1 ^ f.c0)) && h == t(!((e.c2 ^ f.c1) ^ g.c0))
    ensures State(t, r, Trailer(r)) == Shifted(Shifted(Shifted(Shifted(r, e), f), g), h)
  {
    StateFour(t, r, Trailer(r));
    Index0(t, r);
    Index1(t, r, e);
    Index2(t, r, e, f);
    Index3(t, r, e, f, g);
  }

  /** A register followed by its own trailer always ends in the residue. */
  lemma TrailerGivesResidue(t: Lookup, r: Reg)
    ensures State(t, r, Trailer(r)) == Residue(t)
  {
    var e := t(0xFF);
    var f := t(!e.c0);
    var g := t(!(e.c1 ^ f.c0));
    var h := t(!((e.c2 ^ f.c1) ^ g.c0));
    TrailerCloses(t, r, e, f, g, h);
    TrailerCloses(t, INIT, e, f, g, h);
    ForgetAll(r, INIT, e, f, g, h);
    assert Trailer(INIT) == [0, 0, 0, 0];
  }

  lemma StateFour(t: Lookup, r: Reg, w: seq<octet>)
    requires |w| == 4
    ensures State(t, r, w) == Next(t, Next(t, Next(t, Next(t, r, w[0]), w[1]), w[2]), w[3])
  {
    var r1 := Next(t, r, w[0]);
    var r2 := Next(t, r1, w[1]);
    var r3 := Next(t, r2, w[2]);
    var x := w[1..];
    assert x[0] == w[1] && x[1..][0] == w[2] && x[1..][1..][0] == w[3] && x[1..][1..][1..] == [];
    assert State(t, r3, x[1..][1..]) == Next(t, r3, w[3]);
    assert State(t, r2, x[1..]) == State(t, r3, x[1..][1..]);
    assert State(t, r1, x) == State(t, r2, x[1..]);
  }

  // ---- octets of the wire, which are integers, as bits and back ----

  function ToBits(b: byte): octet {
    ((b / 16) as octet) * 16 + ((b % 16) as octet)
  }

  function Bits(data: seq<byte>): (w: seq<octet>)
    ensures |w| == |data|
  {
    if data == [] then [] else [ToBits(data[0])] + Bits(data[1..])
  }

  function Octets(w: seq<octet>): (data: seq<byte>)
    ensures |data| == |w|
  {
    if w == [] then [] else [w[0] as int] + Octets(w[1..])
  }

  lemma Nibble(n: int)
    requires 0 <= n < 16
    ensures (n as octet) as int == n && n as octet < 16
  {}

  lemma Nibbles(h: octet, l: octet)
    requires h < 16 && l < 16
    ensures (h * 16 + l) as int == 16 * (h as int) + (l as int)
  {}

  lemma OctetOfBits(b: byte)
    ensures ToBits(b) as int == b
  {
    Nibble(b / 16);
    Nibble(b % 16);
    Nibbles((b / 16) as octet, (b % 16) as octet);
  }

  lemma BitsOfOctet(b: octet)
    ensures ToBits(b as int) == b
  {
    OctetOfBits(b as int);
    SameValue(ToBits(b as int), b);
  }

  lemma SameValue(a: octet, b: octet)
    requires a as int == b as int
    ensures a == b
  {}

  lemma {:induction false} BitsOfOctets(w: seq<octet>)
    ensures Bits(Octets(w)) == w
  {
    if w != [] {
      var data := Octets(w);
      assert data[0] == w[0] as int && data[1..] == Octets(w[1..]);
      BitsOfOctet(w[0]);
      BitsOfOctets(w[1..]);
      assert Bits(data) == [ToBits(data[0])] + Bits(data[1..]);
    }
  }

  lemma {:induction false} BitsInjective(u: seq<byte>, v: seq<byte>)
    requires Bits(u) == Bits(v)
    ensures u == v
  {
    if u != [] {
      OctetOfBits(u[0]);
      OctetOfBits(v[0]);
      assert Bits(u)[0] == Bits(v)[0] && Bits(u)[1..] == Bits(v)[1..];
      BitsInjective(u[1..], v[1..]);
      assert u == [u[0]] + u[1..] && v == [v[0]] + v[1..];
    }
  }

  lemma {:induction false} BitsConcat(u: seq<byte>, v: seq<byte>)
    ensures Bits(u + v) == Bits(u) + Bits(v)
  {
    if u == [] {
      assert u + v == v;
    } else {
      assert (u + v)[1..] == u[1..] + v;
      BitsConcat(u[1..], v);
    }
  }

  /** The register after `data`: `zlib.crc32` before its final complement. */
  function Crc(data: seq<byte>): Reg { State(Table, INIT, Bits(data)) }

  /** The four octets `pack` appends. */
  function Checksum(data: seq<byte>): (w: seq<byte>)
    ensures |w| == 4
  {
    Octets(Trailer(Crc(data)))
  }

  /** A string carries its own checksum exactly when the register over all of it, trailer too, ends in the residue. */
  lemma ChecksumIffResidue(data: seq<byte>, trailer: seq<byte>)
    requires |trailer| == 4
    ensures trailer == Checksum(data) <==> Crc(data + trailer) == Residue(Table)
  {
    var r := Crc(data);
    BitsConcat(data, trailer);
    StateConcat(Table, INIT, Bits(data), Bits(trailer));
    TrailerGivesResidue(Table, r);
    BitsOfOctets(Trailer(r));
    TableSeparating();
    if State(Table, r, Bits(trailer)) == Residue(Table) {
      WindowInjective(Table, r, r, Bits(trailer), Trailer(r));
      BitsInjective(trailer, Checksum(data));
    }
  }

  /**
   * u and v differ within 32 consecutive bits: at most four octets, or five of which the first keeps its k low
   * bits and the last all others. Low bits travel first.
   */
  predicate Burst(k: nat, u: seq<byte>, v: seq<byte>) {
    && k < 8 && |u| == |v| <= 5
    && (|u| == 5 ==> AgreeIn(Low(k), ToBits(u[0]), ToBits(v[0])) && AgreeIn(!Low(k), ToBits(u[4]), ToBits(v[4])))
  }

  lemma {:induction false} BitsAt(data: seq<byte>, i: nat)
    requires i < |data|
    ensures Bits(data)[i] == ToBits(data[i])
  {
    if i > 0 {
      BitsAt(data[1..], i - 1);
    }
  }

  lemma BurstInjective(r: Reg, k: nat, u: seq<byte>, v: seq<byte>)
    requires Burst(k, u, v) && State(Table, r, Bits(u)) == State(Table, r, Bits(v))
    ensures u == v
  {
    TableSeparating();
    if |u| == 5 {
      TableSpreading();
      BitsAt(u, 0);
      BitsAt(v, 0);
      BitsAt(u, 4);
      BitsAt(v, 4);
      FiveInjective(Table, r, k, Bits(u), Bits(v));
    } else {
      WindowInjective(Table, r, r, Bits(u), Bits(v));
    }
    BitsInjective(u, v);
  }

  /**
   * Burst detection: changing bits within 32 consecutive ones anywhere in a codeword, at any bit offset and
   * even across the boundary between data and trailer, never leaves a codeword.
   */
  lemma BurstDetected(before: seq<byte>, k: nat, u: seq<byte>, v: seq<byte>, after: seq<byte>)
    requires Burst(k, u, v) && u != v
    requires Crc(before + u + after) == Residue(Table)
    ensures Crc(before + v + after) != Residue(Table)
  {
    var r := Crc(before);
    CrcThree(before, u, after);
    CrcThree(before, v, after);
    if Crc(before + v + after) == Residue(Table) {
      TableSeparating();
      StateInjective(Table, State(Table, r, Bits(u)), State(Table, r, Bits(v)), Bits(after));
      BurstInjective(r, k, u, v);
    }
  }

  lemma CrcThree(before: seq<byte>, u: seq<byte>, after: seq<byte>)
    ensures Crc(before + u + after) == State(Table, State(Table, Crc(before), Bits(u)), Bits(after))
  {
    BitsConcat(before + u, after);
    BitsConcat(before, u);
    StateConcat(Table, INIT, Bits(before) + Bits(u), Bits(after));
    StateConcat(Table, INIT, Bits(before), Bits(u));
  }

  /** The residue is the one IEEE Std 802.3 gives for this polynomial: 0xDEBB20E3. */
  lemma ResidueValue()
    ensures Residue(Table) == Reg(0xE3, 0x20, 0xBB, 0xDE)
  {
    StateFour(Table, INIT, [0, 0, 0, 0]);
  }

  /** And the checksum of the nine octets "123456789" is the check value published for it, 0xCBF43926. */
  lemma CheckValue()
    ensures Trailer(State(Table, INIT, [0x31, 0x32, 0x33, 0x34, 0x35, 0x36, 0x37, 0x38, 0x39]))
         == [0x26, 0x39, 0xF4, 0xCB]
  {
    var a, b: seq<octet>, c: seq<octet> := [0x31, 0x32, 0x33, 0x34], [0x35, 0x36, 0x37, 0x38], [0x39];
    StateConcat(Table, INIT, a + b, c);
    StateConcat(Table, INIT, a, b);
    FirstFour();
    NextFour();
    assert State(Table, Reg(0x50, 0x25, 0x1F, 0x65), c) == Next(Table, Reg(0x50, 0x25, 0x1F, 0x65), 0x39);
    assert (a + b) + c == [0x31, 0x32, 0x33, 0x34, 0x35, 0x36, 0x37, 0x38, 0x39];
  }

  lemma FirstFour()
    ensures State(Table, INIT, [0x31, 0x32, 0x33, 0x34]) == Reg(0x5C, 0x1F, 0x1C, 0x64)
  {
    StateFour(Table, INIT, [0x31, 0x32, 0x33, 0x34]);
  }

  lemma NextFour()
    ensures State(Table, Reg(0x5C, 0x1F, 0x1C, 0x64), [0x35, 0x36, 0x37, 0x38]) == Reg(0x50, 0x25, 0x1F, 0x65)
  {
    StateFour(Table, Reg(0x5C, 0x1F, 0x1C, 0x64), [0x35, 0x36, 0x37, 0x38]);
  }
}
