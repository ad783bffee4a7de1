/** The wire format of src/common/frame.py: header, padded payload, CRC trailer. */
module Frames {
  import opened Base
  import Crc32

  const MAGIC: seq<byte> := [0x55, 0x46]
  const HDR_SIZE: nat := 16
  const CRC_SIZE: nat := 4
  const MIN_FRAME: nat := 20
  const MAX_PAYLOAD: nat := 16368
  /** The buffer every receive loop reads into. */
  const READ_SIZE: nat := 16388

  const FLAG_FWD: byte := 0x08
  const FLAG_HB: byte := 0x10
  const FLAG_CAP: byte := 0x20

  datatype Frame = Frame(flags: byte, hop: byte, num: nat, src: NodeId, dst: NodeId, payload: seq<byte>)

  function Pad16(n: nat): (p: nat)
    ensures n <= p < n + 16 && p % 16 == 0
  {
    if n > 0 then (n + 15) / 16 * 16 else 0
  }

  // ---- integers on the wire ----

  function Le16(n: nat): (w: seq<byte>)
    ensures |w| == 2
  {
    [n % 256, n / 0x100 % 256]
  }

  function Le32(n: nat): (w: seq<byte>)
    ensures |w| == 4
  {
    Le16(n % 0x1_0000) + Le16(n / 0x1_0000)
  }

  function FromLe16(w: seq<byte>): (n: nat)
    requires |w| == 2
    ensures n < 0x1_0000
  {
    (w[0] as int) + 0x100 * (w[1] as int)
  }

  function FromLe32(w: seq<byte>): (n: nat)
    requires |w| == 4
    ensures n < 0x1_0000_0000
  {
    FromLe16(w[..2]) + 0x1_0000 * FromLe16(w[2..])
  }

  lemma OctetsOfLe16(w: seq<byte>)
    requires |w| == 2
    ensures Le16(FromLe16(w)) == w
  {}

  lemma OctetsOfLe32(w: seq<byte>)
    requires |w| == 4
    ensures Le32(FromLe32(w)) == w
  {
    OctetsOfLe16(w[..2]);
    OctetsOfLe16(w[2..]);
    Halves(FromLe16(w[..2]), FromLe16(w[2..]));
    assert w == w[..2] + w[2..];
  }

  lemma Halves(lo: nat, hi: nat)
    requires lo < 0x1_0000
    ensures (lo + 0x1_0000 * hi) % 0x1_0000 == lo && (lo + 0x1_0000 * hi) / 0x1_0000 == hi
  {}

  lemma ValueOfLe16(n: nat)
    requires n < 0x1_0000
    ensures FromLe16(Le16(n)) == n
  {}

  lemma ValueOfLe32(n: nat)
    requires n < 0x1_0000_0000
    ensures FromLe32(Le32(n)) == n
  {
    ValueOfLe16(n % 0x1_0000);
    ValueOfLe16(n / 0x1_0000);
    assert Le32(n)[..2] == Le16(n % 0x1_0000) && Le32(n)[2..] == Le16(n / 0x1_0000);
  }

  // ---- pack ----

  function Zeros(n: nat): (z: seq<byte>)
    ensures |z| == n && forall i :: 0 <= i < n ==> z[i] == 0
  {
    seq(n, i => 0)
  }

  /** What `struct.pack` accepts; every other field is one octet by its type. */
  predicate Encodable(f: Frame) {
    f.num < 0x1_0000_0000 && |f.payload| < 0x1_0000
  }

  function Header(f: Frame): (h: seq<byte>)
    ensures |h| == HDR_SIZE
  {
    MAGIC + [f.flags, f.hop] + Le32(f.num) + [f.src, f.dst] + Le16(|f.payload|) + Zeros(4)
  }

  /** Everything the CRC covers. */
  function Covered(f: Frame): (b: seq<byte>)
    ensures |b| == HDR_SIZE + Pad16(|f.payload|)
  {
    Header(f) + f.payload + Zeros(Pad16(|f.payload|) - |f.payload|)
  }

  function Encode(f: Frame): (d: seq<byte>)
    ensures |d| == MIN_FRAME + Pad16(|f.payload|)
  {
    Covered(f) + Crc32.Checksum(Covered(f))
  }

  function Pack(f: Frame): Result<seq<byte>> {
    if Encodable(f) then Ok(Encode(f)) else Err(PackRange)
  }

  // ---- unpack ----

  function LengthField(d: seq<byte>): (n: nat)
    requires |d| >= HDR_SIZE
    ensures n < 0x1_0000
  {
    FromLe16(d[10..12])
  }

  function FieldsOf(d: seq<byte>): Frame
    requires |d| >= HDR_SIZE && |d| >= HDR_SIZE + Pad16(LengthField(d))
  {
    Frame(d[2], d[3], FromLe32(d[4..8]), d[8], d[9], d[HDR_SIZE..HDR_SIZE + LengthField(d)])
  }

  function Unpack(d: seq<byte>): Result<Frame> {
    if |d| < MIN_FRAME then Err(TooShort)
    else if d[0..2] != MAGIC then Err(BadMagic)
    else
      var body := HDR_SIZE + Pad16(LengthField(d));
      if |d| < body + CRC_SIZE then Err(Truncated)
      else if d[body..body + CRC_SIZE] != Crc32.Checksum(d[..body]) then Err(CrcMismatch)
      else Ok(FieldsOf(d))
  }

  // ---- round trip ----

  lemma CoveredFields(f: Frame, rest: seq<byte>)
    requires Encodable(f)
    ensures var d := Covered(f) + rest;
            && d[0..2] == MAGIC && LengthField(d) == |f.payload|
            && FieldsOf(d) == f
  {
    var d := Covered(f) + rest;
    assert d[0..2] == MAGIC;
    assert d[4..8] == Le32(f.num);
    assert d[10..12] == Le16(|f.payload|);
    ValueOfLe32(f.num);
    ValueOfLe16(|f.payload|);
    assert d[HDR_SIZE..HDR_SIZE + |f.payload|] == f.payload;
  }

  /** Whatever follows a packed frame, `unpack` returns exactly the frame that was packed. */
  lemma UnpackEncode(f: Frame, trailing: seq<byte>)
    requires Encodable(f)
    ensures Unpack(Encode(f) + trailing) == Ok(f)
  {
    var d := Encode(f) + trailing;
    var sum := Crc32.Checksum(Covered(f));
    assert d == Covered(f) + (sum + trailing);
    CoveredFields(f, sum + trailing);
    var body := HDR_SIZE + Pad16(|f.payload|);
    assert d[body..body + CRC_SIZE] == sum;
    assert d[..body] == Covered(f);
  }

  /** `pack` succeeds exactly when the fields fit, and then `unpack` inverts it. */
  lemma PackUnpack(f: Frame)
    ensures match Pack(f)
            case Ok(d) => Encodable(f) && Unpack(d) == Ok(f)
            case Err(e) => !Encodable(f) && e == PackRange
  {
    if Encodable(f) {
      UnpackEncode(f, []);
      assert Encode(f) + [] == Encode(f);
    }
  }

  /** The four octets at i as one little-endian number. */
  function Word(d: seq<byte>, i: nat): nat
    requires i + 4 <= |d|
  {
    (d[i] as int) + 0x100 * (d[i + 1] as int) + 0x1_0000 * (d[i + 2] as int) + 0x100_0000 * (d[i + 3] as int)
  }

  lemma WordIsLe32(d: seq<byte>, i: nat)
    requires i + 4 <= |d|
    ensures Word(d, i) == FromLe32(d[i..i + 4])
  {
    var w := d[i..i + 4];
    assert w[..2] == [d[i], d[i + 1]] && w[2..] == [d[i + 2], d[i + 3]];
  }

  /** The sixteen octets in front of the payload, one by one. */
  predicate IsHeaderOf(d: seq<byte>, f: Frame) {
    && |d| >= 16
    && d[0] == 0x55 && d[1] == 0x46 && d[2] == f.flags && d[3] == f.hop && Word(d, 4) == f.num
    && d[8] == f.src && d[9] == f.dst && (d[10] as int) + 0x100 * (d[11] as int) == |f.payload|
  }

  lemma HeaderOctets(f: Frame, rest: seq<byte>)
    requires Encodable(f)
    ensures var d := Header(f) + rest;
            IsHeaderOf(d, f) && d[12..16] == [0, 0, 0, 0]
  {
    var d := Header(f) + rest;
    WordIsLe32(d, 4);
    assert d[4..8] == Le32(f.num);
    ValueOfLe32(f.num);
    assert d[10..12] == Le16(|f.payload|);
    ValueOfLe16(|f.payload|);
  }

  lemma PayloadOctets(f: Frame, rest: seq<byte>)
    ensures var d, n := Covered(f) + rest, |f.payload|;
            && d[16..16 + n] == f.payload
            && forall i :: 16 + n <= i < 16 + Pad16(n) ==> d[i] == 0
  {
    var n := |f.payload|;
    assert (Covered(f) + rest)[16 + n..16 + Pad16(n)] == Zeros(Pad16(n) - n);
    forall i | 16 + n <= i < 16 + Pad16(n) ensures (Covered(f) + rest)[i] == 0 {
      assert (Covered(f) + rest)[i] == Zeros(Pad16(n) - n)[i - 16 - n];
    }
  }

  lemma TrailerOctets(f: Frame)
    ensures Encode(f)[..|Encode(f)| - 4] == Covered(f)
    ensures Encode(f)[|Encode(f)| - 4..] == Crc32.Checksum(Covered(f))
  {}

  /**
   * What lies on the wire: the header, four zero octets in it, the payload, as few zero octets as make the length a
   * multiple of sixteen, and the checksum of all that.
   */
  lemma PackedOctets(f: Frame)
    requires Pack(f).Ok?
    ensures var d, n := Pack(f).value, |f.payload|;
            && IsHeaderOf(d, f) && d[12..16] == [0, 0, 0, 0]
            && 20 + n <= |d| < 36 + n && |d| % 16 == 4
            && d[16..16 + n] == f.payload && (forall i :: 16 + n <= i < |d| - 4 ==> d[i] == 0)
            && d[|d| - 4..] == Crc32.Checksum(d[..|d| - 4])
  {
    var sum := Crc32.Checksum(Covered(f));
    var behind := f.payload + Zeros(Pad16(|f.payload|) - |f.payload|) + sum;
    HeaderOctets(f, behind);
    assert Encode(f) == Header(f) + behind;
    PayloadOctets(f, sum);
    TrailerOctets(f);
  }

  lemma HeaderRead(d: seq<byte>)
    requires |d| >= 16
    ensures d[0..2] == MAGIC <==> d[0] == 0x55 && d[1] == 0x46
    ensures LengthField(d) == (d[10] as int) + 0x100 * (d[11] as int) && FromLe32(d[4..8]) == Word(d, 4)
  {
    WordIsLe32(d, 4);
    assert d[0..2] == [d[0], d[1]] && d[10..12] == [d[10], d[11]];
  }

  /** Any octets at all: which test fails first, or which frame is read. */
  lemma UnpackOutcome(d: seq<byte>)
    ensures match Unpack(d)
            case Ok(f) =>
              var body := 16 + Pad16(|f.payload|);
              && IsHeaderOf(d, f) && |d| >= body + 4 && f.payload == d[16..16 + |f.payload|]
              && d[body..body + 4] == Crc32.Checksum(d[..body])
            case Err(e) =>
              if |d| < 20 then e == TooShort
              else if d[0] != 0x55 || d[1] != 0x46 then e == BadMagic
              else
                var body := 16 + Pad16((d[10] as int) + 0x100 * (d[11] as int));
                if |d| < body + 4 then e == Truncated
                else e == CrcMismatch && d[body..body + 4] != Crc32.Checksum(d[..body])
  {
    if |d| >= 20 {
      HeaderRead(d);
    }
  }

  /** No packed frame is a prefix of another: the stream needs no separators. */
  lemma PrefixFree(f: Frame, g: Frame, trailing: seq<byte>)
    requires Encodable(f) && Encodable(g)
    requires Encode(f) + trailing == Encode(g)
    ensures f == g && trailing == []
  {
    UnpackEncode(f, trailing);
    UnpackEncode(g, []);
    assert Encode(g) + [] == Encode(g);
  }

  /** What the parser reads lies inside the frame. */
  lemma FieldsOfPrefix(d: seq<byte>, trailing: seq<byte>)
    requires |d| >= HDR_SIZE && |d| >= HDR_SIZE + Pad16(LengthField(d))
    ensures LengthField(d + trailing) == LengthField(d)
    ensures FieldsOf(d + trailing) == FieldsOf(d)
  {
    var e := d + trailing;
    assert e[10..12] == d[10..12];
    assert e[4..8] == d[4..8];
    var n := LengthField(d);
    assert e[HDR_SIZE..HDR_SIZE + n] == d[HDR_SIZE..HDR_SIZE + n];
  }

  /** Octets after an accepted frame do not change the result. */
  lemma TrailingIgnored(d: seq<byte>, trailing: seq<byte>)
    requires Unpack(d).Ok?
    ensures Unpack(d + trailing) == Unpack(d)
  {
    FieldsOfPrefix(d, trailing);
    var e := d + trailing;
    var body := HDR_SIZE + Pad16(LengthField(d));
    assert e[0..2] == d[0..2];
    assert e[body..body + CRC_SIZE] == d[body..body + CRC_SIZE];
    assert e[..body] == d[..body];
  }

  /** Reserved octets and padding, the two places `unpack` does not look at. */
  predicate Canonical(d: seq<byte>)
    requires |d| >= HDR_SIZE && |d| >= HDR_SIZE + Pad16(LengthField(d))
  {
    && d[12..16] == Zeros(4)
    && var n := LengthField(d);
       d[HDR_SIZE + n..HDR_SIZE + Pad16(n)] == Zeros(Pad16(n) - n)
  }

  /** An accepted frame fits the number and length fields. */
  lemma UnpackedFits(d: seq<byte>)
    requires Unpack(d).Ok?
    ensures Encodable(Unpack(d).value)
  {}

  /** Re-packing an accepted frame is a normal form: it unpacks to the same frame and is no longer than before. */
  lemma NormalForm(d: seq<byte>)
    requires Unpack(d).Ok?
    ensures var f := Unpack(d).value;
            Encodable(f) && Unpack(Encode(f)) == Ok(f) && |Encode(f)| <= |d|
  {
    PackUnpack(Unpack(d).value);
  }

  lemma CanonicalCovered(d: seq<byte>)
    requires Unpack(d).Ok? && Canonical(d)
    ensures Covered(Unpack(d).value) == d[..HDR_SIZE + Pad16(LengthField(d))]
  {
    var f, n := Unpack(d).value, LengthField(d);
    var body := HDR_SIZE + Pad16(n);
    OctetsOfLe16(d[10..12]);
    OctetsOfLe32(d[4..8]);
    assert d[..HDR_SIZE] == d[0..2] + [d[2], d[3]] + d[4..8] + [d[8], d[9]] + d[10..12] + d[12..16];
    assert d[..HDR_SIZE] == Header(f);
    assert d[..body] == d[..HDR_SIZE] + d[HDR_SIZE..HDR_SIZE + n] + d[HDR_SIZE + n..body];
  }

  lemma PrefixIsCanonical(d: seq<byte>)
    requires Unpack(d).Ok? && Encode(Unpack(d).value) <= d
    ensures Canonical(d)
  {
    var c := Covered(Unpack(d).value);
    var n := LengthField(d);
    assert c <= d;
    assert d[12..16] == c[12..16] == Zeros(4);
    assert d[HDR_SIZE + n..HDR_SIZE + Pad16(n)] == c[HDR_SIZE + n..HDR_SIZE + Pad16(n)] == Zeros(Pad16(n) - n);
  }

  lemma CanonicalPrefix(d: seq<byte>)
    requires Unpack(d).Ok? && Canonical(d)
    ensures Encode(Unpack(d).value) <= d
  {
    CanonicalCovered(d);
    var body := HDR_SIZE + Pad16(LengthField(d));
    assert d == (d[..body] + d[body..body + CRC_SIZE]) + d[body + CRC_SIZE..];
  }

  /** The re-packed octets are the accepted ones exactly when reserved octets and padding were zero. */
  lemma SameOctetsIff(d: seq<byte>)
    requires Unpack(d).Ok?
    ensures Encode(Unpack(d).value) <= d <==> Canonical(d)
  {
    if Canonical(d) {
      CanonicalPrefix(d);
    } else if Encode(Unpack(d).value) <= d {
      PrefixIsCanonical(d);
    }
  }

  /** A frame fits the receive buffer exactly when its payload is at most MAX_PAYLOAD. */
  lemma FitsRead(f: Frame)
    ensures |Encode(f)| <= READ_SIZE <==> |f.payload| <= MAX_PAYLOAD
    ensures |Encode(f)| <= 16388 <==> |f.payload| <= 16368
  {}

  /** One read returns at most READ_SIZE octets. */
  function ReadOf(raw: seq<byte>): seq<byte> {
    if |raw| <= READ_SIZE then raw else raw[..READ_SIZE]
  }

  predicate ReadsWhole(f: Frame) { |f.payload| <= MAX_PAYLOAD }

  /** Cut short, a packed frame is truncated. */
  lemma CutEncode(f: Frame, n: nat)
    requires Encodable(f) && MIN_FRAME <= n < |Encode(f)|
    ensures Unpack(Encode(f)[..n]).Err?
  {
    var raw := Encode(f);
    CoveredFields(f, Crc32.Checksum(Covered(f)));
    assert raw[..n][10..12] == raw[10..12];
  }

  /** A read gets a packed frame whole if it fits, and otherwise too little of it for `unpack` to accept. */
  lemma ReadEncode(f: Frame)
    requires Encodable(f)
    ensures if |f.payload| <= 16368 then ReadOf(Encode(f)) == Encode(f) && Unpack(ReadOf(Encode(f))) == Ok(f)
            else Unpack(ReadOf(Encode(f))).Err?
  {
    FitsRead(f);
    if ReadsWhole(f) {
      PackUnpack(f);
    } else {
      CutEncode(f, READ_SIZE);
    }
  }

  // ---- streams ----

  /** The sequence numbers of a list of frames. */
  function Nums(fs: seq<Frame>): (ns: seq<nat>)
    ensures |ns| == |fs| && forall i :: 0 <= i < |fs| ==> ns[i] == fs[i].num
  {
    seq(|fs|, i requires 0 <= i < |fs| => fs[i].num)
  }

  function Concat(ds: seq<seq<byte>>): seq<byte> {
    if ds == [] then [] else ds[0] + Concat(ds[1..])
  }

  function Stream(fs: seq<Frame>): seq<byte> {
    if fs == [] then [] else Encode(fs[0]) + Stream(fs[1..])
  }

  /** Unpack one frame after the other until the rest is no frame. */
  function UnpackAll(stream: seq<byte>): seq<Frame>
    decreases |stream|
  {
    match Unpack(stream)
    case Err(_) => []
    case Ok(f) => [f] + UnpackAll(stream[MIN_FRAME + Pad16(|f.payload|)..])
  }

  lemma UnpackAllStep(f: Frame, tail: seq<byte>)
    requires Encodable(f)
    ensures UnpackAll(Encode(f) + tail) == [f] + UnpackAll(tail)
  {
    UnpackEncode(f, tail);
    assert (Encode(f) + tail)[|Encode(f)|..] == tail;
  }

  lemma RegroupBytes(a: seq<byte>, b: seq<byte>, c: seq<byte>)
    ensures (a + b) + c == a + (b + c)
  {}

  lemma RegroupFrames(f: Frame, fs: seq<Frame>, gs: seq<Frame>)
    ensures [f] + (fs + gs) == ([f] + fs) + gs
  {}

  /** A stream of packed frames unpacks to exactly those frames. */
  lemma {:induction false} UnpackStream(fs: seq<Frame>, rest: seq<byte>)
    requires forall f <- fs :: Encodable(f)
    ensures UnpackAll(Stream(fs) + rest) == fs + UnpackAll(rest)
    decreases |fs|
  {
    if fs == [] {
      assert Stream(fs) + rest == rest;
    } else {
      var f, gs := fs[0], fs[1..];
      RegroupBytes(Encode(f), Stream(gs), rest);
      UnpackAllStep(f, Stream(gs) + rest);
      UnpackStream(gs, rest);
      RegroupFrames(f, gs, UnpackAll(rest));
      assert fs == [f] + gs;
    }
  }
}
