/** Authenticated frames and capability frames, both built on the plain layout. */
module Auth {
  import opened Base
  import opened Frames
  import opened Integrity
  import Crc32

  const TAG_SIZE: nat := 16
  const MAX_PAYLOAD_AUTH: nat := 16352

  /** HMAC-SHA256 (section 2 of RFC 2104) is any function of key and message with 32 octets of output. */
  type Digest = d: seq<byte> | |d| == 32 witness Zeros(32)
  type Mac = (seq<byte>, seq<byte>) -> Digest

  /** Truncated to 128 bits, section 5 of RFC 2104. */
  function Tag(mac: Mac, key: seq<byte>, covered: seq<byte>): (t: seq<byte>)
    ensures |t| == TAG_SIZE
  {
    mac(key, covered)[..TAG_SIZE]
  }

  function Tagged(mac: Mac, key: seq<byte>, f: Frame): seq<byte> {
    Covered(f) + Tag(mac, key, Covered(f))
  }

  function EncodeAuth(mac: Mac, key: seq<byte>, f: Frame): (d: seq<byte>)
    ensures |d| == MIN_FRAME + TAG_SIZE + Pad16(|f.payload|)
  {
    Tagged(mac, key, f) + Crc32.Checksum(Tagged(mac, key, f))
  }

  function PackAuth(mac: Mac, key: seq<byte>, f: Frame): Result<seq<byte>> {
    if Encodable(f) then Ok(EncodeAuth(mac, key, f)) else Err(PackRange)
  }

  function UnpackAuth(mac: Mac, key: seq<byte>, d: seq<byte>): Result<Frame> {
    if |d| < MIN_FRAME + TAG_SIZE then Err(TooShort)
    else if d[0..2] != MAGIC then Err(BadMagic)
    else
      var body := HDR_SIZE + Pad16(LengthField(d));
      var sum := body + TAG_SIZE;
      if |d| < sum + CRC_SIZE then Err(Truncated)
      else if d[sum..sum + CRC_SIZE] != Crc32.Checksum(d[..sum]) then Err(CrcMismatch)
      else if d[body..sum] != Tag(mac, key, d[..HDR_SIZE] + d[HDR_SIZE..body]) then Err(AuthFailed)
      else Ok(FieldsOf(d))
  }

  lemma EncodeAuthSlices(mac: Mac, key: seq<byte>, f: Frame, trailing: seq<byte>)
    ensures var d := EncodeAuth(mac, key, f) + trailing;
            var body := HDR_SIZE + Pad16(|f.payload|);
            && d == Covered(f) + d[body..]
            && d[..body] == Covered(f)
            && d[..body + TAG_SIZE] == Tagged(mac, key, f)
            && d[body..body + TAG_SIZE] == Tag(mac, key, Covered(f))
            && d[body + TAG_SIZE..body + TAG_SIZE + CRC_SIZE] == Crc32.Checksum(Tagged(mac, key, f))
  {}

  lemma EncodeAuthFields(mac: Mac, key: seq<byte>, f: Frame, trailing: seq<byte>)
    requires Encodable(f)
    ensures var d := EncodeAuth(mac, key, f) + trailing;
            && d[0..2] == MAGIC && LengthField(d) == |f.payload|
            && FieldsOf(d) == f
  {
    EncodeAuthSlices(mac, key, f, trailing);
    CoveredFields(f, (EncodeAuth(mac, key, f) + trailing)[|Covered(f)|..]);
  }

  /** Once length and CRC hold, the tag decides. */
  lemma TagDecides(mac: Mac, key: seq<byte>, d: seq<byte>, body: nat)
    requires |d| >= MIN_FRAME + TAG_SIZE && d[0..2] == MAGIC
    requires body == HDR_SIZE + Pad16(LengthField(d)) && |d| >= body + TAG_SIZE + CRC_SIZE
    requires d[body + TAG_SIZE..body + TAG_SIZE + CRC_SIZE] == Crc32.Checksum(d[..body + TAG_SIZE])
    ensures UnpackAuth(mac, key, d)
         == if d[body..body + TAG_SIZE] == Tag(mac, key, d[..body]) then Ok(FieldsOf(d)) else Err(AuthFailed)
  {
    assert d[..HDR_SIZE] + d[HDR_SIZE..body] == d[..body];
  }

  lemma AuthUnpacks(mac: Mac, key: seq<byte>, other: seq<byte>, f: Frame, trailing: seq<byte>)
    requires Encodable(f)
    ensures UnpackAuth(mac, other, EncodeAuth(mac, key, f) + trailing)
         == if Tag(mac, other, Covered(f)) == Tag(mac, key, Covered(f)) then Ok(f) else Err(AuthFailed)
  {
    EncodeAuthSlices(mac, key, f, trailing);
    EncodeAuthFields(mac, key, f, trailing);
    TagDecides(mac, other, EncodeAuth(mac, key, f) + trailing, HDR_SIZE + Pad16(|f.payload|));
  }

  /**
   * Packing succeeds exactly when number and payload length fit, and then the frame is accepted under `other`
   * exactly when both keys give it the same truncated tag, so always under its own key; otherwise the failure
   * is the authentication one.
   */
  lemma AuthRoundTrip(mac: Mac, key: seq<byte>, other: seq<byte>, f: Frame, trailing: seq<byte>)
    ensures match PackAuth(mac, key, f)
            case Err(_) => f.num >= WRAP || |f.payload| >= 0x1_0000
            case Ok(d) =>
              f.num < WRAP && |f.payload| < 0x1_0000
              && UnpackAuth(mac, other, d + trailing)
                 == if mac(other, d[..|d| - 20])[..16] == mac(key, d[..|d| - 20])[..16] then Ok(f) else Err(AuthFailed)
  {
    if Encodable(f) {
      AuthUnpacks(mac, key, other, f, trailing);
      AuthFront(mac, key, f);
    }
  }

  lemma AuthFront(mac: Mac, key: seq<byte>, f: Frame)
    ensures EncodeAuth(mac, key, f)[..|EncodeAuth(mac, key, f)| - 20] == Covered(f)
  {}

  /**
   * What lies on the wire: header, payload and zero octets exactly as in a plain frame, then the first sixteen octets
   * of the MAC of all that, then the checksum of everything before it.
   */
  lemma PackedAuthOctets(mac: Mac, key: seq<byte>, f: Frame)
    requires PackAuth(mac, key, f).Ok?
    ensures var d := PackAuth(mac, key, f).value;
            && Pack(f).Ok? && |d| == |Pack(f).value| + 16
            && d[..|d| - 20] == Pack(f).value[..|Pack(f).value| - 4]
            && d[|d| - 20..|d| - 4] == mac(key, d[..|d| - 20])[..16]
            && d[|d| - 4..] == Crc32.Checksum(d[..|d| - 4])
  {
    var d := EncodeAuth(mac, key, f);
    EncodeAuthSlices(mac, key, f, []);
    assert d + [] == d;
    assert Encode(f)[..|Encode(f)| - 4] == Covered(f);
    assert d[..|d| - 20] == Covered(f) && d[..|d| - 4] == Tagged(mac, key, f);
  }

  /** Any octets at all: which test fails first, or which frame is read; the checksum comes before the tag. */
  lemma UnpackAuthOutcome(mac: Mac, key: seq<byte>, d: seq<byte>)
    ensures match UnpackAuth(mac, key, d)
            case Ok(f) =>
              var body := 16 + Pad16(|f.payload|);
              && IsHeaderOf(d, f) && |d| >= body + 20 && f.payload == d[16..16 + |f.payload|]
              && d[body..body + 16] == mac(key, d[..body])[..16]
              && d[body + 16..body + 20] == Crc32.Checksum(d[..body + 16])
            case Err(e) =>
              if |d| < 36 then e == TooShort
              else if d[0] != 0x55 || d[1] != 0x46 then e == BadMagic
              else
                var body := 16 + Pad16((d[10] as int) + 0x100 * (d[11] as int));
                if |d| < body + 20 then e == Truncated
                else if d[body + 16..body + 20] != Crc32.Checksum(d[..body + 16]) then e == CrcMismatch
                else e == AuthFailed && d[body..body + 16] != mac(key, d[..body])[..16]
  {
    if |d| >= 36 {
      HeaderRead(d);
      var body := 16 + Pad16(LengthField(d));
      if d[0..2] == MAGIC && |d| >= body + 20 && d[body + 16..body + 20] == Crc32.Checksum(d[..body + 16]) {
        TagDecides(mac, key, d, body);
      }
    }
  }

  lemma FitsReadAuth(mac: Mac, key: seq<byte>, f: Frame)
    ensures |EncodeAuth(mac, key, f)| <= READ_SIZE <==> |f.payload| <= MAX_PAYLOAD_AUTH
    ensures |EncodeAuth(mac, key, f)| <= 16388 <==> |f.payload| <= 16352
  {}

  lemma AcceptedAuthWhole(mac: Mac, key: seq<byte>, e: seq<byte>)
    requires UnpackAuth(mac, key, e).Ok? && |e| == MIN_FRAME + TAG_SIZE + Pad16(LengthField(e))
    ensures Crc32.Crc(e) == Crc32.Residue(Crc32.Table)
  {
    var sum := HDR_SIZE + Pad16(LengthField(e)) + TAG_SIZE;
    CodewordOf(e, sum);
    assert e[..sum + CRC_SIZE] == e;
  }

  /** The CRC covers the tag as well: bursts in an authenticated frame are rejected under every key. */
  lemma AuthBurstRejected(mac: Mac, key: seq<byte>, other: seq<byte>, f: Frame, e: seq<byte>, i: nat, j: nat, k: nat)
    requires Encodable(f) && Damaged(EncodeAuth(mac, key, f), e, i, j, k)
    requires j <= 10 || 12 <= i
    ensures UnpackAuth(mac, other, e).Err?
  {
    var d := EncodeAuth(mac, key, f);
    var raw := Tagged(mac, key, f);
    Crc32.ChecksumIffResidue(raw, Crc32.Checksum(raw));
    BurstBreaksCodeword(d, e, i, j, k);
    LengthUntouched(d, e, i, j);
    CoveredFields(f, d[|Covered(f)|..]);
    assert d == Covered(f) + d[|Covered(f)|..];
    if UnpackAuth(mac, other, e).Ok? {
      AcceptedAuthWhole(mac, other, e);
    }
  }

  // ---- damage to the length field ----

  /** Everything after the header that the CRC covers. */
  function AuthBody(mac: Mac, key: seq<byte>, f: Frame): (b: seq<byte>)
    ensures |b| == Pad16(|f.payload|) + TAG_SIZE
  {
    Padded(f) + Tag(mac, key, Covered(f))
  }

  lemma AuthEncodedTail(mac: Mac, key: seq<byte>, f: Frame)
    ensures EncodeAuth(mac, key, f)[HDR_SIZE..] == AuthBody(mac, key, f) + Crc32.Checksum(Tagged(mac, key, f))
  {
    assert Covered(f) == Header(f) + Padded(f);
    assert EncodeAuth(mac, key, f) == Header(f) + (AuthBody(mac, key, f) + Crc32.Checksum(Tagged(mac, key, f)));
  }

  /** Once there is room, checksum and tag decide. */
  lemma AuthAcceptedAt(mac: Mac, key: seq<byte>, e: seq<byte>, body: nat)
    requires |e| >= MIN_FRAME + TAG_SIZE && e[0..2] == MAGIC
    requires body == HDR_SIZE + Pad16(LengthField(e)) && body + TAG_SIZE + CRC_SIZE <= |e|
    ensures UnpackAuth(mac, key, e).Ok?
            <==> e[body + TAG_SIZE..body + TAG_SIZE + CRC_SIZE] == Crc32.Checksum(e[..body + TAG_SIZE])
                 && e[body..body + TAG_SIZE] == Tag(mac, key, e[..body])
  {
    if e[body + TAG_SIZE..body + TAG_SIZE + CRC_SIZE] == Crc32.Checksum(e[..body + TAG_SIZE]) {
      TagDecides(mac, key, e, body);
    }
  }

  /** After p octets of the body come the tag and the checksum that a frame of this header and length would have. */
  predicate Completes(mac: Mac, key: seq<byte>, header: seq<byte>, body: seq<byte>, p: nat)
    requires p + TAG_SIZE + CRC_SIZE <= |body|
  {
    && body[p..p + TAG_SIZE] == mac(key, header + body[..p])[..16]
    && body[p + TAG_SIZE..p + TAG_SIZE + CRC_SIZE] == Crc32.Checksum(header + body[..p + TAG_SIZE])
  }

  lemma AuthAcceptedShort(mac: Mac, key: seq<byte>, e: seq<byte>, body: seq<byte>, rest: seq<byte>, p: nat)
    requires |e| >= MIN_FRAME + TAG_SIZE && e[0..2] == MAGIC && e[HDR_SIZE..] == body + rest
    requires p == Pad16(LengthField(e)) && p + TAG_SIZE + CRC_SIZE <= |body|
    ensures UnpackAuth(mac, key, e).Ok? <==> Completes(mac, key, e[..HDR_SIZE], body, p)
  {
    Tail(e, HDR_SIZE, body, rest, p, TAG_SIZE);
    Tail(e, HDR_SIZE, body, rest, p + TAG_SIZE, CRC_SIZE);
    AuthAcceptedAt(mac, key, e, HDR_SIZE + p);
  }

  lemma AuthShortenedIff(mac: Mac, key: seq<byte>, other: seq<byte>, f: Frame, e: seq<byte>, p: nat)
    requires |e| == |EncodeAuth(mac, key, f)| && e[0..2] == MAGIC
    requires e[HDR_SIZE..] == EncodeAuth(mac, key, f)[HDR_SIZE..]
    requires p == Pad16(LengthField(e)) && p + 16 <= Pad16(|f.payload|)
    ensures UnpackAuth(mac, other, e).Ok? <==> Completes(mac, other, e[..HDR_SIZE], AuthBody(mac, key, f), p)
  {
    AuthEncodedTail(mac, key, f);
    AuthAcceptedShort(mac, other, e, AuthBody(mac, key, f), Crc32.Checksum(Tagged(mac, key, f)), p);
  }

  lemma AuthLengthBurstRejected(
      mac: Mac, key: seq<byte>, other: seq<byte>, f: Frame, e: seq<byte>, i: nat, j: nat, k: nat)
    requires Encodable(f) && Damaged(EncodeAuth(mac, key, f), e, i, j, k)
    requires Pad16(LengthField(e)) >= Pad16(|f.payload|)
    ensures UnpackAuth(mac, other, e).Err?
  {
    var raw := Tagged(mac, key, f);
    Crc32.ChecksumIffResidue(raw, Crc32.Checksum(raw));
    BurstBreaksCodeword(EncodeAuth(mac, key, f), e, i, j, k);
    if UnpackAuth(mac, other, e).Ok? {
      AcceptedAuthWhole(mac, other, e);
    }
  }

  /**
   * Damage within 32 consecutive bits passes, under any key, exactly when it shortens the padded length and the next
   * twenty octets of payload and tag happen to be the tag and the checksum of the damaged, shorter frame.
   */
  lemma AuthBurstAcceptedIff(
      mac: Mac, key: seq<byte>, other: seq<byte>, f: Frame, e: seq<byte>, i: nat, j: nat, k: nat)
    requires Encodable(f) && Damaged(EncodeAuth(mac, key, f), e, i, j, k)
    ensures var p := Pad16(LengthField(e));
            UnpackAuth(mac, other, e).Ok?
            <==> p + 16 <= Pad16(|f.payload|) && Completes(mac, other, e[..HDR_SIZE], AuthBody(mac, key, f), p)
  {
    if Pad16(LengthField(e)) >= Pad16(|f.payload|) {
      AuthLengthBurstRejected(mac, key, other, f, e, i, j, k);
    } else {
      StepsOf16(LengthField(e), |f.payload|);
      EncodeAuthHeader(mac, key, f);
      HeaderDamage(EncodeAuth(mac, key, f), e, i, j, k);
      AuthShortenedIff(mac, key, other, f, e, Pad16(LengthField(e)));
    }
  }

  lemma EncodeAuthHeader(mac: Mac, key: seq<byte>, f: Frame)
    requires Encodable(f)
    ensures EncodeAuth(mac, key, f)[0..2] == MAGIC && LengthField(EncodeAuth(mac, key, f)) == |f.payload|
  {
    EncodeAuthFields(mac, key, f, []);
    assert EncodeAuth(mac, key, f) + [] == EncodeAuth(mac, key, f);
  }
}

/** Capability frames: a sixteen-octet payload. */
module Capability {
  import opened Base
  import opened Frames
  import opened Ring

  datatype Cap = Cap(version: nat, maxFrame: nat, node: NodeId, features: byte, name: seq<byte>)

  /** bytes.split(b'\0', 1)[0] */
  function UntilNul(s: seq<byte>): seq<byte> {
    if s == [] || s[0] == 0 then [] else [s[0]] + UntilNul(s[1..])
  }

  function Truncate(name: seq<byte>): (t: seq<byte>)
    ensures |t| <= 9 && t <= name
  {
    if |name| > 9 then name[..9] else name
  }

  /** The octets before the first NUL, at most the first `limit` of them. */
  predicate IsNameOf(name: seq<byte>, field: seq<byte>, limit: nat) {
    && name <= field && |name| <= limit && 0 !in name
    && (|name| == limit || name == field || field[|name|] == 0)
  }

  lemma {:induction false} UntilNulIs(s: seq<byte>)
    ensures IsNameOf(UntilNul(s), s, |s|)
  {
    if s != [] && s[0] != 0 {
      UntilNulIs(s[1..]);
      assert s == [s[0]] + s[1..];
    }
  }

  function CapPayload(src: NodeId, name: seq<byte>, maxFrame: nat, version: nat, features: byte): (p: seq<byte>)
    ensures |p| == 16
  {
    Le16(version) + Le16(maxFrame) + [src, features] + Truncate(name) + Zeros(10 - |Truncate(name)|)
  }

  function MakeCap(src: NodeId, dst: NodeId, num: nat, name: seq<byte>, maxFrame: nat, version: nat, features: byte)
    : Result<seq<byte>>
  {
    if version >= 0x1_0000 || maxFrame >= 0x1_0000 then Err(PackRange)
    else Pack(Frame(FLAG_CAP, 0, num, src, dst, CapPayload(src, name, maxFrame, version, features)))
  }

  function ParseCap(p: seq<byte>): Result<Cap> {
    if |p| < 16 then Err(CapTooShort)
    else Ok(Cap(FromLe16(p[0..2]), FromLe16(p[2..4]), p[4], p[5], UntilNul(p[6..16])))
  }

  lemma {:induction false} UntilNulPadding(s: seq<byte>, k: nat)
    ensures UntilNul(s + Zeros(k)) == UntilNul(s)
  {
    if s == [] {
      assert s + Zeros(k) == Zeros(k);
    } else if s[0] != 0 {
      assert (s + Zeros(k))[1..] == s[1..] + Zeros(k);
      UntilNulPadding(s[1..], k);
    }
  }

  lemma {:induction false} UntilNulWhole(s: seq<byte>)
    requires 0 !in s
    ensures UntilNul(s) == s
  {
    if s != [] {
      UntilNulWhole(s[1..]);
      assert s == [s[0]] + s[1..];
    }
  }

  lemma CapPayloadParses(src: NodeId, name: seq<byte>, maxFrame: nat, version: nat, features: byte)
    requires version < 0x1_0000 && maxFrame < 0x1_0000
    ensures ParseCap(CapPayload(src, name, maxFrame, version, features))
         == Ok(Cap(version, maxFrame, src, features, UntilNul(Truncate(name))))
  {
    var p := CapPayload(src, name, maxFrame, version, features);
    assert p[0..2] == Le16(version) && p[2..4] == Le16(maxFrame);
    ValueOfLe16(version);
    ValueOfLe16(maxFrame);
    assert p[6..16] == Truncate(name) + Zeros(10 - |Truncate(name)|);
    UntilNulPadding(Truncate(name), 10 - |Truncate(name)|);
  }

  /** The sixteen octets of the payload, one by one. */
  lemma CapOctets(src: NodeId, name: seq<byte>, maxFrame: nat, version: nat, features: byte)
    requires version < 0x1_0000 && maxFrame < 0x1_0000
    ensures var p, k := CapPayload(src, name, maxFrame, version, features), Min(|name|, 9);
            && (p[0] as int) + 0x100 * (p[1] as int) == version
            && (p[2] as int) + 0x100 * (p[3] as int) == maxFrame
            && p[4] == src && p[5] == features
            && p[6..6 + k] == name[..k] && forall i :: 6 + k <= i < 16 ==> p[i] == 0
  {
    var p := CapPayload(src, name, maxFrame, version, features);
    assert p[6..] == Truncate(name) + Zeros(10 - |Truncate(name)|);
    forall i | 6 + |Truncate(name)| <= i < 16 ensures p[i] == 0 {
      assert p[i] == p[6..][i - 6];
    }
  }

  /** Any payload at all: refused exactly below sixteen octets, else read field by field. */
  lemma ParseCapOutcome(p: seq<byte>)
    ensures match ParseCap(p)
            case Err(e) => |p| < 16 && e == CapTooShort
            case Ok(c) =>
              && |p| >= 16
              && c.version == (p[0] as int) + 0x100 * (p[1] as int)
              && c.maxFrame == (p[2] as int) + 0x100 * (p[3] as int)
              && c.node == p[4] && c.features == p[5] && IsNameOf(c.name, p[6..16], 10)
  {
    if |p| >= 16 {
      UntilNulIs(p[6..16]);
    }
  }

  /**
   * A capability frame survives the wire, and is made exactly when number, version and frame size fit: every field
   * comes back, the name cut at nine octets and at its first NUL, so unchanged when it was at most nine octets without
   * one.
   */
  lemma CapRoundTrip(src: NodeId, dst: NodeId, num: nat, name: seq<byte>, maxFrame: nat, version: nat, features: byte)
    ensures match MakeCap(src, dst, num, name, maxFrame, version, features)
            case Err(_) => version >= 0x1_0000 || maxFrame >= 0x1_0000 || num >= 0x1_0000_0000
            case Ok(raw) =>
              && version < 0x1_0000 && maxFrame < 0x1_0000 && num < 0x1_0000_0000
              && Unpack(raw).Ok?
              && var f := Unpack(raw).value;
                 && f == Frame(0x20, 0, num, src, dst, f.payload)
                 && ParseCap(f.payload).Ok?
                 && var c := ParseCap(f.payload).value;
                    && c == Cap(version, maxFrame, src, features, c.name)
                    && IsNameOf(c.name, name, 9)
                    && (|name| <= 9 && 0 !in name ==> c.name == name)
  {
    if version < 0x1_0000 && maxFrame < 0x1_0000 {
      PackUnpack(Frame(FLAG_CAP, 0, num, src, dst, CapPayload(src, name, maxFrame, version, features)));
      CapPayloadParses(src, name, maxFrame, version, features);
      UntilNulIs(Truncate(name));
      if |name| <= 9 && 0 !in name {
        UntilNulWhole(name);
      }
    }
  }
}
