/** What the CRC trailer buys: which damage `unpack` is certain to notice. */
module Integrity {
  import opened Base
  import opened Frames
  import Crc32

  /** d and e differ at most in the octets from i up to j. */
  predicate DifferWithin(d: seq<byte>, e: seq<byte>, i: nat, j: nat) {
    |d| == |e| && i <= j <= |d| && d[..i] == e[..i] && d[j..] == e[j..]
  }

  /** e is d with some bits changed, all within 32 consecutive ones: see `Crc32.Burst`. */
  predicate Damaged(d: seq<byte>, e: seq<byte>, i: nat, j: nat, k: nat) {
    d != e && DifferWithin(d, e, i, j) && Crc32.Burst(k, d[i..j], e[i..j])
  }

  lemma EncodeIsCodeword(f: Frame)
    ensures Crc32.Crc(Encode(f)) == Crc32.Residue(Crc32.Table)
  {
    Crc32.ChecksumIffResidue(Covered(f), Crc32.Checksum(Covered(f)));
  }

  lemma CodewordOf(d: seq<byte>, body: nat)
    requires body + CRC_SIZE <= |d| && d[body..body + CRC_SIZE] == Crc32.Checksum(d[..body])
    ensures Crc32.Crc(d[..body + CRC_SIZE]) == Crc32.Residue(Crc32.Table)
  {
    Crc32.ChecksumIffResidue(d[..body], d[body..body + CRC_SIZE]);
    assert d[..body + CRC_SIZE] == d[..body] + d[body..body + CRC_SIZE];
  }

  /** What `unpack` accepts is a codeword followed by octets it ignores. */
  lemma AcceptedIsCodeword(d: seq<byte>)
    requires Unpack(d).Ok?
    ensures Crc32.Crc(d[..HDR_SIZE + Pad16(LengthField(d)) + CRC_SIZE]) == Crc32.Residue(Crc32.Table)
  {
    CodewordOf(d, HDR_SIZE + Pad16(LengthField(d)));
  }

  lemma BurstBreaksCodeword(d: seq<byte>, e: seq<byte>, i: nat, j: nat, k: nat)
    requires Damaged(d, e, i, j, k)
    requires Crc32.Crc(d) == Crc32.Residue(Crc32.Table)
    ensures Crc32.Crc(e) != Crc32.Residue(Crc32.Table)
  {
    assert d == d[..i] + d[i..j] + d[j..];
    assert e == d[..i] + e[i..j] + d[j..];
    Crc32.BurstDetected(d[..i], k, d[i..j], e[i..j], d[j..]);
  }

  lemma AcceptedWhole(e: seq<byte>, trailing: seq<byte>)
    requires |e| >= HDR_SIZE && |e| == MIN_FRAME + Pad16(LengthField(e))
    requires Unpack(e + trailing).Ok?
    ensures Crc32.Crc(e) == Crc32.Residue(Crc32.Table)
  {
    var d := e + trailing;
    assert d[10..12] == e[10..12];
    assert d[..|e|] == e;
    AcceptedIsCodeword(d);
  }

  /** Damage within 32 consecutive bits that leaves the padded length alone is always rejected. */
  lemma SameLengthBurstRejected(f: Frame, e: seq<byte>, i: nat, j: nat, k: nat, trailing: seq<byte>)
    requires Encodable(f) && Damaged(Encode(f), e, i, j, k)
    requires Pad16(LengthField(e)) == Pad16(|f.payload|)
    ensures Unpack(e + trailing).Err?
  {
    EncodeIsCodeword(f);
    BurstBreaksCodeword(Encode(f), e, i, j, k);
    if Unpack(e + trailing).Ok? {
      AcceptedWhole(e, trailing);
    }
  }

  lemma LengthUntouched(d: seq<byte>, e: seq<byte>, i: nat, j: nat)
    requires DifferWithin(d, e, i, j) && |d| >= HDR_SIZE && (j <= 10 || 12 <= i)
    ensures LengthField(d) == LengthField(e)
  {
    if j <= 10 {
      assert d[10..12] == d[j..][10 - j..12 - j] && e[10..12] == e[j..][10 - j..12 - j];
    } else {
      assert d[10..12] == d[..i][10..12] && e[10..12] == e[..i][10..12];
    }
  }

  /**
   * Damage within 32 consecutive bits of a packed frame, trailer included, that does not touch the
   * length field is always rejected, for every payload length and whatever follows the frame.
   */
  lemma BurstRejected(f: Frame, e: seq<byte>, i: nat, j: nat, k: nat, trailing: seq<byte>)
    requires Encodable(f) && Damaged(Encode(f), e, i, j, k)
    requires j <= 10 || 12 <= i
    ensures Unpack(e + trailing).Err?
  {
    LengthUntouched(Encode(f), e, i, j);
    LengthOfEncode(f);
    SameLengthBurstRejected(f, e, i, j, k, trailing);
  }

  lemma LengthOfEncode(f: Frame)
    requires Encodable(f)
    ensures LengthField(Encode(f)) == |f.payload|
  {
    CoveredFields(f, Crc32.Checksum(Covered(f)));
  }

  lemma LengthBurstRejected(f: Frame, e: seq<byte>, i: nat, j: nat, k: nat)
    requires Encodable(f) && Damaged(Encode(f), e, i, j, k)
    requires Pad16(LengthField(e)) >= Pad16(|f.payload|)
    ensures Unpack(e).Err?
  {
    if Pad16(LengthField(e)) == Pad16(|f.payload|) {
      SameLengthBurstRejected(f, e, i, j, k, []);
      assert e + [] == e;
    }
  }

  function Padded(f: Frame): (b: seq<byte>)
    ensures |b| == Pad16(|f.payload|)
  {
    f.payload + Zeros(Pad16(|f.payload|) - |f.payload|)
  }

  /** Damage that changes the length field lies within octets 6 to 15. */
  lemma HeaderDamage(d: seq<byte>, e: seq<byte>, i: nat, j: nat, k: nat)
    requires Damaged(d, e, i, j, k) && |d| >= MIN_FRAME && d[0..2] == MAGIC && LengthField(d) != LengthField(e)
    ensures e[0..2] == MAGIC && e[HDR_SIZE..] == d[HDR_SIZE..]
  {
    if j <= 10 || 12 <= i {
      LengthUntouched(d, e, i, j);
    }
    assert j <= i + 5;
    assert e[0..2] == e[..i][0..2] == d[..i][0..2] == d[0..2] == MAGIC;
    assert e[HDR_SIZE..] == e[j..][HDR_SIZE - j..] == d[j..][HDR_SIZE - j..] == d[HDR_SIZE..];
  }

  lemma Tail(e: seq<byte>, h: nat, body: seq<byte>, rest: seq<byte>, p: nat, n: nat)
    requires h <= |e| && e[h..] == body + rest && p + n <= |body|
    ensures e[..h + p] == e[..h] + body[..p] && e[h + p..h + p + n] == body[p..p + n]
  {
    assert e == e[..h] + (body + rest);
  }

  lemma EncodedTail(f: Frame)
    ensures Encode(f)[HDR_SIZE..] == Padded(f) + Crc32.Checksum(Covered(f))
  {
    assert Covered(f) == Header(f) + Padded(f);
    assert Encode(f) == Header(f) + (Padded(f) + Crc32.Checksum(Covered(f)));
  }

  lemma AcceptedAt(e: seq<byte>, body: nat)
    requires |e| >= MIN_FRAME && e[0..2] == MAGIC && body == HDR_SIZE + Pad16(LengthField(e)) && body + CRC_SIZE <= |e|
    ensures Unpack(e).Ok? <==> e[body..body + CRC_SIZE] == Crc32.Checksum(e[..body])
  {}

  lemma StepsOf16(n: nat, m: nat)
    requires Pad16(n) < Pad16(m)
    ensures Pad16(n) + 16 <= Pad16(m)
  {}

  /** After p octets of the body comes the checksum that a frame of this header and length would have. */
  predicate EndsEarly(header: seq<byte>, body: seq<byte>, p: nat)
    requires p + CRC_SIZE <= |body|
  {
    body[p..p + CRC_SIZE] == Crc32.Checksum(header + body[..p])
  }

  lemma AcceptedShort(e: seq<byte>, body: seq<byte>, rest: seq<byte>, p: nat)
    requires |e| >= MIN_FRAME && e[0..2] == MAGIC && e[HDR_SIZE..] == body + rest
    requires p == Pad16(LengthField(e)) && p + CRC_SIZE <= |body|
    ensures Unpack(e).Ok? <==> EndsEarly(e[..HDR_SIZE], body, p)
  {
    Tail(e, HDR_SIZE, body, rest, p, CRC_SIZE);
    AcceptedAt(e, HDR_SIZE + p);
  }

  lemma ShortenedIff(f: Frame, e: seq<byte>, p: nat)
    requires |e| == |Encode(f)| && e[0..2] == MAGIC && e[HDR_SIZE..] == Encode(f)[HDR_SIZE..]
    requires p == Pad16(LengthField(e)) && p + 16 <= Pad16(|f.payload|)
    ensures Unpack(e).Ok? <==> EndsEarly(e[..HDR_SIZE], Padded(f), p)
  {
    EncodedTail(f);
    AcceptedShort(e, Padded(f), Crc32.Checksum(Covered(f)), p);
  }

  /**
   * So damage within 32 consecutive bits passes exactly when it shortens the padded length and four octets of
   * the payload happen to be the checksum of the damaged header and the payload before them.
   */
  lemma BurstAcceptedIff(f: Frame, e: seq<byte>, i: nat, j: nat, k: nat)
    requires Encodable(f) && Damaged(Encode(f), e, i, j, k)
    ensures var p := Pad16(LengthField(e));
            Unpack(e).Ok? <==> p + 16 <= Pad16(|f.payload|) && EndsEarly(e[..HDR_SIZE], Padded(f), p)
  {
    if Pad16(LengthField(e)) >= Pad16(|f.payload|) {
      LengthBurstRejected(f, e, i, j, k);
    } else {
      StepsOf16(LengthField(e), |f.payload|);
      CoveredFields(f, Crc32.Checksum(Covered(f)));
      HeaderDamage(Encode(f), e, i, j, k);
      ShortenedIff(f, e, Pad16(LengthField(e)));
    }
  }

  /** A payload that is itself the trailer of the shorter frame. */
  function Decoy(f: Frame): Frame {
    f.(payload := Crc32.Checksum(Header(f.(payload := []))))
  }

  /** And it can happen: one damaged length octet turns this frame into an accepted empty one. */
  lemma ShorteningCanPass(f: Frame)
    requires f.num < 0x1_0000_0000
    ensures var d := Encode(Decoy(f));
            && DifferWithin(d, d[10 := 0], 10, 11)
            && Unpack(d) == Ok(Decoy(f))
            && Unpack(d[10 := 0]) == Ok(f.(payload := []))
  {
    var g := f.(payload := []);
    var d := Encode(Decoy(f));
    PackUnpack(Decoy(f));
    DecoyStartsWithEmpty(f);
    UnpackEncode(g, d[10 := 0][MIN_FRAME..]);
  }

  lemma DecoyStartsWithEmpty(f: Frame)
    ensures var e := Encode(Decoy(f))[10 := 0];
            e == Encode(f.(payload := [])) + e[MIN_FRAME..]
  {
    var g := f.(payload := []);
    var sum := Crc32.Checksum(Header(g));
    var e := Encode(Decoy(f))[10 := 0];
    DecoyHeader(f);
    assert e[..HDR_SIZE] == Header(g);
    assert e[HDR_SIZE..MIN_FRAME] == sum;
    EncodeEmpty(g);
    assert e == (e[..HDR_SIZE] + e[HDR_SIZE..MIN_FRAME]) + e[MIN_FRAME..];
  }

  lemma DecoyHeader(f: Frame)
    ensures Header(Decoy(f))[10 := 0] == Header(f.(payload := []))
  {}

  lemma EncodeEmpty(g: Frame)
    requires g.payload == []
    ensures Encode(g) == Header(g) + Crc32.Checksum(Header(g))
  {
    assert Covered(g) == Header(g);
  }
}
