/** What get_header finds in the frames that extern_outbound builds, and how long they can get. */
module FrameLaws {
  import opened Memory
  import opened Digits
  import opened Bitmaps
  import opened Message
  import opened Shapes
  import opened Layout
  import opened Wire
  import opened Codec
  import opened RoundTrip
  import opened Frame

  lemma FirstPair(s: Text)
    requires AllDigits(s) && |s| == 4
    ensures Pack(s)[0] == 16 * (s[0] - 0x30) + (s[1] - 0x30)
  {
    hide PackByte;
    PackByteNibbles(s[0], s[1]);
    assert Pack(s)[0] == PackAt(s, 0);
  }

  lemma LastDigit(v: nat, n: nat)
    requires n > 0
    ensures Decimal(v, n) == Decimal(v / 10, n - 1) + [0x30 + v % 10]
  {}

  lemma FirstDigits(v: nat)
    ensures Decimal(v, 4)[0] == 0x30 + v / 10 / 10 / 10 % 10 && Decimal(v, 4)[1] == 0x30 + v / 10 / 10 % 10
  {
    hide Decimal;
    LastDigit(v, 4);
    LastDigit(v / 10, 3);
    LastDigit(v / 10 / 10, 2);
    LastDigit(v / 10 / 10 / 10, 1);
  }

  /** The first byte of a four-digit number, as the reject test sees it. */
  lemma FirstByte(v: int)
    requires 0 <= v < 10_000
    ensures NumBytes(v, 4)[0] >= 0x80 <==> v >= 8000
  {
    hide Pack, Decimal, Pow10;
    Pow10Small();
    FirstDigits(v);
    FirstPair(Decimal(v, 4));
  }

  /**
   * get_header finds in a frame the message number, the map and the body that were laid out, takes no message
   * type below 8000 for a reject, and the two length bytes recombine to the bytes behind the prefix.
   */
  lemma FrameFound(hdr: seq<byte>, msgtype: int, bm: Bitmap, body: seq<byte>)
    requires |hdr| == HEADER_LEN && hdr[0] == HEADER_LEN && |bm| == 8 && 0 <= msgtype < 10_000 && |body| <= 65_000
    ensures var f := FrameBytes(hdr, msgtype, bm, body);
            var v := Locate(f, 4);
            && v == Located(4, 26, 28, 36, msgtype >= 8000)
            && f[v.msgno..v.bitmap] == NumBytes(msgtype, 4) && f[v.bitmap..v.msg] == bm && f[v.msg..] == body
            && 256 * f[v.header + 3] as int + f[v.header + 4] as int == |f| - |PREFIX|
  {
    hide NumBytes;
    var f, h := FrameBytes(hdr, msgtype, bm, body), WithLength(hdr, 32 + |body|);
    FirstByte(msgtype);
    assert f[4..26] == h;
    assert f[4] == h[0] && f[7] == h[3] && f[8] == h[4] && f[26] == NumBytes(msgtype, 4)[0];
  }

  /** The bytes of a frame: BIZZ in EBCDIC, the header with the length in its fourth and fifth bytes, and the rest. */
  lemma FrameCellsAre(hdr: seq<byte>, msgtype: int, bm: Bitmap, body: seq<byte>)
    requires |hdr| == 22 && |bm| == 8
    ensures var f, n := FrameBytes(hdr, msgtype, bm, body), 32 + |body|;
            && f[..4] == [0xC2, 0xC9, 0xE9, 0xE9] && f[4..7] == hdr[..3] && f[7] == n / 256 % 256 && f[8] == n % 256
            && f[9..26] == hdr[5..] && f[26..28] == NumBytes(msgtype, 4) && f[28..36] == bm && f[36..] == body
  {
    hide NumBytes;
    var f, h := FrameBytes(hdr, msgtype, bm, body), WithLength(hdr, 32 + |body|);
    assert f[4..26] == h;
    assert f[7] == h[3] && f[8] == h[4] && f[4..7] == h[..3] && f[9..26] == h[5..];
  }

  /** The header of an answer, byte by byte. */
  lemma HeaderCellsAre(m: InternalMsg)
    requires AddressWidths(m.priv) && m.msgtype >= 0 && m.msgtype / 10 % 2 == 1
    ensures var h := HeaderOf(m);
            && h[..5] == [22, 1, m.priv.textFormat, 0, 0]
            && h[5..8] == m.priv.destination && h[8..11] == m.priv.source
            && h[11..18] == [m.priv.roundTrip, 0, 0, 0, 0, 0, m.priv.batch]
            && h[18..21] == m.priv.reserved && h[21] == m.priv.userInfo
  {
    assert m.msgtype / 10 % 10 % 2 == m.msgtype / 10 % 2;
    assert IsResponse(m.msgtype);
    hide IsResponse;
    var p := m.priv;
    var a: seq<byte>, b: seq<byte> := [22, 1, p.textFormat, 0, 0], [p.roundTrip, 0, 0, 0, 0, 0, p.batch];
    assert HeaderOf(m) == a + p.destination + p.source + b + p.reserved + [p.userInfo];
  }

  /** The message number read back from a frame. */
  lemma TypeFound(hdr: seq<byte>, msgtype: int, bm: Bitmap, body: seq<byte>)
    requires |hdr| == HEADER_LEN && |bm| == 8 && 0 <= msgtype < 10_000
    ensures Btoi(FrameBytes(hdr, msgtype, bm, body)[26..], 4) == msgtype
  {
    hide Btoi, NumBytes, Pow10;
    var f := FrameBytes(hdr, msgtype, bm, body);
    Pow10Small();
    EvenBack(msgtype, 2, bm + body);
    assert f[26..] == NumBytes(msgtype, 4) + (bm + body);
  }

  /** A whole frame: where get_header looks, the decoder takes every byte and receives every field that is unspoiled. */
  lemma FrameRoundTrip(hdr: seq<byte>, bm: Bitmap, m: InternalMsg, m0: InternalMsg, env: Env, net: seq<byte>)
    requires |hdr| == HEADER_LEN && hdr[0] == HEADER_LEN && 0 <= m.msgtype < 8000 && |net| == 8
    requires Plainly(bm) && WellFormedFor(bm, m)
    ensures !IsSet(bm, 44)
    ensures var f := FrameBytes(hdr, m.msgtype, bm, Encoded(1, bm, m, net));
            var v := Locate(f, 4);
            && !v.isreject && v.msg <= |f| <= MESSAGE_LEN && f[v.bitmap..v.bitmap + 8] == bm
            && Btoi(f[v.msgno..], 4) == m.msgtype
            && var d := Decoded(1, bm, m0, env, f[v.msg..]);
               && d.Done? && d.n == |f[v.msg..]|
               && forall g :: 1 <= g <= 64 && IsSet(bm, g) && Carried(g) ==> (Received(g, d.m, m) <==> Unspoiled(g, m))
  {
    hide Plainly, WellFormedFor, IsSet, Received, Encoded, Decoded, Btoi, Carried, Unspoiled;
    WellFormedReady(bm, m);
    DecodeRestores(bm, m, m0, env, net, []);
    var body := Encoded(1, bm, m, net);
    assert body + [] == body;
    EncodedBound(bm, m, net);
    FrameFound(hdr, m.msgtype, bm, body);
    TypeFound(hdr, m.msgtype, bm, body);
  }

  // ---- the bound --------------------------------------------------------------------------------

  /** The most bytes a shape takes. */
  function Widest(sh: Shape): nat
  {
    match sh
    case Number(len) => (len + 1) / 2
    case Stamp => 5
    case Amount => 6
    case VarBcd(cap) => 1 + (cap + 1) / 2
    case Text8(len) => len
    case VarText(cap) => 1 + cap
    case Raw => 1
    case Hex => 8
    case Tagged => 2
  }

  lemma PutWidest(sh: Shape, c: FieldValue)
    requires sh.VarBcd? || sh.VarText? ==> |c.text| <= sh.cap
    ensures |Put(sh, c)| <= Widest(sh)
  {}

  /** The long fields, by how much they may exceed eight bytes. */
  function Surplus(f: nat): nat
  {
    if f == 2 then 3
    else if f == 28 then 1
    else if f == 37 then 4
    else if f == 42 then 7
    else if f == 43 then 32
    else if f == 48 then 53
    else if f == 59 then 7
    else if f == 62 then 1
    else if f == 63 then 38
    else 0
  }

  /** The most bytes a well-formed field takes. */
  function Most(f: nat): nat { 8 + Surplus(f) }

  function SurplusFrom(f: nat): nat
  {
    (if f <= 2 then 3 else 0) + (if f <= 28 then 1 else 0) + (if f <= 37 then 4 else 0) + (if f <= 42 then 7 else 0)
    + (if f <= 43 then 32 else 0) + (if f <= 48 then 53 else 0) + (if f <= 59 then 7 else 0)
    + (if f <= 62 then 1 else 0) + (if f <= 63 then 38 else 0)
  }

  /** The most bytes the fields from f on take together. */
  function MostFrom(f: nat): int { 8 * (65 - f) + SurplusFrom(f) }

  lemma MostStep(f: nat)
    requires 1 <= f <= 64
    ensures MostFrom(f) == Most(f) + MostFrom(f + 1)
  {}

  lemma CarriedBound(f: nat, m: InternalMsg, net: seq<byte>, bm: Bitmap)
    requires f in SYMMETRIC && WellFormed(f, m) && |net| == 8 && 1 <= f <= 64 && f != 44 && |bm| == 8
    ensures |Written(f, m, net)| <= Most(f)
  {
    hide Put, WireValue, WellFormed;
    WellFormedSendable(f, m, bm);
    PutWidest(ShapeOf(f), WireValue(f, m));
  }

  lemma PassiveBound(f: nat, m: InternalMsg, net: seq<byte>)
    requires f in CURSOR_ONLY && WellFormed(f, m) && |net| == 8 && 1 <= f <= 64 && f != 44
    ensures |Written(f, m, net)| <= Most(f)
  {
    match f {
      case 48 => PrivateBound(m, net);
      case 62 => PaymentBound(m, net);
      case 63 => NetworkBound(m, net);
      case _ => PlainBound(f, m, net);
    }
  }

  lemma PlainBound(f: nat, m: InternalMsg, net: seq<byte>)
    requires f in CURSOR_ONLY && f !in {48, 62, 63} && |net| == 8 && 1 <= f <= 64 && f != 44
    ensures |Written(f, m, net)| <= Most(f)
  {
    hide Put, WireValue, ShapeOf;
  }

  lemma PrivateBound(m: InternalMsg, net: seq<byte>)
    requires WellFormed(48, m) && |net| == 8
    ensures |Written(48, m, net)| <= 61
  {
    hide PrivateBody;
    PrivateLengths(m);
  }

  lemma PaymentBound(m: InternalMsg, net: seq<byte>)
    requires WellFormed(62, m) && |net| == 8
    ensures |Written(62, m, net)| <= 9
  {
    LowBits(m.priv.bitmp621);
  }

  lemma NetworkBound(m: InternalMsg, net: seq<byte>)
    requires |net| == 8
    ensures |Written(63, m, net)| <= 46
  {
    hide NetworkBody;
    NetworkBodyLength(NetMapOf(net[0]), m);
  }

  lemma {:induction false} EncodedUpperBound(f: nat, bm: Bitmap, m: InternalMsg, net: seq<byte>)
    requires 1 <= f <= 65 && |net| == 8 && Plainly(bm) && WellFormedFor(bm, m) && !IsSet(bm, 44)
    ensures |Encoded(f, bm, m, net)| <= MostFrom(f)
    decreases 65 - f
  {
    hide Written, Most, WellFormed, SurplusFrom;
    if f < 65 {
      EncodedUpperBound(f + 1, bm, m, net);
      MostStep(f);
      if IsSet(bm, f) {
        if f in SYMMETRIC { CarriedBound(f, m, net, bm); } else { PassiveBound(f, m, net); }
      }
    }
  }

  /** Prefix and frame of every well-formed message over the two field sets fit the buffer. */
  lemma EncodedBound(bm: Bitmap, m: InternalMsg, net: seq<byte>)
    requires |net| == 8 && Plainly(bm) && WellFormedFor(bm, m)
    ensures !IsSet(bm, 44) && 36 + |Encoded(1, bm, m, net)| <= MESSAGE_LEN
  {
    WellFormedReady(bm, m);
    EncodedUpperBound(1, bm, m, net);
    assert MostFrom(1) == 658;
  }
}
