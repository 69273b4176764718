/** The frame around a message: the header of v_header.c, its message number and map, and the prefix of v_out.c. */
module Frame {
  import opened Memory
  import opened Digits
  import opened Conversions
  import opened Bitmaps
  import opened Message
  import opened Shapes
  import opened Layout
  import opened Wire
  import opened Codec
  import opened RoundTrip
  import opened Encoder

  const PREFIX: seq<byte> := [0xC2, 0xC9, 0xE9, 0xE9]
  const HEADER_LEN := 22
  const MESSAGE_LEN := 1024

  /** The pointers of struct cardcoexternmsg, as offsets in the buffer. */
  datatype Located = Located(header: nat, msgno: nat, bitmap: nat, msg: nat, isreject: bool)

  /** What get_header finds in a buffer whose header starts at `at`. */
  function Locate(mem: seq<byte>, at: nat): Located
    requires at + 23 <= |mem|
  {
    var len: nat := mem[at];
    Located(at, at + len, at + len + 2, at + len + 10, len >= HEADER_LEN && mem[at + HEADER_LEN] >= 0x80)
  }

  /** get_header: bit 0 is never seen, so the map is taken for eight bytes. */
  method GetHeader(buf: array<byte>, at: nat) returns (v: Located)
    requires at + 23 <= buf.Length && at + buf[at] as int + 2 < buf.Length
    ensures v == Locate(buf[..], at)
  {
    var len: nat := buf[at];
    var bitmap := at + len + 2;
    var isreject := len >= HEADER_LEN && buf[at + HEADER_LEN] >= 0x80;
    var double := IsBitSet(buf, bitmap, 0);
    BitZero([buf[bitmap]]);
    v := Located(at, at + len, bitmap, if double then bitmap + 16 else bitmap + 8, isreject);
  }

  /** The header build_header makes: an answer takes its addresses from what was saved of the request. */
  function HeaderOf(m: InternalMsg): (h: seq<byte>)
    requires AddressWidths(m.priv)
    ensures |h| == HEADER_LEN
  {
    var p := m.priv;
    if IsResponse(m.msgtype) then
      [HEADER_LEN, 1, p.textFormat, 0, 0] + p.destination + p.source + [p.roundTrip, 0, 0, 0, 0, 0, p.batch]
      + p.reserved + [p.userInfo]
    else
      [HEADER_LEN, 1, 1] + Zeros(19)
  }

  predicate AddressWidths(p: PrivateData) { |p.destination| == |p.source| == |p.reserved| == 3 }

  /** extern_save_information: addresses are saved the other way round. */
  function Saved(m: InternalMsg, header: seq<byte>, bitmap: seq<byte>, net: seq<byte>): InternalMsg
    requires |header| >= HEADER_LEN
  {
    m.(priv := m.priv.(bitmap := bitmap, textFormat := header[2], source := header[5..8], destination := header[8..11],
                       roundTrip := header[11], batch := header[17], reserved := header[18..21], userInfo := header[21],
                       netId := net))
  }

  /** The answer to a message goes back where it came from, and says so in the same terms. */
  lemma AnswerGoesBack(m: InternalMsg, header: seq<byte>, bitmap: seq<byte>, net: seq<byte>, answer: InternalMsg)
    requires |header| == HEADER_LEN && answer.priv == Saved(m, header, bitmap, net).priv && IsResponse(answer.msgtype)
    ensures AddressWidths(answer.priv)
    ensures var h := HeaderOf(answer);
            && h[5..8] == header[8..11] && h[8..11] == header[5..8]
            && h[2] == header[2] && h[11] == header[11] && h[17..] == header[17..]
  {}

  /** A buffer with a header, an empty message number and a map, and nothing behind them. */
  ghost predicate Headed(mem: seq<byte>, hdr: seq<byte>, bm: Bitmap)
  {
    |hdr| == HEADER_LEN && |bm| == 8 && mem == Zeros(4) + hdr + Zeros(2) + bm + Zeros(MESSAGE_LEN - 36)
  }

  lemma HeadedParts(mem: seq<byte>, hdr: seq<byte>, bm: Bitmap)
    requires Headed(mem, hdr, bm)
    ensures |mem| == MESSAGE_LEN && mem[4..26] == hdr && mem[28..36] == bm && Blank(mem, 36)
  {}

  /** The fields of the header that an answer takes over. */
  method ReuseOld(m: InternalMsg, buf: array<byte>)
    requires buf.Length == MESSAGE_LEN && AddressWidths(m.priv) && IsResponse(m.msgtype)
    requires buf[4] == HEADER_LEN && buf[5] == 1 && forall k :: 7 <= k < 26 ==> buf[k] == 0
    modifies buf
    ensures buf[4..26] == HeaderOf(m)
    ensures forall k :: 0 <= k < MESSAGE_LEN && !(4 <= k < 26) ==> buf[k] == old(buf[k])
  {
    hide HeaderOf, Overwrite, IsResponse;
    var p := m.priv;
    Copy(buf, 12, p.source);
    assert buf[12..15] == p.source;
    buf[6] := p.textFormat;
    Copy(buf, 9, p.destination);
    assert buf[9..12] == p.destination && buf[12..15] == p.source;
    buf[15], buf[21] := p.roundTrip, p.batch;
    Copy(buf, 22, p.reserved);
    assert buf[22..25] == p.reserved && buf[9..12] == p.destination && buf[12..15] == p.source;
    buf[25] := p.userInfo;
    assert buf[22..25] == p.reserved && buf[9..12] == p.destination && buf[12..15] == p.source;
    HeaderCells(m, buf[..]);
    assert buf[4..26] == buf[..][4..26];
  }

  lemma HeaderCells(m: InternalMsg, mem: seq<byte>)
    requires |mem| >= 26 && AddressWidths(m.priv) && IsResponse(m.msgtype)
    requires mem[4] == HEADER_LEN && mem[5] == 1 && mem[6] == m.priv.textFormat && mem[7] == 0 && mem[8] == 0
    requires mem[9..12] == m.priv.destination && mem[12..15] == m.priv.source && mem[15] == m.priv.roundTrip
    requires (forall k :: 16 <= k < 21 ==> mem[k] == 0) && mem[21] == m.priv.batch
    requires mem[22..25] == m.priv.reserved && mem[25] == m.priv.userInfo
    ensures mem[4..26] == HeaderOf(m)
  {
    var p := m.priv;
    assert mem[4..9] == [HEADER_LEN, 1, p.textFormat, 0, 0] && mem[15..22] == [p.roundTrip, 0, 0, 0, 0, 0, p.batch];
    assert mem[4..26] == mem[4..9] + mem[9..12] + mem[12..15] + mem[15..22] + mem[22..25] + [mem[25]];
  }

  /** build_header, into the cleared buffer from its fifth cell on. */
  method BuildHeader(m: InternalMsg, buf: array<byte>, bitmap: Bitmap)
    requires buf.Length == MESSAGE_LEN && |bitmap| >= 8 && buf[..] == Zeros(MESSAGE_LEN) && AddressWidths(m.priv)
    modifies buf
    ensures Headed(buf[..], HeaderOf(m), bitmap[..8])
  {
    hide IsSet;
    var maplen := if IsSet(bitmap, 0) then 16 else 8;
    BitZero(bitmap);
    assert forall k :: 0 <= k < MESSAGE_LEN ==> buf[k] == buf[..][k];
    Copy(buf, 28, bitmap[..maplen]);
    buf[4], buf[5], buf[6] := HEADER_LEN, 1, 1;
    assert buf[28..36] == bitmap[..8];
    if IsResponse(m.msgtype) {
      ReuseOld(m, buf);
    } else {
      assert buf[4..26] == [HEADER_LEN, 1, 1] + Zeros(19);
    }
    HeadedWhen(buf[..], HeaderOf(m), bitmap[..8]);
  }

  lemma HeadedWhen(mem: seq<byte>, hdr: seq<byte>, bm: Bitmap)
    requires |mem| == MESSAGE_LEN && |hdr| == HEADER_LEN && |bm| == 8
    requires mem[4..26] == hdr && mem[28..36] == bm
    requires forall k :: 0 <= k < MESSAGE_LEN && !(4 <= k < 26) && !(28 <= k < 36) ==> mem[k] == 0
    ensures Headed(mem, hdr, bm)
  {
    assert mem[..4] == Zeros(4) && mem[26..28] == Zeros(2) && mem[36..] == Zeros(MESSAGE_LEN - 36);
    assert mem == mem[..4] + mem[4..26] + mem[26..28] + mem[28..36] + mem[36..];
  }

  /** setBitOn on the map of the frame. */
  method FrameBitOn(buf: array<byte>, bit: nat, ghost hdr: seq<byte>, ghost bm: Bitmap)
    requires Headed(buf[..], hdr, bm) && 1 <= bit <= 64
    modifies buf
    ensures Headed(buf[..], hdr, SetOn(bm, bit))
  {
    hide SetOn, SetOn8;
    HeadedParts(buf[..], hdr, bm);
    EditInBuffer(buf[..], 28, 8, bit);
    SetBitOn(buf, 28, bit);
    MapReplaced(old(buf[..]), hdr, bm, SetOn(bm, bit));
  }

  /** setBitOff on the map of the frame. */
  method FrameBitOff(buf: array<byte>, bitno: nat, ghost hdr: seq<byte>, ghost bm: Bitmap)
    requires Headed(buf[..], hdr, bm) && 1 <= bitno < 64
    modifies buf
    ensures Headed(buf[..], hdr, SetOff(bm, bitno))
  {
    hide SetOff, SetOff8;
    HeadedParts(buf[..], hdr, bm);
    EditInBuffer(buf[..], 28, 8, bitno);
    SetBitOff(buf, 28, bitno);
    MapReplaced(old(buf[..]), hdr, bm, SetOff(bm, bitno));
  }

  lemma MapReplaced(mem: seq<byte>, hdr: seq<byte>, bm: Bitmap, bm1: Bitmap)
    requires Headed(mem, hdr, bm) && |bm1| == 8
    ensures Headed(Overwrite(mem, 28, bm1), hdr, bm1)
  {
    HeadedParts(mem, hdr, bm);
    var r := Overwrite(mem, 28, bm1);
    assert r[4..26] == mem[4..26];
    HeadedWhen(r, hdr, bm1);
  }

  /** The header with the length of the message in its fourth and fifth bytes. */
  function WithLength(hdr: seq<byte>, len: nat): (h: seq<byte>)
    requires |hdr| == HEADER_LEN
    ensures |h| == HEADER_LEN
  {
    hdr[3 := len / 256 % 256][4 := len % 256]
  }

  /** The bytes handed to the driver. */
  function FrameBytes(hdr: seq<byte>, msgtype: int, bm: Bitmap, body: seq<byte>): (f: seq<byte>)
    requires |hdr| == HEADER_LEN && |bm| == 8
    ensures |f| == 36 + |body|
  {
    PREFIX + WithLength(hdr, 32 + |body|) + NumBytes(msgtype, 4) + bm + body
  }

  /** cardcoToExtern from its start, then the length and the prefix of extern_outbound. */
  method FinishFrame(m: InternalMsg, buf: array<byte>, net: seq<byte>, refnum: array<byte>,
                     ghost hdr: seq<byte>, ghost bm: Bitmap) returns (msglen: nat)
    requires buf != refnum && |net| == 8 && Headed(buf[..], hdr, bm)
    requires !IsSet(bm, 1) && !IsSet(bm, 44) && InArraysFor(bm, m) && 36 + |Encoded(1, bm, m, net)| <= MESSAGE_LEN
    requires refnum.Length >= 1 && refnum[refnum.Length - 1] == 0 && m.refnum == CStr(refnum[..])
    modifies buf, refnum
    ensures msglen == 32 + |Encoded(1, bm, m, net)|
    ensures buf[..msglen + 4] == FrameBytes(hdr, m.msgtype, bm, Encoded(1, bm, m, net))
  {
    hide IsSet, InArrays, Encoded, NumBytes, CStr, RefnumKept;
    HeadedParts(buf[..], hdr, bm);
    ghost var body := Encoded(1, bm, m, net);
    var k := Itob(buf, 26, m.msgtype, 4);
    MapBehind(old(buf[..]), NumBytes(m.msgtype, 4), hdr, bm);
    var n := PutFields(m, buf, 28, 36, net, refnum);
    FrameParts(old(buf[..]), NumBytes(m.msgtype, 4), body, hdr, bm);
    var len := 32 + n;
    ghost var a := buf[..];
    buf[7], buf[8] := len / 256 % 256, len % 256;
    buf[0], buf[1], buf[2], buf[3] := 0xC2, 0xC9, 0xE9, 0xE9;
    FrameCells(a, buf[..], hdr, m.msgtype, bm, body);
    assert buf[..36 + n] == buf[..][..36 + n];
    msglen := len;
  }

  lemma MapBehind(mem: seq<byte>, num: seq<byte>, hdr: seq<byte>, bm: Bitmap)
    requires Headed(mem, hdr, bm) && |num| == 2
    ensures var a := Overwrite(mem, 26, num);
            a[28..36] == bm && Blank(a, 36)
  {
    HeadedParts(mem, hdr, bm);
  }

  lemma FrameParts(mem: seq<byte>, num: seq<byte>, body: seq<byte>, hdr: seq<byte>, bm: Bitmap)
    requires Headed(mem, hdr, bm) && |num| == 2 && 36 + |body| <= MESSAGE_LEN
    ensures var a := Overwrite(Overwrite(mem, 26, num), 36, body);
            a[4..26] == hdr && a[26..28] == num && a[28..36] == bm && a[36..36 + |body|] == body
  {
    HeadedParts(mem, hdr, bm);
  }

  /** The buffer before and after the length and the prefix are filled in. */
  lemma FrameCells(a: seq<byte>, f: seq<byte>, hdr: seq<byte>, msgtype: int, bm: Bitmap, body: seq<byte>)
    requires |hdr| == HEADER_LEN && |bm| == 8 && 36 + |body| <= |a| == |f|
    requires a[4..26] == hdr && a[26..28] == NumBytes(msgtype, 4) && a[28..36] == bm && a[36..36 + |body|] == body
    requires f[0] == 0xC2 && f[1] == 0xC9 && f[2] == 0xE9 && f[3] == 0xE9
    requires f[7] == (32 + |body|) / 256 % 256 && f[8] == (32 + |body|) % 256
    requires forall k :: 4 <= k < |a| && k != 7 && k != 8 ==> f[k] == a[k]
    ensures f[..36 + |body|] == FrameBytes(hdr, msgtype, bm, body)
  {
    hide NumBytes;
    var h := WithLength(hdr, 32 + |body|);
    assert f[4..26] == h by { assert forall k :: 0 <= k < 22 ==> a[4 + k] == hdr[k]; }
    assert f[26..28] == a[26..28] && f[28..36] == a[28..36] && f[36..36 + |body|] == a[36..36 + |body|];
    assert f[..4] == PREFIX;
    assert f[..36 + |body|] == f[..4] + f[4..26] + f[26..28] + f[28..36] + f[36..36 + |body|];
  }
}
