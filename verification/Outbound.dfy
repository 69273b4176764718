/** ToVisa (v_out.c): one answer from the switch, its map adjusted, encoded and framed. */
module Outbound {
  import opened Memory
  import opened Digits
  import opened Bitmaps
  import opened Templates
  import opened Message
  import opened Shapes
  import opened Layout
  import opened Wire
  import opened Codec
  import opened Encoder
  import opened Frame
  import opened FrameLaws
  import opened Codes
  import opened Inbound

  // ---- the map that selects a set of fields -----------------------------------------------------

  /** The n low bits of a byte: bit j stands for field top - j. */
  ghost function Gather(s: set<nat>, top: nat, n: nat): (x: nat)
    requires n <= top
    decreases n
  {
    if n == 0 then 0 else (if top in s then 1 else 0) + 2 * Gather(s, top - 1, n - 1)
  }

  lemma {:induction false} GatherBits(s: set<nat>, top: nat, n: nat, j: nat)
    requires n <= top && j < n
    ensures Bit(Gather(s, top, n), j) <==> top - j in s
    decreases n
  {
    var x := Gather(s, top, n);
    assert x / 2 == Gather(s, top - 1, n - 1) && x % 2 == (if top in s then 1 else 0);
    if j > 0 { GatherBits(s, top - 1, n - 1, j - 1); }
  }

  lemma {:induction false} GatherBound(s: set<nat>, top: nat, n: nat)
    requires n <= top
    ensures Gather(s, top, n) < Shl1(n)
    decreases n
  {
    if n > 0 { GatherBound(s, top - 1, n - 1); }
  }

  ghost function GatherByte(s: set<nat>, k: nat): byte
  {
    GatherBound(s, 8 * k + 8, 8);
    Shl1Eight();
    Gather(s, 8 * k + 8, 8)
  }

  ghost function MapOfSet(s: set<nat>): (bm: Bitmap)
    ensures |bm| == 8
  {
    seq(8, k requires 0 <= k < 8 => GatherByte(s, k))
  }

  lemma MapOfSetBit(s: set<nat>, f: nat)
    requires 1 <= f <= 64
    ensures IsSet(MapOfSet(s), f) <==> f in s
  {
    hide Gather, Bit;
    var k := ByteOf(f);
    assert MapOfSet(s)[k] == GatherByte(s, k);
    GatherBits(s, 8 * k + 8, 8, PositionOf(f));
  }

  // ---- the answer -------------------------------------------------------------------------------

  /** The fields that the template of an answer selects. */
  predicate InBase(msgtype: int, f: nat)
  {
    if msgtype == 110 then f in {2, 3, 4, 7, 11, 19, 25, 32, 37, 38, 39, 49} else f in {2, 3, 4, 7, 11, 32, 37, 39, 49}
  }

  lemma BaseIsTemplate(msgtype: int, f: nat)
    requires msgtype in {110, 410}
    ensures f in TemplateFields(msgtype) <==> InBase(msgtype, f)
  {
    if msgtype == 110 { Listed110(f); } else { Listed410(f); }
  }

  lemma Listed110(f: nat)
    ensures f in Listed(IDX_110) <==> InBase(110, f)
  {
    assert IDX_110[0] == 2 && IDX_110[1] == 3 && IDX_110[2] == 4 && IDX_110[3] == 7 && IDX_110[4] == 11
           && IDX_110[5] == 19 && IDX_110[6] == 25 && IDX_110[7] == 32 && IDX_110[8] == 37 && IDX_110[9] == 38
           && IDX_110[10] == 39 && IDX_110[11] == 49;
  }

  lemma Listed410(f: nat)
    ensures f in Listed(IDX_410) <==> InBase(410, f)
  {
    assert IDX_410[0] == 2 && IDX_410[1] == 3 && IDX_410[2] == 4 && IDX_410[3] == 7 && IDX_410[4] == 11
           && IDX_410[5] == 32 && IDX_410[6] == 37 && IDX_410[7] == 39 && IDX_410[8] == 49;
  }

  /** The response code that goes out: an answer to a reversal says zero unless there was nothing to reverse. */
  function SentCode(m: InternalMsg): int
  {
    if m.msgtype == 410 && OutCode(m.respcode) != 21 then 0 else OutCode(m.respcode)
  }

  /** The record the encoder is given. */
  function SentRecord(m: InternalMsg): InternalMsg
  {
    m.(pcode := ExternPcode(m.pcode), respcode := SentCode(m))
  }

  /**
   * The fields of an answer: its template; 48 for an approved payment or balance; those of 22, 40 and 41 that the
   * request had; 61 when the request had a field 62. setBitOff(37) takes 35 away, which is never there.
   */
  predicate InReply(m: InternalMsg, f: nat)
    requires |m.priv.bitmap| == 8
  {
    || InBase(m.msgtype, f)
    || (f == 48 && m.respcode == 0 && IsPayBalance(m))
    || (f in {22, 40, 41} && IsSet(m.priv.bitmap, f))
    || (f == 61 && m.priv.length62 != 0)
  }

  ghost function ReplyFields(m: InternalMsg): set<nat>
    requires |m.priv.bitmap| == 8
  {
    set f: nat | 1 <= f <= 64 && InReply(m, f)
  }

  ghost function ReplyMap(m: InternalMsg): (bm: Bitmap)
    requires |m.priv.bitmap| == 8
    ensures |bm| == 8
  {
    MapOfSet(ReplyFields(m))
  }

  lemma InReplyMap(m: InternalMsg, f: nat)
    requires |m.priv.bitmap| == 8 && 1 <= f <= 64
    ensures IsSet(ReplyMap(m), f) <==> InReply(m, f)
  {
    hide MapOfSet, IsSet, InReply;
    MapOfSetBit(ReplyFields(m), f);
  }

  /** A declined sale is still sent with an authorization number: it is not that field which is taken away. */
  lemma DeclineKeepsAuthnum(m: InternalMsg)
    requires m.msgtype == 110 && |m.priv.bitmap| == 8
    ensures IsSet(ReplyMap(m), 38) && !IsSet(ReplyMap(m), 35)
    ensures Cleared(37) == 35
  {
    hide ReplyMap, IsSet;
    InReplyMap(m, 38);
    InReplyMap(m, 35);
  }

  /** What extern_outbound keeps of the field 63 map. */
  function NetOf(p: PrivateData): (net: seq<byte>)
    requires |p.netId| == 2
    ensures |net| == 8
  {
    p.netId + Zeros(6)
  }

  predicate RecordOk(m: InternalMsg)
  {
    && |m.priv.bitmap| == 8 && |m.priv.netId| == 2 && AddressWidths(m.priv)
    && |m.pan| <= 19 && |InstId(m)| <= 11 && |m.amount| <= 12 && |m.cashBack| <= 12
    && |m.avalBalance| <= 12 && |m.ledgerBalance| <= 12 && |m.settlementAmount| <= 12
    && |m.refnum| <= 12 && 0 !in m.refnum
  }

  datatype OutResult = Dropped | RawToDriver(m: InternalMsg) | Suppressed | Sent(bytes: seq<byte>) | Beyond

  /** The frame of an answer. */
  ghost function ReplyFrame(m: InternalMsg): seq<byte>
    requires RecordOk(m) && m.msgtype in {110, 410}
  {
    InReplyMap(m, 44);
    FrameBytes(HeaderOf(m), m.msgtype, ReplyMap(m), Encoded(1, ReplyMap(m), SentRecord(m), NetOf(m.priv)))
  }

  /** Field 94 would be switched on, past the eight bytes of the map. */
  predicate PartialDispense(m: InternalMsg) { m.msgtype == 410 && m.revcode == 32 }

  /**
   * One turn of extern_outbound. Beyond: types without a template, routed messages, partial dispenses.
   */
  ghost function Emit(m: InternalMsg): OutResult
    requires RecordOk(m)
  {
    if m.respcode == 903 || Is03xx(m.msgtype) then OutResult.Dropped
    else if IsReversal(m.msgtype) && Quot(m.pcode, 10_000) == 30 then RawToDriver(m)
    else if m.msgtype !in {110, 130, 410} || m.filler1Type == Padded(m.msgtype, 4) || PartialDispense(m)
    then OutResult.Beyond
    else if m.msgtype == 130 then Suppressed
    else Sent(ReplyFrame(m))
  }

  /**
   * What becomes of an answer, in figures: dropped with code 903 or as a 03xx; written as a record when it reverses a
   * balance inquiry; a 0130 kept back; a 0110 or 0410 sent.
   */
  lemma EmitCases(m: InternalMsg)
    requires RecordOk(m)
    ensures var dropped := m.respcode == 903 || (m.msgtype >= 0 && m.msgtype / 100 % 10 == 3);
            var record := 400 <= m.msgtype < 500 && 300_000 <= m.pcode < 310_000;
            && (Emit(m) == OutResult.Dropped <==> dropped)
            && (Emit(m) == RawToDriver(m) <==> !dropped && record)
            && (Emit(m) == Suppressed <==> !dropped && m.msgtype == 130 && m.filler1Type != [0x30, 0x31, 0x33, 0x30])
            && (Emit(m).Sent? <==>
                  && !dropped && !record && m.msgtype in {110, 410} && (m.msgtype == 410 ==> m.revcode != 32)
                  && m.filler1Type != [0x30, 0x30 + m.msgtype / 100, 0x31, 0x30])
  {
    hide ReplyFrame, Padded;
    TypeDigits(m.msgtype);
    assert m.pcode / 10_000 == 30 <==> 300_000 <= m.pcode < 310_000;
  }

  lemma TypeDigits(msgtype: int)
    ensures msgtype == 110 ==> Padded(msgtype, 4) == [0x30, 0x31, 0x31, 0x30]
    ensures msgtype == 410 ==> Padded(msgtype, 4) == [0x30, 0x34, 0x31, 0x30]
    ensures msgtype == 130 ==> Padded(msgtype, 4) == [0x30, 0x31, 0x33, 0x30]
  {
    Pow10Small();
    if msgtype in {110, 410, 130} { FourDigits(msgtype); }
  }

  lemma FourDigits(v: nat)
    ensures Decimal(v, 4) == [0x30 + v / 1000 % 10, 0x30 + v / 100 % 10, 0x30 + v / 10 % 10, 0x30 + v % 10]
  {
    assert Decimal(v / 1000, 1) == [0x30 + v / 1000 % 10];
    assert Decimal(v / 100, 2) == Decimal(v / 1000, 1) + [0x30 + v / 100 % 10];
    assert Decimal(v / 10, 3) == Decimal(v / 100, 2) + [0x30 + v / 10 % 10];
  }

  // ---- the bound on what is sent ----------------------------------------------------------------

  predicate ReplyField(f: nat) { f in {2, 3, 4, 7, 11, 19, 22, 25, 32, 37, 38, 39, 40, 41, 48, 49, 61} }

  lemma ReplyChoice(m: InternalMsg, f: nat)
    requires |m.priv.bitmap| == 8 && InReply(m, f)
    ensures ReplyField(f)
  {}

  lemma ReplyCarriedBound(f: nat, m: InternalMsg, net: seq<byte>)
    requires RecordOk(m) && |net| == 8 && ReplyField(f) && Carried(f)
    ensures f != 44 && |Written(f, m, net)| <= Most(f)
  {
    hide Put;
    PutWidest(ShapeOf(f), WireValue(f, m));
  }

  lemma ReplyFieldBound(f: nat, m: InternalMsg, net: seq<byte>)
    requires RecordOk(m) && |net| == 8 && ReplyField(f)
    ensures 1 <= f <= 64 && f != 44 && |Written(f, m, net)| <= Most(f)
  {
    if Carried(f) {
      ReplyCarriedBound(f, m, net);
    } else {
      PrivateLengths(m);
    }
  }

  /** Every field of the map is at most as long as it may be. */
  ghost predicate WithinMost(bm: Bitmap, m: InternalMsg, net: seq<byte>)
    requires |bm| == 8 && |net| == 8 && !IsSet(bm, 44)
  {
    forall f :: 1 <= f <= 64 && IsSet(bm, f) ==> |Written(f, m, net)| <= Most(f)
  }

  lemma {:induction false} EncodedWithin(f: nat, bm: Bitmap, m: InternalMsg, net: seq<byte>)
    requires 1 <= f <= 65 && |bm| == 8 && |net| == 8 && !IsSet(bm, 44) && WithinMost(bm, m, net)
    ensures |Encoded(f, bm, m, net)| <= MostFrom(f)
    decreases 65 - f
  {
    hide Written, Most, SurplusFrom;
    if f < 65 {
      EncodedWithin(f + 1, bm, m, net);
      MostStep(f);
    }
  }

  /** The map of an answer, and the length of its frame. */
  lemma ReplyFits(m: InternalMsg)
    requires RecordOk(m) && m.msgtype in {110, 410}
    ensures var bm, r := ReplyMap(m), SentRecord(m);
            && !IsSet(bm, 1) && !IsSet(bm, 44) && InArraysFor(bm, r)
            && 36 + |Encoded(1, bm, r, NetOf(m.priv))| <= MESSAGE_LEN
  {
    var bm, r, net := ReplyMap(m), SentRecord(m), NetOf(m.priv);
    hide ReplyMap, IsSet, Written, Most, OutCode, ExternPcode;
    InReplyMap(m, 1);
    InReplyMap(m, 44);
    SentRecordOk(m);
    hide RecordOk, InReply, SentRecord;
    forall f | 1 <= f <= 64 && IsSet(bm, f) ensures InArrays(f, r) && |Written(f, r, net)| <= Most(f) {
      InReplyMap(m, f);
      ReplyChoice(m, f);
      ReplyInArrays(m, f);
      ReplyFieldBound(f, r, net);
    }
    EncodedWithin(1, bm, r, net);
    assert MostFrom(1) == 658;
  }

  lemma SentRecordOk(m: InternalMsg)
    requires RecordOk(m)
    ensures RecordOk(SentRecord(m))
  {
    hide OutCode, ExternPcode;
  }

  lemma ReplyInArrays(m: InternalMsg, f: nat)
    requires RecordOk(m) && ReplyField(f)
    ensures InArrays(f, SentRecord(m))
  {
    OutCodeLaws(m.respcode);
    hide OutCode, ExternPcode;
  }

  // ---- the map of the answer, bit by bit --------------------------------------------------------

  lemma SameMaps(a: Bitmap, b: Bitmap)
    requires |a| == |b| == 8 && forall f :: 1 <= f <= 64 ==> (IsSet(a, f) <==> IsSet(b, f))
    ensures a == b
  {
    hide IsSet;
    SameFields(a, b);
  }

  /** The map as it comes from the template, with 48 switched on for an approved payment or balance. */
  predicate InStart(m: InternalMsg, f: nat) { InBase(m.msgtype, f) || (f == 48 && m.respcode == 0 && IsPayBalance(m)) }

  ghost predicate StoreOk(maps: MapStore)
    reads maps.stores
  {
    maps.Valid() && maps.AllBuilt() && forall s :: 0 <= s < STORES ==> maps.lists[s] == ListOf(s)
  }

  lemma TemplateBits(msgtype: int, bm: Bitmap)
    requires msgtype in {110, 410} && |bm| == 16 && Fields(bm) == TemplateFields(msgtype)
    ensures forall f :: 1 <= f <= 64 ==> (IsSet(bm, f) <==> InBase(msgtype, f))
  {
    hide IsSet, TemplateFields, InBase;
    forall f | 1 <= f <= 64 ensures IsSet(bm, f) <==> InBase(msgtype, f) {
      BaseIsTemplate(msgtype, f);
      assert IsSet(bm, f) <==> f in Fields(bm);
    }
  }

  method LoadMap(m: InternalMsg, maps: MapStore) returns (bm: Bitmap)
    requires m.msgtype in {110, 410} && StoreOk(maps)
    modifies maps.buffer
    ensures StoreOk(maps) && |bm| == 16
    ensures forall f :: 1 <= f <= 64 ==> (IsSet(bm, f) <==> InStart(m, f))
  {
    hide IsSet, IsPayBalance, SetOn, SetOn8, FirstMatch;
    var typ := if m.merchantType == 6011 then MSG_ATM else MSG_POS;
    LookupByType(m.msgtype, typ);
    var found := maps.FindBitmap(m.msgtype, typ);
    ghost var s := RowAt(FirstMatch(m.msgtype, typ, 0)).store;
    ghost var tpl := maps.buffer[..16];
    assert maps.Built(s);
    TemplateBits(m.msgtype, tpl);
    bm := maps.buffer[..16];
    if m.respcode == 0 && IsPayBalance(m) {
      EditInBuffer(maps.buffer[..], 0, 16, 48);
      assert maps.buffer[..][0..16] == tpl;
      SetBitOn(maps.buffer, 0, 48);
      assert maps.buffer[..16] == SetOn(tpl, 48);
      bm := maps.buffer[..16];
      forall f | 1 <= f <= 64 ensures IsSet(bm, f) <==> IsSet(tpl, f) || f == 48 { SetOnBit(tpl, 48, f); }
    }
    assert forall s :: 0 <= s < STORES ==> maps.Built(s) == old(maps.Built(s));
  }

  /** The first eight bytes of a map select its first 64 fields. */
  lemma FirstEight(bm: Bitmap, f: nat)
    requires |bm| == 16 && 1 <= f <= 64
    ensures IsSet(bm[..8], f) <==> IsSet(bm, f)
  {}

  /** adjust_bitmap(..., 23, 41, 42, -1) on the map of the frame. */
  method FrameAdjust(buf: array<byte>, ibp: Bitmap, ghost hdr: seq<byte>, ghost bm: Bitmap) returns (ghost bm1: Bitmap)
    requires Headed(buf[..], hdr, bm) && |ibp| == 8
    modifies buf
    ensures Headed(buf[..], hdr, bm1)
    ensures forall f :: 1 <= f <= 64 ==> (IsSet(bm1, f) <==> IsSet(bm, f) || (f in {22, 40, 41} && IsSet(ibp, f)))
  {
    hide IsSet;
    HeadedParts(buf[..], hdr, bm);
    ghost var mem := buf[..];
    AdjustBitmap(buf, 28, ibp, [23, 41, 42]);
    bm1 := buf[28..36];
    assert mem[28..36] == bm;
    MapSpliced(mem, buf[..], hdr, bm, bm1);
    forall f | 1 <= f <= 64 ensures IsSet(bm1, f) <==> IsSet(bm, f) || (f in {22, 40, 41} && IsSet(ibp, f)) {
      BelowThree(f);
      assert IsSet(bm1, f) <==> f in Fields(bm1);
      assert IsSet(bm, f) <==> f in Fields(bm);
      assert IsSet(ibp, f) <==> f in Fields(ibp);
    }
  }

  lemma BelowThree(f: nat)
    ensures f in Below([23, 41, 42]) <==> f in {22, 40, 41}
  {
    assert [23, 41, 42][0] - 1 == 22 && [23, 41, 42][1] - 1 == 40 && [23, 41, 42][2] - 1 == 41;
  }

  lemma MapSpliced(mem: seq<byte>, mem1: seq<byte>, hdr: seq<byte>, bm: Bitmap, bm1: Bitmap)
    requires Headed(mem, hdr, bm) && |mem1| == |mem| && |bm1| == 8
    requires mem1[..28] == mem[..28] && mem1[36..] == mem[36..] && mem1[28..36] == bm1
    ensures Headed(mem1, hdr, bm1)
  {
    MapReplaced(mem, hdr, bm, bm1);
    HeadedParts(mem, hdr, bm);
    assert mem1 == mem1[..28] + mem1[28..36] + mem1[36..];
    assert mem1 == Overwrite(mem, 28, bm1);
  }

  /** What extern_externauthresp and extern_externrevresp do to a bit. */
  predicate Adjusted(m: InternalMsg, was: bool, f: nat, drop: bool)
    requires |m.priv.bitmap| == 8
  {
    (was && !(f == 35 && drop)) || (f in {22, 40, 41} && IsSet(m.priv.bitmap, f)) || (f == 61 && m.priv.length62 != 0)
  }

  /** setBitOff(37) on the map of the frame. */
  method FrameDrop(buf: array<byte>, drop: bool, ghost hdr: seq<byte>, ghost bm: Bitmap) returns (ghost bm1: Bitmap)
    requires Headed(buf[..], hdr, bm)
    modifies buf
    ensures Headed(buf[..], hdr, bm1)
    ensures forall f :: 1 <= f <= 64 ==> (IsSet(bm1, f) <==> IsSet(bm, f) && !(f == 35 && drop))
  {
    hide IsSet, SetOff;
    bm1 := bm;
    if drop {
      FrameBitOff(buf, 37, hdr, bm);
      bm1 := SetOff(bm, 37);
      forall f | 1 <= f <= 64 ensures IsSet(bm1, f) <==> IsSet(bm, f) && !(f == 35 && drop) { SetOffBit(bm, 37, f); }
    }
  }

  /** setBitOn(61) on the map of the frame, when the request had a field 62. */
  method FrameCashBack(buf: array<byte>, length62: byte, ghost hdr: seq<byte>, ghost bm: Bitmap)
    returns (ghost bm1: Bitmap)
    requires Headed(buf[..], hdr, bm)
    modifies buf
    ensures Headed(buf[..], hdr, bm1)
    ensures forall f :: 1 <= f <= 64 ==> (IsSet(bm1, f) <==> IsSet(bm, f) || (f == 61 && length62 != 0))
  {
    hide IsSet, SetOn;
    bm1 := bm;
    if length62 != 0 {
      FrameBitOn(buf, 61, hdr, bm);
      bm1 := SetOn(bm, 61);
      forall f | 1 <= f <= 64 ensures IsSet(bm1, f) <==> IsSet(bm, f) || (f == 61 && length62 != 0) {
        SetOnBit(bm, 61, f);
      }
    }
  }

  /** extern_externauthresp: the response code, then the map. */
  method AuthResponse(m: InternalMsg, buf: array<byte>, ghost hdr: seq<byte>, ghost bm: Bitmap)
    returns (code: int, ghost bm1: Bitmap)
    requires Headed(buf[..], hdr, bm) && |m.priv.bitmap| == 8
    modifies buf
    ensures code == OutCode(m.respcode) && Headed(buf[..], hdr, bm1)
    ensures forall f :: 1 <= f <= 64 ==> (IsSet(bm1, f) <==> Adjusted(m, IsSet(bm, f), f, code != 0))
  {
    hide IsSet, OutCode;
    code := OutCode(m.respcode);
    bm1 := FrameDrop(buf, code != 0, hdr, bm);
    bm1 := FrameCashBack(buf, m.priv.length62, hdr, bm1);
    bm1 := FrameAdjust(buf, m.priv.bitmap, hdr, bm1);
  }

  /** extern_externrevresp: the map, then a response code of zero unless there was nothing to reverse. */
  method ReversalResponse(m: InternalMsg, buf: array<byte>, ghost hdr: seq<byte>, ghost bm: Bitmap)
    returns (code: int, ghost bm1: Bitmap)
    requires Headed(buf[..], hdr, bm) && |m.priv.bitmap| == 8 && !PartialDispense(m)
    modifies buf
    ensures code == (if OutCode(m.respcode) != 21 then 0 else 21) && Headed(buf[..], hdr, bm1)
    ensures forall f :: 1 <= f <= 64 ==> (IsSet(bm1, f) <==> Adjusted(m, IsSet(bm, f), f, code != 0))
  {
    hide IsSet, OutCode;
    code := OutCode(m.respcode);
    bm1 := FrameAdjust(buf, m.priv.bitmap, hdr, bm);
    code := if code != 21 then 0 else code;
    bm1 := FrameDrop(buf, code != 0, hdr, bm1);
    bm1 := FrameCashBack(buf, m.priv.length62, hdr, bm1);
  }

  lemma AdjustedIsReply(m: InternalMsg, f: nat, drop: bool)
    requires |m.priv.bitmap| == 8 && m.msgtype in {110, 410}
    ensures Adjusted(m, InStart(m, f), f, drop) <==> InReply(m, f)
  {
    hide IsSet, IsPayBalance;
  }

  /** From the cleared buffer to the finished frame of a 110 or a 410. */
  method MakeReply(m: InternalMsg, maps: MapStore, buf: array<byte>) returns (msglen: nat)
    requires RecordOk(m) && m.msgtype in {110, 410} && !PartialDispense(m)
    requires StoreOk(maps) && buf.Length == MESSAGE_LEN && buf != maps.buffer && buf !in maps.stores
    modifies buf, maps.buffer
    ensures StoreOk(maps) && msglen + 4 <= MESSAGE_LEN && buf[..msglen + 4] == ReplyFrame(m)
  {
    hide IsSet, OutCode, InReply, InStart, Adjusted, MapOfSet, ReplyFields, HeaderOf, FrameBytes, Encoded, ExternPcode;
    Copy(buf, 0, Zeros(MESSAGE_LEN));
    var bitmap := LoadMap(m, maps);
    BuildHeader(m, buf, bitmap);
    ghost var hdr, bm := HeaderOf(m), bitmap[..8];
    forall f | 1 <= f <= 64 ensures IsSet(bm, f) <==> InStart(m, f) { FirstEight(bitmap, f); }
    var pcode := ExternPcode(m.pcode);
    var code: int;
    ghost var bm1: Bitmap;
    if m.msgtype == 110 {
      code, bm1 := AuthResponse(m, buf, hdr, bm);
    } else {
      code, bm1 := ReversalResponse(m, buf, hdr, bm);
    }
    forall f | 1 <= f <= 64 ensures IsSet(bm1, f) <==> IsSet(ReplyMap(m), f) {
      AdjustedIsReply(m, f, code != 0);
      InReplyMap(m, f);
    }
    SameMaps(bm1, ReplyMap(m));
    ReplyFits(m);
    var sent := m.(pcode := pcode, respcode := code);
    var refnum := new byte[13](i requires 0 <= i < 13 => CharAt(m.refnum, i));
    RefnumCells(m.refnum, refnum[..]);
    msglen := FinishFrame(sent, buf, NetOf(m.priv), refnum, hdr, bm1);
  }

  lemma {:induction false} RefnumCells(s: Text, cells: seq<byte>)
    requires |s| <= 12 && 0 !in s && |cells| == 13 && forall i :: 0 <= i < 13 ==> cells[i] == CharAt(s, i)
    ensures CStr(cells) == s && cells[12] == 0
  {
    CStrPrefix(cells, |s|);
    assert cells[..|s|] == s;
  }

  /** One turn of extern_outbound. */
  method EmitMessage(m: InternalMsg, maps: MapStore, buf: array<byte>) returns (r: OutResult)
    requires RecordOk(m) && StoreOk(maps) && buf.Length == MESSAGE_LEN && buf != maps.buffer && buf !in maps.stores
    modifies buf, maps.buffer
    ensures StoreOk(maps) && r == Emit(m)
  {
    hide ReplyFrame, StoreOk;
    if m.respcode == 903 || Is03xx(m.msgtype) { return OutResult.Dropped; }
    var msgtype := if m.msgtype == 200 then 100 else if m.msgtype == 220 then 120 else m.msgtype;
    if IsReversal(msgtype) && Quot(m.pcode, 10_000) == 30 { return RawToDriver(m); }
    if m.filler1Type == Padded(msgtype, 4) || msgtype !in {110, 130, 410} || PartialDispense(m) {
      return OutResult.Beyond;
    }
    if msgtype == 130 { return Suppressed; }
    var msglen := MakeReply(m, maps, buf);
    r := Sent(buf[..msglen + 4]);
  }
}
