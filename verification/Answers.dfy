/** What the answers on the line say about the requests they answer. */
module Answers {
  import opened Memory
  import opened Digits
  import opened Ebcdic
  import opened Bitmaps
  import opened Message
  import opened Shapes
  import opened Layout
  import opened Wire
  import opened Codec
  import opened Reader
  import opened Frame
  import opened FrameLaws
  import opened Codes
  import opened Authorizer
  import opened PayBal
  import opened Inbound
  import opened Outbound
  import opened Requests
  import opened Switch

  // ---- where a reader finds the fields of an answer ---------------------------------------------

  /**
   * A reader who locates the map and the body of a frame and follows the map finds field g announced, and w where he
   * looks for it.
   */
  predicate Has(bytes: seq<byte>, g: nat, w: seq<byte>)
    requires 1 <= g <= 64
  {
    && |bytes| >= 27
    && var v := Locate(bytes, 4);
       && v.msg <= |bytes| && IsSet(bytes[v.bitmap..v.msg], g)
       && w <= LookAt(g, 1, bytes[v.bitmap..v.msg], bytes[v.msg..])
  }

  lemma SameField(bytes: seq<byte>, g: nat, a: seq<byte>, b: seq<byte>)
    requires 1 <= g <= 64 && |a| == |b| && Has(bytes, g, a) && Has(bytes, g, b)
    ensures a == b
  {
    hide LookAt, IsSet, Locate;
  }

  lemma RecordWidths(r: InternalMsg)
    requires RecordOk(r)
    ensures |r.priv.bitmap| == 8 && |r.priv.netId| == 2
  {}

  lemma Primary(r: InternalMsg)
    requires |r.priv.bitmap| == 8
    ensures !IsSet(ReplyMap(r), 44) && !IsSet(ReplyMap(r), 1)
  {
    hide IsSet, ReplyMap;
    InReplyMap(r, 44);
    InReplyMap(r, 1);
  }

  /** The fields of an answer that follow the header. */
  ghost function ReplyBody(r: InternalMsg): seq<byte>
    requires |r.priv.bitmap| == 8 && |r.priv.netId| == 2
  {
    EncodedReply(1, r)
  }

  /** Those from field g on. */
  ghost function EncodedReply(g: nat, r: InternalMsg): seq<byte>
    requires |r.priv.bitmap| == 8 && |r.priv.netId| == 2 && 1 <= g <= 65
  {
    Primary(r);
    Encoded(g, ReplyMap(r), SentRecord(r), NetOf(r.priv))
  }

  /** Where a reader of the frame of an answer finds its map and its body. */
  lemma ReplyFound(r: InternalMsg)
    requires RecordOk(r) && r.msgtype in {110, 410}
    ensures var f := ReplyFrame(r);
            |f| >= 36 && Locate(f, 4) == Located(4, 26, 28, 36, false) && f[28..36] == ReplyMap(r)
            && f[36..] == ReplyBody(r)
  {
    hide Encoded, ReplyMap, SentRecord, IsSet;
    Primary(r);
    ReplyFits(r);
    FrameFound(HeaderOf(r), r.msgtype, ReplyMap(r), ReplyBody(r));
  }

  /** Layout C or D of field 48, the only ones that fill its length byte. */
  predicate Filled(r: InternalMsg) { CharAt(r.acceptorname, 4) in {0x43, 0x44} }

  /**
   * Nothing ahead of field g of an answer is longer or shorter for the reader than it was for the encoder: field 40,
   * which is announced and not written, and field 48 in its third layout.
   */
  predicate InReach(r: InternalMsg, g: nat)
    requires |r.priv.bitmap| == 8
  {
    (g > 40 ==> !IsSet(r.priv.bitmap, 40)) && (g > 48 && InReply(r, 48) ==> Filled(r))
  }

  lemma ReplyStepFits(r: InternalMsg, h: nat)
    requires RecordOk(r) && 1 <= h <= 64 && InReply(r, h) && h != 40 && (h == 48 ==> Filled(r))
    ensures StepFits(h, SentRecord(r))
  {
    ReplyChoice(r, h);
    hide IsSet, IsPayBalance, InReply, OutCode, ExternPcode, IntAt;
  }

  lemma ReplyLooks(r: InternalMsg, g: nat)
    requires RecordOk(r) && 1 <= g <= 65 && InReach(r, g)
    ensures LookAt(g, 1, ReplyMap(r), ReplyBody(r)) == EncodedReply(g, r)
  {
    hide Encoded, ReplyMap, SentRecord, IsSet, RecordOk, StepFits, InReply;
    RecordWidths(r);
    Primary(r);
    forall h | 1 <= h < g && IsSet(ReplyMap(r), h) ensures StepFits(h, SentRecord(r)) {
      InReplyMap(r, h);
      if h == 40 { Announced40(r); }
      ReplyStepFits(r, h);
    }
    LooksThere(g, 1, ReplyMap(r), SentRecord(r), NetOf(r.priv), []);
    assert ReplyBody(r) + [] == ReplyBody(r) && EncodedReply(g, r) + [] == EncodedReply(g, r);
  }

  lemma Announced40(r: InternalMsg)
    requires |r.priv.bitmap| == 8
    ensures InReply(r, 40) <==> IsSet(r.priv.bitmap, 40)
    ensures InReply(r, 49) || r.msgtype !in {110, 410}
  {
    hide IsSet, IsPayBalance;
  }

  /** A field of an answer that is in reach stands where the reader looks for it. */
  lemma AnswerHas(g: nat, r: InternalMsg)
    requires RecordOk(r) && r.msgtype in {110, 410} && 1 <= g <= 64 && InReply(r, g) && InReach(r, g)
    ensures g != 44 && Has(ReplyFrame(r), g, Written(g, SentRecord(r), NetOf(r.priv)))
  {
    hide Written, Encoded, ReplyMap, IsSet, SentRecord, InReply, LookAt, RecordOk, Locate, ReplyFrame, InReach;
    RecordWidths(r);
    Primary(r);
    InReplyMap(r, g);
    ReplyFound(r);
    ReplyLooks(r, g);
    EncodedTurn(g, ReplyMap(r), SentRecord(r), NetOf(r.priv), []);
    StartsWithField(g, r);
  }

  lemma StartsWithField(g: nat, r: InternalMsg)
    requires |r.priv.bitmap| == 8 && |r.priv.netId| == 2 && 1 <= g <= 64 && g != 44 && IsSet(ReplyMap(r), g)
    ensures Written(g, SentRecord(r), NetOf(r.priv)) <= EncodedReply(g, r)
  {
    hide Written, ReplyMap, IsSet, SentRecord;
    Primary(r);
  }

  /**
   * The reader of an answer stands at every field, and at the end, where the encoder stood.
   */
  ghost predicate KeepsStep(r: InternalMsg)
    requires |r.priv.bitmap| == 8 && |r.priv.netId| == 2
  {
    forall g :: 1 <= g <= 65 ==> LookAt(g, 1, ReplyMap(r), ReplyBody(r)) == EncodedReply(g, r)
  }

  lemma AfterField(f: nat, r: InternalMsg, b: seq<byte>)
    requires |r.priv.bitmap| == 8 && |r.priv.netId| == 2 && 1 <= f <= 64 && IsSet(ReplyMap(r), f)
    requires LookAt(f, 1, ReplyMap(r), ReplyBody(r)) == b
    ensures LookAt(f + 1, 1, ReplyMap(r), ReplyBody(r)) == Ahead(b, Steps(f, b))
  {
    hide Steps, ReplyMap, ReplyBody, IsSet;
    LooksOn(f + 1, f, 1, ReplyMap(r), ReplyBody(r));
  }

  /** Field 49 is in every answer, so that there is something behind fields 40 and 48. */
  lemma {:induction false} SomethingLeft(f: nat, r: InternalMsg)
    requires |r.priv.bitmap| == 8 && |r.priv.netId| == 2 && 1 <= f <= 49 && r.msgtype in {110, 410}
    ensures |EncodedReply(f, r)| >= 2
    decreases 49 - f
  {
    hide Written, ReplyMap, IsSet, SentRecord, InReply;
    Primary(r);
    if f == 49 {
      Announced40(r);
      InReplyMap(r, 49);
      CurrencyBytes(r);
    } else {
      SomethingLeft(f + 1, r);
    }
  }

  lemma CurrencyBytes(r: InternalMsg)
    requires |r.priv.netId| == 2
    ensures |Written(49, SentRecord(r), NetOf(r.priv))| == 2
  {
    hide NumBytes, OutCode, ExternPcode, IntAt, Leading;
  }

  /** What the reader takes for field 40 is there, but is not field 40. */
  lemma Past40(r: InternalMsg)
    requires RecordOk(r) && r.msgtype in {110, 410} && IsSet(r.priv.bitmap, 40)
    ensures !KeepsStep(r)
  {
    hide ReplyMap, IsSet, RecordOk, LookAt, InReply;
    RecordWidths(r);
    Announced40(r);
    InReplyMap(r, 40);
    if KeepsStep(r) {
      AfterField(40, r, EncodedReply(40, r));
      SomethingLeft(41, r);
      Written40(r);
      assert false;
    }
  }

  lemma Written40(r: InternalMsg)
    requires |r.priv.bitmap| == 8 && |r.priv.netId| == 2 && IsSet(ReplyMap(r), 40)
    ensures EncodedReply(40, r) == EncodedReply(41, r)
    ensures Steps(40, EncodedReply(40, r)) == 3
  {
    hide ReplyMap, IsSet, SentRecord, OutCode;
    Primary(r);
    assert [] + EncodedReply(41, r) == EncodedReply(41, r);
  }

  /** Of the third layout of field 48 the reader leaves twelve bytes. */
  lemma Past48(r: InternalMsg)
    requires RecordOk(r) && r.msgtype in {110, 410} && InReply(r, 48) && !Filled(r)
    ensures !KeepsStep(r)
  {
    hide ReplyMap, IsSet, RecordOk, LookAt, InReply;
    RecordWidths(r);
    InReplyMap(r, 48);
    if KeepsStep(r) {
      AfterField(48, r, EncodedReply(48, r));
      Written48(r);
      assert false;
    }
  }

  lemma Written48(r: InternalMsg)
    requires |r.priv.bitmap| == 8 && |r.priv.netId| == 2 && IsSet(ReplyMap(r), 48) && !Filled(r)
    ensures |EncodedReply(48, r)| == 49 + |EncodedReply(49, r)|
    ensures Steps(48, EncodedReply(48, r)) == 37
  {
    hide ReplyMap, IsSet, OutCode, ExternPcode, PrivateBody;
    Primary(r);
    PrivateLengths(SentRecord(r));
  }

  /** The reader keeps step exactly when field 40 is not announced and field 48, if it is, fills its length. */
  lemma AnswerInStep(r: InternalMsg)
    requires RecordOk(r) && r.msgtype in {110, 410}
    ensures KeepsStep(r) <==> !IsSet(r.priv.bitmap, 40) && (InReply(r, 48) ==> Filled(r))
  {
    hide ReplyMap, IsSet, RecordOk, LookAt, InReply, EncodedReply, ReplyBody, Filled;
    RecordWidths(r);
    if IsSet(r.priv.bitmap, 40) {
      Past40(r);
    } else if InReply(r, 48) && !Filled(r) {
      Past48(r);
    } else {
      forall g | 1 <= g <= 65 ensures LookAt(g, 1, ReplyMap(r), ReplyBody(r)) == EncodedReply(g, r) {
        ReplyLooks(r, g);
      }
    }
  }

  /** Fields that are not in an answer move neither cursor. */
  lemma {:induction false} SkipsReply(f: nat, g: nat, r: InternalMsg)
    requires |r.priv.bitmap| == 8 && |r.priv.netId| == 2 && 1 <= f <= g <= 65
    requires forall h :: f <= h < g ==> !IsSet(ReplyMap(r), h)
    ensures EncodedReply(f, r) == EncodedReply(g, r)
    ensures LookAt(g, 1, ReplyMap(r), ReplyBody(r)) == LookAt(f, 1, ReplyMap(r), ReplyBody(r))
    decreases g - f
  {
    hide Written, ReplyMap, IsSet, SentRecord, Steps, ReplyBody;
    Primary(r);
    if f < g {
      LooksOn(f + 1, f, 1, ReplyMap(r), ReplyBody(r));
      SkipsReply(f + 1, g, r);
    }
  }

  /** An approved balance in layout D, for a request with fields 40 and 62 and without 41. */
  predicate LayoutD(r: InternalMsg)
  {
    && RecordOk(r) && r.msgtype == 110 && r.respcode == 0 && IsPayBalance(r) && CharAt(r.acceptorname, 4) == 0x44
    && IsSet(r.priv.bitmap, 40) && !IsSet(r.priv.bitmap, 41) && r.priv.length62 != 0
  }

  lemma LayoutFields(r: InternalMsg, f: nat)
    requires LayoutD(r) && 40 <= f <= 64
    ensures |r.priv.bitmap| == 8 && (IsSet(ReplyMap(r), f) <==> f in {40, 48, 49, 61})
  {
    hide IsSet, IsPayBalance, ReplyMap;
    InReplyMap(r, f);
  }

  /** Its bytes from field 40 on: length and body of field 48, then 49 and 61. */
  lemma LayoutBytes(r: InternalMsg)
    requires LayoutD(r)
    ensures |r.priv.bitmap| == 8 && |r.priv.netId| == 2
    ensures var e := EncodedReply(40, r);
            |e| == 46 && e[3] == AtoeByte(CharAt(r.ledgerBalance, 2)) && e[6] == AtoeByte(CharAt(r.ledgerBalance, 5))
  {
    hide IsSet, ReplyMap, RecordOk, IsPayBalance, SentRecord;
    RecordWidths(r);
    forall f | 40 <= f <= 64 ensures IsSet(ReplyMap(r), f) <==> f in {40, 48, 49, 61} { LayoutFields(r, f); }
    Written40(r);
    SkipsReply(41, 48, r);
    SkipsReply(50, 61, r);
    SkipsReply(62, 65, r);
    LayoutWidths(r);
    EncodedStep(48, r);
    EncodedStep(49, r);
    EncodedStep(61, r);
  }

  lemma EncodedStep(f: nat, r: InternalMsg)
    requires |r.priv.bitmap| == 8 && |r.priv.netId| == 2 && 1 <= f <= 64 && f != 44 && IsSet(ReplyMap(r), f)
    ensures EncodedReply(f, r) == Written(f, SentRecord(r), NetOf(r.priv)) + EncodedReply(f + 1, r)
    ensures EncodedReply(65, r) == []
  {
    hide Written, ReplyMap, IsSet, SentRecord;
    Primary(r);
  }

  lemma LayoutWidths(r: InternalMsg)
    requires LayoutD(r)
    ensures |r.priv.netId| == 2
    ensures |Written(49, SentRecord(r), NetOf(r.priv))| == 2 && |Written(61, SentRecord(r), NetOf(r.priv))| == 7
    ensures var w := Written(48, SentRecord(r), NetOf(r.priv));
            |w| == 37 && w[3] == AtoeByte(CharAt(r.ledgerBalance, 2)) && w[6] == AtoeByte(CharAt(r.ledgerBalance, 5))
  {
    hide NumBytes, OutCode, ExternPcode, IntAt, Leading, AtoeByte, PrivateDates, LeftPack, IsPayBalance;
    hide IsSet, AddressWidths;
    CurrencyBytes(r);
    PrivateLengths(SentRecord(r));
    assert PrivateAmounts(SentRecord(r)) == AtoeText(Fixed(r.ledgerBalance, 12));
  }

  /**
   * Keeping step is more than coming out at the end: with a blank cell and a plus sign in the right places of the
   * balance, the reader takes exactly the bytes of the body after he lost his place at field 40.
   */
  lemma EndsByLuck(r: InternalMsg)
    requires LayoutD(r) && AtoeByte(CharAt(r.ledgerBalance, 2)) == 0 && CharAt(r.ledgerBalance, 5) == 0x2B
    ensures |r.priv.bitmap| == 8 && |r.priv.netId| == 2
    ensures LookAt(65, 1, ReplyMap(r), ReplyBody(r)) == [] && !KeepsStep(r)
    ensures LookAt(61, 1, ReplyMap(r), ReplyBody(r)) == Ahead(EncodedReply(40, r), 6)
  {
    hide IsSet, ReplyMap, RecordOk, IsPayBalance, LookAt, ReplyBody, EncodedReply, InReply;
    RecordWidths(r);
    Past40(r);
    LayoutBytes(r);
    forall f | 40 <= f <= 64 ensures IsSet(ReplyMap(r), f) <==> f in {40, 48, 49, 61} { LayoutFields(r, f); }
    var e := EncodedReply(40, r);
    ReplyLooks(r, 40);
    AfterField(40, r, e);
    SkipsReply(41, 48, r);
    AfterField(48, r, e[3..]);
    AfterField(49, r, e[4..]);
    SkipsReply(50, 61, r);
    AfterField(61, r, e[6..]);
    SkipsReply(62, 65, r);
  }

  // ---- approval ---------------------------------------------------------------------------------

  const APPROVED: seq<byte> := [0xF0, 0xF0]
  const NOT_FOUND: seq<byte> := [0xF2, 0xF1]

  /** Field 39 for a code of two digits. */
  function CodeBytes(code: int): (b: seq<byte>)
    ensures |b| == 2
  {
    AtoeText(Padded(code, 2))
  }

  lemma TwoDigits(v: int)
    requires 0 <= v <= 99
    ensures CodeBytes(v) == [0xF0 + v / 10, 0xF0 + v % 10]
  {
    Pow10Small();
    var t := Padded(v, 2);
    assert t == Decimal(v, 2) == Decimal(v / 10, 1) + [0x30 + v % 10];
    assert Decimal(v / 10, 1) == [] + [0x30 + v / 10 % 10];
  }

  lemma CodeBytesLaws(v: int)
    requires 0 <= v <= 99
    ensures CodeBytes(v) == APPROVED <==> v == 0
    ensures CodeBytes(v) == NOT_FOUND <==> v == 21
  {
    TwoDigits(v);
    hide CodeBytes;
  }

  /** Field 39 of an answer: the mapped code; a reversal says 21 when there was nothing to reverse, or else 00. */
  lemma CodeSent(r: InternalMsg)
    requires RecordOk(r) && r.msgtype in {110, 410}
    ensures Has(ReplyFrame(r), 39, CodeBytes(SentCode(r)))
    ensures r.msgtype == 110 ==> (CodeBytes(SentCode(r)) == APPROVED <==> r.respcode == 0)
    ensures r.msgtype == 410 ==> CodeBytes(SentCode(r)) == if OutCode(r.respcode) == 21 then NOT_FOUND else APPROVED
  {
    hide OutCode, Has, ReplyFrame, RecordOk, CodeBytes;
    AnswerHas(39, r);
    OutCodeLaws(r.respcode);
    CodeBytesLaws(SentCode(r));
    CodeWritten(r);
  }

  lemma CodeWritten(r: InternalMsg)
    requires |r.priv.netId| == 2
    ensures Written(39, SentRecord(r), NetOf(r.priv)) == CodeBytes(SentCode(r))
  {
    hide AtoeText, Padded, OutCode;
  }

  /** The two bytes in which the answer to a sale says each code of the database. */
  function Shown(code: int): seq<byte>
  {
    if code == 0 then [0xF0, 0xF0]
    else if code == 2 then [0xF0, 0xF1]
    else if code == 3 then [0xF0, 0xF3]
    else if code == 67 then [0xF0, 0xF4]
    else if code == 42 then [0xF0, 0xF7]
    else if code == 12 then [0xF1, 0xF2]
    else if code == 14 then [0xF1, 0xF4]
    else if code in {8, 19, 30, 63, 77, 78, 87, 88, 91, 92, 93, 94} then [0xF1, 0xF9]
    else if code in {9, 10, 98} then [0xF2, 0xF1]
    else if code == 41 then [0xF4, 0xF1]
    else if code == 4 then [0xF4, 0xF3]
    else if code == 51 then [0xF5, 0xF1]
    else if code == 52 then [0xF5, 0xF2]
    else if code == 54 then [0xF5, 0xF4]
    else if code == 55 then [0xF5, 0xF5]
    else if code == 57 then [0xF5, 0xF7]
    else if code == 61 then [0xF6, 0xF2]
    else if code == 75 then [0xF7, 0xF5]
    else if code == 82 then [0xF8, 0xF2]
    else if code == 96 then [0xF9, 0xF6]
    else [0xF0, 0xF5]
  }

  lemma ShownIs(code: int)
    ensures CodeBytes(OutCode(code)) == Shown(code)
  {
    hide CodeBytes;
    OutCodeLaws(code);
    TwoDigits(OutCode(code));
  }

  /** What a reader finds in field 39 of the answer to a sale. */
  lemma CodeShown(r: InternalMsg)
    requires RecordOk(r) && r.msgtype == 110
    ensures Has(ReplyFrame(r), 39, Shown(r.respcode))
  {
    hide OutCode, Has, ReplyFrame, RecordOk, CodeBytes, Shown;
    CodeSent(r);
    ShownIs(r.respcode);
  }

  /** The fields an answer announces. */
  lemma AnswerFields(r: InternalMsg, f: nat)
    requires RecordOk(r) && 1 <= f <= 64
    ensures r.msgtype == 110 ==>
              (IsSet(ReplyFrame(r)[28..36], f) <==>
                 || f in {2, 3, 4, 7, 11, 19, 25, 32, 37, 38, 39, 49}
                 || (f == 48 && r.respcode == 0 && IsPayBalance(r))
                 || (f in {22, 40, 41} && IsSet(r.priv.bitmap, f)) || (f == 61 && r.priv.length62 != 0))
    ensures r.msgtype == 410 ==>
              (IsSet(ReplyFrame(r)[28..36], f) <==>
                 || f in {2, 3, 4, 7, 11, 32, 37, 39, 49}
                 || (f == 48 && r.respcode == 0 && IsPayBalance(r))
                 || (f in {22, 40, 41} && IsSet(r.priv.bitmap, f)) || (f == 61 && r.priv.length62 != 0))
  {
    hide IsSet, ReplyFrame, ReplyMap, IsPayBalance, ReplyBody;
    if r.msgtype in {110, 410} {
      ReplyFound(r);
      InReplyMap(r, f);
    }
  }

  /** What a framed entry of DRIVERQ is. */
  lemma FramedEntry(cfg: Config, e: Entry)
    requires EntryOk(cfg, e) && e.Framed?
    ensures Image(e.f.work.image)
    ensures var t := TypeAt(e.f.work.image);
            && t in {100, 400} && e.f.r.msgtype == t + 10 && RecordOk(e.f.r) && e.bytes == ReplyFrame(e.f.r)
            && RequestOk(e.f.work.k, t)
  {
    hide Replied, WorkOk, Emit, ReplyFrame, RequestOk, RecordOk, TypeAt, Quot;
    FinishedRecord(cfg, e.f);
    AnswerEmitted(e.f.r, e.f.work.k, TypeAt(e.f.work.image));
    AnsweredTypes(e.f.work.k, TypeAt(e.f.work.image));
  }

  lemma AnsweredTypes(k: InternalMsg, msgtype: int)
    requires RequestOk(k, msgtype)
    ensures msgtype in {100, 120, 400}
  {}

  /** When the process that answered says yes. */
  predicate Granted(cfg: Config, f: Finished)
    requires Usable(f.via.answer)
  {
    if f.via.ByAuth? then
      && f.via.answer.Answer? && Atoi(f.via.answer.resp[108..110]) == 0 && Atoi(f.via.answer.resp[114..120]) != 0
    else IsServed(f.work.k, cfg.payBins) && f.via.answer.Answer? && Atoi(f.via.answer.resp[115..117]) == 0
  }

  lemma GrantedIsZero(cfg: Config, f: Finished)
    requires Replied(cfg, f)
    ensures f.r.respcode == 0 <==> Granted(cfg, f)
  {
    hide WorkOk, AuthReply, PayReply, IsServed, Atoi;
    if f.via.ByAuth? {
      ApprovedReply(f.work.k, f.via.answer);
    } else {
      PayApproved(f.work.k, cfg.payBins, f.via.answer);
    }
  }

  /** The answer to a 0100 says 00 exactly when it was granted, and the code of the database otherwise. */
  lemma SaleAnswer(cfg: Config, e: Entry)
    requires EntryOk(cfg, e) && e.Framed? && TypeAt(e.f.work.image) == 100
    ensures RecordOk(e.f.r) && Usable(e.f.via.answer)
    ensures Has(e.bytes, 39, APPROVED) <==> Granted(cfg, e.f)
    ensures Has(e.bytes, 39, Shown(AnsweredCode(cfg, e.f)))
  {
    hide AuthReply, PayReply, WorkOk, Has, Emit, ReplyFrame, RequestOk, TypeAt, Granted, SentCode, CodeBytes, Shown;
    hide AnsweredCode;
    FramedEntry(cfg, e);
    CodeSent(e.f.r);
    CodeShown(e.f.r);
    CodeAnswered(cfg, e.f);
    GrantedIsZero(cfg, e.f);
    if Has(e.bytes, 39, APPROVED) {
      SameField(e.bytes, 39, APPROVED, CodeBytes(SentCode(e.f.r)));
    }
  }

  /** The codes that say there was nothing to reverse. */
  predicate IsNothing(code: int) { code in {9, 10, 98} }

  lemma NothingOut(code: int)
    ensures OutCode(code) == 21 <==> IsNothing(code)
  {}

  /** When the process that answered says that there was nothing to reverse. */
  predicate Nothing(f: Finished)
    requires Usable(f.via.answer)
  {
    f.via.answer.Answer? &&
    IsNothing(if f.via.ByAuth? then Atoi(f.via.answer.resp[108..110]) else Atoi(f.via.answer.resp[115..117]))
  }

  lemma AuthNothing(m: InternalMsg, answer: DbAnswer)
    requires Usable(answer)
    ensures IsNothing(AuthReply(m, answer).respcode)
            <==> answer.Answer? && IsNothing(Atoi(answer.resp[108..110]))
  {
    hide Atoi;
    if answer.Answer? { BlankedKeeps(answer.resp, |CStr(answer.resp)|, 108, 110); }
  }

  lemma PayNothing(m: InternalMsg, bins: seq<Text>, answer: DbAnswer)
    requires Usable(answer) && m.msgtype == 400
    ensures IsNothing(PayReply(m, bins, answer).respcode)
            <==> answer.Answer? && IsNothing(Atoi(answer.resp[115..117]))
  {
    hide Atoi, PayRoute, IsServed;
    ServedRoute(m, bins);
    NotASale(m, bins);
  }

  lemma NotASale(m: InternalMsg, bins: seq<Text>)
    requires m.msgtype == 400
    ensures IsServed(m, bins)
  {}

  lemma NothingIsCode(cfg: Config, f: Finished)
    requires Replied(cfg, f) && (f.via.ByPayBal? ==> f.work.k.msgtype == 400)
    ensures IsNothing(f.r.respcode) <==> Nothing(f)
  {
    hide WorkOk, AuthReply, PayReply, IsNothing, Atoi;
    if f.via.ByAuth? {
      AuthNothing(f.work.k, f.via.answer);
    } else {
      PayNothing(f.work.k, cfg.payBins, f.via.answer);
    }
  }

  /** The answer to a 0400 says 21 exactly when there was nothing to reverse, and 00 otherwise. */
  lemma ReversalAnswer(cfg: Config, e: Entry)
    requires EntryOk(cfg, e) && e.Framed? && TypeAt(e.f.work.image) == 400
    ensures RecordOk(e.f.r)
    ensures Has(e.bytes, 39, if Nothing(e.f) then NOT_FOUND else APPROVED)
    ensures Has(e.bytes, 39, NOT_FOUND) <==> Nothing(e.f)
  {
    hide Replied, WorkOk, Has, Emit, ReplyFrame, TypeAt, Nothing, SentCode, CodeBytes, OutCode, RecordOk, Shaped;
    FramedEntry(cfg, e);
    CodeSent(e.f.r);
    NothingIsCode(cfg, e.f);
    NothingOut(e.f.r.respcode);
    if Has(e.bytes, 39, NOT_FOUND) { SameField(e.bytes, 39, NOT_FOUND, CodeBytes(SentCode(e.f.r))); }
  }

  /** The entries of a run. */
  lemma RunEntry(cfg: Config, s: State, es: seq<Event>, i: nat)
    requires Inv(cfg, s) && Run(cfg, s, es) && i < |After(cfg, s, es).driverq|
    ensures EntryOk(cfg, After(cfg, s, es).driverq[i])
  {
    hide Run, After, EntryOk, Inv;
    RunKeeps(cfg, s, es);
    InvEntry(cfg, After(cfg, s, es), i);
  }

  lemma InvEntry(cfg: Config, s: State, i: nat)
    requires Inv(cfg, s) && i < |s.driverq|
    ensures EntryOk(cfg, s.driverq[i])
  {
    hide EntryOk;
  }

  /**
   * Approval integrity: on every run, the answer to a 0100 that went through AUTHQ says 00 exactly when the
   * database answered, with a response code of zero and an authorization code other than zero; through PAYBAL,
   * exactly when a served issuer's database answered with a response code of zero. In every case it shows the code
   * that was answered.
   */
  lemma ApprovalIntegrity(cfg: Config, s0: State, es: seq<Event>, i: nat)
    requires Initial(s0) && Run(cfg, s0, es) && i < |After(cfg, s0, es).driverq|
    ensures var e := After(cfg, s0, es).driverq[i];
            e.Framed? && Image(e.f.work.image) && TypeAt(e.f.work.image) == 100 ==>
              && RecordOk(e.f.r) && Usable(e.f.via.answer) && (Has(e.bytes, 39, APPROVED) <==> Granted(cfg, e.f))
              && Has(e.bytes, 39, Shown(AnsweredCode(cfg, e.f)))
  {
    hide Run, After, WorkOk, Has, Emit, RecordOk, TypeAt, Granted, AnsweredCode, Shown, Inv, Initial, Places;
    InitialInv(cfg, s0, 0);
    RunEntry(cfg, s0, es, i);
    var e := After(cfg, s0, es).driverq[i];
    if e.Framed? && Image(e.f.work.image) && TypeAt(e.f.work.image) == 100 { SaleAnswer(cfg, e); }
  }

  /** The code with which the process answers: the one its database gave, 91 for a zero without authorization code. */
  function AnsweredCode(cfg: Config, f: Finished): int
    requires Usable(f.via.answer)
  {
    var answer := f.via.answer;
    if answer == NoAnswer || (f.via.ByPayBal? && !IsServed(f.work.k, cfg.payBins)) then 96
    else if f.via.ByPayBal? then Atoi(answer.resp[115..117])
    else if Atoi(answer.resp[108..110]) == 0 && Atoi(answer.resp[114..120]) == 0 then 91
    else Atoi(answer.resp[108..110])
  }

  lemma CodeAnswered(cfg: Config, f: Finished)
    requires Replied(cfg, f)
    ensures f.r.respcode == AnsweredCode(cfg, f)
  {
    hide WorkOk, AuthReply, PayReply, IsServed, Atoi, PayRoute;
    var answer := f.via.answer;
    if f.via.ByAuth? {
      if answer.Answer? { AnswerCells(f.work.k, answer.resp); } else { NoAnswerCells(f.work.k); }
    } else {
      ServedRoute(f.work.k, cfg.payBins);
      if IsServed(f.work.k, cfg.payBins) && answer.Answer? {
        PayAnswerCells(f.work.k, cfg.payBins, answer.resp);
      } else {
        PayUnasked(f.work.k, cfg.payBins, answer);
      }
    }
  }

  /**
   * On every run, the answer to a 0400 says 21 exactly when the database that was asked answered with 9, 10 or 98, and
   * 00 in every other case, a failure of the database included.
   */
  lemma ReversalIntegrity(cfg: Config, s0: State, es: seq<Event>, i: nat)
    requires Initial(s0) && Run(cfg, s0, es) && i < |After(cfg, s0, es).driverq|
    ensures var e := After(cfg, s0, es).driverq[i];
            e.Framed? && Image(e.f.work.image) && TypeAt(e.f.work.image) == 400 ==>
              && RecordOk(e.f.r) && Usable(e.f.via.answer)
              && Has(e.bytes, 39, if Nothing(e.f) then NOT_FOUND else APPROVED)
              && (Has(e.bytes, 39, NOT_FOUND) <==> Nothing(e.f))
  {
    hide Run, After, WorkOk, Has, Emit, RecordOk, TypeAt, Nothing, Inv, Initial, Places;
    InitialInv(cfg, s0, 0);
    RunEntry(cfg, s0, es, i);
    var e := After(cfg, s0, es).driverq[i];
    if e.Framed? && Image(e.f.work.image) && TypeAt(e.f.work.image) == 400 { ReversalAnswer(cfg, e); }
  }

  // ---- the way back -----------------------------------------------------------------------------

  lemma HeaderKept(m: InternalMsg, mem: seq<byte>, c: Context)
    requires Image(mem)
    ensures Kept(m, mem, c).priv == Saved(m, mem[4..26], MapAt(mem), m.priv.netId).priv
  {}

  /** What was decoded of a message that was read. */
  lemma WorkDecoded(w: Work, pay: bool) returns (m: InternalMsg)
    requires WorkOk(w, pay)
    ensures var d := Decoded(1, MapAt(w.image), StartRecord(TypeAt(w.image), w.c), w.c.env, BodyAt(w.image));
            d.Done? && m == d.m
    ensures w.k == Kept(m, w.image, w.c)
  {
    hide Decoded, StartRecord, MapAt, BodyAt, TypeAt, Kept, IsPayBalance, Locate;
    m := Decoded(1, MapAt(w.image), StartRecord(TypeAt(w.image), w.c), w.c.env, BodyAt(w.image)).m;
  }

  /** Nothing of what is saved of the request's header changes on the way through Auth or PayBal. */
  lemma PrivateKept(cfg: Config, f: Finished)
    requires Replied(cfg, f)
    ensures f.r.priv == f.work.k.priv
  {
    hide WorkOk, Atoi;
    if f.via.ByPayBal? { PayKeeps(f.work.k, cfg.payBins, f.via.answer); } else { ReplyKeeps(f.work.k, f.via.answer); }
  }

  /** An answer carries the number of its kind and goes back to the station its request came from. */
  predicate GoesBack(bytes: seq<byte>, image: seq<byte>)
    requires Image(image)
  {
    var header := image[4..26];
    && |bytes| >= 36 && Btoi(bytes[26..], 4) == TypeAt(image) + 10
    && bytes[9..12] == header[8..11] && bytes[12..15] == header[5..8]
    && bytes[15] == header[11] && bytes[21..26] == header[17..]
  }

  /** On every run, every framed answer goes back where its request came from. */
  lemma AnswerAddressed(cfg: Config, s0: State, es: seq<Event>, i: nat)
    requires Initial(s0) && Run(cfg, s0, es) && i < |After(cfg, s0, es).driverq|
    ensures var e := After(cfg, s0, es).driverq[i];
            e.Framed? ==> Image(e.f.work.image) && GoesBack(e.bytes, e.f.work.image)
  {
    hide Run, After, EntryOk, GoesBack, Inv, Initial, Places;
    InitialInv(cfg, s0, 0);
    RunEntry(cfg, s0, es, i);
    var e := After(cfg, s0, es).driverq[i];
    if e.Framed? { EntryAddressed(cfg, e); }
  }

  lemma EntryAddressed(cfg: Config, e: Entry)
    requires EntryOk(cfg, e) && e.Framed?
    ensures Image(e.f.work.image) && GoesBack(e.bytes, e.f.work.image)
  {
    hide Emit, RequestOk, TypeAt, AuthReply, PayReply, IsSet, WorkOk, Kept, Saved, GoesBack, RecordOk, ReplyFrame;
    hide MapAt;
    FramedEntry(cfg, e);
    PrivateKept(cfg, e.f);
    var m := WorkDecoded(e.f.work, e.f.via.ByPayBal?);
    HeaderKept(m, e.f.work.image, e.f.work.c);
    Addressed(e.f.r, m, e.f.work.image);
  }

  lemma Addressed(r: InternalMsg, m: InternalMsg, mem: seq<byte>)
    requires Image(mem) && TypeAt(mem) in {100, 400} && r.msgtype == TypeAt(mem) + 10 && RecordOk(r)
    requires r.priv == Saved(m, mem[4..26], MapAt(mem), m.priv.netId).priv
    ensures GoesBack(ReplyFrame(r), mem)
  {
    hide MapAt, Encoded, ReplyMap, IsSet, SentRecord, Btoi, NumBytes, TypeAt;
    Primary(r);
    var h, body := HeaderOf(r), Encoded(1, ReplyMap(r), SentRecord(r), NetOf(r.priv));
    AnswerGoesBack(m, mem[4..26], MapAt(mem), m.priv.netId, r);
    TypeFound(h, r.msgtype, ReplyMap(r), body);
    HeaderInFrame(h, r.msgtype, ReplyMap(r), body);
  }

  lemma HeaderInFrame(h: seq<byte>, msgtype: int, bm: Bitmap, body: seq<byte>)
    requires |h| == HEADER_LEN && |bm| == 8
    ensures var f := FrameBytes(h, msgtype, bm, body);
            f[9..12] == h[5..8] && f[12..15] == h[8..11] && f[15] == h[11] && f[21..26] == h[17..]
  {
    var f := FrameBytes(h, msgtype, bm, body);
    assert f[4..26] == WithLength(h, 32 + |body|);
  }
}
