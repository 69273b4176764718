/** What every request that FromVisa lets through looks like, so that its answer can be sent. */
module Requests {
  import opened Memory
  import opened Digits
  import opened Ebcdic
  import opened Money
  import opened Bitmaps
  import opened Message
  import opened Shapes
  import opened Layout
  import opened Wire
  import opened Codec
  import opened Frame
  import opened Authorizer
  import opened PayBal
  import opened Inbound
  import opened Outbound

  /** Members that hold what the decoder can put there. */
  predicate Shaped(m: InternalMsg)
  {
    && |m.pan| <= 19 && |InstId(m)| <= 11 && |m.amount| <= 12 && |m.refnum| <= 12 && 0 !in m.refnum
    && |m.priv.netId| == 2 && m.ledgerBalance == []
  }

  /**
   * Amounts of at most twelve characters. Those of fields 5, 54 and 61 come in as money text, which has thirteen
   * from 1,000,000,000.00 on.
   */
  predicate Fitting(m: InternalMsg)
  {
    |m.cashBack| <= 12 && |m.avalBalance| <= 12 && |m.settlementAmount| <= 12
  }

  /** A message that is queued, if it is, has such amounts. */
  predicate Roomy(r: InResult)
  {
    match r
    case ToAuth(k) => Fitting(k)
    case ToPayBal(k) => Fitting(k)
    case _ => true
  }

  lemma {:induction false} CutKeeps(s: Text)
    ensures 0 !in s ==> 0 !in CutAtBlank(s)
  {
    if s != [] && s[0] != 0x20 { CutKeeps(s[1..]); }
  }

  /** A value that was read is no longer than its shape allows. */
  lemma GetWidth(sh: Shape, b: seq<byte>)
    requires Get(sh, b).Got?
    ensures var t := Get(sh, b).c.text;
            match sh
            case Amount => |t| == 12
            case VarBcd(cap) => |t| <= cap
            case Text8(len) => |t| == len
            case _ => true
  {
    hide Unpack, EtoaText, Plain, Btoi, Atoi;
  }

  lemma StoreShaped(f: nat, c: FieldValue, m: InternalMsg, bm: Bitmap, env: Env, b: seq<byte>)
    requires Carried(f) && |bm| == 8 && Shaped(m) && Get(ShapeOf(f), b).Got? && c == Get(ShapeOf(f), b).c
    ensures Store(f, c, m, bm, env).Some? ==> Shaped(Store(f, c, m, bm, env).value)
  {
    GetWidth(ShapeOf(f), b);
    hide Get, AcceptedPcode, TransactionType;
    if f == 37 { CutKeeps(CStr(c.text)); }
  }

  /** Field 63 sets four numbers and nothing else. */
  lemma NetworkOnly(k: NetMap, m: InternalMsg, c: NetCodes, low: byte)
    ensures var r := NetworkStored(k, m, c, low);
            r == m.(serial1 := r.serial1, lifeCycle := r.lifeCycle, revcode := r.revcode, serial2 := r.serial2)
  {}

  lemma NetworkShaped(m: InternalMsg, b: seq<byte>)
    requires Shaped(m)
    ensures ReadNetworkField(m, b).Done? ==> Shaped(ReadNetworkField(m, b).m)
  {
    hide CodesOf, NetMapOf, NetworkStored;
    if |b| >= 4 && |b| >= 4 + NetworkLength(NetMapOf(b[1])) {
      var k, m1 := NetMapOf(b[1]), m.(priv := m.priv.(netId := b[1..3]));
      NetworkOnly(k, m1, CodesOf(k, b[4..]), if k.b6 then b[4..][Past(k.b5, CodesLength(k), 7)] else 0);
    }
  }

  lemma PassiveShaped(f: nat, m: InternalMsg, env: Env, b: seq<byte>)
    requires 1 <= f <= 64 && !Carried(f) && Shaped(m)
    ensures ReadPassive(f, m, env, b).Done? ==> Shaped(ReadPassive(f, m, env, b).m)
  {
    hide ReadNetworkField, MoneyIn, MoneyText, EtoaText, GetVarText, Plain;
    if f == 63 { NetworkShaped(m, b); }
  }

  lemma FieldShaped(f: nat, m: InternalMsg, bm: Bitmap, env: Env, b: seq<byte>)
    requires 1 <= f <= 64 && |bm| == 8 && Shaped(m)
    ensures ReadField(f, m, bm, env, b).Done? ==> Shaped(ReadField(f, m, bm, env, b).m)
  {
    hide Get, Store, ReadPassive, Shaped;
    if Carried(f) {
      var r := Get(ShapeOf(f), b);
      if r.Got? { StoreShaped(f, r.c, m, bm, env, b); }
    } else {
      PassiveShaped(f, m, env, b);
    }
  }

  lemma NotedShaped(m: InternalMsg, bm: Bitmap)
    requires Shaped(m)
    ensures Shaped(Noted(m, bm))
  {}

  /** Decoding keeps the shape. */
  lemma {:induction false} DecodedShaped(f: nat, bm: Bitmap, m: InternalMsg, env: Env, b: seq<byte>)
    requires 1 <= f <= 65 && |bm| == 8 && Shaped(m)
    ensures var d := Decoded(f, bm, m, env, b);
            d.Done? ==> Shaped(d.m)
    decreases 65 - f
  {
    hide ReadField, Shaped, Noted;
    if f < 65 {
      if !IsSet(bm, f) {
        DecodedShaped(f + 1, bm, m, env, b);
      } else {
        var r := ReadField(f, m, bm, env, b);
        if r.Done? && r.n <= |b| {
          FieldShaped(f, m, bm, env, b);
          NotedShaped(r.m, bm);
          DecodedShaped(f + 1, bm, Noted(r.m, bm), env, b[r.n..]);
        }
      }
    }
  }

  /** Decoding never changes the type, and notes it with the map. */
  predicate Labelled(m: InternalMsg, msgtype: int)
  {
    m.msgtype == msgtype && (m.filler1Type == [] || m.filler1Type == Padded(msgtype, 4))
  }

  lemma FieldLabelled(f: nat, m: InternalMsg, bm: Bitmap, env: Env, b: seq<byte>)
    requires 1 <= f <= 64 && |bm| == 8
    ensures var r := ReadField(f, m, bm, env, b);
            r.Done? ==> r.m.msgtype == m.msgtype && r.m.filler1Type == m.filler1Type
  {
    hide Get, Store, ReadPassive;
    if Carried(f) {
      var r := Get(ShapeOf(f), b);
      if r.Got? { StoreLabelled(f, r.c, m, bm, env); }
    } else {
      PassiveLabelled(f, m, env, b);
    }
  }

  lemma StoreLabelled(f: nat, c: FieldValue, m: InternalMsg, bm: Bitmap, env: Env)
    requires Carried(f) && |bm| == 8
    ensures var r := Store(f, c, m, bm, env);
            r.Some? ==> r.value.msgtype == m.msgtype && r.value.filler1Type == m.filler1Type
  {
    hide AcceptedPcode, TransactionType, TrackIn, LargeBinIn;
  }

  lemma PassiveLabelled(f: nat, m: InternalMsg, env: Env, b: seq<byte>)
    requires 1 <= f <= 64 && !Carried(f)
    ensures var r := ReadPassive(f, m, env, b);
            r.Done? ==> r.m.msgtype == m.msgtype && r.m.filler1Type == m.filler1Type
  {
    hide MoneyIn, MoneyText, EtoaText, GetVarText, Plain, ReadNetworkField;
    if f == 63 { NetworkLabelled(m, b); }
  }

  lemma NetworkLabelled(m: InternalMsg, b: seq<byte>)
    ensures var r := ReadNetworkField(m, b);
            r.Done? ==> r.m.msgtype == m.msgtype && r.m.filler1Type == m.filler1Type
  {
    hide CodesOf, NetMapOf, NetworkStored;
    if |b| >= 4 && |b| >= 4 + NetworkLength(NetMapOf(b[1])) {
      var k, m1 := NetMapOf(b[1]), m.(priv := m.priv.(netId := b[1..3]));
      NetworkOnly(k, m1, CodesOf(k, b[4..]), if k.b6 then b[4..][Past(k.b5, CodesLength(k), 7)] else 0);
    }
  }

  lemma {:induction false} DecodedLabelled(f: nat, bm: Bitmap, m: InternalMsg, env: Env, b: seq<byte>, msgtype: int)
    requires 1 <= f <= 65 && |bm| == 8 && Labelled(m, msgtype)
    ensures var d := Decoded(f, bm, m, env, b);
            d.Done? ==> Labelled(d.m, msgtype)
    decreases 65 - f
  {
    hide ReadField, Padded;
    if f < 65 {
      if !IsSet(bm, f) {
        DecodedLabelled(f + 1, bm, m, env, b, msgtype);
      } else {
        var r := ReadField(f, m, bm, env, b);
        if r.Done? && r.n <= |b| {
          FieldLabelled(f, m, bm, env, b);
          DecodedLabelled(f + 1, bm, Noted(r.m, bm), env, b[r.n..], msgtype);
        }
      }
    }
  }

  // ---- a request and its answer -----------------------------------------------------------------

  /** A request of type `msgtype` as it stands in AUTHQ or PAYBAL. */
  predicate RequestOk(k: InternalMsg, msgtype: int)
  {
    && msgtype in {100, 120, 400} && Shaped(k) && Labelled(k, msgtype)
    && |k.priv.bitmap| == 8 && AddressWidths(k.priv)
    && (msgtype == 400 ==> k.revcode == 91)
  }

  lemma KeptOk(m: InternalMsg, mem: seq<byte>, c: Context, msgtype: int)
    requires Image(mem) && Shaped(m) && Labelled(m, msgtype) && msgtype in {100, 120, 400}
    ensures RequestOk(Kept(m, mem, c), msgtype)
  {
    hide Padded, IsSet, Kept, MapAt;
    KeptOnly(m, mem, c);
    KeptWidths(m, mem, c);
    if msgtype == 400 { KeptReversal(m, mem, c); }
  }

  lemma KeptWidths(m: InternalMsg, mem: seq<byte>, c: Context)
    requires Image(mem)
    ensures var p := Kept(m, mem, c).priv; |p.bitmap| == 8 && AddressWidths(p) && p.netId == m.priv.netId
  {
    hide ToCardco, Locate;
  }

  lemma KeptReversal(m: InternalMsg, mem: seq<byte>, c: Context)
    requires Image(mem) && m.msgtype == 400
    ensures Kept(m, mem, c).revcode == 91
  {
    hide Saved, MapAt;
    assert ToCardco(m, MapAt(mem), c).revcode == 91;
    SavedOnly(ToCardco(m, MapAt(mem), c), mem[4..26], MapAt(mem), m.priv.netId);
  }

  lemma SavedOnly(m: InternalMsg, header: seq<byte>, bitmap: seq<byte>, net: seq<byte>)
    requires |header| >= HEADER_LEN
    ensures Saved(m, header, bitmap, net) == m.(priv := Saved(m, header, bitmap, net).priv)
  {}

  lemma StartOk(msgtype: int, c: Context)
    requires ContextOk(c)
    ensures Shaped(StartRecord(msgtype, c)) && Labelled(StartRecord(msgtype, c), msgtype)
  {}

  /** Every request that FromVisa writes to a queue is one. */
  lemma ReceivedOk(mem: seq<byte>, c: Context)
    requires Image(mem) && ContextOk(c)
    ensures match Receive(mem, c)
            case ToAuth(k) => RequestOk(k, TypeAt(mem)) && !IsPayBalance(k)
            case ToPayBal(k) => RequestOk(k, TypeAt(mem)) && IsPayBalance(k)
            case _ => true
  {
    hide Shaped, Labelled, Kept, IsPayBalance, RequestOk, TypeAt, MapAt, BodyAt, Decoded, Locate, StartRecord, IsSet;
    var msgtype, bm, b := TypeAt(mem), MapAt(mem), BodyAt(mem);
    var m0 := StartRecord(msgtype, c);
    StartOk(msgtype, c);
    DecodedShaped(1, bm, m0, c.env, b);
    DecodedLabelled(1, bm, m0, c.env, b, msgtype);
    var d := Decoded(1, bm, m0, c.env, b);
    if d.Done? && msgtype in {100, 120, 400} { KeptOk(d.m, mem, c, msgtype); }
  }

  /** An answer that can be sent: to a request of type `msgtype`, with a code of two digits. */
  predicate AnswerOk(r: InternalMsg, k: InternalMsg, msgtype: int)
  {
    && r.msgtype == msgtype + 10 && r.respcode <= 99 && RecordOk(r)
    && r.filler1Type == k.filler1Type && r.revcode == k.revcode && r.pcode == k.pcode
  }

  /** A code of two characters is at most 99. */
  lemma TwoCharacters(s: Text)
    requires |s| == 2
    ensures Atoi(s) <= 99
  {
    var t := SkipSpaces(s);
    DigitsAtMost(t);
    if t != [] { DigitsAtMost(t[1..]); }
  }

  lemma DigitsAtMost(t: Text)
    requires |t| <= 2
    ensures Value(DigitPrefix(t)) <= 99
  {
    var p := DigitPrefix(t);
    Pow10Small();
    Pow10Grows(|p|, 2);
    ValueBound(p);
  }

  lemma AuthAnswerOk(k: InternalMsg, msgtype: int, answer: DbAnswer)
    requires RequestOk(k, msgtype) && Fitting(k) && Usable(answer)
    ensures AnswerOk(AuthReply(k, answer), k, msgtype)
  {
    ReplyKeeps(k, answer);
    if answer.Answer? { TwoCharacters(Blanked(answer.resp, |CStr(answer.resp)|)[108..110]); }
    hide Atoi, Padded, IsSet, Blanked;
  }

  lemma PayAnswerOk(k: InternalMsg, msgtype: int, bins: seq<Text>, answer: DbAnswer)
    requires RequestOk(k, msgtype) && Fitting(k) && Usable(answer)
    ensures AnswerOk(PayReply(k, bins, answer), k, msgtype)
  {
    PayKeeps(k, bins, answer);
    if answer.Answer? { TwoCharacters(answer.resp[115..117]); }
    hide Atoi, Padded, IsSet, PayRoute;
  }

  lemma PaddedApart(a: int, b: int)
    requires 0 <= a < 10_000 && 0 <= b < 10_000 && a != b
    ensures Padded(a, 4) != Padded(b, 4)
  {
    Pow10Small();
    ItoaValue(a, 4);
    ItoaValue(b, 4);
  }

  lemma EmitOf(r: InternalMsg, msgtype: int)
    requires msgtype in {100, 120, 400} && r.msgtype == msgtype + 10 && r.respcode <= 99 && RecordOk(r)
    requires (r.filler1Type == [] || r.filler1Type == Padded(msgtype, 4)) && (msgtype == 400 ==> r.revcode == 91)
    ensures Emit(r) ==
              if msgtype == 120 then Suppressed
              else if msgtype == 400 && Quot(r.pcode, 10_000) == 30 then RawToDriver(r)
              else Sent(ReplyFrame(r))
  {
    hide RecordOk, ReplyFrame, Quot, Padded;
    PaddedApart(msgtype, msgtype + 10);
  }

  /**
   * No answer is lost on its way out: that of a sale is sent, that of an advice is kept back, that of a reversal
   * is sent, or written as a record when it is a balance inquiry that was reversed.
   */
  lemma AnswerEmitted(r: InternalMsg, k: InternalMsg, msgtype: int)
    requires RequestOk(k, msgtype) && AnswerOk(r, k, msgtype)
    ensures Emit(r) ==
              if msgtype == 120 then Suppressed
              else if msgtype == 400 && Quot(k.pcode, 10_000) == 30 then RawToDriver(r)
              else Sent(ReplyFrame(r))
  {
    hide RecordOk, ReplyFrame, Quot, Padded, Shaped, Emit, IsSet;
    EmitOf(r, msgtype);
  }
}
