/** The fields of an answer that repeat those of its request, byte for byte. */
module Echo {
  import opened Memory
  import opened Digits
  import opened Bitmaps
  import opened Message
  import opened Shapes
  import opened Layout
  import opened Wire
  import opened Codec
  import opened Reader
  import opened RoundTrip
  import opened Frame
  import opened FrameLaws
  import opened Codes
  import opened Authorizer
  import opened PayBal
  import opened Inbound
  import opened Outbound
  import opened Requests
  import opened Switch
  import opened Answers

  // ---- the bytes of a field where the decoder reads it -------------------------------------------

  /** The record has at field g the value of the canonical bytes b. */
  predicate Holds(g: nat, bm: Bitmap, m: InternalMsg, b: seq<byte>)
    requires 1 <= g <= 64 && |bm| == 8 && CanonicalField(g, bm, b)
  {
    Content(g, m) == Get(ShapeOf(g), b).c && Fits(ShapeOf(g), Get(ShapeOf(g), b).c)
  }

  lemma HoldsLonger(g: nat, bm: Bitmap, a: InternalMsg, m: InternalMsg, b: seq<byte>)
    requires 1 <= g <= 64 && |bm| == 8 && CanonicalField(g, bm, b)
    requires Holds(g, bm, a, b) && Member(g, m) == Member(g, a)
    ensures Holds(g, bm, m, b)
  {
    hide Get, Member, Fits, Carried, CanonicalBytes, Restores;
    ContentFromMember(g, m, a);
    hide Content;
  }

  /** A value the record holds goes out as the bytes it came in, exactly when nothing spoils it. */
  lemma HeldWritten(g: nat, bm: Bitmap, m: InternalMsg, b: seq<byte>, net: seq<byte>)
    requires 1 <= g <= 64 && g != 44 && |bm| == 8 && |net| == 8 && CanonicalField(g, bm, b) && Holds(g, bm, m, b)
    ensures Get(ShapeOf(g), b).Got? && Get(ShapeOf(g), b).n <= |b|
    ensures var w := b[..Get(ShapeOf(g), b).n];
            |Written(g, m, net)| == |w| && (Written(g, m, net) == w <==> Unspoiled(g, m))
  {
    hide Get, Shapes.Put, Written, Content, Fits, Restores, Unspoiled;
    PutGet(ShapeOf(g), b);
    WrittenAs(g, m, net, Get(ShapeOf(g), b).c);
  }

  /** The fields behind g leave what was read there alone. */
  lemma HoldsOn(g: nat, bm: Bitmap, m0: InternalMsg, env: Env, b: seq<byte>)
    requires 1 <= g <= 64 && g !in {14, 35, 44, 45} && |bm| == 8 && IsSet(bm, g)
    requires CanonicalField(g, bm, b) && Decoded(g, bm, m0, env, b).Done?
    ensures Holds(g, bm, Decoded(g, bm, m0, env, b).m, b)
  {
    hide ReadField, Get, Shapes.Put, Content, Fits, Restores, Member, Carried, CanonicalBytes, Holds;
    FieldAgain(g, bm, m0, env, b);
    var r := ReadField(g, m0, bm, env, b);
    var m1, tail := Noted(r.m, bm), b[r.n..];
    assert Holds(g, bm, r.m, b) by { ReadHeld(g, bm, m0, env, b); }
    NotedKeeps(r.m, bm, g);
    DecodedKeeps(g + 1, bm, m1, env, tail, g);
    HoldsLonger(g, bm, r.m, Decoded(g + 1, bm, m1, env, tail).m, b);
  }

  lemma ReadHeld(g: nat, bm: Bitmap, m0: InternalMsg, env: Env, b: seq<byte>)
    requires 1 <= g <= 64 && g != 44 && |bm| == 8 && CanonicalField(g, bm, b)
    ensures ReadField(g, m0, bm, env, b).Done? && Holds(g, bm, ReadField(g, m0, bm, env, b).m, b)
  {
    hide ReadField, Get, Shapes.Put, Content, Fits, Restores, Carried, CanonicalBytes;
    FieldAgain(g, bm, m0, env, b);
  }

  /** After a message was decoded, a field that was canonical where it was read is in the record. */
  lemma {:induction false} DecodedHolds(g: nat, f: nat, bm: Bitmap, m0: InternalMsg, env: Env, b: seq<byte>)
    requires 1 <= f <= g <= 64 && g !in {14, 35, 44, 45} && |bm| == 8 && IsSet(bm, g)
    requires Decoded(f, bm, m0, env, b).Done? && CanonicalField(g, bm, LookAt(g, f, bm, b))
    ensures Holds(g, bm, Decoded(f, bm, m0, env, b).m, LookAt(g, f, bm, b))
    decreases g - f
  {
    hide ReadField, Holds, CanonicalField, Steps;
    if f == g {
      HoldsOn(g, bm, m0, env, b);
    } else if !IsSet(bm, f) {
      DecodedHolds(g, f + 1, bm, m0, env, b);
    } else {
      var r := ReadField(f, m0, bm, env, b);
      ReadSteps(f, m0, bm, env, b);
      DecodedHolds(g, f + 1, bm, Noted(r.m, bm), env, b[r.n..]);
    }
  }

  /** Canonical or not, what was read for a field is what landed in its members. */
  lemma {:induction false} DecodedLands(g: nat, f: nat, bm: Bitmap, m0: InternalMsg, env: Env, b: seq<byte>)
    requires 1 <= f <= g <= 64 && Carried(g) && g !in {14, 35, 45} && |bm| == 8 && IsSet(bm, g)
    requires Decoded(f, bm, m0, env, b).Done?
    ensures var r := Get(ShapeOf(g), LookAt(g, f, bm, b));
            r.Got? && Member(g, Decoded(f, bm, m0, env, b).m) == Landed(g, r.c, env)
    decreases g - f
  {
    hide ReadField, Steps, Get, Member, Landed;
    if f == g {
      LandsOn(g, bm, m0, env, b);
    } else if !IsSet(bm, f) {
      DecodedLands(g, f + 1, bm, m0, env, b);
    } else {
      var r := ReadField(f, m0, bm, env, b);
      ReadSteps(f, m0, bm, env, b);
      DecodedLands(g, f + 1, bm, Noted(r.m, bm), env, b[r.n..]);
    }
  }

  lemma LandsOn(g: nat, bm: Bitmap, m0: InternalMsg, env: Env, b: seq<byte>)
    requires 1 <= g <= 64 && Carried(g) && g !in {14, 35, 45} && |bm| == 8 && IsSet(bm, g)
    requires Decoded(g, bm, m0, env, b).Done?
    ensures var r := Get(ShapeOf(g), b);
            r.Got? && Member(g, Decoded(g, bm, m0, env, b).m) == Landed(g, r.c, env)
  {
    hide Get, Member, Landed, Store;
    var r := ReadField(g, m0, bm, env, b);
    StoreLands(g, Get(ShapeOf(g), b).c, m0, bm, env);
    NotedKeeps(r.m, bm, g);
    DecodedKeeps(g + 1, bm, Noted(r.m, bm), env, b[r.n..], g);
  }

  // ---- through the processes --------------------------------------------------------------------

  /** The fields an answer repeats; the trace number of a sale is another matter. */
  predicate Repeated(msgtype: int, g: nat)
  {
    g in {2, 3, 4, 7, 22, 32, 37, 41, 49} || (if msgtype == 100 then g in {19, 25} else g == 11)
  }

  lemma KeptMembers(m: InternalMsg, mem: seq<byte>, c: Context, g: nat)
    requires Image(mem) && Carried(g) && g !in {11, 12, 13}
    ensures Member(g, Kept(m, mem, c)) == Member(g, m)
  {
    hide Kept;
    KeptOnly(m, mem, c);
  }

  /** The trace number FromVisa keeps: its own invention, unless field 10 was there or the message is no sale. */
  lemma KeptTrace(m: InternalMsg, mem: seq<byte>, c: Context)
    requires Image(mem)
    ensures Kept(m, mem, c).trace == m.trace
            <==> !IsAuthRequest(m.msgtype) || IsSet(MapAt(mem), 10) || MadeTrace(c) == m.trace
  {
    hide IsSet, Locate;
  }

  lemma AnswerMembers(cfg: Config, f: Finished, g: nat)
    requires Replied(cfg, f) && Carried(g) && g !in {15, 38}
    ensures Member(g, f.r) == Member(g, f.work.k)
  {
    hide WorkOk, Atoi, AuthReply, PayReply;
    if f.via.ByPayBal? { PayKeeps(f.work.k, cfg.payBins, f.via.answer); } else { ReplyKeeps(f.work.k, f.via.answer); }
  }

  lemma SentMembers(r: InternalMsg, g: nat)
    requires Carried(g)
    ensures g != 3 ==> Member(g, SentRecord(r)) == Member(g, r)
    ensures g == 3 && r.pcode >= 0 && AcceptedPcode(r.pcode) ==> Member(g, SentRecord(r)) == Member(g, r)
  {
    if r.pcode >= 0 && AcceptedPcode(r.pcode) { AcceptedPcodeKept(r.pcode); }
    hide ExternPcode, AcceptedPcode, OutCode;
  }

  /** A member that no process changes, from the decoded record to the one that is sent. */
  lemma MemberThrough(cfg: Config, f: Finished, m: InternalMsg, g: nat)
    requires Replied(cfg, f) && Image(f.work.image) && f.work.k == Kept(m, f.work.image, f.work.c)
    requires Carried(g) && g !in {3, 12, 13, 15, 38} && (g == 11 ==> f.work.k.trace == m.trace)
    ensures Member(g, SentRecord(f.r)) == Member(g, m)
  {
    hide Kept, Replied, SentRecord, Carried;
    if g == 11 {
      TraceMember(f.work.k, m);
    } else {
      KeptMembers(m, f.work.image, f.work.c, g);
    }
    AnswerMembers(cfg, f, g);
    SentMembers(f.r, g);
  }

  /** So what is behind a short stays, too. */
  lemma SpoiledThrough(cfg: Config, f: Finished, m: InternalMsg, g: nat)
    requires Replied(cfg, f) && Image(f.work.image) && f.work.k == Kept(m, f.work.image, f.work.c)
    requires g in {19, 22, 25, 49}
    ensures Unspoiled(g, SentRecord(f.r)) <==> Unspoiled(g, m)
  {
    hide Kept, Replied, SentRecord, Leading;
    MemberThrough(cfg, f, m, g);
    if g == 19 { MemberThrough(cfg, f, m, 23); }
    if g == 22 { MemberThrough(cfg, f, m, 25); }
    if g == 25 { MemberThrough(cfg, f, m, 26); }
  }

  /** What a canonical field of a request was, it is in the record that is sent. */
  lemma FieldThrough(cfg: Config, f: Finished, m: InternalMsg, g: nat, rest: seq<byte>)
    requires Replied(cfg, f) && Image(f.work.image) && f.work.k == Kept(m, f.work.image, f.work.c)
    requires 1 <= g <= 64 && CanonicalField(g, MapAt(f.work.image), rest) && Holds(g, MapAt(f.work.image), m, rest)
    requires g !in {12, 13, 15, 38} && (g == 11 ==> f.work.k.trace == m.trace)
    ensures Holds(g, MapAt(f.work.image), SentRecord(f.r), rest)
  {
    hide Holds, Kept, Get, MapAt, Replied, SentRecord, CanonicalBytes, AcceptedPcode, IsSet;
    var bm := MapAt(f.work.image);
    if g == 3 {
      KeptMembers(m, f.work.image, f.work.c, g);
      AnswerMembers(cfg, f, g);
      PcodeHeld(bm, m, f.r, rest);
      SentMembers(f.r, g);
    } else {
      MemberThrough(cfg, f, m, g);
    }
    HoldsLonger(g, bm, m, SentRecord(f.r), rest);
  }

  lemma TraceMember(a: InternalMsg, b: InternalMsg)
    requires a.trace == b.trace
    ensures Member(11, a) == Member(11, b)
  {}

  lemma PcodeHeld(bm: Bitmap, m: InternalMsg, r: InternalMsg, rest: seq<byte>)
    requires |bm| == 8 && CanonicalField(3, bm, rest) && Holds(3, bm, m, rest) && Member(3, r) == Member(3, m)
    ensures r.pcode >= 0 && AcceptedPcode(r.pcode)
  {
    hide Get, CanonicalBytes, AcceptedPcode, Written;
  }

  /** What the decoder makes of a request. */
  function ReadOf(w: Work): Step
    requires Image(w.image)
  {
    Decoded(1, MapAt(w.image), StartRecord(TypeAt(w.image), w.c), w.c.env, BodyAt(w.image))
  }

  /** Where the decoder reads field g of a request. */
  function PlaceOf(g: nat, w: Work): seq<byte>
    requires Image(w.image) && 1 <= g <= 64
  {
    LookAt(g, 1, MapAt(w.image), BodyAt(w.image))
  }

  /** A request has field g, and has it in canonical bytes; of its other fields the decoder made something. */
  predicate Carries(w: Work, g: nat)
    requires Image(w.image)
  {
    && 1 <= g <= 64 && ReadOf(w).Done? && IsSet(MapAt(w.image), g)
    && CanonicalField(g, MapAt(w.image), PlaceOf(g, w))
  }

  /** The bytes of field g of a request, and the value they stand for. */
  function FieldBytes(g: nat, w: Work): seq<byte>
    requires Image(w.image) && Carried(g)
  {
    match Get(ShapeOf(g), PlaceOf(g, w))
    case Nowhere => []
    case Got(_, n) => PlaceOf(g, w)[..n]
  }

  function FieldNumber(g: nat, w: Work): int
    requires Image(w.image) && Carried(g)
  {
    match Get(ShapeOf(g), PlaceOf(g, w))
    case Nowhere => 0
    case Got(c, _) => c.num
  }

  lemma TypeKept(f: Finished, m: InternalMsg, msgtype: int)
    requires Image(f.work.image) && f.work.k == Kept(m, f.work.image, f.work.c) && RequestOk(f.work.k, msgtype)
    ensures m.msgtype == msgtype
  {
    hide Kept, Padded, IsSet;
    KeptOnly(m, f.work.image, f.work.c);
  }

  /** What was decoded of an entry's request, and that the request's map was saved with it. */
  lemma EntryRead(cfg: Config, e: Entry)
    requires EntryOk(cfg, e) && e.Framed?
    ensures Image(e.f.work.image) && ReadOf(e.f.work).Done?
    ensures e.f.work.k == Kept(ReadOf(e.f.work).m, e.f.work.image, e.f.work.c)
    ensures ReadOf(e.f.work).m.msgtype == TypeAt(e.f.work.image)
    ensures e.f.r.priv.bitmap == MapAt(e.f.work.image)
  {
    hide Emit, ReplyFrame, RequestOk, TypeAt, MapAt, BodyAt, Kept, WorkOk, RecordOk, Decoded, StartRecord;
    FramedEntry(cfg, e);
    var m := WorkDecoded(e.f.work, e.f.via.ByPayBal?);
    TypeKept(e.f, m, TypeAt(e.f.work.image));
    PrivateKept(cfg, e.f);
    HeaderKept(m, e.f.work.image, e.f.work.c);
  }

  /** A repeated field of a request is in the record that is sent. */
  lemma EntryHolds(cfg: Config, e: Entry, g: nat)
    requires EntryOk(cfg, e) && e.Framed? && Image(e.f.work.image)
    requires Carries(e.f.work, g) && Repeated(TypeAt(e.f.work.image), g)
    ensures Holds(g, MapAt(e.f.work.image), SentRecord(e.f.r), PlaceOf(g, e.f.work))
    ensures Unspoiled(g, SentRecord(e.f.r)) <==> (IsShort(g) ==> Unspoiled(g, ReadOf(e.f.work).m))
  {
    hide Emit, ReplyFrame, TypeAt, MapAt, BodyAt, Holds, Kept, WorkOk, SentRecord, Replied, LookAt, StartRecord;
    hide Decoded, CanonicalField, RecordOk, Leading, Behind, IsSet;
    var w, bm := e.f.work, MapAt(e.f.work.image);
    FramedEntry(cfg, e);
    EntryRead(cfg, e);
    var m := ReadOf(w).m;
    DecodedHolds(g, 1, bm, StartRecord(TypeAt(w.image), w.c), w.c.env, BodyAt(w.image));
    if g == 11 { ReversalTrace(m, w.image, w.c, TypeAt(w.image)); }
    FieldThrough(cfg, e.f, m, g, PlaceOf(g, w));
    if IsShort(g) { SpoiledThrough(cfg, e.f, m, g); }
  }

  /**
   * Reply echo: a reader of the answer finds in every repeated field that the request carries the very bytes the
   * request had there; in a short only if what its record holds behind it does not spoil it. Fields 41 and 49 have to
   * be in reach, as all others are.
   */
  lemma EntryEchoes(cfg: Config, e: Entry, g: nat)
    requires EntryOk(cfg, e) && e.Framed? && Image(e.f.work.image)
    requires Carries(e.f.work, g) && Repeated(TypeAt(e.f.work.image), g)
    ensures RecordOk(e.f.r)
    ensures g <= 40 || InReach(e.f.r, g) ==>
              (Has(e.bytes, g, FieldBytes(g, e.f.work)) <==> (IsShort(g) ==> Unspoiled(g, ReadOf(e.f.work).m)))
  {
    hide Emit, ReplyFrame, RequestOk, TypeAt, MapAt, Has, WorkOk, SentRecord, Written, Replied, InReply, Get, Holds;
    hide ReadOf, PlaceOf, CanonicalField, Unspoiled, RecordOk;
    var w, r := e.f.work, e.f.r;
    FramedEntry(cfg, e);
    EntryRead(cfg, e);
    EntryHolds(cfg, e, g);
    RecordWidths(r);
    RepeatedInReply(r, TypeAt(w.image), g);
    HeldWritten(g, MapAt(w.image), SentRecord(r), PlaceOf(g, w), NetOf(r.priv));
    if g <= 40 || InReach(r, g) {
      AnswerHas(g, r);
      if Has(e.bytes, g, FieldBytes(g, w)) {
        SameField(e.bytes, g, FieldBytes(g, w), Written(g, SentRecord(r), NetOf(r.priv)));
      }
    }
  }

  /** So a sale with country 76 and card number 1 is not answered with its country. */
  lemma CountryLost(cfg: Config, e: Entry)
    requires EntryOk(cfg, e) && e.Framed? && Image(e.f.work.image) && TypeAt(e.f.work.image) == 100
    requires Carries(e.f.work, 19) && ReadOf(e.f.work).m.acqCountry == 76 && ReadOf(e.f.work).m.cardSeqno == 1
    ensures RecordOk(e.f.r) && !Has(e.bytes, 19, FieldBytes(19, e.f.work))
  {
    hide EntryOk, CanonicalField, TypeAt, RecordOk, Has, ReadOf, FieldBytes, IsSet, MapAt, PlaceOf, InReach;
    CountrySpoiled(ReadOf(e.f.work).m, Zeros(8));
    EntryEchoes(cfg, e, 19);
  }

  /** The card number in the record of a request is that of its field 23, or zero without one. */
  lemma CardNumber(w: Work)
    requires Image(w.image) && ReadOf(w).Done?
    ensures ReadOf(w).m.cardSeqno == if IsSet(MapAt(w.image), 23) then FieldNumber(23, w) else 0
    ensures 0 <= ReadOf(w).m.cardSeqno < 10_000
  {
    hide MapAt, BodyAt, TypeAt, Get, Decoded, LookAt, IsSet;
    var bm, b, m0 := MapAt(w.image), BodyAt(w.image), StartRecord(TypeAt(w.image), w.c);
    if IsSet(bm, 23) {
      DecodedLands(23, 1, bm, m0, w.c.env, b);
      FourRead(LookAt(23, 1, bm, b));
    } else {
      DecodedKeeps(1, bm, m0, w.c.env, b, 23);
    }
  }

  /** A number read from four half bytes has at most four digits. */
  lemma FourRead(b: seq<byte>)
    ensures Get(Number(4), b).Got? ==> 0 <= Get(Number(4), b).c.num < 10_000
  {
    if |b| >= 2 {
      FourDigitsAtMost(NibbleText(b, 4));
      assert NibbleText(b, 4)[0] >= 0x30;
    }
  }

  /** A country below 1000 is repeated exactly when the request has no card number, or zero. */
  lemma CountryEchoes(cfg: Config, e: Entry)
    requires EntryOk(cfg, e) && e.Framed? && Image(e.f.work.image) && TypeAt(e.f.work.image) == 100
    requires Carries(e.f.work, 19) && FieldNumber(19, e.f.work) < 1000
    ensures RecordOk(e.f.r)
    ensures Has(e.bytes, 19, FieldBytes(19, e.f.work))
            <==> !IsSet(MapAt(e.f.work.image), 23) || FieldNumber(23, e.f.work) == 0
  {
    hide EntryOk, CanonicalField, TypeAt, RecordOk, Has, ReadOf, FieldBytes, FieldNumber, IsSet, MapAt, PlaceOf;
    hide Unspoiled, InReach;
    var m := ReadOf(e.f.work).m;
    EntryEchoes(cfg, e, 19);
    CardNumber(e.f.work);
    CountryRead(e.f.work);
    Pow10Small();
    SmallSpoiled(19, m);
  }

  lemma CountryRead(w: Work)
    requires Image(w.image) && Carries(w, 19)
    ensures 0 <= ReadOf(w).m.acqCountry == FieldNumber(19, w)
  {
    hide MapAt, BodyAt, TypeAt, Get, Decoded, LookAt, IsSet, CanonicalBytes;
    var bm, b, m0 := MapAt(w.image), BodyAt(w.image), StartRecord(TypeAt(w.image), w.c);
    DecodedLands(19, 1, bm, m0, w.c.env, b);
    FourRead(LookAt(19, 1, bm, b));
  }

  lemma RepeatedInReply(r: InternalMsg, msgtype: int, g: nat)
    requires |r.priv.bitmap| == 8 && msgtype in {100, 400} && r.msgtype == msgtype + 10 && Repeated(msgtype, g)
    requires 1 <= g <= 64 && IsSet(r.priv.bitmap, g)
    ensures InReply(r, g)
  {
    hide IsSet, IsPayBalance;
  }

  lemma ReversalTrace(m: InternalMsg, mem: seq<byte>, c: Context, msgtype: int)
    requires Image(mem) && msgtype == 400 && m.msgtype == msgtype
    ensures Kept(m, mem, c).trace == m.trace
  {
    KeptTrace(m, mem, c);
  }

  // ---- the trace number of a sale ---------------------------------------------------------------

  lemma SixDigits(a: int, b: int)
    requires 0 <= a < 1_000_000 && 0 <= b < 1_000_000
    ensures NumBytes(a, 6) == NumBytes(b, 6) <==> a == b
  {
    hide NumBytes, Btoi, Pow10;
    Pow10Small();
    EvenBack(a, 3, []);
    EvenBack(b, 3, []);
  }

  lemma TraceRead(bm: Bitmap, m: InternalMsg, rest: seq<byte>)
    requires |bm| == 8 && CanonicalField(11, bm, rest) && Holds(11, bm, m, rest)
    ensures Get(ShapeOf(11), rest).Got?
    ensures 0 <= m.trace < 1_000_000 && m.trace == Get(ShapeOf(11), rest).c.num
    ensures Get(ShapeOf(11), rest).n <= |rest| && rest[..Get(ShapeOf(11), rest).n] == NumBytes(m.trace, 6)
  {
    hide Get, Unpack, NumBytes;
    Pow10Small();
    PutGet(ShapeOf(11), rest);
    var c := Get(ShapeOf(11), rest).c;
    assert c == Num(m.trace) && Shapes.Put(ShapeOf(11), c) == NumBytes(m.trace, 6);
  }

  /** The trace number that a sale is answered with. */
  lemma SaleTrace(cfg: Config, e: Entry)
    requires EntryOk(cfg, e) && e.Framed? && Image(e.f.work.image) && TypeAt(e.f.work.image) == 100
    ensures ReadOf(e.f.work).Done?
    ensures e.f.r.trace == if IsSet(MapAt(e.f.work.image), 10) then ReadOf(e.f.work).m.trace else MadeTrace(e.f.work.c)
  {
    hide Emit, ReplyFrame, TypeAt, MapAt, Kept, WorkOk, RecordOk, ReadOf, IsSet, Replied, MadeTrace;
    EntryRead(cfg, e);
    SaleMade(ReadOf(e.f.work).m, e.f.work.image, e.f.work.c);
    AnswerMembers(cfg, e.f, 11);
  }

  lemma SaleMade(m: InternalMsg, mem: seq<byte>, c: Context)
    requires Image(mem) && m.msgtype == 100
    ensures Kept(m, mem, c).trace == if IsSet(MapAt(mem), 10) then m.trace else MadeTrace(c)
  {
    hide IsSet, Locate;
  }

  /**
   * The trace number of a sale is echoed exactly when the request has a field 10 as well, or the number FromVisa
   * makes up happens to be the one that came.
   */
  lemma TraceEchoes(cfg: Config, e: Entry)
    requires EntryOk(cfg, e) && e.Framed? && Image(e.f.work.image)
    requires TypeAt(e.f.work.image) == 100 && Carries(e.f.work, 11)
    ensures RecordOk(e.f.r)
    ensures Has(e.bytes, 11, FieldBytes(11, e.f.work))
            <==> IsSet(MapAt(e.f.work.image), 10) || MadeTrace(e.f.work.c) == FieldNumber(11, e.f.work)
  {
    hide Emit, ReplyFrame, TypeAt, MapAt, BodyAt, Has, InReply, Get, NumBytes, IsSet, StartRecord, Decoded, LookAt;
    hide CanonicalField, Holds;
    var w, r, bm := e.f.work, e.f.r, MapAt(e.f.work.image);
    FramedEntry(cfg, e);
    SaleTrace(cfg, e);
    DecodedHolds(11, 1, bm, StartRecord(TypeAt(w.image), w.c), w.c.env, BodyAt(w.image));
    TraceRead(bm, ReadOf(w).m, PlaceOf(11, w));
    SaleReply11(r);
    AnswerHas(11, r);
    SentTrace(r);
    SixDigits(r.trace, FieldNumber(11, w));
    if Has(e.bytes, 11, FieldBytes(11, w)) {
      SameField(e.bytes, 11, FieldBytes(11, w), NumBytes(r.trace, 6));
    }
  }

  lemma SentTrace(r: InternalMsg)
    requires |r.priv.netId| == 2
    ensures Written(11, SentRecord(r), NetOf(r.priv)) == NumBytes(r.trace, 6)
  {
    hide NumBytes, OutCode, ExternPcode;
  }

  lemma SaleReply11(r: InternalMsg)
    requires |r.priv.bitmap| == 8 && r.msgtype == 110
    ensures InReply(r, 11)
  {
    hide IsSet, IsPayBalance;
  }

  // ---- on every run -----------------------------------------------------------------------------

  /** Reply echo on every run. */
  lemma RunEchoes(cfg: Config, s0: State, es: seq<Event>, i: nat, g: nat)
    requires Initial(s0) && Run(cfg, s0, es) && i < |After(cfg, s0, es).driverq|
    ensures var e := After(cfg, s0, es).driverq[i];
            e.Framed? && Image(e.f.work.image) && Carries(e.f.work, g) && Repeated(TypeAt(e.f.work.image), g) ==>
              && RecordOk(e.f.r)
              && (g <= 40 || InReach(e.f.r, g) ==>
                    (Has(e.bytes, g, FieldBytes(g, e.f.work))
                     <==> (IsShort(g) ==> Unspoiled(g, ReadOf(e.f.work).m))))
  {
    hide Run, After, EntryOk, Inv, Initial, Places, Has, RecordOk, Carries, TypeAt, Repeated, ReadOf, Unspoiled;
    hide InReach;
    InitialInv(cfg, s0, 0);
    RunEntry(cfg, s0, es, i);
    var e := After(cfg, s0, es).driverq[i];
    if e.Framed? && Image(e.f.work.image) && Carries(e.f.work, g) && Repeated(TypeAt(e.f.work.image), g) {
      EntryEchoes(cfg, e, g);
    }
  }

  /**
   * On every run, the reader of a framed answer stands at every field, and at the end, where the encoder stood,
   * exactly when the request had no field 40 and field 48 of the answer, if it has one, is in layout C or D.
   */
  lemma RunKeepsStep(cfg: Config, s0: State, es: seq<Event>, i: nat)
    requires Initial(s0) && Run(cfg, s0, es) && i < |After(cfg, s0, es).driverq|
    ensures var e := After(cfg, s0, es).driverq[i];
            e.Framed? ==>
              && Image(e.f.work.image) && RecordOk(e.f.r) && |e.bytes| >= 36
              && e.bytes[28..36] == ReplyMap(e.f.r) && e.bytes[36..] == ReplyBody(e.f.r)
              && (KeepsStep(e.f.r)
                  <==> !IsSet(MapAt(e.f.work.image), 40) && (InReply(e.f.r, 48) ==> Filled(e.f.r)))
  {
    hide Run, After, EntryOk, Inv, Initial, Places, RecordOk, TypeAt, ReadOf, MapAt, IsSet, KeepsStep, InReply, Filled;
    hide ReplyMap, ReplyBody;
    InitialInv(cfg, s0, 0);
    RunEntry(cfg, s0, es, i);
    var e := After(cfg, s0, es).driverq[i];
    if e.Framed? { EntryKeepsStep(cfg, e); }
  }

  lemma EntryKeepsStep(cfg: Config, e: Entry)
    requires EntryOk(cfg, e) && e.Framed?
    ensures Image(e.f.work.image) && RecordOk(e.f.r) && |e.bytes| >= 36
    ensures e.bytes[28..36] == ReplyMap(e.f.r) && e.bytes[36..] == ReplyBody(e.f.r)
    ensures KeepsStep(e.f.r) <==> !IsSet(MapAt(e.f.work.image), 40) && (InReply(e.f.r, 48) ==> Filled(e.f.r))
  {
    hide EntryOk, RecordOk, TypeAt, ReadOf, MapAt, IsSet, KeepsStep, InReply, Filled, ReplyMap, ReplyBody, ReplyFrame;
    FramedEntry(cfg, e);
    EntryRead(cfg, e);
    RecordWidths(e.f.r);
    ReplyFound(e.f.r);
    AnswerInStep(e.f.r);
  }
}
