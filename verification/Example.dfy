/**
 * One run from the arrival of a sale to the answer on the line, for a sale with a PAN, a trace number, a country and a
 * card number and an issuer that is served.
 */
module Example {
  import opened Memory
  import opened Digits
  import opened Bitmaps
  import opened Message
  import opened Shapes
  import opened Layout
  import opened Wire
  import opened Codec
  import opened Reader
  import opened Frame
  import opened FrameLaws
  import opened Authorizer
  import opened Inbound
  import opened Outbound
  import opened Requests
  import opened Switch
  import opened Answers
  import opened Echo

  // ---- the request ------------------------------------------------------------------------------

  /** Fields 2, 11, 19 and 23. */
  const PLAIN_MAP: Bitmap := [0x40, 0x20, 0x22, 0, 0, 0, 0, 0]

  datatype Sale = Sale(pan: Text, trace: nat, country: nat, card: nat)

  predicate Proper(p: Sale)
  {
    && |p.pan| <= 19 && AllDigits(p.pan) && (p.pan == [] || p.pan[0] != 0x30)
    && p.trace < 1_000_000 && p.country < 1000 && p.card < 10_000
  }

  function PanField(p: Sale): seq<byte>
    requires Proper(p)
  {
    [|p.pan|] + Pack(p.pan)
  }

  /** What follows field 23: the rest of the buffer. */
  function Padding(p: Sale): seq<byte>
    requires Proper(p)
  {
    Zeros(980 - (|p.pan| + 1) / 2)
  }

  function FromCard(p: Sale): seq<byte>
    requires Proper(p)
  {
    NumBytes(p.card, 4) + Padding(p)
  }

  function FromCountry(p: Sale): seq<byte>
    requires Proper(p)
  {
    NumBytes(p.country, 4) + FromCard(p)
  }

  function FromTrace(p: Sale): seq<byte>
    requires Proper(p)
  {
    NumBytes(p.trace, 6) + FromCountry(p)
  }

  function Body(p: Sale): (b: seq<byte>)
    requires Proper(p)
    ensures |b| == 988
  {
    PanField(p) + FromTrace(p)
  }

  /** The 0100 as it lies in the buffer. */
  function Plain(p: Sale): (mem: seq<byte>)
    requires Proper(p)
    ensures |mem| == MESSAGE_LEN
  {
    FrameBytes([HEADER_LEN] + Zeros(21), 100, PLAIN_MAP, Body(p))
  }

  lemma PlainParts(p: Sale)
    requires Proper(p)
    ensures TypeAt(Plain(p)) == 100 && MapAt(Plain(p)) == PLAIN_MAP && !Locate(Plain(p), 4).isreject
    ensures BodyAt(Plain(p)) == Body(p)
  {
    hide FrameBytes, Btoi, NumBytes, Body;
    var hdr := [HEADER_LEN] + Zeros(21);
    FrameFound(hdr, 100, PLAIN_MAP, Body(p));
    TypeFound(hdr, 100, PLAIN_MAP, Body(p));
  }

  lemma BitsOf34(k: nat)
    ensures Bit(34, k) <==> k == 5 || k == 1
  {
    if k >= 2 {
      assert Bit(34, k) == Bit(17, k - 1) == Bit(8, k - 2);
      assert Shl1(3) == 8;
      Shl1Bits(3, k - 2);
    }
  }

  lemma PlainBits(f: nat)
    requires 1 <= f <= 64
    ensures IsSet(PLAIN_MAP, f) <==> f in {2, 11, 19, 23}
  {
    var k := PositionOf(f);
    ZeroBits(k);
    BitsOf34(k);
    Shl1Bits(5, k);
    Shl1Bits(6, k);
    assert Shl1(5) == 32 && Shl1(6) == 64 by { assert Shl1(3) == 8; }
  }

  // ---- what the decoder makes of it -------------------------------------------------------------

  lemma NumberCanonical(v: nat, len: nat, rest: seq<byte>)
    requires 0 < len <= 8 && len % 2 == 0 && v < Pow10(len)
    ensures var b := NumBytes(v, len) + rest;
            CanonicalBytes(Number(len), b) && Get(Number(len), b) == Got(Num(v), len / 2)
    ensures Ahead(NumBytes(v, len) + rest, len / 2) == rest
  {
    hide Unpack, Pack, ItoaText, Btoi, Pow10;
    NumberBack(v, len, rest);
    SmallNumber(v, len);
    UnpackPack(ItoaText(v, len), rest);
  }

  lemma TraceRead7(p: Sale)
    requires Proper(p)
    ensures CanonicalField(11, PLAIN_MAP, FromTrace(p)) && Get(ShapeOf(11), FromTrace(p)) == Got(Num(p.trace), 3)
    ensures Ahead(FromTrace(p), 3) == FromCountry(p)
  {
    hide NumBytes, Get, CanonicalBytes, IsSet;
    Pow10Small();
    NumberCanonical(p.trace, 6, FromCountry(p));
  }

  lemma CountryReadAt(p: Sale)
    requires Proper(p)
    ensures CanonicalField(19, PLAIN_MAP, FromCountry(p)) && Get(ShapeOf(19), FromCountry(p)) == Got(Num(p.country), 2)
    ensures Ahead(FromCountry(p), 2) == FromCard(p)
  {
    hide NumBytes, Get, CanonicalBytes, IsSet;
    Pow10Small();
    NumberCanonical(p.country, 4, FromCard(p));
  }

  lemma CardReadAt(p: Sale)
    requires Proper(p)
    ensures Get(ShapeOf(23), FromCard(p)) == Got(Num(p.card), 2)
  {
    hide NumBytes, Get, CanonicalBytes, IsSet;
    Pow10Small();
    NumberCanonical(p.card, 4, Padding(p));
  }

  lemma PanReadAt(p: Sale)
    requires Proper(p)
    ensures Get(ShapeOf(2), Body(p)) == Got(Txt(p.pan), 1 + (|p.pan| + 1) / 2)
    ensures Ahead(Body(p), 1 + (|p.pan| + 1) / 2) == FromTrace(p)
  {
    hide Pack, FromTrace;
    VarBcdBack(p.pan, 19, FromTrace(p));
    assert Body(p) == [|p.pan|] + Pack(p.pan) + FromTrace(p);
  }

  /** A carried field that is stored without more ado. */
  lemma StoresAt(f: nat, m: InternalMsg, env: Env, b: seq<byte>, c: FieldValue, n: nat)
    requires f in {2, 11, 19, 23} && Get(ShapeOf(f), b) == Got(c, n)
    ensures ReadField(f, m, PLAIN_MAP, env, b) == Done(Stored(f, c, m, PLAIN_MAP, env), n)
    ensures Steps(f, b) == n
  {
    hide Get, Stored, IsSet;
    ReadSteps(f, m, PLAIN_MAP, env, b);
  }

  /** Fields that are not there are passed over. */
  lemma {:induction false} PassedOver(f: nat, g: nat, bm: Bitmap, m: InternalMsg, env: Env, b: seq<byte>)
    requires 1 <= f <= g <= 65 && |bm| == 8 && forall h :: f <= h < g ==> !IsSet(bm, h)
    ensures Decoded(f, bm, m, env, b) == Decoded(g, bm, m, env, b)
    ensures LookAt(g, f, bm, b) == b
    decreases g - f
  {
    hide ReadField, IsSet, Steps;
    if f < g { PassedOver(f + 1, g, bm, m, env, b); }
  }

  function Next(f: nat): nat { if f == 2 then 11 else if f == 11 then 19 else if f == 19 then 23 else 65 }

  /** One field that is there, and those behind it that are not. */
  lemma TurnAt(f: nat, g: nat, m: InternalMsg, env: Env, b: seq<byte>, c: FieldValue, n: nat, t: Wire.Step)
    requires f in {2, 11, 19, 23} && g == Next(f)
    requires Get(ShapeOf(f), b) == Got(c, n) && n <= |b|
    requires t == Decoded(g, PLAIN_MAP, Noted(Stored(f, c, m, PLAIN_MAP, env), PLAIN_MAP), env, b[n..]) && t.Done?
    ensures Decoded(f, PLAIN_MAP, m, env, b) == Done(t.m, n + t.n)
    ensures LookAt(g, f, PLAIN_MAP, b) == b[n..]
  {
    hide Get, ReadField, IsSet, Stored, Steps, Noted;
    forall h | 1 <= h <= 64 ensures IsSet(PLAIN_MAP, h) <==> h in {2, 11, 19, 23} { PlainBits(h); }
    StoresAt(f, m, env, b, c, n);
    assert forall h :: f + 1 <= h < g ==> !IsSet(PLAIN_MAP, h);
    var m1 := Noted(Stored(f, c, m, PLAIN_MAP, env), PLAIN_MAP);
    PassedOver(f + 1, g, PLAIN_MAP, m1, env, b[n..]);
    DecodedTurn(f, PLAIN_MAP, m, env, b, Done(Stored(f, c, m, PLAIN_MAP, env), n), t);
  }

  /** The record after the four fields. */
  function Taken(p: Sale, m: InternalMsg, env: Env): InternalMsg
  {
    var m1 := Noted(Stored(2, Txt(p.pan), m, PLAIN_MAP, env), PLAIN_MAP);
    var m2 := Noted(Stored(11, Num(p.trace), m1, PLAIN_MAP, env), PLAIN_MAP);
    var m3 := Noted(Stored(19, Num(p.country), m2, PLAIN_MAP, env), PLAIN_MAP);
    Noted(Stored(23, Num(p.card), m3, PLAIN_MAP, env), PLAIN_MAP)
  }

  lemma FromCardTaken(p: Sale, m: InternalMsg, env: Env)
    requires Proper(p)
    ensures var d := Decoded(23, PLAIN_MAP, m, env, FromCard(p));
            d.Done? && d.m == Noted(Stored(23, Num(p.card), m, PLAIN_MAP, env), PLAIN_MAP)
  {
    hide Get, ReadField, IsSet, Stored, Noted, NumBytes;
    CardReadAt(p);
    PlainBits(1);
    TurnAt(23, 65, m, env, FromCard(p), Num(p.card), 2,
           Done(Noted(Stored(23, Num(p.card), m, PLAIN_MAP, env), PLAIN_MAP), 0));
  }

  lemma FromCountryTaken(p: Sale, m: InternalMsg, env: Env)
    requires Proper(p)
    ensures var d := Decoded(19, PLAIN_MAP, m, env, FromCountry(p));
            var m3 := Noted(Stored(19, Num(p.country), m, PLAIN_MAP, env), PLAIN_MAP);
            d.Done? && d.m == Noted(Stored(23, Num(p.card), m3, PLAIN_MAP, env), PLAIN_MAP)
  {
    hide Get, ReadField, IsSet, Stored, Noted, NumBytes, Decoded, LookAt;
    CountryReadAt(p);
    var m3 := Noted(Stored(19, Num(p.country), m, PLAIN_MAP, env), PLAIN_MAP);
    FromCardTaken(p, m3, env);
    TurnAt(19, 23, m, env, FromCountry(p), Num(p.country), 2, Decoded(23, PLAIN_MAP, m3, env, FromCard(p)));
  }

  lemma FromTraceTaken(p: Sale, m: InternalMsg, env: Env)
    requires Proper(p)
    ensures var d := Decoded(11, PLAIN_MAP, m, env, FromTrace(p));
            var m2 := Noted(Stored(11, Num(p.trace), m, PLAIN_MAP, env), PLAIN_MAP);
            var m3 := Noted(Stored(19, Num(p.country), m2, PLAIN_MAP, env), PLAIN_MAP);
            d.Done? && d.m == Noted(Stored(23, Num(p.card), m3, PLAIN_MAP, env), PLAIN_MAP)
    ensures LookAt(19, 11, PLAIN_MAP, FromTrace(p)) == FromCountry(p)
  {
    hide Get, ReadField, IsSet, Stored, Noted, NumBytes, Decoded, LookAt;
    TraceRead7(p);
    var m2 := Noted(Stored(11, Num(p.trace), m, PLAIN_MAP, env), PLAIN_MAP);
    FromCountryTaken(p, m2, env);
    TurnAt(11, 19, m, env, FromTrace(p), Num(p.trace), 3, Decoded(19, PLAIN_MAP, m2, env, FromCountry(p)));
  }

  /** The decoder accepts the sale, and comes to fields 11 and 19 where they are. */
  lemma BodyTaken(p: Sale, m: InternalMsg, env: Env)
    requires Proper(p)
    ensures var d := Decoded(1, PLAIN_MAP, m, env, Body(p));
            d.Done? && d.m == Taken(p, m, env)
    ensures LookAt(11, 1, PLAIN_MAP, Body(p)) == FromTrace(p)
    ensures LookAt(19, 1, PLAIN_MAP, Body(p)) == FromCountry(p)
  {
    hide Get, ReadField, IsSet, Stored, Noted, NumBytes, Decoded, LookAt, Body, FromTrace;
    PanReadAt(p);
    var b, n := Body(p), 1 + (|p.pan| + 1) / 2;
    var m1 := Noted(Stored(2, Txt(p.pan), m, PLAIN_MAP, env), PLAIN_MAP);
    FromTraceTaken(p, m1, env);
    TurnAt(2, 11, m, env, b, Txt(p.pan), n, Decoded(11, PLAIN_MAP, m1, env, FromTrace(p)));
    forall h | 1 <= h <= 64 ensures IsSet(PLAIN_MAP, h) <==> h in {2, 11, 19, 23} { PlainBits(h); }
    PassedOver(1, 2, PLAIN_MAP, m, env, b);
    LooksOn(11, 2, 1, PLAIN_MAP, b);
    LooksOn(19, 11, 1, PLAIN_MAP, b);
  }

  lemma TakenMembers(p: Sale, m: InternalMsg, env: Env)
    ensures var t := Taken(p, m, env);
            && t.pan == p.pan && t.trace == p.trace && t.acqCountry == p.country && t.cardSeqno == p.card
            && t.msgtype == m.msgtype && t.acceptorname == m.acceptorname && t.avalBalance == m.avalBalance
            && t.cashBack == m.cashBack && t.settlementAmount == m.settlementAmount
  {
    hide Padded, IsSet, TransactionType, WithYear, CutAtBlank;
  }

  /** So the request carries fields 11 and 19, and its record has its four values. */
  lemma PlainRead(w: Work, p: Sale)
    requires Proper(p) && w.image == Plain(p)
    ensures Image(w.image) && ReadOf(w).Done? && TypeAt(w.image) == 100 && !IsSet(MapAt(w.image), 10)
    ensures Carries(w, 11) && FieldNumber(11, w) == p.trace
    ensures Carries(w, 19) && FieldNumber(19, w) == p.country
    ensures ReadOf(w).m == Taken(p, StartRecord(100, w.c), w.c.env)
  {
    hide Plain, CanonicalField, Get, Decoded, StartRecord, IsSet, LookAt, Body, FromTrace, FromCountry, Taken;
    PlainParts(p);
    BodyTaken(p, StartRecord(100, w.c), w.c.env);
    TraceRead7(p);
    CountryReadAt(p);
    PlainBits(10);
    PlainBits(11);
    PlainBits(19);
  }

  // ---- its way through the switch ---------------------------------------------------------------

  /** It is queued for Auth, with its PAN. */
  lemma PlainQueued(p: Sale, c: Context)
    requires Proper(p) && ContextOk(c)
    ensures var r := Receive(Plain(p), c);
            r.ToAuth? && Fitting(r.m) && r.m.pan == p.pan && r.m.msgtype == 100
  {
    hide Plain, Decoded, IsSet, Locate, Kept, Taken, MapAt, BodyAt, TypeAt, Body, IsPayBalance, Fitting;
    PlainParts(p);
    var m0 := StartRecord(100, c);
    BodyTaken(p, m0, c.env);
    TakenMembers(p, m0, c.env);
    KeptPlain(Taken(p, m0, c.env), Plain(p), c);
  }

  lemma KeptPlain(m: InternalMsg, mem: seq<byte>, c: Context)
    requires Image(mem) && m.acceptorname == m.avalBalance == m.cashBack == m.settlementAmount == []
    ensures var k := Kept(m, mem, c);
            !IsPayBalance(k) && Fitting(k) && k.pan == m.pan && k.msgtype == m.msgtype
  {
    hide Kept;
    KeptOnly(m, mem, c);
    assert Value([]) == 0;
  }

  /** Its issuer has a connection. */
  predicate HasIssuer(cfg: Config, p: Sale)
  {
    exists i :: 0 <= i < |cfg.bins| && First6(cfg.bins[i]) == First6(First6(p.pan))
  }

  lemma IssuerRoute(cfg: Config, p: Sale, k: InternalMsg)
    requires HasIssuer(cfg, p) && k.msgtype == 100 && k.pan == p.pan
    ensures AuthRoute(cfg.bins, k) != -1
  {}

  /** It arrives, is read, is answered without the database, and the answer goes out. */
  function Events(p: Sale, id: nat, env: Env, yday: nat): seq<Event>
    requires Proper(p)
  {
    [Arrive(Request(id, Plain(p))), FromVisa(env, yday, 0, 0), Event.Auth(NoAnswer), ToVisa]
  }

  lemma RunStep(cfg: Config, s: State, e: Event, es: seq<Event>)
    requires Enabled(cfg, s, e) && Run(cfg, Switch.Step(cfg, s, e), es)
    ensures Run(cfg, s, [e] + es) && After(cfg, s, [e] + es) == After(cfg, Switch.Step(cfg, s, e), es)
  {
    hide Enabled, Switch.Step;
    assert ([e] + es)[1..] == es;
  }

  lemma ReadStep(cfg: Config, s: State, p: Sale, id: nat, env: Env, yday: nat)
    requires Proper(p) && s.forminq == [Request(id, Plain(p))] && s.authq == [] && s.counter == 0 && |s.net| == 2
    requires yday <= 365
    ensures Enabled(cfg, s, FromVisa(env, yday, 0, 0))
    ensures var s1, c := Switch.Step(cfg, s, FromVisa(env, yday, 0, 0)), Context(env, yday, 0, 0, 0, s.net);
            && Receive(Plain(p), c).ToAuth?
            && s1.authq == [Work(id, Plain(p), c, Receive(Plain(p), c).m)]
            && s1.formoutq == s.formoutq && s1.driverq == s.driverq
  {
    hide Plain, Receive, ContextAfter, Fitting;
    PlainQueued(p, Context(env, yday, 0, 0, 0, s.net));
  }

  lemma AuthStepTo(cfg: Config, s: State, w: Work)
    requires s.authq == [w] && s.formoutq == [] && AuthRoute(cfg.bins, w.k) != -1
    ensures Enabled(cfg, s, Event.Auth(NoAnswer))
    ensures var s1 := Switch.Step(cfg, s, Event.Auth(NoAnswer));
            s1.formoutq == [Finished(w, ByAuth(NoAnswer), AuthReply(w.k, NoAnswer))] && s1.driverq == s.driverq
  {
    hide AuthReply, AuthRoute;
  }

  lemma OutStepTo(cfg: Config, s: State, f: Finished)
    requires Inv(cfg, s) && s.formoutq == [f] && s.driverq == [] && Image(f.work.image) && TypeAt(f.work.image) == 100
    ensures Enabled(cfg, s, ToVisa)
    ensures var s1 := Switch.Step(cfg, s, ToVisa);
            |s1.driverq| == 1 && s1.driverq[0].Framed? && s1.driverq[0].f == f
  {
    hide FinishedOk, WorkOk, Emit, ReplyFrame, RequestOk, RecordOk, TypeAt, EntryOk;
    OutAlwaysEnabled(cfg, s);
    FinishedRecord(cfg, f);
    AnswerEmitted(f.r, f.work.k, TypeAt(f.work.image));
  }

  /** The run, and the entry it leaves on the line. */
  lemma PlainRun(cfg: Config, s0: State, p: Sale, id: nat, env: Env, yday: nat) returns (e: Entry)
    requires Initial(s0) && Proper(p) && HasIssuer(cfg, p) && yday <= 365
    ensures Run(cfg, s0, Events(p, id, env, yday))
    ensures var s := After(cfg, s0, Events(p, id, env, yday));
            s.driverq == [e] && Inv(cfg, s)
    ensures e.Framed? && e.f.work.image == Plain(p) && e.f.work.c == Context(env, yday, 0, 0, 0, [0, 0])
  {
    hide Plain, Receive, Inv, Enabled, Switch.Step, TypeAt, AuthReply, AuthRoute, HasIssuer;
    var q := Request(id, Plain(p));
    var e1, e2, e3, e4 := Arrive(q), FromVisa(env, yday, 0, 0), Event.Auth(NoAnswer), ToVisa;
    InitialInv(cfg, s0, id);
    ArriveStep(cfg, s0, q);
    var s1 := Switch.Step(cfg, s0, e1);
    StepKeeps(cfg, s0, e1);
    ReadStep(cfg, s1, p, id, env, yday);
    var c := Context(env, yday, 0, 0, 0, [0, 0]);
    var w := Work(id, Plain(p), c, Receive(Plain(p), c).m);
    PlainQueued(p, c);
    IssuerRoute(cfg, p, w.k);
    var s2 := Switch.Step(cfg, s1, e2);
    StepKeeps(cfg, s1, e2);
    AuthStepTo(cfg, s2, w);
    var s3 := Switch.Step(cfg, s2, e3);
    StepKeeps(cfg, s2, e3);
    PlainParts(p);
    OutStepTo(cfg, s3, Finished(w, ByAuth(NoAnswer), AuthReply(w.k, NoAnswer)));
    var s4 := Switch.Step(cfg, s3, e4);
    StepKeeps(cfg, s3, e4);
    e := s4.driverq[0];
    RunStep(cfg, s3, e4, []);
    RunStep(cfg, s2, e3, [e4]);
    RunStep(cfg, s1, e2, [e3] + [e4]);
    RunStep(cfg, s0, e1, [e2] + ([e3] + [e4]));
    assert [e4] + [] == [e4];
    assert [e1] + ([e2] + ([e3] + [e4])) == Events(p, id, env, yday);
  }

  lemma ArriveStep(cfg: Config, s0: State, q: Request)
    requires Initial(s0) && Image(q.image)
    ensures Enabled(cfg, s0, Arrive(q))
    ensures var s := Switch.Step(cfg, s0, Arrive(q));
            && s.forminq == [q] && s.authq == [] && s.formoutq == [] && s.driverq == []
            && s.counter == 0 && s.net == [0, 0]
  {}

  /**
   * What that answer repeats: the trace number exactly when it is the day of the year, the country exactly when the
   * card number is zero.
   */
  lemma PlainAnswer(cfg: Config, e: Entry, p: Sale)
    requires Proper(p) && EntryOk(cfg, e) && e.Framed? && e.f.work.image == Plain(p) && e.f.work.c.counter == 0
    ensures Carried(11) && Carried(19)
    ensures Has(e.bytes, 11, FieldBytes(11, e.f.work)) <==> e.f.work.c.yday + 1 == p.trace
    ensures Has(e.bytes, 19, FieldBytes(19, e.f.work)) <==> p.card == 0
  {
    hide Plain, EntryOk, Has, Carries, FieldBytes, FieldNumber, ReadOf, TypeAt, IsSet, MapAt, Taken, RecordOk;
    PlainRead(e.f.work, p);
    TraceEchoes(cfg, e);
    CountryEchoes(cfg, e);
    CardNumber(e.f.work);
    TakenMembers(p, StartRecord(100, e.f.work.c), e.f.work.c.env);
    PlainParts(p);
    PlainBits(23);
  }

  // ---- with numbers -----------------------------------------------------------------------------

  /** A sale of PAN 4111 11, with trace number 7, country 76 and card number 1. */
  const CASE: Sale := Sale([0x34, 0x31, 0x31, 0x31, 0x31, 0x31], 7, 76, 1)

  /** Read on the first day of the year, it is answered with neither its trace number nor its country. */
  lemma CaseRun(s0: State, env: Env) returns (cfg: Config, e: Entry)
    requires Initial(s0)
    ensures Proper(CASE) && Run(cfg, s0, Events(CASE, 0, env, 0))
    ensures After(cfg, s0, Events(CASE, 0, env, 0)).driverq == [e]
    ensures e.Framed? && Image(e.f.work.image) && Carried(11) && Carried(19)
    ensures !Has(e.bytes, 11, FieldBytes(11, e.f.work)) && !Has(e.bytes, 19, FieldBytes(19, e.f.work))
  {
    hide Run, After, Plain, Has, FieldBytes, Inv, Events, EntryOk;
    cfg := Config([CASE.pan], []);
    assert First6(cfg.bins[0]) == First6(First6(CASE.pan));
    e := PlainRun(cfg, s0, CASE, 0, env, 0);
    InvEntry(cfg, After(cfg, s0, Events(CASE, 0, env, 0)), 0);
    PlainAnswer(cfg, e, CASE);
  }
}
