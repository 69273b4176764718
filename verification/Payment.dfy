/**
 * A run through PayBal: a payment, announced by an acceptor name that begins with SPF=, whose issuer is served and
 * whose database says yes, comes back approved and with field 48.
 */
module Payment {
  import opened Memory
  import opened Digits
  import opened Bitmaps
  import opened Message
  import opened Shapes
  import opened Layout
  import opened Wire
  import opened Codec
  import opened Reader
  import opened Fields
  import opened Frame
  import opened FrameLaws
  import opened Authorizer
  import opened PayBal
  import opened Inbound
  import opened Outbound
  import opened Requests
  import opened Switch
  import opened Answers
  import opened Echo
  import opened Routing
  import Example

  // ---- the request ------------------------------------------------------------------------------

  /** Fields 2 and 43. */
  const BILL_MAP: Bitmap := [0x40, 0, 0, 0, 0, 0x20, 0, 0]

  /** A PAN, and the 36 bytes that follow SPF= in field 43. */
  datatype Bill = Bill(pan: Text, name: seq<byte>)

  predicate Proper(p: Bill)
  {
    && |p.pan| <= 19 && AllDigits(p.pan) && |p.name| == 36
    && forall i :: 0 <= i < 36 ==> p.name[i] != 0x10 && p.name[i] != 0x32
  }

  function FromName(p: Bill): seq<byte>
    requires Proper(p)
  {
    [0xE2, 0xD7, 0xC6, 0x7E] + p.name + Zeros(947 - (|p.pan| + 1) / 2)
  }

  function Body(p: Bill): (b: seq<byte>)
    requires Proper(p)
    ensures |b| == 988
  {
    [|p.pan|] + Pack(p.pan) + FromName(p)
  }

  function AsSent(p: Bill): (mem: seq<byte>)
    requires Proper(p)
    ensures |mem| == MESSAGE_LEN
  {
    FrameBytes([HEADER_LEN] + Zeros(21), 100, BILL_MAP, Body(p))
  }

  lemma MessageParts(p: Bill)
    requires Proper(p)
    ensures TypeAt(AsSent(p)) == 100 && MapAt(AsSent(p)) == BILL_MAP && !Locate(AsSent(p), 4).isreject
    ensures BodyAt(AsSent(p)) == Body(p)
  {
    hide FrameBytes, Btoi, NumBytes, Body;
    var hdr := [HEADER_LEN] + Zeros(21);
    FrameFound(hdr, 100, BILL_MAP, Body(p));
    TypeFound(hdr, 100, BILL_MAP, Body(p));
  }

  lemma BillBits(f: nat)
    requires 1 <= f <= 64
    ensures IsSet(BILL_MAP, f) <==> f in {2, 43}
  {
    var k := PositionOf(f);
    ZeroBits(k);
    Shl1Bits(5, k);
    Shl1Bits(6, k);
    assert Shl1(5) == 32 && Shl1(6) == 64 by { assert Shl1(3) == 8; }
  }

  // ---- what is made of it -----------------------------------------------------------------------

  lemma PanRead(p: Bill, m: InternalMsg, env: Env)
    requires Proper(p)
    ensures ReadField(2, m, BILL_MAP, env, Body(p)) == Done(m.(pan := p.pan), 1 + (|p.pan| + 1) / 2)
    ensures Body(p)[1 + (|p.pan| + 1) / 2..] == FromName(p)
    ensures Steps(2, Body(p)) == 1 + (|p.pan| + 1) / 2
  {
    hide Pack, FromName, ReadField, Unpack;
    var b := Body(p);
    assert b[1..] == Pack(p.pan) + FromName(p);
    UnpackPack(p.pan, FromName(p));
    PackedIn(2, m, BILL_MAP, env, b, 19);
    ReadSteps(2, m, BILL_MAP, env, b);
  }

  lemma NameRead(p: Bill, m: InternalMsg, env: Env)
    requires Proper(p)
    ensures |FromName(p)| >= 40 && TextThere(FromName(p), 0, 40)
    ensures [0xE2, 0xD7, 0xC6, 0x7E] <= FromName(p)
    ensures ReadField(43, m, BILL_MAP, env, FromName(p))
            == Done(m.(acceptorname := TextOf(FromName(p), 0, 40)), 40)
  {
    hide ReadField, TextOf;
    var b := FromName(p);
    forall i | 0 <= i < 40 ensures b[i] != 0x10 && b[i] != 0x32 { if i >= 4 { assert b[i] == p.name[i - 4]; } }
    TextIn(43, m, BILL_MAP, env, b, 40);
  }

  /** The record after the two fields. */
  function Taken(p: Bill, m: InternalMsg): InternalMsg
    requires Proper(p) && |FromName(p)| >= 40
  {
    var m1 := Noted(m.(pan := p.pan), BILL_MAP);
    Noted(m1.(acceptorname := TextOf(FromName(p), 0, 40)), BILL_MAP)
  }

  lemma NameTaken(p: Bill, m: InternalMsg, env: Env)
    requires Proper(p)
    ensures |FromName(p)| >= 40
    ensures Decoded(43, BILL_MAP, m, env, FromName(p))
            == Done(Noted(m.(acceptorname := TextOf(FromName(p), 0, 40)), BILL_MAP), 40)
  {
    hide ReadField, TextOf, IsSet, FromName, Noted;
    NameRead(p, m, env);
    forall h | 1 <= h <= 64 ensures IsSet(BILL_MAP, h) <==> h in {2, 43} { BillBits(h); }
    var m1 := Noted(m.(acceptorname := TextOf(FromName(p), 0, 40)), BILL_MAP);
    Example.PassedOver(44, 65, BILL_MAP, m1, env, FromName(p)[40..]);
    DecodedTurn(43, BILL_MAP, m, env, FromName(p), Done(m.(acceptorname := TextOf(FromName(p), 0, 40)), 40),
                Done(m1, 0));
  }

  lemma BodyTaken(p: Bill, m: InternalMsg, env: Env)
    requires Proper(p)
    ensures |FromName(p)| >= 40
    ensures var d := Decoded(1, BILL_MAP, m, env, Body(p)); d.Done? && d.m == Taken(p, m)
    ensures LookAt(43, 1, BILL_MAP, Body(p)) == FromName(p)
  {
    hide ReadField, TextOf, IsSet, FromName, Noted, Body, Steps;
    PanRead(p, m, env);
    forall h | 1 <= h <= 64 ensures IsSet(BILL_MAP, h) <==> h in {2, 43} { BillBits(h); }
    var n, m1 := 1 + (|p.pan| + 1) / 2, Noted(m.(pan := p.pan), BILL_MAP);
    NameTaken(p, m1, env);
    Example.PassedOver(1, 2, BILL_MAP, m, env, Body(p));
    Example.PassedOver(3, 43, BILL_MAP, m1, env, FromName(p));
    var t := Decoded(43, BILL_MAP, m1, env, FromName(p));
    DecodedTurn(2, BILL_MAP, m, env, Body(p), Done(m.(pan := p.pan), n), t);
    LooksOn(43, 2, 1, BILL_MAP, Body(p));
  }

  /** It is queued for PayBal, with its PAN. */
  lemma BillQueued(p: Bill, c: Context)
    requires Proper(p) && ContextOk(c)
    ensures var r := Receive(AsSent(p), c);
            && r.ToPayBal? && Fitting(r.m) && r.m.pan == p.pan && r.m.msgtype == 100
            && [0x53, 0x50, 0x46, 0x3D] <= r.m.acceptorname
  {
    hide AsSent, Decoded, IsSet, Locate, Kept, MapAt, BodyAt, TypeAt, Body, IsPayBalance, LookAt, Taken, Balance;
    hide FromName;
    MessageParts(p);
    var m0 := StartRecord(100, c);
    BodyTaken(p, m0, c.env);
    var m := Taken(p, m0);
    BillBits(43);
    NameRead(p, m0, c.env);
    QueuedKinds(AsSent(p), c);
    Routed(AsSent(p), c);
    KeptOnly(m, AsSent(p), c);
    TakenMembers(p, m0);
  }

  lemma TakenMembers(p: Bill, m: InternalMsg)
    requires Proper(p) && |FromName(p)| >= 40
    ensures var t := Taken(p, m);
            && t.pan == p.pan && t.msgtype == m.msgtype && t.avalBalance == m.avalBalance && t.cashBack == m.cashBack
            && t.settlementAmount == m.settlementAmount && [0x53, 0x50, 0x46, 0x3D] <= t.acceptorname
  {
    hide TextOf, Padded, FromName, ReadField;
    NameRead(p, m, Env(0, 0));
    SpfText(FromName(p));
  }

  // ---- its way through the switch ---------------------------------------------------------------

  /** Its issuer is listed ahead of the last entry. */
  predicate HasIssuer(cfg: Config, p: Bill)
  {
    exists k :: 0 <= k < |cfg.payBins| - 1 && First6(cfg.payBins[k]) == First6(First6(p.pan))
  }

  function Events(p: Bill, id: nat, env: Env, yday: nat, answer: DbAnswer): seq<Event>
    requires Proper(p)
  {
    [Arrive(Request(id, AsSent(p))), FromVisa(env, yday, 0, 0), Pay(answer), ToVisa]
  }

  lemma ReadStep(cfg: Config, s: State, p: Bill, id: nat, env: Env, yday: nat)
    requires Proper(p) && s.forminq == [Request(id, AsSent(p))] && s.paybalq == [] && s.counter == 0 && |s.net| == 2
    requires yday <= 365
    ensures Enabled(cfg, s, FromVisa(env, yday, 0, 0))
    ensures var s1, c := Switch.Step(cfg, s, FromVisa(env, yday, 0, 0)), Context(env, yday, 0, 0, 0, s.net);
            && Receive(AsSent(p), c).ToPayBal?
            && s1.paybalq == [Work(id, AsSent(p), c, Receive(AsSent(p), c).m)]
            && s1.formoutq == s.formoutq && s1.driverq == s.driverq
  {
    hide AsSent, Receive, ContextAfter, Fitting;
    BillQueued(p, Context(env, yday, 0, 0, 0, s.net));
  }

  lemma PayStepTo(cfg: Config, s: State, w: Work, answer: DbAnswer)
    requires s.paybalq == [w] && s.formoutq == [] && Usable(answer)
    ensures Enabled(cfg, s, Pay(answer))
    ensures var s1 := Switch.Step(cfg, s, Pay(answer));
            && s1.formoutq == [Finished(w, ByPayBal(answer), PayReply(w.k, cfg.payBins, answer))]
            && s1.driverq == s.driverq
  {
    hide PayReply;
  }

  lemma Arrives(cfg: Config, s0: State, q: Request)
    requires Initial(s0) && Image(q.image)
    ensures Enabled(cfg, s0, Arrive(q))
    ensures var s := Switch.Step(cfg, s0, Arrive(q));
            && s.forminq == [q] && s.paybalq == [] && s.formoutq == [] && s.driverq == []
            && s.counter == 0 && s.net == [0, 0]
  {}

  /** The run, and the entry it leaves on the line. */
  lemma BillRun(cfg: Config, s0: State, p: Bill, id: nat, env: Env, yday: nat, answer: DbAnswer) returns (e: Entry)
    requires Initial(s0) && Proper(p) && yday <= 365 && Usable(answer)
    ensures Run(cfg, s0, Events(p, id, env, yday, answer))
    ensures var s := After(cfg, s0, Events(p, id, env, yday, answer));
            s.driverq == [e] && Inv(cfg, s)
    ensures AnswerTo(e, p, answer)
  {
    hide AsSent, Receive, Inv, Enabled, Switch.Step, TypeAt, PayReply, IsPayBalance;
    var q := Request(id, AsSent(p));
    var e1, e2, e3, e4 := Arrive(q), FromVisa(env, yday, 0, 0), Pay(answer), ToVisa;
    InitialInv(cfg, s0, id);
    Arrives(cfg, s0, q);
    var s1 := Switch.Step(cfg, s0, e1);
    StepKeeps(cfg, s0, e1);
    ReadStep(cfg, s1, p, id, env, yday);
    var c := Context(env, yday, 0, 0, 0, [0, 0]);
    var w := Work(id, AsSent(p), c, Receive(AsSent(p), c).m);
    BillQueued(p, c);
    var s2 := Switch.Step(cfg, s1, e2);
    StepKeeps(cfg, s1, e2);
    PayStepTo(cfg, s2, w, answer);
    var s3 := Switch.Step(cfg, s2, e3);
    StepKeeps(cfg, s2, e3);
    MessageParts(p);
    Example.OutStepTo(cfg, s3, Finished(w, ByPayBal(answer), PayReply(w.k, cfg.payBins, answer)));
    var s4 := Switch.Step(cfg, s3, e4);
    StepKeeps(cfg, s3, e4);
    e := s4.driverq[0];
    Example.RunStep(cfg, s3, e4, []);
    Example.RunStep(cfg, s2, e3, [e4]);
    Example.RunStep(cfg, s1, e2, [e3] + [e4]);
    Example.RunStep(cfg, s0, e1, [e2] + ([e3] + [e4]));
    assert [e4] + [] == [e4];
    assert [e1] + ([e2] + ([e3] + [e4])) == Events(p, id, env, yday, answer);
  }

  /** The code of the answer: of a served issuer what the database said, and 96 of any other. */
  function BillCode(cfg: Config, p: Bill, answer: DbAnswer): int
    requires Usable(answer)
  {
    if HasIssuer(cfg, p) && answer.Answer? then Atoi(answer.resp[115..117]) else 96
  }

  /** A frame shows a code, and has field 48 when that is zero. */
  predicate Shows(bytes: seq<byte>, code: int)
  {
    |bytes| >= 36 && Has(bytes, 39, Shown(code)) && (IsSet(bytes[28..36], 48) <==> code == 0)
  }

  /** The entry answers the payment. */
  predicate AnswerTo(e: Entry, p: Bill, answer: DbAnswer)
    requires Proper(p)
  {
    && e.Framed? && e.f.via == ByPayBal(answer) && e.f.work.image == AsSent(p) && e.f.work.k.pan == p.pan
    && e.f.work.k.msgtype == 100 && [0x53, 0x50, 0x46, 0x3D] <= e.f.work.k.acceptorname
  }

  /** The answer says what the database said of a served issuer; approved, and only then, it has field 48. */
  lemma BillAnswer(cfg: Config, e: Entry, p: Bill, answer: DbAnswer)
    requires EntryOk(cfg, e) && Proper(p) && Usable(answer) && AnswerTo(e, p, answer)
    ensures Shows(e.bytes, BillCode(cfg, p, answer))
  {
    hide EntryOk, Has, Shown, Replied, WorkOk, AsSent, TypeAt, IsPayBalance, RecordOk, ReplyFrame, IsSet, Atoi, Emit;
    hide PayReply, RequestOk;
    MessageParts(p);
    assert FinishedOk(cfg, e.f) by { EntryFinished(cfg, e); }
    SaleAnswer(cfg, e);
    CodeAnswered(cfg, e.f);
    FramedEntry(cfg, e);
    ReplyFound(e.f.r);
    AnswerFields(e.f.r, 48);
    assert IsServed(e.f.work.k, cfg.payBins) <==> HasIssuer(cfg, p);
    StillPays(cfg, e.f, answer);
  }

  lemma EntryFinished(cfg: Config, e: Entry)
    requires EntryOk(cfg, e)
    ensures FinishedOk(cfg, e.f)
  {}

  /** An approved payment is still one: its acceptor name is what it was. */
  lemma StillPays(cfg: Config, f: Finished, answer: DbAnswer)
    requires Replied(cfg, f) && f.via == ByPayBal(answer)
    ensures [0x53, 0x50, 0x46, 0x3D] <= f.work.k.acceptorname ==> IsPayBalance(f.r)
  {
    hide WorkOk, PayReply, IsPayBalance;
    PayKeeps(f.work.k, cfg.payBins, answer);
    PayBalanceIs(f.r);
  }

  /** From the empty switch to the answer on the line. */
  lemma BillEnds(cfg: Config, s0: State, p: Bill, id: nat, env: Env, yday: nat, answer: DbAnswer) returns (e: Entry)
    requires Initial(s0) && Proper(p) && yday <= 365 && Usable(answer)
    ensures Run(cfg, s0, Events(p, id, env, yday, answer))
    ensures After(cfg, s0, Events(p, id, env, yday, answer)).driverq == [e] && AnswerTo(e, p, answer)
    ensures Shows(e.bytes, BillCode(cfg, p, answer))
  {
    hide Run, After, Inv, Events, EntryOk, AnswerTo, Shows, BillCode;
    e := BillRun(cfg, s0, p, id, env, yday, answer);
    InvEntry(cfg, After(cfg, s0, Events(p, id, env, yday, answer)), 0);
    BillAnswer(cfg, e, p, answer);
  }
}
