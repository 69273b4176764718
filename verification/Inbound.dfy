/** FromVisa (v_in.c): one message from the line, decoded, adjusted and routed. */
module Inbound {
  import opened Memory
  import opened Digits
  import opened Conversions
  import opened Bitmaps
  import opened Message
  import opened Shapes
  import opened Layout
  import opened Wire
  import opened Codec
  import opened Decoder
  import opened Frame

  /** What the process takes from outside and from its own past when it reads a message. */
  datatype Context = Context(
    env: Env,
    yday: nat,               // tm_yday
    localDate: int,
    localTime: int,
    counter: nat,            // the static trace counter
    net: seq<byte>)          // the first two bytes of v_NetworkIdBitmap

  predicate ContextOk(c: Context) { c.counter < 1000 && |c.net| == 2 && c.yday <= 365 }

  datatype InResult = Dropped | ToFileUpdate | ToPayBal(m: InternalMsg) | ToAuth(m: InternalMsg) | Beyond

  const SPF: Text := [0x53, 0x50, 0x46, 0x3D]

  /** isPayBalance */
  predicate IsPayBalance(m: InternalMsg)
  {
    (|m.acceptorname| >= 4 && m.acceptorname[..4] == SPF) || Atoi(m.avalBalance) > 0
  }

  predicate IsAuthRequest(msgtype: int) { msgtype in {100, 101, 120, 200, 201, 220} }

  /** The trace number a request without field 10 is given. */
  function MadeTrace(c: Context): int { c.yday + 1 + c.counter * 1000 }

  /** extern_cardcoauthreq: it looks at the bits below those of the trace number and the local time. */
  function AuthRequestIn(m: InternalMsg, bm: Bitmap, c: Context): InternalMsg
    requires |bm| == 8
  {
    var m1 := if IsSet(bm, 10) then m else m.(trace := MadeTrace(c));
    if IsSet(bm, 11) then m1 else m1.(localDate := c.localDate, localTime := c.localTime)
  }

  /** extern_cardcorevreq without a replacement amount: that is field 95. */
  function ReversalIn(m: InternalMsg): InternalMsg
  {
    var m1 := if m.msgtype in {400, 401} then m.(respcode := 6) else m;
    m1.(revcode := 91)
  }

  /** extern_to_cardco for requests; the message numbers of the network are those of the switch. */
  function ToCardco(m: InternalMsg, bm: Bitmap, c: Context): InternalMsg
    requires |bm| == 8
  {
    if IsAuthRequest(m.msgtype) then AuthRequestIn(m, bm, c)
    else if m.msgtype in {400, 401, 420, 102} then ReversalIn(m)
    else m
  }

  /** The message as FORMINQ delivers it into externbuf. */
  predicate Image(mem: seq<byte>) { |mem| == MESSAGE_LEN }

  function MapAt(mem: seq<byte>): (bm: Bitmap)
    requires Image(mem)
    ensures |bm| == 8
  {
    var v := Locate(mem, 4);
    mem[v.bitmap..v.bitmap + 8]
  }

  function BodyAt(mem: seq<byte>): seq<byte>
    requires Image(mem)
  {
    mem[Locate(mem, 4).msg..]
  }

  function TypeAt(mem: seq<byte>): int
    requires Image(mem)
  {
    Btoi(mem[Locate(mem, 4).msgno..], 4)
  }

  /** The record the decoder starts from. */
  function StartRecord(msgtype: int, c: Context): InternalMsg
  {
    BLANK.(msgtype := msgtype, priv := BLANK.priv.(netId := c.net))
  }

  /** What is kept of a message that was decoded. */
  function Kept(m: InternalMsg, mem: seq<byte>, c: Context): InternalMsg
    requires Image(mem)
  {
    Saved(ToCardco(m, MapAt(mem), c), mem[4..26], MapAt(mem), m.priv.netId)
  }

  lemma ToCardcoOnly(m: InternalMsg, bm: Bitmap, c: Context)
    requires |bm| == 8
    ensures var k := ToCardco(m, bm, c);
            k == m.(trace := k.trace, localTime := k.localTime, localDate := k.localDate, respcode := k.respcode,
                    revcode := k.revcode)
  {
    hide AuthRequestIn, ReversalIn, IsSet;
    AuthRequestOnly(m, bm, c);
    ReversalOnly(m);
  }

  lemma AuthRequestOnly(m: InternalMsg, bm: Bitmap, c: Context)
    requires |bm| == 8
    ensures var k := AuthRequestIn(m, bm, c);
            k == m.(trace := k.trace, localTime := k.localTime, localDate := k.localDate)
  {
    hide IsSet;
  }

  lemma ReversalOnly(m: InternalMsg)
    ensures var k := ReversalIn(m);
            k == m.(respcode := k.respcode, revcode := k.revcode)
  {}

  /** What FromVisa changes of a decoded record. */
  lemma KeptOnly(m: InternalMsg, mem: seq<byte>, c: Context)
    requires Image(mem)
    ensures var k := Kept(m, mem, c);
            && k == m.(trace := k.trace, localTime := k.localTime, localDate := k.localDate, respcode := k.respcode,
                       revcode := k.revcode, priv := k.priv)
            && k.priv.haveLargeBin == m.priv.haveLargeBin && k.priv.largeBin == m.priv.largeBin
  {
    hide ToCardco, MapAt;
    ToCardcoOnly(m, MapAt(mem), c);
  }

  /**
   * One turn of extern_inbound. Beyond: a reject, a message of another kind than the requests that are answered
   * from a template, or one the decoder leaves its data on.
   */
  function Receive(mem: seq<byte>, c: Context): InResult
    requires Image(mem)
  {
    var msgtype := TypeAt(mem);
    if msgtype == 302 || msgtype == 312 then ToFileUpdate
    else if (msgtype != 100 && msgtype != 120 && msgtype != 400) || Locate(mem, 4).isreject then Beyond
    else
      match Decoded(1, MapAt(mem), StartRecord(msgtype, c), c.env, BodyAt(mem))
      case Outside => Beyond
      case Rejected => Dropped
      case Done(m, _) =>
        var k := Kept(m, mem, c);
        if IsPayBalance(k) then ToPayBal(k) else ToAuth(k)
  }

  /** The counter and the network map after the message. */
  function ContextAfter(mem: seq<byte>, c: Context): Context
    requires Image(mem)
  {
    match Receive(mem, c)
    case ToPayBal(m) => AfterRequest(m, MapAt(mem), c)
    case ToAuth(m) => AfterRequest(m, MapAt(mem), c)
    case _ => c
  }

  function AfterRequest(m: InternalMsg, bm: Bitmap, c: Context): Context
    requires |bm| == 8
  {
    c.(counter := if IsAuthRequest(m.msgtype) && !IsSet(bm, 10) then (c.counter + 1) % 1000 else c.counter,
       net := m.priv.netId)
  }

  /** One turn of the loop, on externbuf; c1 has the trace counter and the network map it leaves behind. */
  method ReadMessage(buf: array<byte>, c: Context) returns (r: InResult, c1: Context)
    requires buf.Length == MESSAGE_LEN
    modifies buf
    ensures r == Receive(old(buf[..]), c) && c1 == ContextAfter(old(buf[..]), c)
  {
    hide Decoded, Btoi, IsPayBalance, ToCardco, Saved, AfterRequest;
    ghost var mem := buf[..];
    c1 := c;
    var v := GetHeader(buf, 4);
    assert mem[v.msgno..] == buf[v.msgno..];
    var msgtype := BtoiScan(buf, v.msgno, 4);
    if msgtype in {302, 312} { return ToFileUpdate, c; }
    if msgtype !in {100, 120, 400} || v.isreject { return Beyond, c; }
    var header, bm := buf[4..26], buf[v.bitmap..v.bitmap + 8];
    assert mem[v.msg..] == buf[v.msg..];
    var d := GetFields(StartRecord(msgtype, c), buf, v.bitmap, v.msg, c.env);
    match d {
      case Outside => r := Beyond;
      case Rejected => r := Dropped;
      case Done(m, n) =>
        var m1 := Saved(ToCardco(m, bm, c), header, bm, m.priv.netId);
        c1 := AfterRequest(m1, bm, c);
        r := if IsPayBalance(m1) then ToPayBal(m1) else ToAuth(m1);
    }
  }
}
