/** The bodies of the four endless loops, each for one turn, on the queues they share. */
module Processes {
  import opened Memory
  import opened Digits
  import opened Templates
  import opened Message
  import opened Layout
  import opened Frame
  import opened Authorizer
  import opened PayBal
  import opened Inbound
  import opened Outbound
  import opened Requests
  import opened Switch

  class Station {
    var forminq: seq<Request>
    var authq: seq<Work>
    var paybalq: seq<Work>
    var formoutq: seq<Finished>
    var driverq: seq<Entry>
    var fupdq: seq<nat>
    var dropped: seq<nat>
    var suppressed: seq<nat>
    var counter: nat
    var net: seq<byte>
    const cfg: Config
    const maps: MapStore
    const inbuf: array<byte>
    const outbuf: array<byte>
    const authArea: array<byte>
    const payArea: array<byte>

    function View(): State
      reads this
    {
      State(forminq, authq, paybalq, formoutq, driverq, fupdq, dropped, suppressed, counter, net)
    }

    ghost predicate Valid()
      reads maps.stores
    {
      && StoreOk(maps)
      && inbuf.Length == outbuf.Length == MESSAGE_LEN
      && authArea.Length == RECORD_LEN && payArea.Length == PAY_RECORD_LEN
      && {inbuf, outbuf, authArea, payArea, maps.buffer} !! (set a | a in maps.stores)
      && inbuf != outbuf && inbuf != maps.buffer && outbuf != maps.buffer
    }

    constructor (cfg: Config)
      ensures Valid() && Initial(View()) && this.cfg == cfg && fresh(maps.stores) && fresh(maps.buffer)
      ensures fresh(inbuf) && fresh(outbuf) && fresh(authArea) && fresh(payArea)
    {
      forminq, authq, paybalq, formoutq, driverq, fupdq, dropped, suppressed := [], [], [], [], [], [], [], [];
      counter, net := 0, [0, 0];
      this.cfg := cfg;
      var store := new MapStore();
      maps := store;
      inbuf := new byte[MESSAGE_LEN];
      outbuf := new byte[MESSAGE_LEN];
      authArea := new byte[RECORD_LEN];
      payArea := new byte[PAY_RECORD_LEN];
      new;
      maps.CreateBitmaps();
    }

    /** A message from the line. */
    method Deliver(q: Request)
      requires Valid() && Enabled(cfg, View(), Arrive(q))
      modifies this
      ensures Valid() && View() == Step(cfg, old(View()), Arrive(q))
    {
      forminq := forminq + [q];
    }

    /** The writes to the queues at the end of a turn of extern_inbound. */
    method Route(r: InResult, c: Context, after: Context)
      requires forminq != [] && Image(forminq[0].image)
      requires r == Receive(forminq[0].image, c) && after == ContextAfter(forminq[0].image, c)
      modifies this
      ensures View() == FromVisaStep(old(View()), c)
    {
      hide Receive, ContextAfter;
      var q := forminq[0];
      forminq, counter, net := forminq[1..], after.counter, after.net;
      match r {
        case Dropped => dropped := dropped + [q.id];
        case ToFileUpdate => fupdq := fupdq + [q.id];
        case ToPayBal(k) => paybalq := paybalq + [Work(q.id, q.image, c, k)];
        case ToAuth(k) => authq := authq + [Work(q.id, q.image, c, k)];
        case Beyond =>
      }
    }

    /** One turn of extern_inbound. */
    method TurnFromVisa(env: Env, yday: nat, localDate: int, localTime: int)
      requires Valid() && Enabled(cfg, View(), FromVisa(env, yday, localDate, localTime))
      modifies this, inbuf
      ensures Valid() && View() == Step(cfg, old(View()), FromVisa(env, yday, localDate, localTime))
    {
      hide Receive, StoreOk, MapAt, ContextAfter, FromVisaStep, Overwrite;
      var c := Context(env, yday, localDate, localTime, counter, net);
      Copy(inbuf, 0, forminq[0].image);
      assert inbuf[..] == inbuf[0..MESSAGE_LEN];
      var r, after := ReadMessage(inbuf, c);
      Route(r, c, after);
    }

    /** One turn of auth(): `resp` is what the stored function leaves in its 512 characters. */
    method TurnAuth(failed: bool, resp: array<byte>)
      requires Valid() && authq != [] && |authq[0].k.pan| <= 19
      requires resp.Length == RESPONSE_LEN && resp[RESPONSE_LEN - 1] == 0
      requires resp != authArea && resp !in maps.stores
      requires Enabled(cfg, View(), Auth(if failed then NoAnswer else Answer(resp[..])))
      modifies this, authArea, resp
      ensures Valid() && View() == Step(cfg, old(View()), Auth(if failed then NoAnswer else Answer(old(resp[..]))))
      ensures authArea[..] == AuthRecord(old(authq[0].k))
    {
      hide AuthRecord, AuthReply, StoreOk, AuthRoute;
      var w := authq[0];
      var told := if failed then NoAnswer else Answer(resp[..]);
      authq := authq[1..];
      var reply, route := Authorize(w.k, authArea, cfg.bins, resp, failed);
      formoutq := formoutq + [Finished(w, ByAuth(told), reply)];
    }

    /** One turn of paybal(). */
    method TurnPayBal(failed: bool, resp: seq<byte>)
      requires Valid() && paybalq != [] && |paybalq[0].k.pan| <= 19 && Usable(Answer(resp))
      requires Enabled(cfg, View(), Pay(if failed then NoAnswer else Answer(resp)))
      modifies this, payArea
      ensures Valid() && View() == Step(cfg, old(View()), Pay(if failed then NoAnswer else Answer(resp)))
      ensures payArea[..] == PayRecord(old(paybalq[0].k))
    {
      hide PayRecord, PayReply, StoreOk;
      var w := paybalq[0];
      var told := if failed then NoAnswer else Answer(resp);
      paybalq := paybalq[1..];
      var reply := DoIt(w.k, payArea, cfg.payBins, resp, failed);
      formoutq := formoutq + [Finished(w, ByPayBal(told), reply)];
    }

    /** One turn of extern_outbound. */
    method TurnToVisa()
      requires Valid() && Inv(cfg, View()) && Enabled(cfg, View(), ToVisa)
      modifies this, outbuf, maps.buffer
      ensures Valid() && View() == Step(cfg, old(View()), ToVisa)
    {
      hide Emit, StoreOk, RecordOk, Inv, ReplyFrame;
      FirstOnes(cfg, View());
      var f := formoutq[0];
      formoutq := formoutq[1..];
      var r := EmitMessage(f.r, maps, outbuf);
      match r {
        case Dropped => dropped := dropped + [f.work.id];
        case RawToDriver(_) => driverq := driverq + [RawRecord(f)];
        case Suppressed => suppressed := suppressed + [f.work.id];
        case Sent(bytes) => driverq := driverq + [Framed(f, bytes)];
      }
    }
  }
}
