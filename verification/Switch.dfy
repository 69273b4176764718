/**
 * The four processes as a step system over their queues: FromVisa, Auth, PayBal and ToVisa. Every message carries
 * a number here, so that it can be followed from queue to queue.
 */
module Switch {
  import opened Memory
  import opened Digits
  import opened Bitmaps
  import opened Templates
  import opened Message
  import opened Layout
  import opened Wire
  import opened Frame
  import opened Authorizer
  import opened PayBal
  import opened Inbound
  import opened Outbound
  import opened Requests

  /** A message in FORMINQ, as it will lie in the buffer. */
  datatype Request = Request(id: nat, image: seq<byte>)

  /** A message in AUTHQ or PAYBAL: the image it was read from, in which context, and the record. */
  datatype Work = Work(id: nat, image: seq<byte>, c: Context, k: InternalMsg)

  /** Which process answered, and what its database had said. */
  datatype Via = ByAuth(answer: DbAnswer) | ByPayBal(answer: DbAnswer)

  /** A message in FORMOUTQ. */
  datatype Finished = Finished(work: Work, via: Via, r: InternalMsg)

  /** A message in DRIVERQ. */
  datatype Entry = Framed(f: Finished, bytes: seq<byte>) | RawRecord(f: Finished)

  datatype State = State(
    forminq: seq<Request>, authq: seq<Work>, paybalq: seq<Work>, formoutq: seq<Finished>, driverq: seq<Entry>,
    fupdq: seq<nat>, dropped: seq<nat>, suppressed: seq<nat>, counter: nat, net: seq<byte>)

  /** Where every run starts. */
  predicate Initial(s: State) { s == State([], [], [], [], [], [], [], [], 0, [0, 0]) }

  /** The issuers that the two answering processes read at their start. */
  datatype Config = Config(bins: seq<Text>, payBins: seq<Text>)

  datatype Event =
    | Arrive(request: Request)
    | FromVisa(env: Env, yday: nat, localDate: int, localTime: int)
    | Auth(answer: DbAnswer)
    | Pay(answer: DbAnswer)
    | ToVisa

  function ContextOf(s: State, e: Event): Context
    requires e.FromVisa?
  {
    Context(e.env, e.yday, e.localDate, e.localTime, s.counter, s.net)
  }

  /** The turns that the model covers: the requests of Inbound.Receive, and a known connection for Auth. */
  predicate Enabled(cfg: Config, s: State, e: Event)
  {
    match e
    case Arrive(q) => Image(q.image)
    case FromVisa(_, _, _, _) =>
      && s.forminq != [] && Image(s.forminq[0].image) && ContextOk(ContextOf(s, e))
      && var r := Receive(s.forminq[0].image, ContextOf(s, e)); Roomy(r) && !r.Beyond?
    case Auth(answer) => s.authq != [] && Usable(answer) && AuthRoute(cfg.bins, s.authq[0].k) != -1
    case Pay(answer) => s.paybalq != [] && Usable(answer)
    case ToVisa => s.formoutq != [] && RecordOk(s.formoutq[0].r)
  }

  function FromVisaStep(s: State, c: Context): State
    requires s.forminq != [] && Image(s.forminq[0].image)
  {
    var q := s.forminq[0];
    var after := ContextAfter(q.image, c);
    var s1 := s.(forminq := s.forminq[1..], counter := after.counter, net := after.net);
    match Receive(q.image, c)
    case Dropped => s1.(dropped := s.dropped + [q.id])
    case ToFileUpdate => s1.(fupdq := s.fupdq + [q.id])
    case ToPayBal(k) => s1.(paybalq := s.paybalq + [Work(q.id, q.image, c, k)])
    case ToAuth(k) => s1.(authq := s.authq + [Work(q.id, q.image, c, k)])
    case Beyond => s1
  }

  function AuthStep(s: State, answer: DbAnswer): State
    requires s.authq != [] && Usable(answer)
  {
    var w := s.authq[0];
    s.(authq := s.authq[1..], formoutq := s.formoutq + [Finished(w, ByAuth(answer), AuthReply(w.k, answer))])
  }

  function PayStep(cfg: Config, s: State, answer: DbAnswer): State
    requires s.paybalq != [] && Usable(answer)
  {
    var w := s.paybalq[0];
    s.(paybalq := s.paybalq[1..],
       formoutq := s.formoutq + [Finished(w, ByPayBal(answer), PayReply(w.k, cfg.payBins, answer))])
  }

  ghost function ToVisaStep(s: State): State
    requires s.formoutq != [] && RecordOk(s.formoutq[0].r)
  {
    var f := s.formoutq[0];
    var s1 := s.(formoutq := s.formoutq[1..]);
    match Emit(f.r)
    case Dropped => s1.(dropped := s.dropped + [f.work.id])
    case RawToDriver(_) => s1.(driverq := s.driverq + [RawRecord(f)])
    case Suppressed => s1.(suppressed := s.suppressed + [f.work.id])
    case Sent(bytes) => s1.(driverq := s.driverq + [Framed(f, bytes)])
    case Beyond => s1
  }

  ghost function Step(cfg: Config, s: State, e: Event): State
    requires Enabled(cfg, s, e)
  {
    match e
    case Arrive(q) => s.(forminq := s.forminq + [q])
    case FromVisa(_, _, _, _) => FromVisaStep(s, ContextOf(s, e))
    case Auth(answer) => AuthStep(s, answer)
    case Pay(answer) => PayStep(cfg, s, answer)
    case ToVisa => ToVisaStep(s)
  }

  /** A run: every event is enabled when its turn comes. */
  ghost predicate Run(cfg: Config, s: State, es: seq<Event>)
    decreases |es|
  {
    es == [] || (Enabled(cfg, s, es[0]) && Run(cfg, Step(cfg, s, es[0]), es[1..]))
  }

  ghost function After(cfg: Config, s: State, es: seq<Event>): State
    requires Run(cfg, s, es)
    decreases |es|
  {
    if es == [] then s else After(cfg, Step(cfg, s, es[0]), es[1..])
  }

  // ---- what holds in every state ----------------------------------------------------------------

  /** A message under way was read from its image in its context. */
  predicate WorkOk(w: Work, pay: bool)
  {
    && Image(w.image) && ContextOk(w.c) && Fitting(w.k)
    && Receive(w.image, w.c) == if pay then ToPayBal(w.k) else ToAuth(w.k)
  }

  /** An answer is what its process makes of the request and of the answer of the database. */
  predicate Replied(cfg: Config, f: Finished)
  {
    && Usable(f.via.answer)
    && f.r == if f.via.ByPayBal? then PayReply(f.work.k, cfg.payBins, f.via.answer)
              else AuthReply(f.work.k, f.via.answer)
  }

  predicate FinishedOk(cfg: Config, f: Finished) { Replied(cfg, f) && WorkOk(f.work, f.via.ByPayBal?) }

  ghost predicate EntryOk(cfg: Config, e: Entry)
  {
    && FinishedOk(cfg, e.f) && RecordOk(e.f.r)
    && Emit(e.f.r) == if e.Framed? then Sent(e.bytes) else RawToDriver(e.f.r)
  }

  ghost predicate Inv(cfg: Config, s: State)
  {
    && s.counter < 1000 && |s.net| == 2
    && (forall i :: 0 <= i < |s.authq| ==> WorkOk(s.authq[i], false))
    && (forall i :: 0 <= i < |s.paybalq| ==> WorkOk(s.paybalq[i], true))
    && (forall i :: 0 <= i < |s.formoutq| ==> FinishedOk(cfg, s.formoutq[i]))
    && (forall i :: 0 <= i < |s.driverq| ==> EntryOk(cfg, s.driverq[i]))
  }

  lemma ContextStays(mem: seq<byte>, c: Context)
    requires Image(mem) && ContextOk(c)
    ensures ContextOk(ContextAfter(mem, c))
  {
    hide MapAt, IsSet, Receive, Padded;
    ReceivedOk(mem, c);
  }

  lemma VisaKeeps(cfg: Config, s: State, e: Event)
    requires e.FromVisa? && Enabled(cfg, s, e) && Inv(cfg, s)
    ensures Inv(cfg, FromVisaStep(s, ContextOf(s, e)))
  {
    hide ContextAfter, Receive, MapAt, FinishedOk, EntryOk;
    ContextStays(s.forminq[0].image, ContextOf(s, e));
  }

  lemma WorkPan(w: Work, pay: bool)
    requires WorkOk(w, pay)
    ensures |w.k.pan| <= 19
  {
    hide Receive, MapAt, TypeAt, IsPayBalance, Labelled;
    ReceivedOk(w.image, w.c);
  }

  /** The first message of each queue, in a state that keeps the invariant. */
  lemma FirstOnes(cfg: Config, s: State)
    requires Inv(cfg, s)
    ensures s.authq != [] ==> |s.authq[0].k.pan| <= 19
    ensures s.paybalq != [] ==> |s.paybalq[0].k.pan| <= 19
    ensures s.formoutq != [] ==> RecordOk(s.formoutq[0].r) && !Emit(s.formoutq[0].r).Beyond?
  {
    hide WorkOk, EntryOk, FinishedOk, Emit, RecordOk;
    if s.authq != [] { WorkPan(s.authq[0], false); }
    if s.paybalq != [] { WorkPan(s.paybalq[0], true); }
    if s.formoutq != [] { NothingBeyond(cfg, s); }
  }

  lemma FinishedRecord(cfg: Config, f: Finished)
    requires FinishedOk(cfg, f)
    ensures Image(f.work.image)
    ensures RequestOk(f.work.k, TypeAt(f.work.image)) && AnswerOk(f.r, f.work.k, TypeAt(f.work.image))
  {
    hide Receive, RequestOk, AnswerOk, AuthReply, PayReply, TypeAt, MapAt;
    var w := f.work;
    ReceivedOk(w.image, w.c);
    if f.via.ByPayBal? {
      PayAnswerOk(w.k, TypeAt(w.image), cfg.payBins, f.via.answer);
    } else {
      AuthAnswerOk(w.k, TypeAt(w.image), f.via.answer);
    }
  }

  lemma OutKeeps(cfg: Config, s: State)
    requires s.formoutq != [] && RecordOk(s.formoutq[0].r) && Inv(cfg, s)
    ensures Inv(cfg, ToVisaStep(s))
  {
    hide FinishedOk, WorkOk, Emit, ReplyFrame, RequestOk, AnswerOk, RecordOk, TypeAt, Quot;
    var f := s.formoutq[0];
    FinishedRecord(cfg, f);
    AnswerEmitted(f.r, f.work.k, TypeAt(f.work.image));
  }

  /** Every enabled turn keeps it. */
  lemma StepKeeps(cfg: Config, s: State, e: Event)
    requires Enabled(cfg, s, e) && Inv(cfg, s)
    ensures Inv(cfg, Step(cfg, s, e))
  {
    hide WorkOk, EntryOk, AuthReply, PayReply, AuthRoute, Receive, MapAt, RecordOk, FromVisaStep, ToVisaStep;
    match e {
      case Arrive(q) =>
      case FromVisa(_, _, _, _) => VisaKeeps(cfg, s, e);
      case Auth(answer) =>
      case Pay(answer) =>
      case ToVisa => OutKeeps(cfg, s);
    }
  }

  /** So it holds in every state that a run reaches. */
  lemma {:induction false} RunKeeps(cfg: Config, s: State, es: seq<Event>)
    requires Run(cfg, s, es) && Inv(cfg, s)
    ensures Inv(cfg, After(cfg, s, es))
    decreases |es|
  {
    hide Inv, Enabled, Step;
    if es != [] {
      StepKeeps(cfg, s, es[0]);
      RunKeeps(cfg, Step(cfg, s, es[0]), es[1..]);
    }
  }

  /** ToVisa can always take the next answer, and never loses it. */
  lemma OutAlwaysEnabled(cfg: Config, s: State)
    requires Inv(cfg, s) && s.formoutq != []
    ensures Enabled(cfg, s, ToVisa)
    ensures var f, s1 := s.formoutq[0], Step(cfg, s, ToVisa);
            && s1.dropped == s.dropped
            && if TypeAt(f.work.image) == 120
               then s1.suppressed == s.suppressed + [f.work.id] && s1.driverq == s.driverq
               else s1.suppressed == s.suppressed && |s1.driverq| == |s.driverq| + 1
  {
    hide FinishedOk, WorkOk, Emit, ReplyFrame, RequestOk, RecordOk, TypeAt, Quot, EntryOk;
    var f := s.formoutq[0];
    FinishedRecord(cfg, f);
    AnswerEmitted(f.r, f.work.k, TypeAt(f.work.image));
  }

  // ---- conservation -----------------------------------------------------------------------------

  /** How often a number occurs. */
  function Count(ids: seq<nat>, id: nat): nat
  {
    if ids == [] then 0 else (if ids[0] == id then 1 else 0) + Count(ids[1..], id)
  }

  function RequestIds(q: seq<Request>): seq<nat> { seq(|q|, i requires 0 <= i < |q| => q[i].id) }

  function WorkIds(q: seq<Work>): seq<nat> { seq(|q|, i requires 0 <= i < |q| => q[i].id) }

  function FinishedIds(q: seq<Finished>): seq<nat> { seq(|q|, i requires 0 <= i < |q| => q[i].work.id) }

  function EntryIds(q: seq<Entry>): seq<nat> { seq(|q|, i requires 0 <= i < |q| => q[i].f.work.id) }

  /** In how many places message `id` is: waiting, under way, answered, passed on, dropped or kept back. */
  function Places(s: State, id: nat): nat
  {
    Count(RequestIds(s.forminq), id) + Count(WorkIds(s.authq), id) + Count(WorkIds(s.paybalq), id)
    + Count(FinishedIds(s.formoutq), id) + Count(EntryIds(s.driverq), id)
    + Count(s.fupdq, id) + Count(s.dropped, id) + Count(s.suppressed, id)
  }

  lemma {:induction false} CountAdded(ids: seq<nat>, x: nat, id: nat)
    ensures Count(ids + [x], id) == Count(ids, id) + if x == id then 1 else 0
  {
    if ids == [] {
      assert [x][1..] == [];
    } else {
      assert (ids + [x])[1..] == ids[1..] + [x];
      CountAdded(ids[1..], x, id);
    }
  }

  /** Taking the first message of a queue, and adding one at its end. */
  lemma RequestQueue(q: seq<Request>, x: Request, id: nat)
    ensures Count(RequestIds(q + [x]), id) == Count(RequestIds(q), id) + if x.id == id then 1 else 0
    ensures q != [] ==> Count(RequestIds(q), id) == (if q[0].id == id then 1 else 0) + Count(RequestIds(q[1..]), id)
  {
    assert RequestIds(q + [x]) == RequestIds(q) + [x.id];
    CountAdded(RequestIds(q), x.id, id);
    if q != [] { assert RequestIds(q)[1..] == RequestIds(q[1..]); }
  }

  lemma WorkQueue(q: seq<Work>, x: Work, id: nat)
    ensures Count(WorkIds(q + [x]), id) == Count(WorkIds(q), id) + if x.id == id then 1 else 0
    ensures q != [] ==> Count(WorkIds(q), id) == (if q[0].id == id then 1 else 0) + Count(WorkIds(q[1..]), id)
  {
    assert WorkIds(q + [x]) == WorkIds(q) + [x.id];
    CountAdded(WorkIds(q), x.id, id);
    if q != [] { assert WorkIds(q)[1..] == WorkIds(q[1..]); }
  }

  lemma FinishedQueue(q: seq<Finished>, x: Finished, id: nat)
    ensures Count(FinishedIds(q + [x]), id) == Count(FinishedIds(q), id) + if x.work.id == id then 1 else 0
    ensures q != [] ==>
              Count(FinishedIds(q), id) == (if q[0].work.id == id then 1 else 0) + Count(FinishedIds(q[1..]), id)
  {
    assert FinishedIds(q + [x]) == FinishedIds(q) + [x.work.id];
    CountAdded(FinishedIds(q), x.work.id, id);
    if q != [] { assert FinishedIds(q)[1..] == FinishedIds(q[1..]); }
  }

  lemma EntryQueue(q: seq<Entry>, x: Entry, id: nat)
    ensures Count(EntryIds(q + [x]), id) == Count(EntryIds(q), id) + if x.f.work.id == id then 1 else 0
  {
    assert EntryIds(q + [x]) == EntryIds(q) + [x.f.work.id];
    CountAdded(EntryIds(q), x.f.work.id, id);
  }

  /** How often message `id` arrives. */
  function Arrivals(es: seq<Event>, id: nat): nat
  {
    if es == [] then 0 else (if es[0].Arrive? && es[0].request.id == id then 1 else 0) + Arrivals(es[1..], id)
  }

  lemma VisaConserves(s: State, c: Context, id: nat)
    requires s.forminq != [] && Image(s.forminq[0].image) && !Receive(s.forminq[0].image, c).Beyond?
    ensures Places(FromVisaStep(s, c), id) == Places(s, id)
  {
    hide Receive, ContextAfter, Count, RequestIds, WorkIds, FinishedIds, EntryIds;
    var q := s.forminq[0];
    RequestQueue(s.forminq, q, id);
    match Receive(q.image, c) {
      case Dropped => CountAdded(s.dropped, q.id, id);
      case ToFileUpdate => CountAdded(s.fupdq, q.id, id);
      case ToPayBal(k) => WorkQueue(s.paybalq, Work(q.id, q.image, c, k), id);
      case ToAuth(k) => WorkQueue(s.authq, Work(q.id, q.image, c, k), id);
    }
  }

  lemma OutConserves(s: State, id: nat)
    requires s.formoutq != [] && RecordOk(s.formoutq[0].r) && !Emit(s.formoutq[0].r).Beyond?
    ensures Places(ToVisaStep(s), id) == Places(s, id)
  {
    hide Emit, RecordOk, Count, RequestIds, WorkIds, FinishedIds, EntryIds;
    var f := s.formoutq[0];
    FinishedQueue(s.formoutq, f, id);
    match Emit(f.r) {
      case Dropped => CountAdded(s.dropped, f.work.id, id);
      case RawToDriver(_) => EntryQueue(s.driverq, RawRecord(f), id);
      case Suppressed => CountAdded(s.suppressed, f.work.id, id);
      case Sent(bytes) => EntryQueue(s.driverq, Framed(f, bytes), id);
    }
  }

  lemma NothingBeyond(cfg: Config, s: State)
    requires Inv(cfg, s) && s.formoutq != []
    ensures RecordOk(s.formoutq[0].r) && !Emit(s.formoutq[0].r).Beyond?
  {
    hide FinishedOk, Emit, ReplyFrame, RequestOk, RecordOk, TypeAt, Quot;
    var f := s.formoutq[0];
    FinishedRecord(cfg, f);
    AnswerEmitted(f.r, f.work.k, TypeAt(f.work.image));
  }

  /** A turn moves messages from place to place; only an arrival adds one. */
  lemma StepConserves(cfg: Config, s: State, e: Event, id: nat)
    requires Enabled(cfg, s, e) && Inv(cfg, s)
    ensures Places(Step(cfg, s, e), id) == Places(s, id) + if e.Arrive? && e.request.id == id then 1 else 0
  {
    hide Inv, AuthReply, PayReply, Receive, MapAt, RecordOk, Emit, FromVisaStep, ToVisaStep, AuthRoute;
    hide Count, RequestIds, WorkIds, FinishedIds, EntryIds;
    match e {
      case Arrive(q) => RequestQueue(s.forminq, q, id);
      case FromVisa(_, _, _, _) => VisaConserves(s, ContextOf(s, e), id);
      case Auth(answer) =>
        var w := s.authq[0];
        WorkQueue(s.authq, w, id);
        FinishedQueue(s.formoutq, Finished(w, ByAuth(answer), AuthReply(w.k, answer)), id);
      case Pay(answer) =>
        var w := s.paybalq[0];
        WorkQueue(s.paybalq, w, id);
        FinishedQueue(s.formoutq, Finished(w, ByPayBal(answer), PayReply(w.k, cfg.payBins, answer)), id);
      case ToVisa => NothingBeyond(cfg, s); OutConserves(s, id);
    }
  }

  /** Over a whole run, what arrived is what is in one of the places. */
  lemma {:induction false} RunConserves(cfg: Config, s: State, es: seq<Event>, id: nat)
    requires Run(cfg, s, es) && Inv(cfg, s)
    ensures Places(After(cfg, s, es), id) == Places(s, id) + Arrivals(es, id)
    decreases |es|
  {
    hide Inv, Enabled, Step, Places;
    if es != [] {
      StepKeeps(cfg, s, es[0]);
      StepConserves(cfg, s, es[0], id);
      RunConserves(cfg, Step(cfg, s, es[0]), es[1..], id);
    }
  }

  lemma InitialInv(cfg: Config, s: State, id: nat)
    requires Initial(s)
    ensures Inv(cfg, s) && Places(s, id) == 0
  {}

  lemma {:induction false} Occurs(ids: seq<nat>, i: nat)
    requires i < |ids|
    ensures Count(ids, ids[i]) >= 1
    ensures forall j :: 0 <= j < i && ids[j] == ids[i] ==> Count(ids, ids[i]) >= 2
  {
    if i > 0 {
      Occurs(ids[1..], i - 1);
      forall j | 0 <= j < i && ids[j] == ids[i] ensures Count(ids, ids[i]) >= 2 {
        if j > 0 { assert ids[1..][j - 1] == ids[1..][i - 1]; }
      }
    }
  }

  /**
   * When no number arrives twice, no message is in two places: none is answered twice, none that was answered is
   * still under way or was dropped, and nothing is answered that did not arrive.
   */
  lemma OneAnswer(cfg: Config, s0: State, es: seq<Event>, i: nat)
    requires Initial(s0) && Run(cfg, s0, es) && i < |After(cfg, s0, es).driverq|
    requires var id := After(cfg, s0, es).driverq[i].f.work.id;
             Arrivals(es, id) <= 1
    ensures var s := After(cfg, s0, es);
            var id := s.driverq[i].f.work.id;
            && Arrivals(es, id) == 1 && Count(EntryIds(s.driverq), id) == 1
            && (forall j :: 0 <= j < i ==> s.driverq[j].f.work.id != id)
            && Count(RequestIds(s.forminq), id) == Count(WorkIds(s.authq), id) == Count(WorkIds(s.paybalq), id) == 0
            && Count(FinishedIds(s.formoutq), id) == Count(s.fupdq, id) == 0
            && Count(s.dropped, id) == Count(s.suppressed, id) == 0
  {
    hide Run, After, Inv, Arrivals, Count;
    var s := After(cfg, s0, es);
    var id := s.driverq[i].f.work.id;
    InitialInv(cfg, s0, id);
    RunConserves(cfg, s0, es, id);
    Occurs(EntryIds(s.driverq), i);
    forall j | 0 <= j < i ensures s.driverq[j].f.work.id != id {
      assert EntryIds(s.driverq)[j] == s.driverq[j].f.work.id;
    }
  }
}
