/** One step of the field loops: what is written for a field, and what reading it does. */
module Wire {
  import opened Memory
  import opened Digits
  import opened Ebcdic
  import opened Zoned
  import opened Money
  import opened Bitmaps
  import opened Message
  import opened Shapes
  import opened Layout

  // ---- fields without a carried value, on the way out -------------------------------------------

  /** sprintf("%0<n>ld") cut at n characters. */
  function Padded(v: int, n: nat): (r: Text)
    requires n >= 1
    ensures |r| == n
  {
    if v >= 0 then ItoaText(v, n) else [0x2D] + ItoaText(-v, n - 1)
  }

  function When(c: bool, s: seq<byte>): (r: seq<byte>)
    ensures |r| == if c then |s| else 0
  {
    if c then s else []
  }

  /** The amounts of field 48. */
  function PrivateAmounts(m: InternalMsg): seq<byte>
  {
    var kind := CharAt(m.acceptorname, 4);
    When(kind != 0x44, AtoeText(Fixed(m.avalBalance, 12)))
    + AtoeText(Fixed(m.ledgerBalance, 12))
    + When(kind == 0x43, AtoeText(Fixed(m.settlementAmount, 12)))
  }

  /** Its due date, fee and time of update. */
  function PrivateDates(m: InternalMsg): seq<byte>
  {
    AtoeText(Padded(m.settlementDate, 6)) + AtoeText(Fixed(m.fee, 6)) + AtoeText(Fixed(m.dthUpd, 12))
  }

  /** Field 48 after its length byte of 60 or 36. */
  function PrivateBody(m: InternalMsg): seq<byte> { PrivateAmounts(m) + PrivateDates(m) }

  function PrivateLength(m: InternalMsg): byte { if CharAt(m.acceptorname, 4) == 0x43 then 60 else 36 }

  /** The bits 0..8 of the field 63 map, as isBitSet reads them. */
  datatype NetMap = NetMap(b0: bool, b1: bool, b2: bool, b3: bool, b4: bool, b5: bool, b6: bool, b7: bool, b8: bool)

  function NetMapOf(first: byte): NetMap
  {
    NetMap(Bit(first, 8), Bit(first, 7), Bit(first, 6), Bit(first, 5), Bit(first, 4), Bit(first, 3), Bit(first, 2),
           Bit(first, 1), Bit(first, 0))
  }

  /** The numbers of field 63. */
  function NetworkCodes(k: NetMap, m: InternalMsg): seq<byte>
  {
    When(k.b0, NumBytes(Quot(m.serial1, 10_000), 4))
    + When(k.b1, NumBytes(Quot(m.lifeCycle, 3600), 4))
    + When(k.b2, NumBytes(m.revcode, 4))
    + When(k.b3, NumBytes(m.revcode, 4))
    + When(k.b4, NumBytes(m.serial2, 6))
  }

  /** Its cells that are skipped, or all but skipped. */
  function NetworkGaps(k: NetMap, m: InternalMsg): seq<byte>
  {
    When(k.b5, Zeros(7))
    + When(k.b6, [m.serial1 % 16] + Zeros(7))
    + When(k.b7, Zeros(4))
    + When(k.b8, Zeros(12))
  }

  /** The bytes of field 63 after its map. */
  function NetworkBody(k: NetMap, m: InternalMsg): seq<byte> { NetworkCodes(k, m) + NetworkGaps(k, m) }

  /** The offset past n bytes that are there when c holds. */
  function Past(c: bool, o: nat, n: nat): (r: nat)
    ensures r >= o && (c ==> r == o + n) && (!c ==> r == o)
  {
    if c then o + n else o
  }

  /** The bytes the numbers of field 63 take. */
  function CodesLength(k: NetMap): nat
  {
    Past(k.b4, Past(k.b3, Past(k.b2, Past(k.b1, Past(k.b0, 0, 2), 2), 2), 2), 3)
  }

  /** The bytes field 63 takes after its map. */
  function NetworkLength(k: NetMap): nat
  {
    Past(k.b8, Past(k.b7, Past(k.b6, Past(k.b5, CodesLength(k), 7), 8), 4), 12)
  }

  /** C's division, which truncates toward zero. */
  function Quot(a: int, b: int): int
    requires b > 0
  {
    if a >= 0 then a / b else -((-a) / b)
  }

  /** The indicator bits of field 62 that add bytes to it. */
  predicate Indicated(bitmp621: byte, n: nat) { Bit(bitmp621, n) }

  function PaymentBody(m: InternalMsg): seq<byte>
  {
    When(Indicated(m.priv.bitmp621, 7), AtoeText(Fixed([m.posPinCap], 1)))
    + When(Indicated(m.priv.bitmp621, 6), NumBytes(m.storeid, 7) + NumBytes(m.lane, 8))
    + When(Indicated(m.priv.bitmp621, 5), AtoeText(Fixed(m.priv.validationCode, 4)))
  }

  /** The bytes cardcoToExtern writes, or steps over, for a primary field. */
  function Written(f: nat, m: InternalMsg, net: seq<byte>): seq<byte>
    requires 1 <= f <= 64 && f != 44 && |net| == 8
  {
    if Carried(f) then Put(ShapeOf(f), WireValue(f, m))
    else match f
    case 5 => LeftPack(m.settlementAmount, 6)
    case 6 => LeftPack(m.amountEquiv, 6)
    case 9 => Zeros(8)
    case 10 => Zeros(8)
    case 20 => Zeros(2)
    case 21 => Zeros(2)
    case 28 => Zeros(9)
    case 39 => AtoeText(Padded(m.respcode, 2))
    case 48 => [PrivateLength(m)] + PrivateBody(m)
    case 53 => [0x20, 1, 1, 1] + Zeros(4)
    case 61 => [12] + LeftPack(m.cashBack, 6)
    case 62 => [m.priv.length62] + Zeros(8) + PaymentBody(m)
    case 63 => [(4 + NetworkLength(NetMapOf(net[0]))) % 256] + net[..3] + NetworkBody(NetMapOf(net[0]), m)
    case _ => []
  }

  // ---- reading ----------------------------------------------------------------------------------

  /**
   * Done: the record after the field and the bytes it took. Rejected: externToCardCo returns -1. Outside: the
   * C code reads past the data, overruns an array of the record or meets a diverted text code, so that what it
   * does next is not defined.
   */
  datatype Step = Done(m: InternalMsg, n: nat) | Rejected | Outside

  function Skipped(m: InternalMsg, n: nat, b: seq<byte>): Step { if |b| < n then Outside else Done(m, n) }

  /** Money text read from n nibbles. */
  function MoneyIn(b: seq<byte>, n: nat): Text
    requires |b| >= (n + 1) / 2 && n >= 2
  {
    MoneyText(NibbleText(b, n))
  }

  /** The balances among the characters of field 54. */
  function BalancesOf(m: InternalMsg, both: bool, t: seq<byte>): InternalMsg
    requires |t| >= if both then 42 else 21
  {
    var m1 := m.(avalBalance := CStr(MoneyText(t[9..21])));
    if both then m1.(cashBack := CStr(MoneyText(t[30..42]))) else m1
  }

  /** Field 54: 21 or 42 characters are taken, whatever the length byte says. */
  function ReadBalances(m: InternalMsg, b: seq<byte>): Step
  {
    if |b| < 1 then Outside
    else
      var len: nat := b[0];
      var taken := if len > 21 then 43 else 22;
      if len > 42 || |b| < taken || !Plain(b[1..1 + len]) then Outside
      else Done(BalancesOf(m, len > 21, EtoaText(b[1..1 + len]) + b[1 + len..]), taken)
  }

  /** A number of field 63, when its bit is on. */
  function CodeAt(c: bool, b: seq<byte>, o: nat, digits: nat): int
    requires c ==> o + (digits + 1) / 2 <= |b|
  {
    if c then Btoi(b[o..], digits) else 0
  }

  datatype NetCodes = NetCodes(serial: int, cycle: int, reason: int, stip: int, second: int)

  /** The numbers of field 63; `b` starts after the map. */
  function CodesOf(k: NetMap, b: seq<byte>): NetCodes
    requires |b| >= CodesLength(k)
  {
    var o1 := Past(k.b0, 0, 2);
    var o2 := Past(k.b1, o1, 2);
    var o3 := Past(k.b2, o2, 2);
    var o4 := Past(k.b3, o3, 2);
    NetCodes(CodeAt(k.b0, b, 0, 4), CodeAt(k.b1, b, o1, 4), CodeAt(k.b2, b, o2, 4), CodeAt(k.b3, b, o3, 4),
             CodeAt(k.b4, b, o4, 6))
  }

  /** The record with the numbers of field 63 that are there. */
  function NetworkStored(k: NetMap, m: InternalMsg, c: NetCodes, low: byte): InternalMsg
  {
    var m0 := if k.b0 then m.(serial1 := c.serial * 10_000) else m;
    var m1 := if k.b1 then m0.(lifeCycle := c.cycle * 3600) else m0;
    var m2 := if k.b2 then m1.(revcode := c.reason) else m1;
    var m3 := if k.b3 then m2.(revcode := c.stip) else m2;
    var m4 := if k.b4 then m3.(serial2 := c.second) else m3;
    if k.b6 then m4.(serial1 := m4.serial1 + low) else m4
  }

  /** The members that field 63 sets; `b` starts after the map. */
  function ReadNetwork(k: NetMap, m: InternalMsg, b: seq<byte>): InternalMsg
    requires |b| >= NetworkLength(k)
  {
    NetworkStored(k, m, CodesOf(k, b), if k.b6 then b[Past(k.b5, CodesLength(k), 7)] else 0)
  }

  /** Field 63: a length byte, its map, then the numbers and gaps the map calls for. */
  function ReadNetworkField(m: InternalMsg, b: seq<byte>): Step
  {
    if |b| < 4 then Outside
    else
      var k := NetMapOf(b[1]);
      if |b| < 4 + NetworkLength(k) then Outside
      else Done(ReadNetwork(k, m.(priv := m.priv.(netId := b[1..3])), b[4..]), 4 + NetworkLength(k))
  }

  /** Field 61 in its form for a single currency: six bytes, and whatever a longer length byte announces. */
  function ReadCashBack(m: InternalMsg, b: seq<byte>): Step
  {
    if |b| < 7 then Outside
    else Skipped(m.(cashBack := MoneyIn(b[1..], 12)), 7 + (if b[0] > 12 then (b[0] as int - 12) / 2 else 0), b)
  }

  /**
   * Field 62: the length is kept; its map is a buffer that was never filled, so that the indicator is zero, and so
   * are the eight bytes it is copied to in the saved map of the message.
   */
  function PaymentNoted(m: InternalMsg, length: byte): InternalMsg
  {
    var rest := if |m.priv.bitmap| > 8 then m.priv.bitmap[8..] else [];
    m.(priv := m.priv.(length62 := length, bitmp621 := 0, bitmap := Zeros(8) + rest))
  }

  /** Reading a field that carries no value both ways. */
  function ReadPassive(f: nat, m: InternalMsg, env: Env, b: seq<byte>): Step
    requires 1 <= f <= 64 && !Carried(f)
  {
    match f
    case 1 => Skipped(m, 8, b)
    case 5 => if |b| < 6 then Outside else Done(m.(settlementAmount := MoneyIn(b, 12)), 6)
    case 6 => if |b| < 6 then Outside else Done(m.(amountEquiv := MoneyIn(b, 12)), 6)
    case 9 => Skipped(m, 4, b)
    case 10 => Skipped(m, 4, b)
    case 20 => Skipped(m, 2, b)
    case 21 => Skipped(m, 2, b)
    case 28 => Skipped(m, 9, b)
    case 34 => if |b| < 1 then Outside else Skipped(m, 1 + b[0] as int, b)
    case 39 => if |b| < 2 || !Plain(b[..2]) then Outside else Done(m.(respcode := env.junk), 2)
    case 40 => Skipped(m, 3, b)
    case 44 =>
      (match GetVarText(b, 25)
       case Nowhere => Outside
       case Got(c, n) => Done(m.(addresponse := c.text), n))
    case 48 => if |b| < 1 then Outside else Skipped(m, 1 + b[0] as int, b)
    case 53 =>
      if |b| < 8 then Outside else Done(m.(formatCode := b[0], pinAlgo := b[1..3], pinIndex := b[3]), 8)
    case 54 => ReadBalances(m, b)
    case 61 => ReadCashBack(m, b)
    case 62 => if |b| < 9 then Outside else Done(PaymentNoted(m, b[0]), 9)
    case 63 => ReadNetworkField(m, b)
    case _ => Done(m, 0)
  }

  /** One turn of the decoder's switch. */
  function ReadField(f: nat, m: InternalMsg, bm: Bitmap, env: Env, b: seq<byte>): Step
    requires 1 <= f <= 64 && |bm| == 8
  {
    if Carried(f) then
      match Get(ShapeOf(f), b)
      case Nowhere => Outside
      case Got(c, n) =>
        match Store(f, c, m, bm, env)
        case None => Rejected
        case Some(m1) => Done(m1, n)
    else ReadPassive(f, m, env, b)
  }

  // ---- laws of one field ------------------------------------------------------------------------

  lemma CodesBytes(k: NetMap, m: InternalMsg)
    ensures |NetworkCodes(k, m)| == CodesLength(k)
  {}

  lemma GapsBytes(k: NetMap, m: InternalMsg)
    ensures |NetworkGaps(k, m)| == NetworkLength(k) - CodesLength(k)
  {}

  lemma NetworkBodyLength(k: NetMap, m: InternalMsg)
    ensures |NetworkBody(k, m)| == NetworkLength(k)
  {
    CodesBytes(k, m);
    GapsBytes(k, m);
  }

  /** No field read by its own case disturbs the members of an independent field. */
  lemma ReadKeepsOthers(f: nat, m: InternalMsg, bm: Bitmap, env: Env, b: seq<byte>, g: nat)
    requires 1 <= f <= 64 && |bm| == 8 && Carried(g) && Independent(f, g)
    ensures ReadField(f, m, bm, env, b).Done? ==> Member(g, ReadField(f, m, bm, env, b).m) == Member(g, m)
  {
    if Carried(f) {
      var r := Get(ShapeOf(f), b);
      if r.Got? { StoreKeepsOthers(f, r.c, m, bm, env, g); }
    } else {
      PassiveKeepsOthers(f, m, env, b, g);
    }
  }

  /** m with the members that no carried field uses taken from r. */
  function Patched(m: InternalMsg, r: InternalMsg): InternalMsg
  {
    m.(settlementAmount := r.settlementAmount, amountEquiv := r.amountEquiv, avalBalance := r.avalBalance,
       cashBack := r.cashBack, respcode := r.respcode, addresponse := r.addresponse, formatCode := r.formatCode,
       pinAlgo := r.pinAlgo, pinIndex := r.pinIndex, serial1 := r.serial1, serial2 := r.serial2,
       lifeCycle := r.lifeCycle, revcode := r.revcode, filler1Type := r.filler1Type, filler1Map := r.filler1Map,
       priv := m.priv.(netId := r.priv.netId, bitmap := r.priv.bitmap, length62 := r.priv.length62,
                       bitmp621 := r.priv.bitmp621))
  }

  lemma PatchedKeepsCarried(m: InternalMsg, r: InternalMsg, g: nat)
    requires Carried(g)
    ensures Member(g, Patched(m, r)) == Member(g, m)
  {}

  lemma NetworkPatches(m: InternalMsg, k: NetMap, b: seq<byte>)
    requires |b| >= NetworkLength(k)
    ensures ReadNetwork(k, m, b) == Patched(m, ReadNetwork(k, m, b))
  {
    hide CodesOf;
  }

  lemma PatchedOverNetId(m: InternalMsg, n: seq<byte>, r: InternalMsg)
    ensures Patched(m.(priv := m.priv.(netId := n)), r) == Patched(m, r)
  {}

  lemma PassivePatches(f: nat, m: InternalMsg, env: Env, b: seq<byte>)
    requires 1 <= f <= 64 && !Carried(f) && f !in {54, 61, 63}
    ensures ReadPassive(f, m, env, b).Done? ==> ReadPassive(f, m, env, b).m == Patched(m, ReadPassive(f, m, env, b).m)
  {}

  lemma AmountsPatch(f: nat, m: InternalMsg, env: Env, b: seq<byte>)
    requires f in {54, 61} && !Carried(f)
    ensures ReadPassive(f, m, env, b).Done? ==> ReadPassive(f, m, env, b).m == Patched(m, ReadPassive(f, m, env, b).m)
  {}

  lemma PassiveKeepsOthers(f: nat, m: InternalMsg, env: Env, b: seq<byte>, g: nat)
    requires 1 <= f <= 64 && !Carried(f) && Carried(g)
    ensures ReadPassive(f, m, env, b).Done? ==> Member(g, ReadPassive(f, m, env, b).m) == Member(g, m)
  {
    var r := ReadPassive(f, m, env, b);
    if r.Done? {
      if f == 63 {
        NetworkPatches(m.(priv := m.priv.(netId := b[1..3])), NetMapOf(b[1]), b[4..]);
        PatchedOverNetId(m, b[1..3], r.m);
      } else if f == 54 || f == 61 {
        AmountsPatch(f, m, env, b);
      } else {
        PassivePatches(f, m, env, b);
      }
      PatchedKeepsCarried(m, r.m, g);
    }
  }

  /** The records whose field f is understood: what goes out fits its shape, and storing reproduces it. */
  predicate Sendable(f: nat, m: InternalMsg, bm: Bitmap)
    requires Carried(f) && |bm| == 8
  {
    var c := WireValue(f, m);
    Fits(ShapeOf(f), c) && Restores(f, c, bm)
  }

  /** Decoding what was encoded for one carried field stores its value and stops at its last byte. */
  lemma CarriedBack(f: nat, m: InternalMsg, m0: InternalMsg, bm: Bitmap, env: Env, net: seq<byte>, rest: seq<byte>)
    requires Carried(f) && f != 44 && |bm| == 8 && |net| == 8 && Sendable(f, m, bm)
    ensures var r := ReadField(f, m0, bm, env, Written(f, m, net) + rest);
            && r.Done? && r.n == |Written(f, m, net)|
            && Member(f, r.m) == Landed(f, WireValue(f, m), env)
  {
    hide Get, Put, Content, WireValue, Fits, Restores, Store, Member;
    var c := WireValue(f, m);
    GetPut(ShapeOf(f), c, rest);
    StoreGives(f, c, m0, bm, env);
    StoreLands(f, c, m0, bm, env);
  }

  /** When the decoder's cursor agrees with the encoder's on a field that carries no value. */
  predicate Aligned(f: nat, m: InternalMsg)
    requires 1 <= f <= 64 && !Carried(f)
  {
    match f
    case 1 => false
    case 9 => false
    case 10 => false
    case 34 => false
    case 40 => false
    case 54 => false
    case 48 => CharAt(m.acceptorname, 4) in {0x43, 0x44}
    case 62 => !Bit(m.priv.bitmp621, 7) && !Bit(m.priv.bitmp621, 6) && !Bit(m.priv.bitmp621, 5)
    case _ => true
  }

  /** Field 48 fills its length byte exactly in the C and D layouts. */
  lemma PrivateLengths(m: InternalMsg)
    ensures |PrivateBody(m)| == PrivateLength(m) as int <==> CharAt(m.acceptorname, 4) in {0x43, 0x44}
    ensures CharAt(m.acceptorname, 4) !in {0x43, 0x44} ==> |PrivateBody(m)| == 48 && PrivateLength(m) == 36
  {}

  lemma ResponseAligned(m: InternalMsg, m0: InternalMsg, env: Env, net: seq<byte>, rest: seq<byte>)
    requires |net| == 8
    ensures var r := ReadPassive(39, m0, env, Written(39, m, net) + rest);
            r.Done? && r.n == |Written(39, m, net)| == 2
  {
    var w := AtoeText(Padded(m.respcode, 2));
    EtoaAtoe(Padded(m.respcode, 2));
    assert (w + rest)[..2] == w;
  }

  lemma NetworkAligned(m: InternalMsg, m0: InternalMsg, net: seq<byte>, rest: seq<byte>)
    requires |net| == 8
    ensures var k := NetMapOf(net[0]);
            var w := [(4 + NetworkLength(k)) % 256] + net[..3] + NetworkBody(k, m);
            ReadNetworkField(m0, w + rest).Done? && ReadNetworkField(m0, w + rest).n == |w|
  {
    NetworkBodyLength(NetMapOf(net[0]), m);
  }

  /** The cursors are together after field f. */
  predicate Together(f: nat, m: InternalMsg, m0: InternalMsg, env: Env, net: seq<byte>, rest: seq<byte>)
    requires 1 <= f <= 64 && !Carried(f) && f != 44 && |net| == 8
  {
    var r := ReadPassive(f, m0, env, Written(f, m, net) + rest);
    r.Done? && r.n == |Written(f, m, net)|
  }

  /** Fields with cells that depend on the record. */
  predicate Laden(f: nat) { f in {5, 6, 39, 48, 61, 62, 63} }

  lemma BareAligned(f: nat, m: InternalMsg, m0: InternalMsg, env: Env, net: seq<byte>, rest: seq<byte>)
    requires 1 <= f <= 64 && !Carried(f) && f != 44 && |net| == 8 && !Laden(f)
    ensures Together(f, m, m0, env, net, rest) <==> Aligned(f, m)
  {}

  lemma AmountAligned(f: nat, m: InternalMsg, m0: InternalMsg, env: Env, net: seq<byte>, rest: seq<byte>)
    requires f in {5, 6, 61} && !Carried(f) && |net| == 8
    ensures Together(f, m, m0, env, net, rest)
  {}

  lemma PrivateAligned(m: InternalMsg, m0: InternalMsg, env: Env, net: seq<byte>, rest: seq<byte>)
    requires |net| == 8
    ensures Together(48, m, m0, env, net, rest) <==> Aligned(48, m)
  {
    PrivateLengths(m);
  }

  lemma PaymentAligned(m: InternalMsg, m0: InternalMsg, env: Env, net: seq<byte>, rest: seq<byte>)
    requires |net| == 8
    ensures Together(62, m, m0, env, net, rest) <==> Aligned(62, m)
  {
    assert PaymentBody(m) == [] <==> Aligned(62, m);
  }

  lemma NetworkTogether(m: InternalMsg, m0: InternalMsg, env: Env, net: seq<byte>, rest: seq<byte>)
    requires |net| == 8
    ensures Together(63, m, m0, env, net, rest)
  {
    hide NetworkBody, ReadNetworkField;
    NetworkAligned(m, m0, net, rest);
  }

  lemma LadenAligned(f: nat, m: InternalMsg, m0: InternalMsg, env: Env, net: seq<byte>, rest: seq<byte>)
    requires Laden(f) && !Carried(f) && |net| == 8
    ensures Together(f, m, m0, env, net, rest) <==> Aligned(f, m)
  {
    hide Written, ReadPassive;
    match f {
      case 5 => AmountAligned(5, m, m0, env, net, rest);
      case 6 => AmountAligned(6, m, m0, env, net, rest);
      case 39 => ResponseAligned(m, m0, env, net, rest);
      case 48 => PrivateAligned(m, m0, env, net, rest);
      case 61 => AmountAligned(61, m, m0, env, net, rest);
      case 62 => PaymentAligned(m, m0, env, net, rest);
      case 63 => NetworkTogether(m, m0, env, net, rest);
    }
  }

  /** The cursors agree on a passive field exactly when it is Aligned, whatever follows it. */
  lemma PassiveAligned(f: nat, m: InternalMsg, m0: InternalMsg, env: Env, net: seq<byte>, rest: seq<byte>)
    requires 1 <= f <= 64 && !Carried(f) && f != 44 && |net| == 8
    ensures var r := ReadPassive(f, m0, env, Written(f, m, net) + rest);
            (r.Done? && r.n == |Written(f, m, net)|) <==> Aligned(f, m)
  {
    if Laden(f) { LadenAligned(f, m, m0, env, net, rest); } else { BareAligned(f, m, m0, env, net, rest); }
    assert Together(f, m, m0, env, net, rest) <==> Aligned(f, m);
  }
}
