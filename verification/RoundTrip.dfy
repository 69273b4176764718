/** The round trip stated on the members of the record, for the fields whose contents both loops preserve. */
module RoundTrip {
  import opened Memory
  import opened Digits
  import opened Ebcdic
  import opened Zoned
  import opened Bitmaps
  import opened Message
  import opened Shapes
  import opened Layout
  import opened Wire
  import opened Codec

  /** The fields whose value survives the wire. */
  const SYMMETRIC: set<nat> :=
    {2, 3, 4, 7, 11, 12, 13, 15, 16, 18, 19, 22, 23, 25, 26, 32, 33, 37, 38, 41, 42, 43, 49, 50, 51, 52, 59, 60, 64}

  /** The fields that only keep the cursors together. */
  const CURSOR_ONLY: set<nat> := {5, 6, 8, 17, 20, 21, 24, 28, 39, 48, 53, 61, 62, 63}

  predicate NoLeadingZero(s: Text) { s == [] || s[0] != 0x30 }

  predicate PackableId(s: Text, cap: nat) { |s| <= cap && AllNibbles(s) && NoLeadingZero(s) }

  predicate HexText(s: Text) { |s| == 16 && AllHex(s) && forall i :: 0 <= i < 16 ==> Upper(s[i]) == s[i] }

  /** The member of field f holds a value of its type. */
  predicate WellFormed(f: nat, m: InternalMsg)
  {
    match f
    case 2 => PackableId(m.pan, 19)
    case 3 => 0 <= m.pcode < 1_000_000 && AcceptedPcode(m.pcode)
    case 4 => |m.amount| == 12 && AllNibbles(m.amount)
    case 7 => m.trandate >= 0 && 0 <= m.trantime < 1_000_000
    case 11 => 0 <= m.trace < 1_000_000
    case 12 => 0 <= m.localTime < 1_000_000
    case 13 => m.localDate >= 0
    case 15 => m.settlementDate >= 0
    case 16 => m.issConvDate >= 0
    case 18 => 0 <= m.merchantType < 10_000
    case 19 => 0 <= m.acqCountry < 10_000
    case 22 => 0 <= m.posEntry < 10_000
    case 23 => 0 <= m.cardSeqno < 10_000
    case 25 => 0 <= m.posCondition < 100
    case 26 => true
    case 32 => PackableId(InstId(m), 11)
    case 33 => PackableId(m.originator, 10)
    case 37 => |m.refnum| == 12 && AllDigits(m.refnum)
    case 38 => |m.authnum| <= 6 && AllRestorable(m.authnum)
    case 41 => |m.termid| <= 8 && AllRestorable(m.termid)
    case 42 => |m.termloc| <= 15 && AllRestorable(m.termloc)
    case 43 => |m.acceptorname| <= 40 && AllRestorable(m.acceptorname)
    case 48 => CharAt(m.acceptorname, 4) in {0x43, 0x44}
    case 49 => 0 <= m.acqCurrency < 1000
    case 50 => 0 <= m.settlementCode < 1000
    case 51 => 0 <= m.issCurrency < 1000
    case 52 => HexText(m.pin)
    case 59 => |m.posGeo| <= 14 && AllRestorable(m.posGeo) && 0 !in m.posGeo
    case 60 => 0 <= m.posCap < 100
    case 62 => m.priv.bitmp621 < 0x20
    case 64 => HexText(m.mac)
    case _ => true
  }

  /** The record r received field f as the record m had it; dates lose their year, arrays keep their NULs. */
  predicate Received(f: nat, r: InternalMsg, m: InternalMsg)
  {
    match f
    case 2 => r.pan == m.pan
    case 3 => r.pcode == m.pcode
    case 4 => r.amount == m.amount
    case 7 => r.trandate % 10_000 == m.trandate % 10_000 && r.trantime == m.trantime
    case 11 => r.trace == m.trace
    case 12 => r.localTime == m.localTime
    case 13 => r.localDate % 10_000 == m.localDate % 10_000
    case 15 => r.settlementDate % 10_000 == m.settlementDate % 10_000
    case 16 => r.issConvDate % 10_000 == m.issConvDate % 10_000
    case 18 => r.merchantType == m.merchantType
    case 19 => r.acqCountry == m.acqCountry
    case 22 => r.posEntry == m.posEntry
    case 23 => r.cardSeqno == m.cardSeqno
    case 25 => r.posCondition == m.posCondition
    case 26 => r.posPinCap == m.posPinCap
    case 32 => InstId(r) == InstId(m)
    case 33 => r.originator == m.originator
    case 37 => r.refnum == m.refnum
    case 38 => r.authnum == Fixed(m.authnum, 6)
    case 41 => r.termid == Fixed(m.termid, 8)
    case 42 => r.termloc == Fixed(m.termloc, 15)
    case 43 => r.acceptorname == Fixed(m.acceptorname, 40)
    case 49 => r.acqCurrency == m.acqCurrency
    case 50 => r.settlementCode == m.settlementCode
    case 51 => r.issCurrency == m.issCurrency
    case 52 => r.pin == m.pin
    case 59 => r.posGeo == m.posGeo
    case 60 => r.posCap == m.posCap
    case 64 => r.mac == m.mac
    case _ => true
  }

  lemma FixedRestorable(s: Text, n: nat)
    requires AllRestorable(s) && |s| <= n
    ensures AllRestorable(Fixed(s, n))
  {}

  lemma WellFormedText(f: nat, m: InternalMsg, bm: Bitmap)
    requires f in {38, 41, 42, 43, 52, 59, 64} && |bm| == 8 && WellFormed(f, m)
    ensures Sendable(f, m, bm)
  {
    match f {
      case 38 => FixedRestorable(m.authnum, 6);
      case 41 => FixedRestorable(m.termid, 8);
      case 42 => FixedRestorable(m.termloc, 15);
      case 43 => FixedRestorable(m.acceptorname, 40);
      case 59 => CStrWhole(m.posGeo);
      case _ =>
    }
  }

  lemma WellFormedSendable(f: nat, m: InternalMsg, bm: Bitmap)
    requires f in SYMMETRIC && |bm| == 8 && WellFormed(f, m)
    ensures Carried(f) && Sendable(f, m, bm)
  {
    Pow10Small();
    if f in {38, 41, 42, 43, 52, 59, 64} {
      WellFormedText(f, m, bm);
    } else if f == 37 {
      RefnumDigits(m.refnum);
    } else if IsShort(f) {
      ShortSendable(f, m, bm);
    }
  }

  /** Whatever is behind a short, a number of its width goes out. */
  lemma ShortSendable(f: nat, m: InternalMsg, bm: Bitmap)
    requires IsShort(f) && |bm| == 8
    ensures Carried(f) && Sendable(f, m, bm)
  {
    hide Content, Leading, IntAt;
    Pow10Small();
    LeadingText(IntAt(f, m), ShortDigits(f));
  }

  lemma {:induction false} LowBits(x: byte)
    requires x < 0x20
    ensures !Bit(x, 7) && !Bit(x, 6) && !Bit(x, 5)
  {
    assert Shl1(5) == 32 by { assert Shl1(3) == 8; }
    Shl1Monotone(5, 6);
    Shl1Monotone(5, 7);
    BitAbove(x, 5);
    BitAbove(x, 6);
    BitAbove(x, 7);
  }

  lemma WellFormedAligned(f: nat, m: InternalMsg)
    requires f in CURSOR_ONLY && WellFormed(f, m)
    ensures 1 <= f <= 64 && !Carried(f) && f != 44 && Aligned(f, m)
  {
    if f == 62 { LowBits(m.priv.bitmp621); }
  }

  /** A field that is unspoiled on its way out is received, and no other. */
  lemma LandedReceived(f: nat, m: InternalMsg, r: InternalMsg, env: Env)
    requires f in SYMMETRIC && WellFormed(f, m) && Carried(f)
    requires Member(f, r) == Landed(f, WireValue(f, m), env)
    ensures Received(f, r, m) <==> Unspoiled(f, m)
  {
    hide Member, Landed, WireValue, Received, Unspoiled;
    if IsShort(f) {
      LandedShort(f, m, r, env);
    } else if f in {7, 13, 15, 16} {
      LandedDate(f, m, r, env);
    } else if f in {37, 59} {
      LandedText(f, m, r, env);
    } else if f in {3, 11, 12, 26} {
      LandedNumber(f, m, r, env);
    } else {
      LandedPlain(f, m, r, env);
    }
  }

  lemma LandedNumber(f: nat, m: InternalMsg, r: InternalMsg, env: Env)
    requires f in {3, 11, 12, 26} && WellFormed(f, m)
    requires Member(f, r) == Landed(f, WireValue(f, m), env)
    ensures Received(f, r, m) && Unspoiled(f, m)
  {}

  lemma LandedPlain(f: nat, m: InternalMsg, r: InternalMsg, env: Env)
    requires f in {2, 4, 32, 33, 38, 41, 42, 43, 52, 64} && WellFormed(f, m)
    requires Member(f, r) == Landed(f, WireValue(f, m), env)
    ensures Received(f, r, m) && Unspoiled(f, m)
  {
    hide AllRestorable, AllNibbles, AllHex;
  }

  lemma LandedText(f: nat, m: InternalMsg, r: InternalMsg, env: Env)
    requires f in {37, 59} && WellFormed(f, m)
    requires Member(f, r) == Landed(f, WireValue(f, m), env)
    ensures Received(f, r, m) && Unspoiled(f, m)
  {
    if f == 37 { RefnumDigits(m.refnum); } else { CStrWhole(m.posGeo); }
  }

  lemma LandedShort(f: nat, m: InternalMsg, r: InternalMsg, env: Env)
    requires IsShort(f)
    requires Member(f, r) == Landed(f, WireValue(f, m), env)
    ensures Received(f, r, m) <==> Unspoiled(f, m)
  {
    hide Behind, Leading, IntAt;
  }

  lemma LandedDate(f: nat, m: InternalMsg, r: InternalMsg, env: Env)
    requires f in {7, 13, 15, 16} && WellFormed(f, m)
    requires Member(f, r) == Landed(f, WireValue(f, m), env)
    ensures Received(f, r, m) && Unspoiled(f, m)
  {}

  /** Of the well-formed fields only the shorts can be spoiled, and only by what is behind them. */
  lemma OnlyShortsSpoil(f: nat, m: InternalMsg)
    requires f in SYMMETRIC && WellFormed(f, m)
    ensures Carried(f)
    ensures !IsShort(f) || Behind(f, m) == 0 ==> Unspoiled(f, m)
  {
    hide Behind, Leading, IntAt;
    Pow10Small();
    if IsShort(f) && Behind(f, m) == 0 { NothingBehind(f, m); }
  }

  /** A map over the two field sets. */
  predicate Plainly(bm: Bitmap)
  {
    |bm| == 8 && forall f :: 1 <= f <= 64 && IsSet(bm, f) ==> f in SYMMETRIC || f in CURSOR_ONLY
  }

  predicate WellFormedFor(bm: Bitmap, m: InternalMsg)
    requires |bm| == 8
  {
    forall f :: 1 <= f <= 64 && IsSet(bm, f) ==> WellFormed(f, m)
  }

  lemma WellFormedReady(bm: Bitmap, m: InternalMsg)
    requires Plainly(bm) && WellFormedFor(bm, m)
    ensures Ready(bm, m) && !IsSet(bm, 44) && !IsSet(bm, 1)
  {
    hide WellFormed, Sendable, Aligned, Carried;
    forall f | 1 <= f <= 64 ensures FieldReady(f, bm, m) {
      if IsSet(bm, f) {
        if f in SYMMETRIC { WellFormedSendable(f, m, bm); } else { WellFormedAligned(f, m); }
      }
    }
  }

  /** The decoder takes exactly the encoder's bytes, and receives exactly the selected fields that are unspoiled. */
  ghost predicate RoundTrips(bm: Bitmap, m: InternalMsg, m0: InternalMsg, env: Env, net: seq<byte>, rest: seq<byte>)
    requires |bm| == 8 && |net| == 8 && !IsSet(bm, 44)
  {
    var d := Decoded(1, bm, m0, env, Encoded(1, bm, m, net) + rest);
    && d.Done? && d.n == |Encoded(1, bm, m, net)|
    && forall f :: 1 <= f <= 64 && IsSet(bm, f) && Carried(f) ==> (Received(f, d.m, m) <==> Unspoiled(f, m))
  }

  lemma OneReceived(bm: Bitmap, m: InternalMsg, m0: InternalMsg, env: Env, net: seq<byte>, rest: seq<byte>, f: nat)
    requires |net| == 8 && Plainly(bm) && WellFormedFor(bm, m) && !IsSet(bm, 44)
    requires 1 <= f <= 64 && IsSet(bm, f) && Carried(f) && InStep(1, bm, m, m0, env, net, rest)
    ensures Received(f, Decoded(1, bm, m0, env, Encoded(1, bm, m, net) + rest).m, m) <==> Unspoiled(f, m)
  {
    hide Decoded, Encoded, Received, Unspoiled, WellFormed, Member, Landed, WireValue;
    var d := Decoded(1, bm, m0, env, Encoded(1, bm, m, net) + rest);
    assert f in SYMMETRIC by { if f in CURSOR_ONLY { WellFormedAligned(f, m); } }
    assert Arrived(f, d.m, m, env);
    LandedReceived(f, m, d.m, env);
  }

  /**
   * The round trip, for every map over the two sets, every well-formed record, and any record to start from: the
   * cursors agree, and a carried field is received exactly when it is unspoiled.
   */
  lemma DecodeRestores(bm: Bitmap, m: InternalMsg, m0: InternalMsg, env: Env, net: seq<byte>, rest: seq<byte>)
    requires |net| == 8 && Plainly(bm) && WellFormedFor(bm, m)
    ensures !IsSet(bm, 44) && RoundTrips(bm, m, m0, env, net, rest)
  {
    hide Received, Unspoiled, WellFormed, Decoded, Encoded, IsSet, Carried;
    WellFormedReady(bm, m);
    DecodeEncoded(1, bm, m, m0, env, net, rest);
    forall f | 1 <= f <= 64 && IsSet(bm, f) && Carried(f)
      ensures Received(f, Decoded(1, bm, m0, env, Encoded(1, bm, m, net) + rest).m, m) <==> Unspoiled(f, m)
    {
      OneReceived(bm, m, m0, env, net, rest, f);
    }
  }

  // ---- a short in front of another member -------------------------------------------------------

  /** Country 76 in front of card number 1 goes out as 6561: the int is 65612. */
  lemma CountrySpoiled(m: InternalMsg, net: seq<byte>)
    requires m.acqCountry == 76 && m.cardSeqno == 1 && |net| == 8
    ensures Written(19, m, net) == NumBytes(6561, 4) == [0x65, 0x61]
    ensures !Unspoiled(19, m)
  {
    hide NumBytes, Leading;
    assert IntAt(19, m) == 65612;
    LeadingFour(65612);
    Digits6561();
  }

  lemma LeadingFour(v: nat)
    requires 10_000 <= v < 100_000
    ensures Leading(v, 4) == v / 10
  {
    RoomFor(v, 4);
    RoomFor(v, 5);
    Pow10Small();
    assert Pow10(5) == 100_000 && Pow10(1) == 10;
  }

  lemma Digits6561()
    ensures NumBytes(6561, 4) == [0x65, 0x61]
  {
    hide Pack;
    Pow10Small();
    assert Decimal(6561, 4) == [0x36, 0x35, 0x36, 0x31];
    PackFour(Decimal(6561, 4));
  }

  lemma PackFour(t: Text)
    requires |t| == 4 && AllDigits(t)
    ensures Pack(t) == [16 * (t[0] - 0x30) + (t[1] - 0x30), 16 * (t[2] - 0x30) + (t[3] - 0x30)]
  {
    hide Or, PackByte;
    PackByteNibbles(t[0], t[1]);
    PackByteNibbles(t[2], t[3]);
    assert PackAt(t, 0) == PackByte(t[0], t[1]) && PackAt(t, 1) == PackByte(t[2], t[3]);
  }

  /** It may go well all the same: 7281 in front of 1 is 72817. */
  lemma LuckyShort(m: InternalMsg)
    requires m.merchantType == 7281 && m.acqCountry == 1
    ensures Behind(18, m) != 0 && Unspoiled(18, m)
  {
    hide Leading;
    assert IntAt(18, m) == 72817;
    LeadingFour(72817);
  }
}
