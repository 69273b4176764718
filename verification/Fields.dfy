/**
 * Every field in figures: how many bytes the decoder takes for it and what it makes of them, and which bytes the
 * encoder writes for which member. Nothing here goes through the shapes of Shapes and Layout.
 */
module Fields {
  import opened Memory
  import opened Digits
  import opened Ebcdic
  import opened Zoned
  import opened Money
  import opened Bitmaps
  import opened Message
  import opened Shapes
  import opened Layout
  import opened Wire

  /** n bytes are there: the record and as many bytes; or else the decoder runs off the data. */
  function Needs(b: seq<byte>, n: nat, m: InternalMsg): Step { if |b| >= n then Done(m, n) else Outside }

  /** n text bytes are there, none of which diverts the conversion. */
  predicate TextThere(b: seq<byte>, from: nat, n: nat)
  {
    |b| >= from + n && forall i :: from <= i < from + n ==> b[i] != 0x10 && b[i] != 0x32
  }

  /** The text of bytes from..from + n. */
  function TextOf(b: seq<byte>, from: nat, n: nat): Text
    requires |b| >= from + n
  {
    EtoaText(b[from..from + n])
  }

  lemma PlainThere(b: seq<byte>, from: nat, n: nat)
    requires |b| >= from + n
    ensures Plain(b[from..from + n]) <==> TextThere(b, from, n)
  {
    if Plain(b[from..from + n]) {
      forall i | from <= i < from + n ensures b[i] != 0x10 && b[i] != 0x32 {
        assert b[from..from + n][i - from] == b[i];
        assert !Diverts(b[from..from + n][i - from]);
      }
    }
  }

  // ---- in: what is read for a carried field -----------------------------------------------------

  lemma EvenRead(f: nat, len: nat, b: seq<byte>)
    requires (f, len) in {(3, 6), (11, 6), (12, 6), (13, 4), (14, 4), (15, 4), (16, 4), (18, 4), (19, 4), (22, 4),
                          (23, 4), (25, 2)}
    ensures Get(ShapeOf(f), b) == if |b| >= len / 2 then Got(Num(Btoi(b, len)), len / 2) else Nowhere
  {
    hide Btoi;
  }

  lemma OddRead(f: nat, b: seq<byte>)
    requires f in {49, 50, 51}
    ensures Get(ShapeOf(f), b) == if |b| >= 2 then Got(Num(Atoi(Unpack(b, 3))), 2) else Nowhere
  {
    hide Atoi, Unpack;
  }

  /** A length byte, at most cap, and half as many bytes. */
  predicate PackedThere(b: seq<byte>, cap: nat)
  {
    |b| >= 1 && b[0] as int <= cap && |b| >= 1 + (b[0] as int + 1) / 2
  }

  lemma PackedRead(f: nat, cap: nat, b: seq<byte>)
    requires (f, cap) in {(2, 19), (32, 11), (33, 10), (35, 79)}
    ensures Get(ShapeOf(f), b)
            == if PackedThere(b, cap) then Got(Txt(Unpack(b[1..], b[0])), 1 + (b[0] as int + 1) / 2) else Nowhere
  {
    hide Unpack;
  }

  lemma TextGot(n: nat, b: seq<byte>)
    ensures Get(Text8(n), b) == if TextThere(b, 0, n) then Got(Txt(TextOf(b, 0, n)), n) else Nowhere
  {
    hide EtoaText, Plain;
    if |b| >= n {
      PlainThere(b, 0, n);
      assert b[0..0 + n] == b[..n];
    }
  }

  lemma TextRead(f: nat, n: nat, b: seq<byte>)
    requires (f, n) in {(37, 12), (38, 6), (41, 8), (42, 15), (43, 40)}
    ensures Get(ShapeOf(f), b) == if TextThere(b, 0, n) then Got(Txt(TextOf(b, 0, n)), n) else Nowhere
  {
    hide EtoaText, Get, TextThere;
    assert ShapeOf(f) == Text8(n);
    TextGot(n, b);
  }

  /** A length byte, at most cap, and as many text bytes. */
  predicate VarThere(b: seq<byte>, cap: nat) { |b| >= 1 && b[0] as int <= cap && TextThere(b, 1, b[0]) }

  lemma VarRead(b: seq<byte>, cap: nat)
    ensures GetVarText(b, cap) == if VarThere(b, cap) then Got(Txt(TextOf(b, 1, b[0])), 1 + b[0] as int) else Nowhere
  {
    hide EtoaText, Plain;
    if |b| >= 1 && |b| >= 1 + b[0] as int {
      PlainThere(b, 1, b[0]);
      assert b[1..][..b[0]] == b[1..1 + b[0] as int];
    }
  }

  /** A field that was read is stored, or the message rejected. */
  lemma ReadThenStored(f: nat, m: InternalMsg, bm: Bitmap, env: Env, b: seq<byte>)
    requires Carried(f) && |bm| == 8 && 1 <= f <= 64
    ensures var r := Get(ShapeOf(f), b);
            ReadField(f, m, bm, env, b) ==
              if r.Nowhere? then Outside else if Refused(f, r.c) then Rejected
              else Done(Stored(f, r.c, m, bm, env), r.n)
  {
    hide Get, Refused, Stored;
  }

  lemma StoredNumber(f: nat, v: int, m: InternalMsg, bm: Bitmap, env: Env)
    requires |bm| == 8 && f in {11, 12, 18, 19, 22, 23}
    ensures !Refused(f, Num(v))
    ensures Stored(f, Num(v), m, bm, env) ==
              if f == 11 then m.(trace := v)
              else if f == 12 then m.(localTime := v)
              else if f == 18 then m.(merchantType := v)
              else if f == 19 then m.(acqCountry := v)
              else if f == 22 then m.(posEntry := v)
              else m.(cardSeqno := v)
  {
    hide IsSet;
  }

  lemma StoredSmall(f: nat, v: int, m: InternalMsg, bm: Bitmap, env: Env)
    requires |bm| == 8 && f in {25, 26, 49, 50, 51, 60}
    ensures !Refused(f, Num(v))
    ensures Stored(f, Num(v), m, bm, env) ==
              if f == 25 then m.(posCondition := v)
              else if f == 26 then m.(posPinCap := v % 256)
              else if f == 49 then m.(acqCurrency := v)
              else if f == 50 then m.(settlementCode := v)
              else if f == 51 then m.(issCurrency := v)
              else m.(posCap := v)
  {
    hide IsSet;
  }

  lemma StoredDate(f: nat, v: int, m: InternalMsg, bm: Bitmap, env: Env)
    requires |bm| == 8 && f in {13, 15, 16}
    ensures !Refused(f, Num(v))
    ensures var d := env.year * 10_000 + v;
            Stored(f, Num(v), m, bm, env) ==
              if f == 13 then m.(localDate := d) else if f == 15 then m.(settlementDate := d)
              else m.(issConvDate := d)
  {
    hide IsSet;
  }

  lemma StoredText(f: nat, t: Text, m: InternalMsg, bm: Bitmap, env: Env)
    requires |bm| == 8 && f in {2, 4, 33, 37, 38}
    ensures !Refused(f, Txt(t))
    ensures Stored(f, Txt(t), m, bm, env) ==
              if f == 2 then m.(pan := t)
              else if f == 4 then m.(amount := t)
              else if f == 33 then m.(originator := t)
              else if f == 37 then m.(refnum := CutAtBlank(CStr(t)))
              else m.(authnum := t)
  {
    hide IsSet, CutAtBlank, CStr;
  }

  lemma StoredPlace(f: nat, t: Text, m: InternalMsg, bm: Bitmap, env: Env)
    requires |bm| == 8 && f in {41, 42, 43, 45, 52, 59, 64}
    ensures !Refused(f, Txt(t))
    ensures Stored(f, Txt(t), m, bm, env) ==
              if f == 41 then m.(termid := t)
              else if f == 42 then m.(termloc := t)
              else if f == 43 then m.(acceptorname := t)
              else if f == 45 then m.(track2 := t)
              else if f == 52 then m.(pin := t)
              else if f == 59 then m.(posGeo := t)
              else m.(mac := t)
  {
    hide IsSet;
  }

  // ---- in: numbers ------------------------------------------------------------------------------

  lemma SixIn(f: nat, m: InternalMsg, bm: Bitmap, env: Env, b: seq<byte>)
    requires |bm| == 8 && f in {11, 12}
    ensures ReadField(f, m, bm, env, b)
            == if |b| < 3 then Outside
               else Done(if f == 11 then m.(trace := Btoi(b, 6)) else m.(localTime := Btoi(b, 6)), 3)
  {
    hide Btoi, IsSet, Get, ReadField, Refused, Stored;
    EvenRead(f, 6, b);
    ReadThenStored(f, m, bm, env, b);
    if |b| >= 3 { StoredNumber(f, Btoi(b, 6), m, bm, env); }
  }

  lemma FourIn(f: nat, m: InternalMsg, bm: Bitmap, env: Env, b: seq<byte>)
    requires |bm| == 8 && f in {18, 19, 22, 23}
    ensures |b| < 2 ==> ReadField(f, m, bm, env, b) == Outside
    ensures |b| >= 2 ==>
              var v := Btoi(b, 4);
              ReadField(f, m, bm, env, b)
              == Done(if f == 18 then m.(merchantType := v)
                      else if f == 19 then m.(acqCountry := v)
                      else if f == 22 then m.(posEntry := v)
                      else m.(cardSeqno := v), 2)
  {
    hide Btoi, IsSet, Get, ReadField, Refused, Stored;
    EvenRead(f, 4, b);
    ReadThenStored(f, m, bm, env, b);
    if |b| >= 2 { StoredNumber(f, Btoi(b, 4), m, bm, env); }
  }

  lemma DatesIn(f: nat, m: InternalMsg, bm: Bitmap, env: Env, b: seq<byte>)
    requires |bm| == 8 && f in {13, 15, 16}
    ensures |b| < 2 ==> ReadField(f, m, bm, env, b) == Outside
    ensures |b| >= 2 ==>
              var d := env.year * 10_000 + Btoi(b, 4);
              ReadField(f, m, bm, env, b)
              == Done(if f == 13 then m.(localDate := d)
                      else if f == 15 then m.(settlementDate := d)
                      else m.(issConvDate := d), 2)
  {
    hide Btoi, IsSet, Get, ReadField, Refused, Stored;
    EvenRead(f, 4, b);
    ReadThenStored(f, m, bm, env, b);
    if |b| >= 2 { StoredDate(f, Btoi(b, 4), m, bm, env); }
  }

  lemma StampIn(m: InternalMsg, bm: Bitmap, env: Env, b: seq<byte>)
    requires |bm| == 8
    ensures |b| >= 5 ==>
              ReadField(7, m, bm, env, b)
              == Done(m.(trandate := env.year * 10_000 + Btoi(b, 4), trantime := Btoi(b[2..], 6)), 5)
    ensures |b| < 5 ==> ReadField(7, m, bm, env, b) == Outside
  {
    hide Btoi, IsSet;
  }

  /** The kinds of processing code that are let in, and the type of transaction they stand for. */
  function Kind(pcode: int): Option<int>
  {
    var txn := pcode / 10_000;
    if txn in {0, 1, 3, 20, 30, 40, 82} then Some(txn)
    else if txn == 28 then Some(20)
    else if txn == 84 then Some(82)
    else if txn >= 90 then Some(30)
    else None
  }

  lemma StoredPcode(v: int, m: InternalMsg, bm: Bitmap, env: Env)
    requires |bm| == 8
    ensures Refused(3, Num(v)) <==> !(Kind(v).Some? && v / 100 % 100 in {0, 10, 20, 30} && v % 100 == 0)
    ensures Kind(v).Some? ==>
              Stored(3, Num(v), m, bm, env)
              == m.(pcode := v, txntype := Kind(v).value, fromAcct := v / 100 % 100)
  {
    assert TransactionType(v) == Kind(v);
  }

  lemma PcodeIn(m: InternalMsg, bm: Bitmap, env: Env, b: seq<byte>)
    requires |bm| == 8
    ensures |b| < 3 ==> ReadField(3, m, bm, env, b) == Outside
    ensures |b| >= 3 ==>
              var v := Btoi(b, 6);
              ReadField(3, m, bm, env, b) ==
                if Kind(v).Some? && v / 100 % 100 in {0, 10, 20, 30} && v % 100 == 0
                then Done(m.(pcode := v, txntype := Kind(v).value, fromAcct := v / 100 % 100), 3)
                else Rejected
  {
    hide Btoi, IsSet, ReadField, Get, Stored;
    EvenRead(3, 6, b);
    ReadThenStored(3, m, bm, env, b);
    if |b| >= 3 { StoredPcode(Btoi(b, 6), m, bm, env); }
  }

  lemma ExpiryIn(m: InternalMsg, bm: Bitmap, env: Env, b: seq<byte>)
    requires |bm| == 8
    ensures |b| < 2 ==> ReadField(14, m, bm, env, b) == Outside
    ensures |b| >= 2 ==>
              var v := Btoi(b, 4);
              ReadField(14, m, bm, env, b) ==
                if v % 100 == 0 || v % 100 > 12 || v / 100 > 99 then Rejected
                else if IsSet(bm, 34) || IsSet(bm, 44) then Done(m, 2)
                else Done(m.(track2 := [0x3D] + ItoaText(Unsigned(v), 4)), 2)
  {
    hide Btoi, IsSet, ItoaText, Get, ReadField, Refused, Stored;
    EvenRead(14, 4, b);
    ReadThenStored(14, m, bm, env, b);
    if |b| >= 2 { StoredExpiry(Btoi(b, 4), m, bm, env); }
  }

  lemma StoredExpiry(v: int, m: InternalMsg, bm: Bitmap, env: Env)
    requires |bm| == 8
    ensures Refused(14, Num(v)) <==> v % 100 == 0 || v % 100 > 12 || v / 100 > 99
    ensures Stored(14, Num(v), m, bm, env) ==
              if IsSet(bm, 34) || IsSet(bm, 44) then m else m.(track2 := [0x3D] + ItoaText(Unsigned(v), 4))
  {
    hide IsSet, ItoaText;
  }

  lemma ThreeIn(f: nat, m: InternalMsg, bm: Bitmap, env: Env, b: seq<byte>)
    requires |bm| == 8 && f in {49, 50, 51}
    ensures |b| < 2 ==> ReadField(f, m, bm, env, b) == Outside
    ensures |b| >= 2 ==>
              var v := Atoi(Unpack(b, 3));
              ReadField(f, m, bm, env, b)
              == Done(if f == 49 then m.(acqCurrency := v)
                      else if f == 50 then m.(settlementCode := v)
                      else m.(issCurrency := v), 2)
  {
    hide Unpack, Atoi, IsSet, Get, ReadField, Refused, Stored;
    OddRead(f, b);
    ReadThenStored(f, m, bm, env, b);
    if |b| >= 2 { StoredSmall(f, Atoi(Unpack(b, 3)), m, bm, env); }
  }

  lemma ConditionIn(m: InternalMsg, bm: Bitmap, env: Env, b: seq<byte>)
    requires |bm| == 8
    ensures ReadField(25, m, bm, env, b)
            == if |b| < 1 then Outside else Done(m.(posCondition := Btoi(b, 2)), 1)
  {
    hide Btoi, IsSet, Get, ReadField, Refused, Stored;
    EvenRead(25, 2, b);
    ReadThenStored(25, m, bm, env, b);
    if |b| >= 1 { StoredSmall(25, Btoi(b, 2), m, bm, env); }
  }

  lemma PinCapIn(m: InternalMsg, bm: Bitmap, env: Env, b: seq<byte>)
    requires |bm| == 8
    ensures ReadField(26, m, bm, env, b) == if |b| < 1 then Outside else Done(m.(posPinCap := b[0]), 1)
  {
    hide IsSet, ReadField, Refused, Stored;
    ReadThenStored(26, m, bm, env, b);
    if |b| >= 1 { StoredSmall(26, b[0], m, bm, env); }
  }

  /** A byte that is not looked at, then two digits. */
  lemma CapIn(m: InternalMsg, bm: Bitmap, env: Env, b: seq<byte>)
    requires |bm| == 8
    ensures ReadField(60, m, bm, env, b)
            == if |b| < 2 then Outside else Done(m.(posCap := Atoi(Unpack(b[1..], 2))), 2)
  {
    hide Unpack, Atoi, IsSet, ReadField, Refused, Stored;
    ReadThenStored(60, m, bm, env, b);
    if |b| >= 2 { StoredSmall(60, Atoi(Unpack(b[1..], 2)), m, bm, env); }
  }

  // ---- in: packed and plain text ----------------------------------------------------------------

  lemma AmountIn(m: InternalMsg, bm: Bitmap, env: Env, b: seq<byte>)
    requires |bm| == 8
    ensures ReadField(4, m, bm, env, b) == if |b| < 6 then Outside else Done(m.(amount := Unpack(b, 12)), 6)
  {
    hide Unpack, IsSet, ReadField, Refused, Stored;
    ReadThenStored(4, m, bm, env, b);
    if |b| >= 6 { StoredText(4, Unpack(b, 12), m, bm, env); }
  }

  lemma PackedIn(f: nat, m: InternalMsg, bm: Bitmap, env: Env, b: seq<byte>, cap: nat)
    requires |bm| == 8 && (f, cap) in {(2, 19), (33, 10)}
    ensures !PackedThere(b, cap) ==> ReadField(f, m, bm, env, b) == Outside
    ensures PackedThere(b, cap) ==>
              var t := Unpack(b[1..], b[0]);
              ReadField(f, m, bm, env, b)
              == Done(if f == 2 then m.(pan := t) else m.(originator := t), 1 + (b[0] as int + 1) / 2)
  {
    hide Unpack, IsSet, Get, ReadField, Refused, Stored;
    PackedRead(f, cap, b);
    ReadThenStored(f, m, bm, env, b);
    if PackedThere(b, cap) { StoredText(f, Unpack(b[1..], b[0]), m, bm, env); }
  }

  /** An institution id of more than nine digits is kept apart, and 0000000004 put in its place. */
  lemma InstitutionIn(m: InternalMsg, bm: Bitmap, env: Env, b: seq<byte>)
    requires |bm| == 8
    ensures !PackedThere(b, 11) ==> ReadField(32, m, bm, env, b) == Outside
    ensures PackedThere(b, 11) ==>
              var t := Unpack(b[1..], b[0]);
              ReadField(32, m, bm, env, b)
              == Done(if b[0] > 9
                      then m.(acquirer := [0x30, 0x30, 0x30, 0x30, 0x30, 0x30, 0x30, 0x30, 0x30, 0x34],
                              priv := m.priv.(haveLargeBin := true, largeBin := t))
                      else m.(acquirer := t, priv := m.priv.(haveLargeBin := false)),
                      1 + (b[0] as int + 1) / 2)
  {
    hide Unpack, IsSet;
  }

  /** Track 2 loses its first character when their number is odd. */
  lemma TrackTwoIn(m: InternalMsg, bm: Bitmap, env: Env, b: seq<byte>)
    requires |bm| == 8
    ensures !PackedThere(b, 79) ==> ReadField(35, m, bm, env, b) == Outside
    ensures PackedThere(b, 79) ==>
              var t := Unpack(b[1..], b[0]);
              ReadField(35, m, bm, env, b)
              == Done(m.(track2 := if b[0] % 2 == 1 then t[1..] else t), 1 + (b[0] as int + 1) / 2)
  {
    hide Unpack, IsSet;
  }

  lemma TextIn(f: nat, m: InternalMsg, bm: Bitmap, env: Env, b: seq<byte>, n: nat)
    requires |bm| == 8 && (f, n) in {(37, 12), (38, 6), (41, 8), (42, 15), (43, 40)}
    ensures !TextThere(b, 0, n) ==> ReadField(f, m, bm, env, b) == Outside
    ensures TextThere(b, 0, n) ==>
              var t := TextOf(b, 0, n);
              ReadField(f, m, bm, env, b) ==
                Done(if f == 37 then m.(refnum := CutAtBlank(CStr(t)))
                     else if f == 38 then m.(authnum := t)
                     else if f == 41 then m.(termid := t)
                     else if f == 42 then m.(termloc := t)
                     else m.(acceptorname := t), n)
  {
    hide EtoaText, IsSet, CutAtBlank, CStr, Get, ReadField, Refused, Stored;
    TextRead(f, n, b);
    ReadThenStored(f, m, bm, env, b);
    if TextThere(b, 0, n) {
      if f in {37, 38} { StoredText(f, TextOf(b, 0, n), m, bm, env); }
      else { StoredPlace(f, TextOf(b, 0, n), m, bm, env); }
    }
  }

  lemma VarTextIn(f: nat, m: InternalMsg, bm: Bitmap, env: Env, b: seq<byte>, cap: nat)
    requires |bm| == 8 && (f, cap) in {(45, 79), (59, 14)}
    ensures !VarThere(b, cap) ==> ReadField(f, m, bm, env, b) == Outside
    ensures VarThere(b, cap) ==>
              var t := TextOf(b, 1, b[0]);
              ReadField(f, m, bm, env, b) == Done(if f == 45 then m.(track2 := t) else m.(posGeo := t), 1 + b[0] as int)
  {
    hide EtoaText, IsSet, GetVarText, ReadField, Refused, Stored;
    VarRead(b, cap);
    ReadThenStored(f, m, bm, env, b);
    if VarThere(b, cap) { StoredPlace(f, TextOf(b, 1, b[0]), m, bm, env); }
  }

  lemma HexGot(b: seq<byte>)
    ensures Get(Hex, b) == if |b| < 8 then Nowhere else Got(Txt(ToZoned(b[..8])), 8)
  {
    hide ToZoned;
  }

  lemma BinaryRead(f: nat, b: seq<byte>)
    requires f in {52, 64}
    ensures Get(ShapeOf(f), b) == if |b| < 8 then Nowhere else Got(Txt(ToZoned(b[..8])), 8)
  {
    hide ToZoned, Get;
    assert ShapeOf(f) == Hex;
    HexGot(b);
  }

  lemma BinaryIn(f: nat, m: InternalMsg, bm: Bitmap, env: Env, b: seq<byte>)
    requires |bm| == 8 && f in {52, 64}
    ensures |b| < 8 ==> ReadField(f, m, bm, env, b) == Outside
    ensures |b| >= 8 ==>
              ReadField(f, m, bm, env, b)
              == Done(if f == 52 then m.(pin := ToZoned(b[..8])) else m.(mac := ToZoned(b[..8])), 8)
  {
    hide ToZoned, IsSet, ReadField, Refused, Stored, Get;
    BinaryRead(f, b);
    ReadThenStored(f, m, bm, env, b);
    if |b| >= 8 { StoredPlace(f, ToZoned(b[..8]), m, bm, env); }
  }

  // ---- in: fields that carry no value both ways -------------------------------------------------

  lemma SkippedIn(f: nat, n: nat, m: InternalMsg, bm: Bitmap, env: Env, b: seq<byte>)
    requires |bm| == 8 && (f, n) in {(1, 8), (9, 4), (10, 4), (20, 2), (21, 2), (28, 9), (40, 3)}
    ensures ReadField(f, m, bm, env, b) == Needs(b, n, m)
  {
    hide IsSet, Get, Store, ReadBalances, ReadNetworkField, ReadCashBack, PaymentNoted, MoneyIn, GetVarText, Plain;
  }

  lemma AnnouncedIn(f: nat, m: InternalMsg, bm: Bitmap, env: Env, b: seq<byte>)
    requires |bm| == 8 && f in {34, 48}
    ensures ReadField(f, m, bm, env, b) == if |b| == 0 then Outside else Needs(b, 1 + b[0] as int, m)
  {
    hide IsSet;
  }

  /** Fields 5 and 6: which member gets which amount, as money text of twelve digits. */
  lemma AmountsIn(m: InternalMsg, bm: Bitmap, env: Env, b: seq<byte>)
    requires |bm| == 8
    ensures |b| >= 6 ==>
              && ReadField(5, m, bm, env, b) == Done(m.(settlementAmount := MoneyText(NibbleText(b, 12))), 6)
              && ReadField(6, m, bm, env, b) == Done(m.(amountEquiv := MoneyText(NibbleText(b, 12))), 6)
    ensures |b| < 6 ==> ReadField(5, m, bm, env, b) == ReadField(6, m, bm, env, b) == Outside
  {
    hide MoneyText, NibbleText, IsSet;
  }

  /** Field 54 is there: 21 characters, or 42 when it announces more than 21 and no more than 42. */
  predicate BalancesThere(b: seq<byte>)
  {
    |b| >= 22 && b[0] <= 42 && (b[0] > 21 ==> |b| >= 43) && TextThere(b, 1, b[0])
  }

  /** Its characters: text as far as announced, and the bytes that follow as they are. */
  function BalanceText(b: seq<byte>): (t: Text)
    requires BalancesThere(b)
    ensures |t| == |b| - 1
  {
    TextOf(b, 1, b[0]) + b[1 + b[0] as int..]
  }

  /** Field 54: the available balance in characters 10 to 21, the cash back in 31 to 42 of a longer one. */
  lemma BalancesIn54(m: InternalMsg, bm: Bitmap, env: Env, b: seq<byte>)
    requires |bm| == 8
    ensures !BalancesThere(b) ==> ReadField(54, m, bm, env, b) == Outside
    ensures BalancesThere(b) ==>
              var t := BalanceText(b);
              var aval := CStr(MoneyText(t[9..21]));
              ReadField(54, m, bm, env, b) ==
                if b[0] > 21 then Done(m.(avalBalance := aval, cashBack := CStr(MoneyText(t[30..42]))), 43)
                else Done(m.(avalBalance := aval), 22)
  {
    hide MoneyText, CStr, EtoaText, Plain, IsSet;
    if |b| >= 1 && |b| >= 1 + b[0] as int { PlainThere(b, 1, b[0]); }
  }

  lemma CashBackIn61(m: InternalMsg, bm: Bitmap, env: Env, b: seq<byte>)
    requires |bm| == 8
    ensures |b| < 7 ==> ReadField(61, m, bm, env, b) == Outside
    ensures |b| >= 7 ==>
              var more := if b[0] > 12 then (b[0] as int - 12) / 2 else 0;
              ReadField(61, m, bm, env, b)
              == Needs(b, 7 + more, m.(cashBack := MoneyText(NibbleText(b[1..], 12))))
  {
    hide MoneyText, NibbleText, IsSet;
  }

  lemma SecurityIn(m: InternalMsg, bm: Bitmap, env: Env, b: seq<byte>)
    requires |bm| == 8
    ensures |b| < 8 ==> ReadField(53, m, bm, env, b) == Outside
    ensures |b| >= 8 ==>
              ReadField(53, m, bm, env, b) == Done(m.(formatCode := b[0], pinAlgo := [b[1], b[2]], pinIndex := b[3]), 8)
  {
    hide IsSet;
    if |b| >= 8 { assert b[1..3] == [b[1], b[2]]; }
  }

  lemma PaymentIn(m: InternalMsg, bm: Bitmap, env: Env, b: seq<byte>)
    requires |bm| == 8 && |m.priv.bitmap| == 16
    ensures ReadField(62, m, bm, env, b)
            == Needs(b, 9, m.(priv := m.priv.(length62 := CharAt(b, 0), bitmp621 := 0,
                                              bitmap := [0, 0, 0, 0, 0, 0, 0, 0] + m.priv.bitmap[8..])))
  {
    hide IsSet;
    assert Zeros(8) == [0, 0, 0, 0, 0, 0, 0, 0];
  }

  lemma ResponseIn(m: InternalMsg, bm: Bitmap, env: Env, b: seq<byte>)
    requires |bm| == 8
    ensures ReadField(39, m, bm, env, b)
            == if TextThere(b, 0, 2) then Done(m.(respcode := env.junk), 2) else Outside
  {
    hide EtoaText, IsSet, Plain;
    if |b| >= 2 {
      PlainThere(b, 0, 2);
      assert b[0..0 + 2] == b[..2];
    }
  }

  lemma ReasonIn(m: InternalMsg, bm: Bitmap, env: Env, b: seq<byte>)
    requires |bm| == 8
    ensures ReadField(44, m, bm, env, b)
            == if VarThere(b, 25) then Done(m.(addresponse := TextOf(b, 1, b[0])), 1 + b[0] as int) else Outside
  {
    hide EtoaText, IsSet, GetVarText;
    VarRead(b, 25);
  }

  /** The other primary fields have no case in the decoder's switch. */
  lemma OthersIn(f: nat, m: InternalMsg, bm: Bitmap, env: Env, b: seq<byte>)
    requires |bm| == 8 && f in {8, 17, 24, 27, 29, 30, 31, 36, 46, 47, 55, 56, 57, 58}
    ensures ReadField(f, m, bm, env, b) == Done(m, 0)
  {
    hide IsSet;
  }

  // ---- bits of a byte ---------------------------------------------------------------------------

  lemma {:induction false} BitOf(x: nat, n: nat)
    ensures Bit(x, n) <==> x / Shl1(n) % 2 == 1
    decreases n
  {
    if n > 0 {
      BitOf(x / 2, n - 1);
      HalfFirst(x, Shl1(n - 1));
    }
  }

  lemma HalfFirst(x: nat, d: nat)
    requires d > 0
    ensures x / 2 / d == x / (2 * d)
  {
    var q, r := x / 2 / d, x / 2 % d;
    assert x == 2 * (q * d + r) + x % 2;
    assert x == q * (2 * d) + (2 * r + x % 2);
    QuotientIs(x, 2 * d, q, 2 * r + x % 2);
  }

  lemma ByteBits(x: byte)
    ensures Bit(x, 7) <==> x / 128 % 2 == 1
    ensures Bit(x, 6) <==> x / 64 % 2 == 1
    ensures Bit(x, 5) <==> x / 32 % 2 == 1
    ensures Bit(x, 4) <==> x / 16 % 2 == 1
    ensures Bit(x, 3) <==> x / 8 % 2 == 1
    ensures Bit(x, 2) <==> x / 4 % 2 == 1
    ensures Bit(x, 1) <==> x / 2 % 2 == 1
    ensures Bit(x, 0) <==> x % 2 == 1
    ensures !Bit(x, 8)
  {
    hide Bit;
    forall n | 0 <= n <= 8 ensures Bit(x, n) <==> x / Shl1(n) % 2 == 1 { BitOf(x, n); }
    assert Shl1(3) == 8 && Shl1(2) == 4 && Shl1(1) == 2 && Shl1(0) == 1;
    assert Shl1(6) == 64 && Shl1(5) == 32 && Shl1(4) == 16;
    assert Shl1(8) == 256 && Shl1(7) == 128;
  }

  /** Field f of a map is bit 7 - (f - 1) % 8 of byte (f - 1) / 8: the highest bit comes first. */
  lemma FieldBit(bm: Bitmap, f: nat)
    requires |bm| == 8 && 1 <= f <= 64
    ensures IsSet(bm, f) <==> bm[(f - 1) / 8] / Shl1(7 - (f - 1) % 8) % 2 == 1
  {
    BitOf(bm[ByteOf(f)], PositionOf(f));
  }

  // ---- in: field 63 -----------------------------------------------------------------------------

  lemma NetworkBits(x: byte)
    ensures NetMapOf(x) == NetMap(false, x / 128 % 2 == 1, x / 64 % 2 == 1, x / 32 % 2 == 1, x / 16 % 2 == 1,
                                  x / 8 % 2 == 1, x / 4 % 2 == 1, x / 2 % 2 == 1, x % 2 == 1)
  {
    hide Bit;
    ByteBits(x);
  }

  /** The offsets at which its parts begin. */
  datatype Parts = Parts(reason: nat, stip: nat, serial: nat, back: nat, low: nat, end: nat)

  function PartsOf(x: byte): Parts
  {
    var o1 := 4 + if x / 128 % 2 == 1 then 2 else 0;
    var o2 := o1 + if x / 64 % 2 == 1 then 2 else 0;
    var o3 := o2 + if x / 32 % 2 == 1 then 2 else 0;
    var o4 := o3 + if x / 16 % 2 == 1 then 3 else 0;
    var o5 := o4 + if x / 8 % 2 == 1 then 7 else 0;
    var o6 := o5 + if x / 4 % 2 == 1 then 8 else 0;
    Parts(o1, o2, o3, o4, o5, o6 + (if x / 2 % 2 == 1 then 4 else 0) + if x % 2 == 1 then 12 else 0)
  }

  lemma PartsLengths(x: byte)
    ensures 4 + NetworkLength(NetMapOf(x)) == PartsOf(x).end
    ensures 4 + CodesLength(NetMapOf(x)) == PartsOf(x).back
  {
    hide NetMapOf;
    NetworkBits(x);
  }

  lemma CodesAt(x: byte, b: seq<byte>)
    requires |b| >= PartsOf(x).end
    ensures |b| >= 4 && CodesLength(NetMapOf(x)) <= |b| - 4
    ensures var p := PartsOf(x);
            CodesOf(NetMapOf(x), b[4..])
            == NetCodes(0, if x / 128 % 2 == 1 then Btoi(b[4..], 4) else 0,
                        if x / 64 % 2 == 1 then Btoi(b[p.reason..], 4) else 0,
                        if x / 32 % 2 == 1 then Btoi(b[p.stip..], 4) else 0,
                        if x / 16 % 2 == 1 then Btoi(b[p.serial..], 6) else 0)
  {
    hide NetMapOf, Btoi;
    NetworkBits(x);
    PartsLengths(x);
    Slices(b, |b| - 4);
  }

  lemma Slices(b: seq<byte>, n: nat)
    requires |b| >= 4 + n
    ensures forall o :: 0 <= o <= n ==> b[4..][o..] == b[4 + o..]
  {}

  lemma NumbersStored(k: NetMap, m: InternalMsg, c: NetCodes, low: byte)
    requires !k.b0
    ensures NetworkStored(k, m, c, low)
            == m.(lifeCycle := if k.b1 then c.cycle * 3600 else m.lifeCycle,
                  revcode := if k.b3 then c.stip else if k.b2 then c.reason else m.revcode,
                  serial2 := if k.b4 then c.second else m.serial2,
                  serial1 := if k.b6 then m.serial1 + low else m.serial1)
  {}

  /** Field 63: the first byte of its map says which numbers and gaps follow. */
  lemma NetworkIn(m: InternalMsg, bm: Bitmap, env: Env, b: seq<byte>)
    requires |bm| == 8 && |b| >= 4
    ensures |b| < PartsOf(b[1]).end ==> ReadField(63, m, bm, env, b) == Outside
    ensures |b| >= PartsOf(b[1]).end ==>
              var x := b[1];
              var p := PartsOf(x);
              ReadField(63, m, bm, env, b)
              == Done(m.(priv := m.priv.(netId := b[1..3]),
                         lifeCycle := if x / 128 % 2 == 1 then Btoi(b[4..], 4) * 3600 else m.lifeCycle,
                         revcode := if x / 32 % 2 == 1 then Btoi(b[p.stip..], 4)
                                    else if x / 64 % 2 == 1 then Btoi(b[p.reason..], 4) else m.revcode,
                         serial2 := if x / 16 % 2 == 1 then Btoi(b[p.serial..], 6) else m.serial2,
                         serial1 := if x / 4 % 2 == 1 then m.serial1 + b[p.low] else m.serial1), p.end)
  {
    hide Btoi, IsSet, NetMapOf, CodesOf, NetworkLength, CodesLength, ReadNetwork, PartsOf;
    PartsLengths(b[1]);
    if |b| >= PartsOf(b[1]).end { NetworkRead(m.(priv := m.priv.(netId := b[1..3])), b); }
  }

  lemma NetworkRead(m: InternalMsg, b: seq<byte>)
    requires |b| >= 4 && |b| >= PartsOf(b[1]).end
    ensures |b| - 4 >= NetworkLength(NetMapOf(b[1]))
    ensures var x := b[1];
            var p := PartsOf(x);
            ReadNetwork(NetMapOf(x), m, b[4..])
            == m.(lifeCycle := if x / 128 % 2 == 1 then Btoi(b[4..], 4) * 3600 else m.lifeCycle,
                  revcode := if x / 32 % 2 == 1 then Btoi(b[p.stip..], 4)
                             else if x / 64 % 2 == 1 then Btoi(b[p.reason..], 4) else m.revcode,
                  serial2 := if x / 16 % 2 == 1 then Btoi(b[p.serial..], 6) else m.serial2,
                  serial1 := if x / 4 % 2 == 1 then m.serial1 + b[p.low] else m.serial1)
  {
    hide Btoi, NetMapOf, CodesOf, NetworkLength, CodesLength, NetworkStored;
    var x := b[1];
    var k, p := NetMapOf(x), PartsOf(x);
    PartsLengths(x);
    NetworkBits(x);
    CodesAt(x, b);
    var low: byte := if k.b6 then b[4..][Past(k.b5, CodesLength(k), 7)] else 0;
    NumbersStored(k, m, CodesOf(k, b[4..]), low);
  }

  // ---- out: digits ------------------------------------------------------------------------------

  /** The last two digits of v in one byte. */
  function Two(v: nat): byte { 16 * (v / 10 % 10) + v % 10 }

  lemma PackPair(t: Text, a: byte, b: byte)
    requires IsDigit(a) && IsDigit(b)
    ensures Pack(t + [a, b]) == Pack(t) + [16 * (a - 0x30) + (b - 0x30)]
  {
    hide PackByte;
    var s := t + [a, b];
    PackByteNibbles(a, b);
    assert |Pack(s)| == |Pack(t)| + 1;
    forall i | 0 <= i < |Pack(t)| ensures Pack(s)[i] == Pack(t)[i] {
      assert PackAt(s, i) == PackAt(t, i);
    }
    assert PackAt(s, |Pack(t)|) == PackByte(a, b);
  }

  /** Two more digits are one more byte. */
  lemma TwoMore(v: nat, n: nat)
    ensures Pack(Decimal(v, n + 2)) == Pack(Decimal(v / 100, n)) + [Two(v)]
  {
    hide Pack;
    var t := Decimal(v / 100, n);
    assert v / 10 / 10 == v / 100;
    var a, b := 0x30 + v / 10 % 10, 0x30 + v % 10;
    assert Decimal(v, n + 2) == Decimal(v / 10, n + 1) + [b];
    assert Decimal(v / 10, n + 1) == t + [a];
    assert (t + [a]) + [b] == t + [a, b];
    PackPair(t, a, b);
  }

  lemma PackNone()
    ensures Pack(Decimal(0, 0)) == [] && forall v: nat :: Pack(Decimal(v, 0)) == []
  {}

  lemma PackOne(v: nat)
    ensures Pack(Decimal(v, 1)) == [v % 10]
  {
    assert Decimal(v, 1) == Decimal(v / 10, 0) + [0x30 + v % 10] == [0x30 + v % 10];
  }

  lemma NumberDigits(v: nat, n: nat)
    requires n <= 8 && v < Pow10(n)
    ensures NumBytes(v, n) == Pack(Decimal(v, n))
  {
    SmallNumber(v, n);
  }

  lemma TwoDigitBytes(v: nat)
    requires v < 100
    ensures NumBytes(v, 2) == [Two(v)]
  {
    hide NumBytes, Pack, Decimal;
    Pow10Small();
    NumberDigits(v, 2);
    TwoMore(v, 0);
    PackNone();
  }

  lemma FourDigitBytes(v: nat)
    requires v < 10_000
    ensures NumBytes(v, 4) == [Two(v / 100), Two(v)]
  {
    hide NumBytes, Pack, Decimal;
    Pow10Small();
    NumberDigits(v, 4);
    TwoMore(v, 2);
    TwoMore(v / 100, 0);
    PackNone();
  }

  lemma SixDigitBytes(v: nat)
    requires v < 1_000_000
    ensures NumBytes(v, 6) == [Two(v / 10_000), Two(v / 100), Two(v)]
  {
    hide NumBytes, Pack, Decimal;
    Pow10Small();
    NumberDigits(v, 6);
    TwoMore(v, 4);
    TwoMore(v / 100, 2);
    assert v / 100 / 100 == v / 10_000;
    TwoMore(v / 10_000, 0);
    PackNone();
  }

  lemma ThreeDigitBytes(v: nat)
    requires v < 1000
    ensures NumBytes(v, 3) == [v / 100, Two(v)]
  {
    hide NumBytes, Pack, Decimal;
    Pow10Small();
    NumberDigits(v, 3);
    TwoMore(v, 1);
    PackOne(v / 100);
  }

  // ---- out: numbers -----------------------------------------------------------------------------

  lemma SixOut(m: InternalMsg, net: seq<byte>)
    requires |net| == 8
    ensures 0 <= m.pcode < 1_000_000 ==>
              Written(3, m, net) == [Two(m.pcode / 10_000), Two(m.pcode / 100), Two(m.pcode)]
    ensures 0 <= m.trace < 1_000_000 ==>
              Written(11, m, net) == [Two(m.trace / 10_000), Two(m.trace / 100), Two(m.trace)]
    ensures 0 <= m.localTime < 1_000_000 ==>
              Written(12, m, net) == [Two(m.localTime / 10_000), Two(m.localTime / 100), Two(m.localTime)]
  {
    hide NumBytes, Two;
    if 0 <= m.pcode < 1_000_000 { SixDigitBytes(m.pcode); }
    if 0 <= m.trace < 1_000_000 { SixDigitBytes(m.trace); }
    if 0 <= m.localTime < 1_000_000 { SixDigitBytes(m.localTime); }
  }

  lemma StampOut(m: InternalMsg, net: seq<byte>)
    requires |net| == 8 && m.trandate >= 0 && 0 <= m.trantime < 1_000_000
    ensures Written(7, m, net)
            == [Two(m.trandate % 10_000 / 100), Two(m.trandate % 10_000),
                Two(m.trantime / 10_000), Two(m.trantime / 100), Two(m.trantime)]
  {
    hide NumBytes, Two;
    FourDigitBytes(m.trandate % 10_000);
    SixDigitBytes(m.trantime);
  }

  lemma DatesOut(m: InternalMsg, net: seq<byte>)
    requires |net| == 8
    ensures m.localDate >= 0 ==> Written(13, m, net) == [Two(m.localDate % 10_000 / 100), Two(m.localDate % 10_000)]
    ensures m.settlementDate >= 0 ==>
              Written(15, m, net) == [Two(m.settlementDate % 10_000 / 100), Two(m.settlementDate % 10_000)]
    ensures m.issConvDate >= 0 ==>
              Written(16, m, net) == [Two(m.issConvDate % 10_000 / 100), Two(m.issConvDate % 10_000)]
  {
    hide NumBytes, Two;
    if m.localDate >= 0 { FourDigitBytes(m.localDate % 10_000); }
    if m.settlementDate >= 0 { FourDigitBytes(m.settlementDate % 10_000); }
    if m.issConvDate >= 0 { FourDigitBytes(m.issConvDate % 10_000); }
  }

  /** Only the last two digits count. */
  lemma TwoLow(h: nat, l: nat)
    requires l < 100
    ensures Two(100 * h + l) == Two(l)
  {
    assert (100 * h + l) / 10 == 10 * h + l / 10;
    assert (10 * h + l / 10) % 10 == l / 10 % 10;
  }

  lemma Swapped(x: int)
    requires 0 < x < 10_000
    ensures 0 <= ExpiryOut(x) < 10_000
    ensures x < 1300 ==> Two(ExpiryOut(x) / 100) == Two(x % 100) && Two(ExpiryOut(x)) == Two(x / 100)
    ensures x >= 1300 ==> ExpiryOut(x) == x
  {
    hide Two;
    if x < 1300 {
      var h, l := x % 100, x / 100;
      assert ExpiryOut(x) == 100 * h + l;
      assert (100 * h + l) / 100 == h;
      TwoLow(h, l);
    }
  }

  lemma Elevens()
    ensures Two(1111 / 100) == 0x11 && Two(1111) == 0x11
  {}

  /** The expiry digits are those behind the separator of track 2; a month in front is put behind, none becomes 1111. */
  lemma ExpiryWritten(m: InternalMsg, net: seq<byte>)
    requires |net| == 8
    ensures var x := Atoi(CStr(Fixed(if m.track2 == [] then [] else m.track2[1..], 4)));
            && (x <= 0 ==> Written(14, m, net) == [0x11, 0x11])
            && (0 < x < 1300 ==> Written(14, m, net) == [Two(x % 100), Two(x / 100)])
            && (1300 <= x < 10_000 ==> Written(14, m, net) == [Two(x / 100), Two(x)])
  {
    hide NumBytes, Atoi, CStr, Fixed, Two;
    var x := Expiry(m);
    if x <= 0 {
      FourDigitBytes(1111);
      Elevens();
    } else if x < 10_000 {
      Swapped(x);
      FourDigitBytes(ExpiryOut(x));
    }
  }

  /** The shorts: the leading digits of the int that starts there. */
  lemma ShortsOut(m: InternalMsg, net: seq<byte>)
    requires |net| == 8
    ensures Written(18, m, net) == NumBytes(Leading(m.merchantType % 65536 + 65536 * (m.acqCountry % 65536), 4), 4)
    ensures Written(19, m, net) == NumBytes(Leading(m.acqCountry % 65536 + 65536 * (m.cardSeqno % 65536), 4), 4)
    ensures Written(22, m, net) == NumBytes(Leading(m.posEntry % 65536 + 65536 * (m.posCondition % 65536), 4), 4)
    ensures Written(23, m, net) == NumBytes(Leading(m.cardSeqno % 65536, 4), 4)
    ensures Written(25, m, net) == NumBytes(Leading(m.posCondition % 65536 + 65536 * m.posPinCap as int, 2), 2)
  {
    hide NumBytes, Leading;
  }

  lemma CurrenciesOut(m: InternalMsg, net: seq<byte>)
    requires |net| == 8
    ensures Written(49, m, net) == NumBytes(Leading(m.acqCurrency % 65536, 3), 3)
    ensures Written(51, m, net) == NumBytes(Leading(m.issCurrency % 65536 + 65536 * (m.issConvDate % 65536), 3), 3)
  {
    hide NumBytes, Leading;
  }

  lemma TextBehindOut(m: InternalMsg, net: seq<byte>)
    requires |net| == 8
    ensures var next := CharAt(m.settlementAmount, 0) as int + 256 * CharAt(m.settlementAmount, 1) as int;
            Written(50, m, net) == NumBytes(Leading(m.settlementCode % 65536 + 65536 * next, 3), 3)
    ensures var next := CharAt(m.posGeo, 0) as int + 256 * CharAt(m.posGeo, 1) as int;
            Written(60, m, net) == [2] + NumBytes(Leading(m.posCap % 65536 + 65536 * next, 2), 2)
  {
    hide NumBytes, Leading;
  }

  /** Those digits, two a byte; of three the first has a byte of its own. */
  lemma LeadingBytes(x: nat)
    ensures var v := Leading(x, 4); v >= 0 && NumBytes(v, 4) == [Two(v / 100), Two(v)]
    ensures var v := Leading(x, 3); 0 <= v < 1000 && NumBytes(v, 3) == [v / 100, Two(v)]
    ensures var v := Leading(x, 2); v >= 0 && NumBytes(v, 2) == [Two(v)]
  {
    hide NumBytes, Leading, Two;
    Pow10Small();
    LeadingText(x, 4);
    LeadingText(x, 3);
    LeadingText(x, 2);
    FourDigitBytes(Leading(x, 4));
    ThreeDigitBytes(Leading(x, 3));
    TwoDigitBytes(Leading(x, 2));
  }

  // ---- out: packed and plain text ---------------------------------------------------------------

  lemma PanOut(m: InternalMsg, net: seq<byte>)
    requires |net| == 8
    ensures var t := StripLeadingZeros(m.pan); Written(2, m, net) == [|t| % 256] + Pack(t)
    ensures Written(4, m, net) == LeftPack(m.amount, 6)
    ensures Written(26, m, net) == [m.posPinCap]
  {
    hide Pack, LeftPack, StripLeadingZeros;
  }

  lemma IdsOut(m: InternalMsg, net: seq<byte>)
    requires |net| == 8
    ensures var t := StripLeadingZeros(if m.priv.haveLargeBin then m.priv.largeBin else m.acquirer);
            Written(32, m, net) == [|t| % 256] + Pack(t)
    ensures var t := StripLeadingZeros(m.originator); Written(33, m, net) == [|t| % 256] + Pack(t)
  {
    hide Pack, StripLeadingZeros;
  }

  lemma TrackOut(m: InternalMsg, net: seq<byte>)
    requires |net| == 8
    ensures Written(35, m, net) == [|m.track2| % 256] + Pack(m.track2)
    ensures Written(45, m, net) == [|CStr(m.track2)| % 256] + AtoeText(CStr(m.track2))
  {
    hide Pack, AtoeText, CStr;
  }

  lemma FixedTwice(s: Text, n: nat)
    ensures Fixed(Fixed(s, n), n) == Fixed(s, n)
  {}

  lemma TerminalOut(m: InternalMsg, net: seq<byte>)
    requires |net| == 8
    ensures Written(38, m, net) == AtoeText(Fixed(m.authnum, 6))
    ensures Written(41, m, net) == AtoeText(Fixed(m.termid, 8))
  {
    hide AtoeText, Fixed;
    FixedTwice(m.authnum, 6);
    FixedTwice(m.termid, 8);
  }

  lemma AcceptorOut(m: InternalMsg, net: seq<byte>)
    requires |net| == 8
    ensures Written(42, m, net) == AtoeText(Fixed(m.termloc, 15))
    ensures Written(43, m, net) == AtoeText(Fixed(m.acceptorname, 40))
    ensures Written(59, m, net) == [|CStr(m.posGeo)| % 256] + AtoeText(CStr(m.posGeo))
  {
    hide AtoeText, Fixed, CStr;
    FixedTwice(m.termloc, 15);
    FixedTwice(m.acceptorname, 40);
  }

  lemma {:induction false} BlanksLead(k: nat, t: Text)
    requires t == [] || !IsSpace(t[0])
    ensures LeadingSpaces(seq(k, _ => 0x20) + t) == k
  {
    var s := seq(k, _ => 0x20) + t;
    if k > 0 {
      assert s[1..] == seq(k - 1, _ => 0x20) + t;
      BlanksLead(k - 1, t);
    } else {
      assert s == t;
    }
  }

  /**
   * The reference number: its blanks in front become zeros, it ends with its digits, and blanks in front fill it up to
   * twelve characters; of a longer one the first twelve go out.
   */
  lemma RefnumOut(m: InternalMsg, net: seq<byte>, k: nat, d: Text, w: Text)
    requires |net| == 8 && AllDigits(d) && (w == [] || !IsDigit(w[0])) && (d == [] && w != [] ==> !IsSpace(w[0]))
    requires m.refnum == seq(k, _ => 0x20) + (d + w)
    ensures var z := seq(k, _ => 0x30) + d;
            Written(37, m, net) == AtoeText(if |z| >= 12 then z[..12] else seq(12 - |z|, _ => 0x20) + z)
  {
    hide AtoeText;
    BlanksLead(k, d + w);
    PrefixAppend(d, w);
    DigitPrefixAll(d);
    assert m.refnum[k..] == d + w;
    assert RefnumKept(m.refnum) == seq(k, _ => 0x30) + d;
  }

  lemma BinaryOut(m: InternalMsg, net: seq<byte>)
    requires |net| == 8 && |m.pin| == 16 && AllHex(m.pin) && |m.mac| == 16 && AllHex(m.mac)
    ensures Written(52, m, net) == ToBinary(m.pin) && |ToBinary(m.pin)| == 8
    ensures Written(64, m, net) == ToBinary(m.mac) && |ToBinary(m.mac)| == 8
  {
    hide ToBinary;
  }

  // ---- out: fields that carry no value both ways ------------------------------------------------

  lemma AmountsOut(m: InternalMsg, net: seq<byte>)
    requires |net| == 8
    ensures Written(5, m, net) == LeftPack(m.settlementAmount, 6)
    ensures Written(6, m, net) == LeftPack(m.amountEquiv, 6)
    ensures Written(61, m, net) == [12] + LeftPack(m.cashBack, 6)
    ensures Written(39, m, net) == AtoeText(Padded(m.respcode, 2))
    ensures Written(53, m, net) == [0x20, 1, 1, 1, 0, 0, 0, 0]
  {
    hide LeftPack, AtoeText, Padded;
    assert Zeros(4) == [0, 0, 0, 0];
  }

  lemma GapsOut(f: nat, m: InternalMsg, net: seq<byte>)
    requires |net| == 8 && 1 <= f <= 64 && !Carried(f) && f !in {5, 6, 39, 44, 48, 53, 61, 62, 63}
    ensures var n := if f in {9, 10} then 8 else if f in {20, 21} then 2 else if f == 28 then 9 else 0;
            Written(f, m, net) == Zeros(n)
  {}

  /** Field 48, part by part. C: three amounts; D: the ledger balance alone; otherwise both balances. */
  lemma PrivateOut(m: InternalMsg, net: seq<byte>)
    requires |net| == 8
    ensures var w, kind := Written(48, m, net), CharAt(m.acceptorname, 4);
            var aval, ledger, due := AtoeText(Fixed(m.avalBalance, 12)), AtoeText(Fixed(m.ledgerBalance, 12)),
                                     AtoeText(Padded(m.settlementDate, 6));
            var fee, time := AtoeText(Fixed(m.fee, 6)), AtoeText(Fixed(m.dthUpd, 12));
            && (kind == 0x43 ==>
                  w == [60] + aval + ledger + AtoeText(Fixed(m.settlementAmount, 12)) + due + fee + time)
            && (kind == 0x44 ==> w == [36] + ledger + due + fee + time)
            && (kind !in {0x43, 0x44} ==> w == [36] + aval + ledger + due + fee + time)
  {
    hide AtoeText, Padded, Fixed;
  }

  /** Field 62: a length, eight bytes that are zero, and the parts of the three indicator bits. */
  lemma PaymentOut(m: InternalMsg, net: seq<byte>)
    requires |net| == 8
    ensures var x := m.priv.bitmp621;
            Written(62, m, net)
            == [m.priv.length62, 0, 0, 0, 0, 0, 0, 0, 0]
               + (if x / 128 % 2 == 1 then AtoeText([m.posPinCap]) else [])
               + (if x / 64 % 2 == 1 then NumBytes(m.storeid, 7) + NumBytes(m.lane, 8) else [])
               + (if x / 32 % 2 == 1 then AtoeText(Fixed(m.priv.validationCode, 4)) else [])
  {
    hide AtoeText, NumBytes, Bit;
    ByteBits(m.priv.bitmp621);
    assert Zeros(8) == [0, 0, 0, 0, 0, 0, 0, 0];
    assert Fixed([m.posPinCap], 1) == [m.posPinCap];
  }

  lemma NetworkCodesAre(x: byte, m: InternalMsg)
    ensures NetworkCodes(NetMapOf(x), m)
            == (if x / 128 % 2 == 1 then NumBytes(Quot(m.lifeCycle, 3600), 4) else [])
               + (if x / 64 % 2 == 1 then NumBytes(m.revcode, 4) else [])
               + (if x / 32 % 2 == 1 then NumBytes(m.revcode, 4) else [])
               + (if x / 16 % 2 == 1 then NumBytes(m.serial2, 6) else [])
  {
    hide NumBytes, NetMapOf, Quot;
    NetworkBits(x);
  }

  lemma NetworkGapsAre(x: byte, m: InternalMsg)
    ensures NetworkGaps(NetMapOf(x), m)
            == (if x / 8 % 2 == 1 then Zeros(7) else [])
               + (if x / 4 % 2 == 1 then [m.serial1 % 16] + Zeros(7) else [])
               + (if x / 2 % 2 == 1 then Zeros(4) else []) + (if x % 2 == 1 then Zeros(12) else [])
  {
    hide NetMapOf, Zeros;
    NetworkBits(x);
  }

  /** Field 63: its length, three bytes of its map, and what the first of them calls for. */
  lemma NetworkOut(m: InternalMsg, net: seq<byte>)
    requires |net| == 8
    ensures Written(63, m, net)
            == [PartsOf(net[0]).end, net[0], net[1], net[2]]
               + (NetworkCodes(NetMapOf(net[0]), m) + NetworkGaps(NetMapOf(net[0]), m))
  {
    hide NetworkCodes, NetworkGaps, NetMapOf, NetworkLength, Put, WireValue, PaymentBody, PrivateBody, LeftPack;
    hide AtoeText, Padded, ShapeOf;
    PartsLengths(net[0]);
    assert PartsOf(net[0]).end < 256;
    hide PartsOf;
    assert net[..3] == [net[0], net[1], net[2]];
    var head, k := [PartsOf(net[0]).end, net[0], net[1], net[2]], NetMapOf(net[0]);
    assert [PartsOf(net[0]).end] + net[..3] == head;
    assert (4 + NetworkLength(k)) % 256 == PartsOf(net[0]).end;
    assert Written(63, m, net) == head + NetworkBody(k, m);
  }
}
