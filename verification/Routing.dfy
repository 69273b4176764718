/** Which queue a request is put on, by the request alone (v_util.c and v_in.c). */
module Routing {
  import opened Memory
  import opened Digits
  import opened Ebcdic
  import opened Money
  import opened Bitmaps
  import opened Message
  import opened Shapes
  import opened Layout
  import opened Wire
  import opened Codec
  import opened Reader
  import opened Frame
  import opened Authorizer
  import opened Inbound
  import opened Switch
  import opened Fields
  import opened Echo

  // ---- what the two members hold that decide ----------------------------------------------------

  /** A field that is not in the map leaves its members as they were. */
  lemma {:induction false} DecodedAbsent(f: nat, bm: Bitmap, m: InternalMsg, env: Env, b: seq<byte>, g: nat)
    requires 1 <= f <= 65 && 1 <= g <= 64 && |bm| == 8 && Carried(g) && g !in {14, 35, 45} && !IsSet(bm, g)
    requires Decoded(f, bm, m, env, b).Done?
    ensures Member(g, Decoded(f, bm, m, env, b).m) == Member(g, m)
  {
    hide Member, Decoded, IsSet;
    DecodedKeeps(f, bm, m, env, b, g);
  }

  /** The available balance comes from field 54 alone. */
  lemma ReadKeepsBalance(f: nat, m: InternalMsg, bm: Bitmap, env: Env, b: seq<byte>)
    requires 1 <= f <= 64 && |bm| == 8 && f != 54 && ReadField(f, m, bm, env, b).Done?
    ensures ReadField(f, m, bm, env, b).m.avalBalance == m.avalBalance
  {
    if Carried(f) { hide Get; } else { PassiveKeepsBalance(f, m, env, b); }
  }

  lemma PassiveKeepsBalance(f: nat, m: InternalMsg, env: Env, b: seq<byte>)
    requires 1 <= f <= 64 && !Carried(f) && f != 54 && ReadPassive(f, m, env, b).Done?
    ensures ReadPassive(f, m, env, b).m.avalBalance == m.avalBalance
  {
    hide CodesOf, MoneyIn;
  }

  lemma {:induction false} DecodedBalance(f: nat, bm: Bitmap, m: InternalMsg, env: Env, b: seq<byte>)
    requires 1 <= f <= 65 && |bm| == 8 && (IsSet(bm, 54) ==> f > 54) && Decoded(f, bm, m, env, b).Done?
    ensures Decoded(f, bm, m, env, b).m.avalBalance == m.avalBalance
    decreases 65 - f
  {
    hide ReadField, IsSet;
    if f < 65 {
      if IsSet(bm, f) {
        var r := ReadField(f, m, bm, env, b);
        ReadKeepsBalance(f, m, bm, env, b);
        DecodedBalance(f + 1, bm, Noted(r.m, bm), env, b[r.n..]);
      } else {
        DecodedBalance(f + 1, bm, m, env, b);
      }
    }
  }

  lemma {:induction false} BalanceLands(f: nat, bm: Bitmap, m: InternalMsg, env: Env, b: seq<byte>)
    requires 1 <= f <= 54 && |bm| == 8 && IsSet(bm, 54) && Decoded(f, bm, m, env, b).Done?
    ensures var p := LookAt(54, f, bm, b);
            && BalancesThere(p)
            && Decoded(f, bm, m, env, b).m.avalBalance == CStr(MoneyText(BalanceText(p)[9..21]))
    decreases 54 - f
  {
    hide ReadField, IsSet, Steps, BalancesThere, BalanceText, MoneyText, CStr;
    if f == 54 {
      BalancesIn54(m, bm, env, b);
      assert BalancesThere(b);
      var r := ReadField(54, m, bm, env, b);
      DecodedBalance(55, bm, Noted(r.m, bm), env, b[r.n..]);
    } else if IsSet(bm, f) {
      var r := ReadField(f, m, bm, env, b);
      ReadSteps(f, m, bm, env, b);
      BalanceLands(f + 1, bm, Noted(r.m, bm), env, b[r.n..]);
    } else {
      BalanceLands(f + 1, bm, m, env, b);
    }
  }

  lemma NameLands(bm: Bitmap, m: InternalMsg, env: Env, b: seq<byte>)
    requires |bm| == 8 && Decoded(1, bm, m, env, b).Done?
    ensures var p := LookAt(43, 1, bm, b);
            if IsSet(bm, 43) then |p| >= 40 && Decoded(1, bm, m, env, b).m.acceptorname == TextOf(p, 0, 40)
            else Decoded(1, bm, m, env, b).m.acceptorname == m.acceptorname
  {
    hide Decoded, LookAt, IsSet, EtoaText;
    if IsSet(bm, 43) {
      var p := LookAt(43, 1, bm, b);
      DecodedLands(43, 1, bm, m, env, b);
      TextRead(43, 40, p);
    } else {
      DecodedAbsent(1, bm, m, env, b, 43);
    }
  }

  // ---- the two conditions -----------------------------------------------------------------------

  /** SPF= in EBCDIC is what field 43 begins with. */
  predicate Spf(bm: Bitmap, b: seq<byte>)
    requires |bm| == 8
  {
    IsSet(bm, 43) && [0xE2, 0xD7, 0xC6, 0x7E] <= LookAt(43, 1, bm, b)
  }

  /** Field 54 gives an amount of at least one unit. */
  predicate Balance(bm: Bitmap, b: seq<byte>)
    requires |bm| == 8
  {
    && IsSet(bm, 54) && BalancesThere(LookAt(54, 1, bm, b))
    && Atoi(CStr(MoneyText(BalanceText(LookAt(54, 1, bm, b))[9..21]))) > 0
  }

  lemma SpfByte(c: byte)
    ensures EtoaByte(c) == 0x53 <==> c == 0xE2
    ensures EtoaByte(c) == 0x50 <==> c == 0xD7
    ensures EtoaByte(c) == 0x46 <==> c == 0xC6
    ensures EtoaByte(c) == 0x3D <==> c == 0x7E
  {}

  lemma SpfText(p: seq<byte>)
    requires |p| >= 40
    ensures [0x53, 0x50, 0x46, 0x3D] <= TextOf(p, 0, 40) <==> [0xE2, 0xD7, 0xC6, 0x7E] <= p
  {
    var t := TextOf(p, 0, 40);
    assert t[0] == EtoaByte(p[0]) && t[1] == EtoaByte(p[1]) && t[2] == EtoaByte(p[2]) && t[3] == EtoaByte(p[3]);
    hide EtoaText, EtoaByte;
    SpfByte(p[0]);
    SpfByte(p[1]);
    SpfByte(p[2]);
    SpfByte(p[3]);
    FourFirst(t, 0x53, 0x50, 0x46, 0x3D);
    FourFirst(p, 0xE2, 0xD7, 0xC6, 0x7E);
  }

  lemma FourFirst(s: seq<byte>, a: byte, b: byte, c: byte, d: byte)
    requires |s| >= 4
    ensures [a, b, c, d] <= s <==> s[0] == a && s[1] == b && s[2] == c && s[3] == d
  {
    assert s[..4] == [s[0], s[1], s[2], s[3]];
  }

  /** A message is a payment when its acceptor name begins with SPF= or its available balance counts to more than 0. */
  lemma PayBalanceIs(m: InternalMsg)
    ensures IsPayBalance(m) <==> [0x53, 0x50, 0x46, 0x3D] <= m.acceptorname || Atoi(m.avalBalance) > 0
  {
    hide Atoi;
  }

  lemma DecodedPays(bm: Bitmap, m: InternalMsg, env: Env, b: seq<byte>)
    requires |bm| == 8 && Decoded(1, bm, m, env, b).Done? && m.acceptorname == m.avalBalance == []
    ensures IsPayBalance(Decoded(1, bm, m, env, b).m) <==> Spf(bm, b) || Balance(bm, b)
  {
    hide Decoded, LookAt, IsSet, EtoaText, BalanceText, MoneyText, Atoi, IsPayBalance, BalancesThere;
    PayBalanceIs(Decoded(1, bm, m, env, b).m);
    NameLands(bm, m, env, b);
    if IsSet(bm, 43) { SpfText(LookAt(43, 1, bm, b)); }
    if IsSet(bm, 54) { BalanceLands(1, bm, m, env, b); } else { DecodedBalance(1, bm, m, env, b); }
    NothingThere();
  }

  /** A request that is queued goes to PayBal exactly when its field 43 or its field 54 says so, and else to Auth. */
  lemma Routed(mem: seq<byte>, c: Context)
    requires Image(mem) && (Receive(mem, c).ToAuth? || Receive(mem, c).ToPayBal?)
    ensures Receive(mem, c).ToPayBal? <==> Spf(MapAt(mem), BodyAt(mem)) || Balance(MapAt(mem), BodyAt(mem))
  {
    hide Decoded, TypeAt, Kept, MapAt, BodyAt, Locate, Atoi, Spf, Balance;
    var bm, b, m0 := MapAt(mem), BodyAt(mem), StartRecord(TypeAt(mem), c);
    var m := Decoded(1, bm, m0, c.env, b).m;
    KeptOnly(m, mem, c);
    DecodedPays(bm, m0, c.env, b);
    assert IsPayBalance(Kept(m, mem, c)) == IsPayBalance(m);
  }

  /** What becomes of a message by its number: 100, 120 and 400 are queued, those that can be decoded. */
  lemma QueuedKinds(mem: seq<byte>, c: Context)
    requires Image(mem)
    ensures Receive(mem, c).ToAuth? || Receive(mem, c).ToPayBal?
            <==> TypeAt(mem) in {100, 120, 400} && !Locate(mem, 4).isreject &&
                 Decoded(1, MapAt(mem), StartRecord(TypeAt(mem), c), c.env, BodyAt(mem)).Done?
    ensures Receive(mem, c) == ToFileUpdate <==> TypeAt(mem) in {302, 312}
  {
    hide Decoded, TypeAt, Kept, MapAt, BodyAt, Locate, IsPayBalance;
  }

  lemma NothingThere()
    ensures Atoi([]) == 0
  {
    assert Value([]) == 0;
  }

  // ---- what is kept of a request ----------------------------------------------------------------

  /**
   * What FromVisa changes of a decoded record. A sale without field 10 is given the day of the year and the counter
   * for a trace number, one without field 11 the local date and time; a reversal is given its codes.
   */
  lemma KeptAs(m: InternalMsg, mem: seq<byte>, c: Context)
    requires Image(mem)
    ensures var k, sale := Kept(m, mem, c), m.msgtype in {100, 101, 120, 200, 201, 220};
            && k.trace == (if sale && !IsSet(MapAt(mem), 10) then c.yday + 1 + 1000 * c.counter else m.trace)
            && k.localDate == (if sale && !IsSet(MapAt(mem), 11) then c.localDate else m.localDate)
            && k.localTime == (if sale && !IsSet(MapAt(mem), 11) then c.localTime else m.localTime)
            && k.respcode == (if m.msgtype in {400, 401} then 6 else m.respcode)
            && k.revcode == (if m.msgtype in {400, 401, 420, 102} then 91 else m.revcode)
  {
    hide IsSet, MapAt;
  }

  /** What a request does not carry is zero or empty in its record; track 2 has three fields to come from. */
  lemma AbsentFields(w: Work, g: nat)
    requires Image(w.image) && 1 <= g <= 64 && Carried(g) && g !in {14, 35, 45}
    requires !IsSet(MapAt(w.image), g) && ReadOf(w).Done?
    ensures Member(g, ReadOf(w).m) == FieldValue(0, 0, [])
  {
    hide Decoded, MapAt, BodyAt, TypeAt, IsSet;
    DecodedAbsent(1, MapAt(w.image), StartRecord(TypeAt(w.image), w.c), w.c.env, BodyAt(w.image), g);
  }

  /** The header and the map of the request are saved with it. */
  lemma HeaderSaved(m: InternalMsg, mem: seq<byte>, c: Context)
    requires Image(mem)
    ensures var p := Kept(m, mem, c).priv;
            && p.bitmap == MapAt(mem) && p.netId == m.priv.netId && p.textFormat == mem[6]
            && p.source == mem[9..12] && p.destination == mem[12..15] && p.roundTrip == mem[15]
            && p.batch == mem[21] && p.reserved == mem[22..25] && p.userInfo == mem[25]
  {
    hide ToCardco, MapAt;
    var h := mem[4..26];
    assert h[5..8] == mem[9..12] && h[8..11] == mem[12..15] && h[18..21] == mem[22..25];
  }

  /** The counter moves by a sale without field 10, and comes round after a thousand of them. */
  lemma CounterMoves(mem: seq<byte>, c: Context)
    requires Image(mem) && ContextOk(c)
    ensures var r := Receive(mem, c);
            ContextAfter(mem, c).counter ==
              if (r.ToAuth? || r.ToPayBal?) && r.m.msgtype in {100, 101, 120, 200, 201, 220} &&
                 !IsSet(MapAt(mem), 10)
              then (if c.counter == 999 then 0 else c.counter + 1)
              else c.counter
  {
    hide Receive, IsSet, MapAt;
  }

  // ---- the amount in figures --------------------------------------------------------------------

  /** Twelve digits in characters 10 to 21 of field 54 make a balance when they denote a hundred cents or more. */
  lemma BalanceInFigures(bm: Bitmap, b: seq<byte>)
    requires |bm| == 8 && IsSet(bm, 54) && BalancesThere(LookAt(54, 1, bm, b))
    requires AllDigits(BalanceText(LookAt(54, 1, bm, b))[9..21])
    ensures Balance(bm, b) <==> Value(BalanceText(LookAt(54, 1, bm, b))[9..21]) >= 100
  {
    var p := LookAt(54, 1, bm, b);
    assert |p| >= 22;
    hide LookAt, IsSet, BalancesThere, BalanceText, Value, MoneyText, Atoi, CStr;
    UnitsCount(BalanceText(p)[9..21]);
  }

  /** Such digits in EBCDIC. */
  lemma FiguresText(p: seq<byte>)
    requires BalancesThere(p) && p[0] >= 21 && forall i :: 10 <= i < 22 ==> 0xF0 <= p[i] <= 0xF9
    ensures var d := BalanceText(p)[9..21];
            AllDigits(d) && forall i :: 0 <= i < 12 ==> d[i] == p[10 + i] - 0xC0
  {
    var d := BalanceText(p)[9..21];
    forall i | 0 <= i < 12 ensures d[i] == p[10 + i] - 0xC0 { assert d[i] == EtoaByte(p[10 + i]); }
  }

  lemma UnitsCount(d: Text)
    requires |d| >= 2 && AllDigits(d)
    ensures Atoi(CStr(MoneyText(d))) > 0 <==> Value(d) >= 100
  {
    hide MoneyText, Value, Atoi, CStr;
    var units, cents := MoneyMeaning(d);
    var t := units + [POINT] + cents;
    assert forall i :: 0 <= i < |t| ==> t[i] != 0;
    CStrWhole(t);
    AtoiUnits(units, cents);
    ValueBound(cents);
    Pow10Small();
  }

  lemma AtoiUnits(units: Text, cents: Text)
    requires AllDigits(units)
    ensures Atoi(units + [POINT] + cents) == Value(units)
  {
    hide Value;
    var t := units + [POINT] + cents;
    assert units + ([POINT] + cents) == t;
    PrefixAppend(units, [POINT] + cents);
    DigitPrefixAll(units);
    if units != [] { assert SkipSpaces(t) == t; } else { assert t[0] == POINT; }
  }
}
