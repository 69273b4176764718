/**
 * externToCardCo (v_tocardco.c) on the input buffer: formatIn, the conversions in place and the loop over the
 * fields, proved against Wire.ReadField and Codec.Decoded. Where the C code would leave its data or its arrays
 * the methods stop with Outside.
 */
module Decoder {
  import opened Memory
  import opened Digits
  import opened Conversions
  import opened Ebcdic
  import opened Zoned
  import opened Money
  import opened Bitmaps
  import opened Message
  import opened Shapes
  import opened Layout
  import opened Wire
  import opened Codec

  /** FMT_BTOI of an even count, FMT_BTOS of an odd one; of an even count the two read alike. */
  method NumberIn(buf: array<byte>, at: nat, len: nat) returns (r: Reading)
    requires at <= buf.Length
    ensures r == GetNumber(buf[at..], len)
  {
    if buf.Length - at < (len + 1) / 2 {
      r := Nowhere;
    } else if len % 2 == 0 {
      var v := BtoiScan(buf, at, len);
      r := Got(Num(v), len / 2);
    } else {
      var text, n := Bcdtochar(buf, at, len);
      r := Got(Num(Atoi(text)), n);
    }
  }

  /** The two FMT_BTOI of field 7. */
  method PairIn(buf: array<byte>, at: nat, h1: nat, h2: nat) returns (r: Reading)
    requires at <= buf.Length
    ensures r == GetPair(buf[at..], h1, h2)
  {
    hide Btoi;
    if buf.Length - at < h1 + h2 {
      r := Nowhere;
    } else {
      var v := BtoiScan(buf, at, 2 * h1);
      var w := BtoiScan(buf, at + h1, 2 * h2);
      assert buf[at..][h1..] == buf[at + h1..];
      r := Got(FieldValue(v, w, []), h1 + h2);
    }
  }

  /** A length byte, then FMT_BTOC into an array of cap characters. */
  method VarBcdIn(buf: array<byte>, at: nat, cap: nat) returns (r: Reading)
    requires at <= buf.Length
    ensures r == GetVarBcd(buf[at..], cap)
  {
    if buf.Length - at < 1 { return Nowhere; }
    var fieldlen: nat := buf[at];
    if fieldlen > cap || buf.Length - at < 1 + (fieldlen + 1) / 2 { return Nowhere; }
    var text, n := Bcdtochar(buf, at + 1, fieldlen);
    assert buf[at..][1..] == buf[at + 1..];
    r := Got(Txt(text), 1 + n);
  }

  /** etoa in place, then FMT_CHAR. */
  method TextIn(buf: array<byte>, at: nat, len: nat) returns (r: Reading)
    requires at <= buf.Length
    modifies buf
    ensures r == GetText(old(buf[at..]), len)
    ensures forall k :: 0 <= k < buf.Length && !(at <= k < at + len) ==> buf[k] == old(buf[k])
  {
    if buf.Length - at < len { return Nowhere; }
    ghost var was := buf[at..at + len];
    assert buf[at..][..len] == was;
    var ok := Etoa(buf, at, len);
    if !ok { return Nowhere; }
    assert buf[at..at + len] == EtoaText(was);
    r := Got(Txt(buf[at..at + len]), len);
  }

  /** A length byte, then etoa and FMT_CHAR into an array of cap characters. */
  method VarTextIn(buf: array<byte>, at: nat, cap: nat) returns (r: Reading)
    requires at <= buf.Length
    modifies buf
    ensures r == GetVarText(old(buf[at..]), cap)
    ensures r.Got? ==> forall k :: 0 <= k < buf.Length && !(at <= k < at + r.n) ==> buf[k] == old(buf[k])
  {
    if buf.Length - at < 1 { return Nowhere; }
    var fieldlen: nat := buf[at];
    if fieldlen > cap { return Nowhere; }
    assert buf[at..][1..] == buf[at + 1..];
    r := TextIn(buf, at + 1, fieldlen);
    if r.Got? { r := Got(r.c, 1 + r.n); }
  }

  /** FMT_BINARY. */
  method HexIn(buf: array<byte>, at: nat) returns (r: Reading)
    requires at <= buf.Length
    ensures r == if buf.Length - at < 8 then Nowhere else Got(Txt(ToZoned(buf[at..][..8])), 8)
  {
    if buf.Length - at < 8 { return Nowhere; }
    var text := ToZonedScan(buf, at, 16);
    assert buf[at..at + 8] == buf[at..][..8];
    r := Got(Txt(text), 8);
  }

  /** formatIn for a carried field. */
  method ShapeIn(buf: array<byte>, at: nat, sh: Shape) returns (r: Reading)
    requires at <= buf.Length
    modifies buf
    ensures r == Get(sh, old(buf[at..]))
    ensures r.Got? ==> forall k :: 0 <= k < buf.Length && !(at <= k < at + r.n) ==> buf[k] == old(buf[k])
  {
    match sh {
      case Number(len) => r := NumberIn(buf, at, len);
      case Stamp => r := PairIn(buf, at, 2, 3);
      case Amount =>
        if buf.Length - at < 6 { return Nowhere; }
        var text, n := Bcdtochar(buf, at, 12);
        r := Got(Txt(text), n);
      case VarBcd(cap) => r := VarBcdIn(buf, at, cap);
      case Text8(len) => r := TextIn(buf, at, len);
      case VarText(cap) => r := VarTextIn(buf, at, cap);
      case Raw => r := if buf.Length - at < 1 then Nowhere else Got(Num(buf[at]), 1);
      case Hex => r := HexIn(buf, at);
      case Tagged =>
        if buf.Length - at < 2 { return Nowhere; }
        var text, n := Bcdtochar(buf, at + 1, 2);
        assert buf[at..][1..] == buf[at + 1..];
        r := Got(Num(Atoi(text)), 1 + n);
    }
  }

  // ---- the fields that carry no value -----------------------------------------------------------

  /** FMT_BTOM: the nibbles as characters, then the point. */
  method MoneyFrom(buf: array<byte>, at: nat, n: nat) returns (text: Text)
    requires n >= 2 && at + (n + 1) / 2 <= buf.Length
    ensures text == MoneyIn(buf[at..], n)
  {
    var p := new byte[n + 2];
    var i := 0;
    while i < n
      modifies p
      invariant 0 <= i <= n
      invariant forall k :: 0 <= k < i ==> p[k] == NibbleChar(buf[at..], k)
    {
      var ind, posIn := i / 2, i % 2;
      p[i] := if posIn == 0 then buf[at + ind] / 16 + 0x30 else buf[at + ind] % 16 + 0x30;
      i := i + 1;
    }
    assert p[..n] == NibbleText(buf[at..], n);
    var len := InsertPoint(p, n);
    text := p[..len];
  }

  /** FMT_CTOM on twelve characters. */
  method MoneyFromText(buf: array<byte>, at: nat) returns (text: Text)
    requires at + 12 <= buf.Length
    ensures text == CStr(MoneyText(buf[at..at + 12]))
  {
    var p := new byte[14];
    Copy(p, 0, buf[at..at + 12]);
    assert p[..12] == buf[at..at + 12];
    var len := InsertPoint(p, 12);
    text := CStr(p[..len]);
  }

  /** Field 54 once its characters are converted: `t` is what follows the length byte. */
  method BalancesFrom(m: InternalMsg, buf: array<byte>, at: nat, both: bool, ghost t: seq<byte>)
    returns (r: InternalMsg)
    requires at + (if both then 42 else 21) <= buf.Length && t == buf[at..]
    ensures r == BalancesOf(m, both, t)
  {
    hide CStr, MoneyText;
    var aval := MoneyFromText(buf, at + 9);
    assert buf[at + 9..at + 21] == t[9..21];
    r := m.(avalBalance := aval);
    if both {
      var cash := MoneyFromText(buf, at + 30);
      assert buf[at + 30..at + 42] == t[30..42];
      r := r.(cashBack := cash);
    }
  }

  /** Field 54. */
  method BalancesIn(m: InternalMsg, buf: array<byte>, at: nat) returns (r: Step)
    requires at <= buf.Length
    modifies buf
    ensures r == ReadBalances(m, old(buf[at..]))
    ensures r.Done? ==> forall k :: 0 <= k < buf.Length && !(at <= k < at + r.n) ==> buf[k] == old(buf[k])
  {
    hide BalancesOf, Plain, EtoaText;
    if buf.Length - at < 1 { return Outside; }
    var fieldlen: nat := buf[at];
    var taken := if fieldlen > 21 then 43 else 22;
    if fieldlen > 42 || buf.Length - at < taken { return Outside; }
    ghost var b := buf[at..];
    assert b[1..1 + fieldlen] == buf[at + 1..at + 1 + fieldlen];
    var ok := Etoa(buf, at + 1, fieldlen);
    if !ok { return Outside; }
    ghost var t := EtoaText(b[1..1 + fieldlen]) + b[1 + fieldlen..];
    assert buf[at + 1..] == t;
    var m1 := BalancesFrom(m, buf, at + 1, fieldlen > 21, t);
    r := Done(m1, taken);
  }

  lemma DropTwice(s: seq<byte>, a: nat, b: nat)
    requires a + b <= |s|
    ensures s[a..][b..] == s[a + b..]
  {}

  /** FMT_BTOI of a few digits, `o` bytes on, when the bit of field 63 calls for it. */
  method CodeIn(buf: array<byte>, at: nat, ghost b: seq<byte>, o: nat, c: bool, digits: nat, h: nat)
    returns (v: int, o1: nat)
    requires at <= buf.Length && b == buf[at..] && digits == 2 * h && (c ==> o + h <= |b|)
    ensures o1 == Past(c, o, h)
    ensures v == CodeAt(c, b, o, digits)
  {
    hide Btoi;
    v, o1 := 0, Past(c, o, h);
    if c {
      v := BtoiScan(buf, at + o, digits);
      DropTwice(buf[..], at, o);
    }
  }

  method CodesIn(k: NetMap, buf: array<byte>, at: nat, ghost b: seq<byte>) returns (c: NetCodes, o: nat)
    requires at <= buf.Length && b == buf[at..] && |b| >= CodesLength(k)
    ensures c == CodesOf(k, b) && o == CodesLength(k)
  {
    hide Btoi;
    var serial, o1 := CodeIn(buf, at, b, 0, k.b0, 4, 2);
    var cycle, o2 := CodeIn(buf, at, b, o1, k.b1, 4, 2);
    var reason, o3 := CodeIn(buf, at, b, o2, k.b2, 4, 2);
    var stip, o4 := CodeIn(buf, at, b, o3, k.b3, 4, 2);
    var second, o5 := CodeIn(buf, at, b, o4, k.b4, 6, 3);
    c, o := NetCodes(serial, cycle, reason, stip, second), o5;
  }

  /** Field 63 after its map. */
  method NetworkIn(m: InternalMsg, k: NetMap, buf: array<byte>, at: nat) returns (r: InternalMsg)
    requires at + NetworkLength(k) <= buf.Length
    ensures r == ReadNetwork(k, m, buf[at..])
  {
    ghost var b := buf[at..];
    var c, o5 := CodesIn(k, buf, at, b);
    var o6 := Past(k.b5, o5, 7);
    var low := 0;
    if k.b6 {
      low := buf[at + o6];
      assert low == b[o6];
    }
    r := NetworkStored(k, m, c, low);
  }

  /** Stepping over n bytes. */
  method SkipIn(m: InternalMsg, buf: array<byte>, at: nat, n: nat) returns (r: Step)
    requires at <= buf.Length
    ensures r == Skipped(m, n, buf[at..])
  {
    r := if buf.Length - at < n then Outside else Done(m, n);
  }

  /** A length byte and as many bytes again. */
  method SkipVarIn(m: InternalMsg, buf: array<byte>, at: nat) returns (r: Step)
    requires at <= buf.Length
    ensures r == if buf.Length - at < 1 then Outside else Skipped(m, 1 + buf[at] as int, buf[at..])
  {
    if buf.Length - at < 1 { return Outside; }
    var fieldlen: nat := buf[at];
    r := SkipIn(m, buf, at, 1 + fieldlen);
  }

  /** Field 61, in its form for a single currency. */
  method CashBackIn(m: InternalMsg, buf: array<byte>, at: nat) returns (r: Step)
    requires at <= buf.Length
    ensures r == ReadCashBack(m, buf[at..])
  {
    if buf.Length - at < 7 { return Outside; }
    var fieldlen: nat := buf[at];
    assert buf[at..][1..] == buf[at + 1..];
    var cash := MoneyFrom(buf, at + 1, 12);
    var more := if fieldlen > 12 then (fieldlen - 12) / 2 else 0;
    r := SkipIn(m.(cashBack := cash), buf, at, 7 + more);
  }

  /** Field 63. */
  method NetworkFieldIn(m: InternalMsg, buf: array<byte>, at: nat) returns (r: Step)
    requires at <= buf.Length
    ensures r == ReadNetworkField(m, buf[at..])
  {
    if buf.Length - at < 4 { return Outside; }
    var k := NetMapOf(buf[at + 1]);
    if buf.Length - at < 4 + NetworkLength(k) { return Outside; }
    assert buf[at..][1..3] == buf[at + 1..at + 3] && buf[at..][4..] == buf[at + 4..];
    var m1 := NetworkIn(m.(priv := m.priv.(netId := buf[at + 1..at + 3])), k, buf, at + 4);
    r := Done(m1, 4 + NetworkLength(k));
  }

  /** The fields read without touching the buffer. */
  method StillIn(f: nat, m: InternalMsg, buf: array<byte>, at: nat) returns (r: Step)
    requires 1 <= f <= 64 && !Carried(f) && f !in {39, 44, 54} && at <= buf.Length
    ensures r == ReadPassive(f, m, Env(0, 0), buf[at..])
  {
    match f {
      case 1 => r := SkipIn(m, buf, at, 8);
      case 5 =>
        if buf.Length - at < 6 { return Outside; }
        var text := MoneyFrom(buf, at, 12);
        r := Done(m.(settlementAmount := text), 6);
      case 6 =>
        if buf.Length - at < 6 { return Outside; }
        var text := MoneyFrom(buf, at, 12);
        r := Done(m.(amountEquiv := text), 6);
      case 9 => r := SkipIn(m, buf, at, 4);
      case 10 => r := SkipIn(m, buf, at, 4);
      case 20 => r := SkipIn(m, buf, at, 2);
      case 21 => r := SkipIn(m, buf, at, 2);
      case 28 => r := SkipIn(m, buf, at, 9);
      case 34 => r := SkipVarIn(m, buf, at);
      case 40 => r := SkipIn(m, buf, at, 3);
      case 48 => r := SkipVarIn(m, buf, at);
      case 53 =>
        if buf.Length - at < 8 { return Outside; }
        assert buf[at..][1..3] == buf[at + 1..at + 3];
        r := Done(m.(formatCode := buf[at], pinAlgo := buf[at + 1..at + 3], pinIndex := buf[at + 3]), 8);
      case 61 => r := CashBackIn(m, buf, at);
      case 62 =>
        if buf.Length - at < 9 { return Outside; }
        r := Done(PaymentNoted(m, buf[at]), 9);
      case 63 => r := NetworkFieldIn(m, buf, at);
      case _ => r := Done(m, 0);
    }
  }

  lemma StillIgnoresEnv(f: nat, m: InternalMsg, env: Env, b: seq<byte>)
    requires 1 <= f <= 64 && !Carried(f) && f != 39
    ensures ReadPassive(f, m, env, b) == ReadPassive(f, m, Env(0, 0), b)
  {}

  method PassiveIn(f: nat, m: InternalMsg, buf: array<byte>, at: nat, env: Env) returns (r: Step)
    requires 1 <= f <= 64 && !Carried(f) && at <= buf.Length
    modifies buf
    ensures r == ReadPassive(f, m, env, old(buf[at..]))
    ensures r.Done? ==> forall k :: 0 <= k < buf.Length && !(at <= k < at + r.n) ==> buf[k] == old(buf[k])
  {
    if f == 39 {
      var c := TextIn(buf, at, 2);
      r := if c.Got? then Done(m.(respcode := env.junk), 2) else Outside;
    } else if f == 44 {
      var c := VarTextIn(buf, at, 25);
      r := if c.Got? then Done(m.(addresponse := c.c.text), c.n) else Outside;
    } else if f == 54 {
      r := BalancesIn(m, buf, at);
    } else {
      StillIgnoresEnv(f, m, env, buf[at..]);
      r := StillIn(f, m, buf, at);
    }
  }

  /** One turn of the switch. */
  method FieldIn(f: nat, m: InternalMsg, bm: Bitmap, buf: array<byte>, at: nat, env: Env) returns (r: Step)
    requires 1 <= f <= 64 && |bm| == 8 && at <= buf.Length
    modifies buf
    ensures r == ReadField(f, m, bm, env, old(buf[at..]))
    ensures r.Done? ==> forall k :: 0 <= k < buf.Length && !(at <= k < at + r.n) ==> buf[k] == old(buf[k])
  {
    if Carried(f) {
      var c := ShapeIn(buf, at, ShapeOf(f));
      if c.Nowhere? { return Outside; }
      match Store(f, c.c, m, bm, env) {
        case None => r := Rejected;
        case Some(m1) => r := Done(m1, c.n);
      }
    } else {
      r := PassiveIn(f, m, buf, at, env);
    }
  }

  // ---- the loop over the fields -----------------------------------------------------------------

  /** The outcome of decoding, when n bytes were taken before. */
  function After(n: nat, s: Step): Step
  {
    match s case Done(m, k) => Done(m, n + k) case _ => s
  }

  lemma AfterTwice(n: nat, k: nat, s: Step)
    ensures After(n, After(k, s)) == After(n + k, s)
  {}

  /** One turn of the loop in the terms of Decoded. */
  lemma Turn(f: nat, bm: Bitmap, m: InternalMsg, env: Env, b: seq<byte>)
    requires 1 <= f <= 64 && |bm| == 8 && IsSet(bm, f)
    ensures var r := ReadField(f, m, bm, env, b);
            var d := Decoded(f, bm, m, env, b);
            if r.Done? && r.n <= |b| then d == After(r.n, Decoded(f + 1, bm, Noted(r.m, bm), env, b[r.n..]))
            else if r.Rejected? then d.Rejected?
            else d.Outside?
  {}

  lemma PastTheEnd(bm: Bitmap, m: InternalMsg, env: Env, b: seq<byte>)
    requires |bm| == 8
    ensures Decoded(65, bm, m, env, b) == if IsSet(bm, 1) then Outside else Done(m, 0)
  {}

  /** The map in front of the message stays as it was: conversions in place happen behind it. */
  lemma MapKept(buf: array<byte>, bm: Bitmap, mapAt: nat, bit: nat)
    requires mapAt + 8 <= buf.Length && buf[mapAt..mapAt + 8] == bm && 1 <= bit <= 64
    ensures Bit(buf[mapAt + ByteOf(bit)], PositionOf(bit)) == IsSet(bm, bit)
  {
    assert buf[mapAt + ByteOf(bit)] == buf[mapAt..mapAt + 8][ByteOf(bit)];
  }

  /** One field of the loop, when it is there. */
  method OneField(f: nat, m: InternalMsg, bm: Bitmap, buf: array<byte>, mapAt: nat, at: nat, env: Env) returns (r: Step)
    requires 1 <= f <= 64 && |bm| == 8 && mapAt + 8 <= at <= buf.Length && buf[mapAt..mapAt + 8] == bm
    modifies buf
    ensures r == ReadField(f, m, bm, env, old(buf[at..]))
    ensures r.Done? && at + r.n <= buf.Length ==>
              buf[mapAt..mapAt + 8] == bm && buf[at + r.n..] == old(buf[at..])[r.n..]
  {
    hide ReadField;
    r := FieldIn(f, m, bm, buf, at, env);
    if r.Done? && at + r.n <= buf.Length {
      DropTwice(old(buf[..]), at, r.n);
    }
  }

  /** One turn of the loop: the record and the bytes taken, or the way it ends the run. */
  method OneTurn(f: nat, m: InternalMsg, bm: Bitmap, buf: array<byte>, mapAt: nat, at: nat, env: Env) returns (r: Step)
    requires 1 <= f <= 64 && |bm| == 8 && mapAt + 8 <= at <= buf.Length && buf[mapAt..mapAt + 8] == bm
    modifies buf
    ensures r.Done? ==> at + r.n <= buf.Length && buf[mapAt..mapAt + 8] == bm
    ensures r.Done? ==>
              Decoded(f, bm, m, env, old(buf[at..])) == After(r.n, Decoded(f + 1, bm, r.m, env, buf[at + r.n..]))
    ensures !r.Done? ==> Decoded(f, bm, m, env, old(buf[at..])) == r
  {
    hide ReadField;
    MapKept(buf, bm, mapAt, f);
    var there := IsBitSet(buf, mapAt, f);
    if !there { return Done(m, 0); }
    Turn(f, bm, m, env, buf[at..]);
    r := OneField(f, m, bm, buf, mapAt, at, env);
    if r.Done? {
      r := if at + r.n > buf.Length then Outside else Done(Noted(r.m, bm), r.n);
    }
  }

  /**
   * The loop of externToCardCo over a primary map that lies in the buffer ahead of the message. Past field 64 it
   * goes on looking at the bits that follow, and leaves at the first one that is set.
   */
  method GetFields(m0: InternalMsg, buf: array<byte>, mapAt: nat, at: nat, env: Env) returns (r: Step)
    requires mapAt + 8 <= at <= buf.Length && mapAt + 16 <= buf.Length
    modifies buf
    ensures r == Decoded(1, old(buf[mapAt..mapAt + 8]), m0, env, old(buf[at..]))
  {
    hide ReadField, Decoded;
    var bm := buf[mapAt..mapAt + 8];
    ghost var b := buf[at..];
    var m, n, bitno := m0, 0, 1;
    while bitno <= 64
      invariant 1 <= bitno <= 65 && 0 <= n && at + n <= buf.Length && buf[mapAt..mapAt + 8] == bm
      invariant Decoded(1, bm, m0, env, b) == After(n, Decoded(bitno, bm, m, env, buf[at + n..]))
    {
      var step := OneTurn(bitno, m, bm, buf, mapAt, at + n, env);
      if !step.Done? { return step; }
      AfterTwice(n, step.n, Decoded(bitno + 1, bm, step.m, env, buf[at + n + step.n..]));
      m, n := step.m, n + step.n;
      bitno := bitno + 1;
    }
    PastTheEnd(bm, m, env, buf[at + n..]);
    if IsSet(bm, 1) { return Outside; }
    while bitno <= 128
      modifies {}
      invariant 65 <= bitno <= 129
    {
      var there := IsBitSet(buf, mapAt, bitno);
      if there { break; }
      bitno := bitno + 1;
    }
    r := Done(m, n);
  }
}
