/** Decimal text, packed BCD and the conversions between them (v_misc.c). */
module Digits {
  import opened Memory

  predicate IsDigit(c: byte) { 0x30 <= c <= 0x39 }

  /** isspace() in the C locale. */
  predicate IsSpace(c: byte) { c == 0x20 || 9 <= c <= 13 }

  predicate AllDigits(s: Text) { forall i :: 0 <= i < |s| ==> IsDigit(s[i]) }

  /** The sixteen characters '0'..'?' that a BCD nibble can stand for. */
  predicate AllNibbles(s: Text) { forall i :: 0 <= i < |s| ==> 0x30 <= s[i] <= 0x3F }

  function Pow10(n: nat): (r: nat)
    ensures r > 0
  {
    if n == 0 then 1 else 10 * Pow10(n - 1)
  }

  lemma Pow10Small()
    ensures Pow10(2) == 100 && Pow10(3) == 1000 && Pow10(4) == 10_000 && Pow10(6) == 1_000_000
    ensures Pow10(8) == 100_000_000
  {
    assert Pow10(4) == 100 * Pow10(2);
    assert Pow10(6) == 100 * Pow10(4);
    assert Pow10(8) == 100 * Pow10(6);
  }

  lemma {:induction false} Pow10Grows(a: nat, b: nat)
    requires a <= b
    ensures Pow10(a) <= Pow10(b)
  {
    if a < b { Pow10Grows(a, b - 1); }
  }

  /** The integer a digit string denotes. */
  function Value(s: Text): nat
    requires AllDigits(s)
  {
    if s == [] then 0 else 10 * Value(s[..|s| - 1]) + (s[|s| - 1] - 0x30)
  }

  /** The low n decimal digits of v, zero-padded. */
  function Decimal(v: nat, n: nat): (r: Text)
    ensures |r| == n && AllDigits(r)
  {
    if n == 0 then [] else Decimal(v / 10, n - 1) + [0x30 + v % 10]
  }

  /** What __itoa leaves in dest: the value zero-padded to tam, or its leading tam digits. */
  function ItoaText(v: nat, tam: nat): (r: Text)
    ensures |r| == tam && AllDigits(r)
  {
    if v < Pow10(tam) then Decimal(v, tam) else LessAfterDivision(v, tam); ItoaText(v / 10, tam)
  }

  lemma LessAfterDivision(v: nat, tam: nat)
    requires v >= Pow10(tam)
    ensures v / 10 < v
  {}

  lemma {:induction false} ValueBound(s: Text)
    requires AllDigits(s)
    ensures Value(s) < Pow10(|s|)
  {
    if s != [] { ValueBound(s[..|s| - 1]); }
  }

  lemma {:induction false} ValueDecimal(v: nat, n: nat)
    requires v < Pow10(n)
    ensures Value(Decimal(v, n)) == v
  {
    if n > 0 {
      ValueDecimal(v / 10, n - 1);
      var d := Decimal(v, n);
      assert d[..|d| - 1] == Decimal(v / 10, n - 1);
    }
  }

  lemma {:induction false} DecimalValue(s: Text)
    requires AllDigits(s)
    ensures Decimal(Value(s), |s|) == s
  {
    if s != [] {
      var t := s[..|s| - 1];
      DecimalValue(t);
      assert Value(s) / 10 == Value(t) && Value(s) % 10 == s[|s| - 1] - 0x30;
      assert s == t + [s[|s| - 1]];
    }
  }

  /** Dropping the last character of a digit string divides its value by ten. */
  lemma ValueInit(s: Text)
    requires AllDigits(s) && s != []
    ensures Value(s[..|s| - 1]) == Value(s) / 10
  {}

  /** A leading zero does not change the value. */
  lemma {:induction false} ValueLeadingZero(s: Text)
    requires AllDigits(s)
    ensures AllDigits([0x30] + s) && Value([0x30] + s) == Value(s)
  {
    var z := [0x30] + s;
    if s == [] {
      assert z[..0] == [];
    } else {
      assert z[..|z| - 1] == [0x30] + s[..|s| - 1];
      ValueLeadingZero(s[..|s| - 1]);
    }
  }

  /** How many digits v is written with. */
  function DigitCount(v: nat): (n: nat)
    ensures n >= 1
  {
    if v < 10 then 1 else 1 + DigitCount(v / 10)
  }

  /** How many digits of v do not fit n places. */
  function Overlong(v: nat, n: nat): nat { if DigitCount(v) > n then DigitCount(v) - n else 0 }

  /** The number that the first n digits of v denote; v itself when it has no more. */
  function Leading(v: nat, n: nat): int
  {
    v / Pow10(Overlong(v, n))
  }

  /** The count is the least number of digits that has room for v. */
  lemma {:induction false} DigitCountTight(v: nat)
    ensures v < Pow10(DigitCount(v)) && (v > 0 ==> Pow10(DigitCount(v) - 1) <= v)
  {
    if v >= 10 { DigitCountTight(v / 10); }
  }

  lemma RoomFor(v: nat, n: nat)
    requires n > 0 || v > 0
    ensures v < Pow10(n) <==> DigitCount(v) <= n
  {
    DigitCountTight(v);
    if DigitCount(v) <= n {
      Pow10Grows(DigitCount(v), n);
    } else if v > 0 {
      Pow10Grows(n, DigitCount(v) - 1);
    }
  }

  lemma DivideTwice(v: nat, k: nat)
    ensures v / 10 / Pow10(k) == v / Pow10(k + 1)
  {
    var p := Pow10(k);
    var q, r := v / 10 / p, v / 10 % p;
    assert v == 10 * (q * p + r) + v % 10;
    assert v == q * (10 * p) + (10 * r + v % 10) && 0 <= 10 * r + v % 10 < 10 * p;
    QuotientIs(v, 10 * p, q, 10 * r + v % 10);
  }

  lemma QuotientIs(v: nat, d: nat, q: nat, r: nat)
    requires r < d && v == q * d + r
    ensures v / d == q
  {
    SameQuotient(v / d, v % d, q, r, d);
  }

  lemma SameQuotient(q1: int, r1: int, q2: int, r2: int, d: int)
    requires 0 <= r1 < d && 0 <= r2 < d && q1 * d + r1 == q2 * d + r2
    ensures q1 == q2
  {
    if q1 < q2 { MultipleGrows(q1, q2, d); }
    if q2 < q1 { MultipleGrows(q2, q1, d); }
  }

  lemma {:induction false} MultipleGrows(a: int, b: int, d: int)
    requires a < b && d > 0
    ensures a * d + d <= b * d
    decreases b - a
  {
    assert (b - 1) * d == b * d - d;
    if a < b - 1 { MultipleGrows(a, b - 1, d); }
  }

  /** __itoa leaves the digits of the value, or as many of its leading digits as there is room for. */
  lemma {:induction false} ItoaValue(v: nat, tam: nat)
    ensures Value(ItoaText(v, tam)) == Leading(v, tam)
    ensures v < Pow10(tam) ==> Leading(v, tam) == v
  {
    DigitCountTight(v);
    if v < Pow10(tam) {
      ValueDecimal(v, tam);
      if v > 0 || tam > 0 { RoomFor(v, tam); }
    } else {
      RoomFor(v, tam);
      ItoaValue(v / 10, tam);
      if v < 10 {
        assert tam == 0;
      } else {
        DivideTwice(v, DigitCount(v / 10) - tam);
      }
    }
  }

  lemma {:induction false} Pow10Product(a: nat, b: nat)
    ensures Pow10(a + b) == Pow10(a) * Pow10(b)
  {
    if a > 0 {
      Pow10Product(a - 1, b);
      TimesTen(Pow10(a - 1), Pow10(b));
    }
  }

  lemma TimesTen(x: int, y: int)
    ensures (10 * x) * y == 10 * (x * y)
  {}

  lemma TimesGrows(a: int, b: int, d: int)
    requires a <= b && d > 0
    ensures a * d <= b * d
  {
    if a < b { MultipleGrows(a, b, d); }
  }

  /** s is v without its last digits, k of them. */
  predicate Heads(s: int, v: int, k: nat) { s * Pow10(k) <= v < (s + 1) * Pow10(k) }

  /** A quotient is known by its bounds. */
  lemma HeadsQuotient(s: int, v: nat, k: nat)
    ensures Heads(s, v, k) <==> v / Pow10(k) == s
  {
    var d := Pow10(k);
    assert v == (v / d) * d + v % d;
    assert (s + 1) * d == s * d + d;
    if Heads(s, v, k) { SameQuotient(v / d, v % d, s, v - s * d, d); }
  }

  /** A number that heads a longer one has as many digits less as were left out. */
  lemma HeadsCount(s: nat, v: nat, n: nat, k: nat)
    requires n > 0 && Pow10(n - 1) <= s < Pow10(n) && Heads(s, v, k)
    ensures DigitCount(v) == n + k
  {
    Pow10Product(n - 1, k);
    Pow10Product(n, k);
    TimesGrows(Pow10(n - 1), s, Pow10(k));
    TimesGrows(s + 1, Pow10(n), Pow10(k));
    RoomFor(v, n + k);
    if n + k > 1 { RoomFor(v, n + k - 1); }
  }

  /** The n leading digits of a longer number are s exactly when s has n digits and heads it. */
  lemma LeadingHeads(v: nat, n: nat, s: nat)
    requires n > 0 && v >= Pow10(n) && s < Pow10(n)
    ensures Leading(v, n) == s <==> Pow10(n - 1) <= s && exists k: nat :: Heads(s, v, k)
  {
    hide Heads;
    RoomFor(v, n);
    var e := Overlong(v, n);
    HeadsQuotient(s, v, e);
    if Leading(v, n) == s {
      LeadingWide(v, n);
    } else if Pow10(n - 1) <= s && exists k: nat :: Heads(s, v, k) {
      var k: nat :| Heads(s, v, k);
      HeadsCount(s, v, n, k);
    }
  }

  /** What is left of a longer number has all n digits. */
  lemma LeadingWide(v: nat, n: nat)
    requires n > 0 && v >= Pow10(n)
    ensures Pow10(n - 1) <= Leading(v, n)
  {
    RoomFor(v, n);
    DigitCountTight(v);
    var e := Overlong(v, n);
    var q := Leading(v, n);
    HeadsQuotient(q, v, e);
    Pow10Product(n - 1, e);
    if q + 1 <= Pow10(n - 1) { TimesGrows(q + 1, Pow10(n - 1), Pow10(e)); }
  }

  /** Those digits are the padded text of the number they denote. */
  lemma LeadingText(v: nat, n: nat)
    ensures 0 <= Leading(v, n) < Pow10(n) && ItoaText(Leading(v, n), n) == ItoaText(v, n)
  {
    var t := ItoaText(v, n);
    ItoaValue(v, n);
    ValueBound(t);
    DecimalValue(t);
  }

  /** The string without its leading zeros. */
  function StripLeadingZeros(s: Text): (r: Text)
    ensures |r| <= |s| && (r != [] ==> r[0] != 0x30)
    ensures s == [] || s[0] != 0x30 ==> r == s
  {
    if s != [] && s[0] == 0x30 then StripLeadingZeros(s[1..]) else s
  }

  // ---- atoi -------------------------------------------------------------------------------------

  function DigitPrefix(s: Text): (r: Text)
    ensures AllDigits(r) && r <= s
    ensures |r| < |s| ==> !IsDigit(s[|r|])
  {
    if s == [] || !IsDigit(s[0]) then [] else [s[0]] + DigitPrefix(s[1..])
  }

  function SkipSpaces(s: Text): (r: Text)
    ensures |r| <= |s| && (r != [] ==> !IsSpace(r[0]))
  {
    if s != [] && IsSpace(s[0]) then SkipSpaces(s[1..]) else s
  }

  /** An optional sign and digits. */
  function Signed(t: Text): int
  {
    if t != [] && t[0] == 0x2D then -(Value(DigitPrefix(t[1..])) as int)
    else if t != [] && t[0] == 0x2B then Value(DigitPrefix(t[1..]))
    else Value(DigitPrefix(t))
  }

  /** atoi(s), on unbounded integers. */
  function Atoi(s: Text): int { Signed(SkipSpaces(s)) }

  lemma {:induction false} DigitPrefixAll(s: Text)
    requires AllDigits(s)
    ensures DigitPrefix(s) == s
  {
    if s != [] { DigitPrefixAll(s[1..]); }
  }

  /** What does not begin with a digit adds none. */
  lemma {:induction false} PrefixAppend(t: Text, w: Text)
    requires w == [] || !IsDigit(w[0])
    ensures DigitPrefix(t + w) == DigitPrefix(t)
  {
    if t == [] {
      assert t + w == w;
    } else if IsDigit(t[0]) {
      assert (t + w)[1..] == t[1..] + w;
      PrefixAppend(t[1..], w);
    }
  }

  lemma AtoiValue(s: Text)
    requires AllDigits(s)
    ensures Atoi(s) == Value(s)
  {
    DigitPrefixAll(s);
  }

  // ---- packed BCD -------------------------------------------------------------------------------

  /** (c - 0x30) stored in a byte. */
  function Sub30(c: byte): byte { (c + 208) % 256 }

  /** Two characters packed in one byte: ((a - 0x30) << 4) | (b - 0x30). */
  function PackByte(a: byte, b: byte): byte
  {
    OrByte(16 * (Sub30(a) % 16), Sub30(b));
    Or(16 * (Sub30(a) % 16), Sub30(b))
  }

  function PackAt(s: Text, i: nat): byte
    requires i < (|s| + 1) / 2
  {
    if |s| % 2 == 1 then
      if i == 0 then Sub30(s[0]) else PackByte(s[2 * i - 1], s[2 * i])
    else PackByte(s[2 * i], s[2 * i + 1])
  }

  /** chartobcd: an odd count leaves the first half byte empty. */
  function Pack(s: Text): (r: seq<byte>)
    ensures |r| == (|s| + 1) / 2
  {
    seq((|s| + 1) / 2, i requires 0 <= i < (|s| + 1) / 2 => PackAt(s, i))
  }

  /** The character of nibble number k of a packed buffer. */
  function NibbleChar(b: seq<byte>, k: nat): byte
    requires k / 2 < |b|
  {
    0x30 + if k % 2 == 0 then b[k / 2] / 16 else b[k / 2] % 16
  }

  function UnpackAt(b: seq<byte>, len: nat, k: nat): (c: byte)
    requires k < len && |b| >= (len + 1) / 2
    ensures 0x30 <= c <= 0x3F
  {
    NibbleChar(b, k + len % 2)
  }

  /** bcdtochar: an odd count skips the first half byte. */
  function Unpack(b: seq<byte>, len: nat): (r: Text)
    requires |b| >= (len + 1) / 2
    ensures |r| == len && AllNibbles(r)
  {
    seq(len, k requires 0 <= k < len => UnpackAt(b, len, k))
  }

  /** The text btoi builds: nibbles from the left whatever the parity. */
  function NibbleText(b: seq<byte>, len: nat): (r: Text)
    requires |b| >= (len + 1) / 2
    ensures |r| == len && AllNibbles(r)
  {
    seq(len, k requires 0 <= k < len => NibbleChar(b, k))
  }

  function Btoi(b: seq<byte>, len: nat): int
    requires |b| >= (len + 1) / 2
  {
    Atoi(NibbleText(b, len))
  }

  /** The unsigned reading of a 32-bit int. */
  function Unsigned(v: int): (u: nat)
    ensures u < 0x1_0000_0000 && (0 <= v < 0x1_0000_0000 ==> u == v)
  {
    v % 0x1_0000_0000
  }

  /** itob: the decimal text of an int, read as unsigned, packed. */
  function NumBytes(v: int, len: nat): (b: seq<byte>)
    ensures |b| == (len + 1) / 2
  {
    Pack(ItoaText(Unsigned(v), len))
  }

  lemma PackByteNibbles(a: byte, b: byte)
    requires 0x30 <= a <= 0x3F && 0x30 <= b <= 0x3F
    ensures PackByte(a, b) == 16 * (a - 0x30) + (b - 0x30)
  {
    var h, l := a - 0x30, b - 0x30;
    assert Sub30(a) == h && Sub30(b) == l && h % 16 == h;
    OrNibbles(h, l);
  }

  /** The two nibbles of a packed byte are the two characters it was made from. */
  lemma PackedNibbles(s: Text, i: nat)
    requires AllNibbles(s) && i < (|s| + 1) / 2 && (|s| % 2 == 0 || i > 0)
    ensures var k := 2 * i - |s| % 2;
            0x30 + PackAt(s, i) / 16 == s[k] && 0x30 + PackAt(s, i) % 16 == s[k + 1]
  {
    hide Or;
    var k := 2 * i - |s| % 2;
    PackByteNibbles(s[k], s[k + 1]);
  }

  lemma UnpackPackAt(s: Text, rest: seq<byte>, k: nat)
    requires AllNibbles(s) && k < |s|
    ensures UnpackAt(Pack(s) + rest, |s|, k) == s[k]
  {
    hide PackAt;
    var b := Pack(s) + rest;
    var p := k + |s| % 2;
    var i := p / 2;
    assert b[i] == PackAt(s, i);
    if |s| % 2 == 1 && i == 0 {
      FirstNibble(s);
      assert p == 1 && k == 0;
    } else {
      PackedNibbles(s, i);
      assert p == 2 * i || p == 2 * i + 1;
    }
  }

  lemma FirstNibble(s: Text)
    requires AllNibbles(s) && |s| % 2 == 1
    ensures PackAt(s, 0) == s[0] - 0x30
  {}

  /** Packing then unpacking restores every string over the sixteen nibble characters. */
  lemma UnpackPack(s: Text, rest: seq<byte>)
    requires AllNibbles(s)
    ensures Unpack(Pack(s) + rest, |s|) == s
  {
    forall k | 0 <= k < |s| ensures Unpack(Pack(s) + rest, |s|)[k] == s[k] {
      UnpackPackAt(s, rest, k);
    }
  }

  lemma NibblePair(b: seq<byte>, i: nat)
    requires i < |b|
    ensures NibbleChar(b, 2 * i) == 0x30 + b[i] / 16 && NibbleChar(b, 2 * i + 1) == 0x30 + b[i] % 16
  {}

  lemma PackUnpackAt(b: seq<byte>, len: nat, i: nat)
    requires |b| >= (len + 1) / 2 && i < (len + 1) / 2
    requires len % 2 == 1 ==> b[0] < 16
    ensures PackAt(Unpack(b, len), i) == b[i]
  {
    hide Or;
    var u := Unpack(b, len);
    NibblePair(b, i);
    if len % 2 == 1 && i == 0 {
      assert u[0] == UnpackAt(b, len, 0);
    } else {
      var k := 2 * i - len % 2;
      assert u[k] == UnpackAt(b, len, k) == NibbleChar(b, 2 * i);
      assert u[k + 1] == UnpackAt(b, len, k + 1) == NibbleChar(b, 2 * i + 1);
      PackByteNibbles(u[k], u[k + 1]);
      assert PackAt(u, i) == PackByte(u[k], u[k + 1]);
    }
  }

  /** Unpacking then packing restores the bytes; an odd count needs the unused half byte clear. */
  lemma PackUnpack(b: seq<byte>, len: nat)
    requires |b| >= (len + 1) / 2
    requires len % 2 == 1 ==> b[0] < 16
    ensures Pack(Unpack(b, len)) == b[..(len + 1) / 2]
  {
    forall i | 0 <= i < (len + 1) / 2 ensures Pack(Unpack(b, len))[i] == b[i] {
      PackUnpackAt(b, len, i);
    }
  }

  /** The first byte of an odd count holds one digit. */
  lemma OddFirst(s: Text, rest: seq<byte>)
    requires AllDigits(s) && |s| % 2 == 1
    ensures NibbleChar(Pack(s) + rest, 0) == 0x30
  {
    var b := Pack(s) + rest;
    assert b[0] == PackAt(s, 0) == Sub30(s[0]) == s[0] - 0x30;
  }

  /** btoi reads an odd count one nibble too far left: it sees a zero and loses the last digit. */
  lemma NibbleTextPackOdd(s: Text, rest: seq<byte>)
    requires AllDigits(s) && |s| % 2 == 1
    ensures NibbleText(Pack(s) + rest, |s|) == [0x30] + s[..|s| - 1]
  {
    hide Pack, NibbleChar;
    var b := Pack(s) + rest;
    UnpackPack(s, rest);
    var t := NibbleText(b, |s|);
    var u := [0x30] + s[..|s| - 1];
    forall k | 0 <= k < |s| ensures t[k] == u[k] {
      if k == 0 {
        OddFirst(s, rest);
      } else {
        assert t[k] == NibbleChar(b, k) == UnpackAt(b, |s|, k - 1) == Unpack(b, |s|)[k - 1];
      }
    }
  }

  lemma NibbleTextEven(b: seq<byte>, len: nat)
    requires |b| >= (len + 1) / 2 && len % 2 == 0
    ensures NibbleText(b, len) == Unpack(b, len)
  {
    forall k | 0 <= k < len ensures NibbleText(b, len)[k] == Unpack(b, len)[k] {
      assert Unpack(b, len)[k] == UnpackAt(b, len, k);
    }
  }

  /** itob then bcdtochar and atoi restores a number of either parity. */
  lemma UnpackItob(v: nat, len: nat, rest: seq<byte>)
    requires v < Pow10(len)
    ensures Atoi(Unpack(Pack(ItoaText(v, len)) + rest, len)) == v
  {
    var s := ItoaText(v, len);
    UnpackPack(s, rest);
    ValueDecimal(v, len);
    AtoiValue(s);
  }

  /** itob then btoi restores an even count of digits and loses the last one of an odd count. */
  lemma BtoiItob(v: nat, len: nat, rest: seq<byte>)
    requires v < Pow10(len)
    ensures Btoi(Pack(ItoaText(v, len)) + rest, len) == if len % 2 == 0 then v else v / 10
  {
    var s := ItoaText(v, len);
    if len % 2 == 0 {
      UnpackItob(v, len, rest);
      NibbleTextEven(Pack(s) + rest, len);
    } else {
      NibbleTextPackOdd(s, rest);
      ValueDecimal(v, len);
      ValueInit(s);
      ValueLeadingZero(s[..len - 1]);
      AtoiValue([0x30] + s[..len - 1]);
    }
  }

  /** The readers of an all-digit packed number give back exactly the digits that were there. */
  lemma ItobBtoi(b: seq<byte>, len: nat)
    requires |b| >= (len + 1) / 2 && len % 2 == 0
    requires AllDigits(NibbleText(b, len))
    ensures 0 <= Btoi(b, len) < Pow10(len)
    ensures Pack(ItoaText(Btoi(b, len), len)) == b[..len / 2]
  {
    var t := NibbleText(b, len);
    AtoiValue(t);
    ValueBound(t);
    DecimalValue(t);
    NibbleTextEven(b, len);
    PackUnpack(b, len);
  }

  lemma ItobUnpack(b: seq<byte>, len: nat)
    requires |b| >= (len + 1) / 2
    requires len % 2 == 1 ==> b[0] < 16
    requires AllDigits(Unpack(b, len))
    ensures 0 <= Atoi(Unpack(b, len)) < Pow10(len)
    ensures Pack(ItoaText(Atoi(Unpack(b, len)), len)) == b[..(len + 1) / 2]
  {
    var t := Unpack(b, len);
    AtoiValue(t);
    ValueBound(t);
    DecimalValue(t);
    PackUnpack(b, len);
  }
}
